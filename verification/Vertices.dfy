/** Why enumerating vertices solves a linear program: below every feasible point of a
    system whose key cannot decrease for ever lies a feasible point whose active
    constraints determine it, and n of those constraints already do. */
module Vertices {
  import opened Vectors

  /** The constraint `row . x >= bound`. */
  datatype Constraint = Constraint(row: seq<real>, bound: real)

  ghost predicate WellSized(cs: seq<Constraint>, n: nat) {
    forall i :: 0 <= i < |cs| ==> |cs[i].row| == n
  }

  ghost predicate Feasible(cs: seq<Constraint>, x: seq<real>) {
    forall i :: 0 <= i < |cs| ==> |cs[i].row| == |x| && Dot(cs[i].row, x, |x|) >= cs[i].bound
  }

  ghost function Active(cs: seq<Constraint>, x: seq<real>): (a: set<nat>)
    requires WellSized(cs, |x|)
    ensures forall i :: i in a ==> i < |cs|
  {
    set i: nat | i < |cs| && Dot(cs[i].row, x, |x|) == cs[i].bound
  }

  ghost function Rows(cs: seq<Constraint>): (r: seq<seq<real>>)
    ensures |r| == |cs|
  {
    seq(|cs|, i requires 0 <= i < |cs| => cs[i].row)
  }

  // ----- a trivial common kernel needs only n rows

  ghost predicate Orthogonal(rows: seq<seq<real>>, c: set<nat>, v: seq<real>) {
    forall i :: i in c ==> i < |rows| && |v| <= |rows[i]| && Dot(rows[i], v, |v|) == 0.0
  }

  /** Only the zero vector of length k is orthogonal to all the rows of `c`. */
  ghost predicate TrivialKernel(rows: seq<seq<real>>, c: set<nat>, k: nat) {
    forall v :: |v| == k && Orthogonal(rows, c, v) ==> IsZero(v)
  }

  ghost predicate SameSize(rows: seq<seq<real>>, n: nat) {
    forall i :: 0 <= i < |rows| ==> |rows[i]| == n
  }

  /** Every row after the last of k coordinates has been eliminated with row p. */
  ghost function Cleared(rows: seq<seq<real>>, n: nat, k: nat, p: nat): (r: seq<seq<real>>)
    requires 0 < k <= n && SameSize(rows, n) && p < |rows| && rows[p][k - 1] != 0.0
    ensures |r| == |rows| && SameSize(r, n)
  {
    seq(|rows|, i requires 0 <= i < |rows| => Minus(rows[i], rows[i][k - 1] / rows[p][k - 1], rows[p]))
  }

  lemma ClearedLast(rows: seq<seq<real>>, n: nat, k: nat, p: nat, i: nat)
    requires 0 < k <= n && SameSize(rows, n) && p < |rows| && i < |rows| && rows[p][k - 1] != 0.0
    ensures Cleared(rows, n, k, p)[i][k - 1] == 0.0
  {
    assert (rows[i][k - 1] / rows[p][k - 1]) * rows[p][k - 1] == rows[i][k - 1];
  }

  lemma ClearedRow(rows: seq<seq<real>>, n: nat, k: nat, p: nat, i: nat, v: seq<real>)
    requires 0 < k <= n && SameSize(rows, n) && p < |rows| && i < |rows| && rows[p][k - 1] != 0.0
    requires |v| == k && Dot(rows[p], v, k) == 0.0
    ensures Dot(Cleared(rows, n, k, p)[i], v[..k - 1], k - 1) == Dot(rows[i], v, k)
  {
    var r := Cleared(rows, n, k, p)[i];
    DotMinus(rows[i], rows[i][k - 1] / rows[p][k - 1], rows[p], v, k);
    ClearedLast(rows, n, k, p, i);
    DotAgree(r, v, v[..k - 1], k - 1);
  }

  /** Of rows with a trivial common kernel, k already have one. */
  lemma {:induction false} Extract(rows: seq<seq<real>>, c: set<nat>, n: nat, k: nat) returns (t: set<nat>)
    requires k <= n && SameSize(rows, n) && TrivialKernel(rows, c, k)
    requires forall i :: i in c ==> i < |rows|
    ensures t <= c && |t| == k && TrivialKernel(rows, t, k)
    decreases k
  {
    if k == 0 {
      return {};
    }
    if forall i :: i in c ==> rows[i][k - 1] == 0.0 {
      LastCoordinateFree(rows, c, n, k);
      assert false;
    } else {
      var p :| p in c && rows[p][k - 1] != 0.0;
      var rest := c - {p};
      forall w | |w| == k - 1 && Orthogonal(Cleared(rows, n, k, p), rest, w) ensures IsZero(w) {
        LiftKernel(rows, c, n, k, p, w);
      }
      var s := Extract(Cleared(rows, n, k, p), rest, n, k - 1);
      t := s + {p};
      forall v | |v| == k && Orthogonal(rows, t, v) ensures IsZero(v) {
        PivotKernel(rows, s, n, k, p, v);
      }
    }
  }

  lemma LastCoordinateFree(rows: seq<seq<real>>, c: set<nat>, n: nat, k: nat)
    requires 0 < k <= n && SameSize(rows, n)
    requires forall i :: i in c ==> i < |rows| && rows[i][k - 1] == 0.0
    ensures !TrivialKernel(rows, c, k)
  {
    var e := Unit(k, k - 1);
    forall i | i in c ensures Dot(rows[i], e, k) == 0.0 {
      DotOne(rows[i], e, k, k - 1);
    }
    assert Orthogonal(rows, c, e) && e[k - 1] == 1.0;
  }

  /** A kernel vector of the cleared rows extends to one of the original rows. */
  lemma LiftKernel(rows: seq<seq<real>>, c: set<nat>, n: nat, k: nat, p: nat, w: seq<real>)
    requires 0 < k <= n && SameSize(rows, n) && TrivialKernel(rows, c, k)
    requires p in c && (forall i :: i in c ==> i < |rows|) && rows[p][k - 1] != 0.0
    requires |w| == k - 1 && Orthogonal(Cleared(rows, n, k, p), c - {p}, w)
    ensures IsZero(w)
  {
    var last := -Dot(rows[p], w, k - 1) / rows[p][k - 1];
    var v := w + [last];
    assert v[..k - 1] == w;
    DotAgree(rows[p], v, w, k - 1);
    assert rows[p][k - 1] * last == -Dot(rows[p], w, k - 1);
    assert Dot(rows[p], v, k) == 0.0;
    forall i | i in c ensures Dot(rows[i], v, k) == 0.0 {
      ClearedRow(rows, n, k, p, i, v);
    }
    assert Orthogonal(rows, c, v);
    assert forall j :: 0 <= j < |w| ==> w[j] == v[j];
  }

  lemma PivotKernel(rows: seq<seq<real>>, s: set<nat>, n: nat, k: nat, p: nat, v: seq<real>)
    requires 0 < k <= n && SameSize(rows, n) && p < |rows| && rows[p][k - 1] != 0.0
    requires TrivialKernel(Cleared(rows, n, k, p), s, k - 1)
    requires |v| == k && Orthogonal(rows, s + {p}, v)
    ensures IsZero(v)
  {
    var w := v[..k - 1];
    assert p in s + {p};
    forall i | i in s ensures i < |rows| && Dot(Cleared(rows, n, k, p)[i], w, k - 1) == 0.0 {
      assert i in s + {p};
      ClearedRow(rows, n, k, p, i, v);
    }
    assert Orthogonal(Cleared(rows, n, k, p), s, w);
    assert forall j :: 0 <= j < k - 1 ==> v[j] == w[j];
    DotOne(rows[p], v, k, k - 1);
  }

  // ----- the lexicographic order of keys

  /** The first non-zero entry is negative. */
  ghost predicate Negative(v: seq<real>)
    decreases |v|
  {
    v != [] && (v[0] < 0.0 || (v[0] == 0.0 && Negative(v[1..])))
  }

  /** Python's order on lists of equal length. */
  predicate LexLess(a: seq<real>, b: seq<real>)
    requires |a| == |b|
    decreases |a|
  {
    a != [] && (a[0] < b[0] || (a[0] == b[0] && LexLess(a[1..], b[1..])))
  }

  predicate LexAtMost(a: seq<real>, b: seq<real>)
    requires |a| == |b|
  {
    a == b || LexLess(a, b)
  }

  lemma {:induction false} LexTransitive(a: seq<real>, b: seq<real>, c: seq<real>)
    requires |a| == |b| == |c| && LexAtMost(a, b) && LexAtMost(b, c)
    ensures LexAtMost(a, c)
    ensures LexLess(a, b) || LexLess(b, c) ==> LexLess(a, c)
    decreases |a|
  {
    if a != b && b != c && a[0] == b[0] == c[0] {
      LexTransitive(a[1..], b[1..], c[1..]);
    }
  }

  lemma {:induction false} LexTotal(a: seq<real>, b: seq<real>)
    requires |a| == |b|
    ensures LexLess(a, b) || a == b || LexLess(b, a)
    ensures !(LexLess(a, b) && LexAtMost(b, a))
    decreases |a|
  {
    if a != [] {
      LexTotal(a[1..], b[1..]);
      assert a == [a[0]] + a[1..] && b == [b[0]] + b[1..];
    }
  }

  lemma MoveTail(v: seq<real>, t: real, d: seq<real>)
    requires |v| == |d| && v != []
    ensures Move(v, t, d)[1..] == Move(v[1..], t, d[1..])
  {
    forall j | 0 <= j < |v| - 1 ensures Move(v, t, d)[1..][j] == Move(v[1..], t, d[1..])[j] {
      assert v[1..][j] == v[j + 1] && d[1..][j] == d[j + 1];
    }
  }

  lemma {:induction false} MoveIsLess(v: seq<real>, t: real, d: seq<real>)
    requires |v| == |d| && t > 0.0 && Negative(d)
    ensures LexLess(Move(v, t, d), v)
    decreases |v|
  {
    var w := Move(v, t, d);
    if d[0] < 0.0 {
      assert t * d[0] < 0.0;
    } else {
      MoveIsLess(v[1..], t, d[1..]);
      MoveTail(v, t, d);
    }
  }

  lemma {:induction false} NonZeroHasSign(v: seq<real>)
    requires !IsZero(v)
    ensures Negative(v) || Negative(Move(Zeros(|v|), -1.0, v))
    decreases |v|
  {
    var m := Move(Zeros(|v|), -1.0, v);
    if v[0] == 0.0 {
      assert !IsZero(v[1..]) by {
        var j :| 0 <= j < |v| && v[j] != 0.0;
        assert v[1..][j - 1] != 0.0;
      }
      NonZeroHasSign(v[1..]);
      MoveTail(Zeros(|v|), -1.0, v);
      assert Zeros(|v|)[1..] == Zeros(|v| - 1);
    }
  }

  lemma {:induction false} NegativeEntry(v: seq<real>)
    requires Negative(v)
    ensures exists j :: 0 <= j < |v| && v[j] < 0.0
    decreases |v|
  {
    if v[0] >= 0.0 {
      NegativeEntry(v[1..]);
      var j :| 0 <= j < |v| - 1 && v[1..][j] < 0.0;
      assert v[j + 1] < 0.0;
    }
  }

  // ----- descending to a vertex

  /** The values of the key rows at x; keys are compared lexicographically. */
  function Key(keys: seq<seq<real>>, x: seq<real>): (k: seq<real>)
    requires SameSize(keys, |x|)
    ensures |k| == |keys|
  {
    seq(|keys|, j requires 0 <= j < |keys| => Dot(keys[j], x, |x|))
  }

  /** Only the zero direction leaves the key unchanged. */
  ghost predicate Faithful(keys: seq<seq<real>>, n: nat) {
    SameSize(keys, n) && forall d :: |d| == n && IsZero(Key(keys, d)) ==> IsZero(d)
  }

  /** Every direction that lowers the key runs against some constraint. */
  ghost predicate Blocked(cs: seq<Constraint>, keys: seq<seq<real>>, n: nat) {
    && WellSized(cs, n) && SameSize(keys, n)
    && forall d :: |d| == n && Negative(Key(keys, d)) ==> Against(cs, d)
  }

  ghost predicate Against(cs: seq<Constraint>, d: seq<real>)
    requires WellSized(cs, |d|)
  {
    exists i :: 0 <= i < |cs| && Dot(cs[i].row, d, |d|) < 0.0
  }

  lemma KeyMove(keys: seq<seq<real>>, v: seq<real>, t: real, d: seq<real>)
    requires |v| == |d| && SameSize(keys, |v|)
    ensures Key(keys, Move(v, t, d)) == Move(Key(keys, v), t, Key(keys, d))
  {
    forall j | 0 <= j < |keys|
      ensures Key(keys, Move(v, t, d))[j] == Move(Key(keys, v), t, Key(keys, d))[j]
    {
      DotMove(keys[j], v, t, d, |v|);
    }
  }

  lemma {:induction false} DotZeros(u: seq<real>, k: nat, n: nat)
    requires k <= |u| && k <= n
    ensures Dot(u, Zeros(n), k) == 0.0
  {
    if k > 0 { DotZeros(u, k - 1, n); }
  }

  lemma KeyZeros(keys: seq<seq<real>>, n: nat)
    requires SameSize(keys, n)
    ensures Key(keys, Zeros(n)) == Zeros(|keys|)
  {
    forall j | 0 <= j < |keys| ensures Key(keys, Zeros(n))[j] == 0.0 {
      DotZeros(keys[j], n, n);
    }
  }

  function Slack(c: Constraint, x: seq<real>): real
    requires |c.row| == |x|
  {
    Dot(c.row, x, |x|) - c.bound
  }

  ghost function Slope(c: Constraint, d: seq<real>): real
    requires |c.row| == |d|
  {
    Dot(c.row, d, |d|)
  }

  lemma SlackMove(c: Constraint, x: seq<real>, t: real, d: seq<real>)
    requires |c.row| == |x| == |d|
    ensures Slack(c, Move(x, t, d)) == Slack(c, x) + t * Slope(c, d)
  {
    DotMove(c.row, x, t, d, |x|);
  }

  /** Moving by `s / -a` uses up a slack of s at slope a; moving less leaves some. */
  lemma RatioMeaning(s: real, a: real, t: real)
    requires s >= 0.0 && a < 0.0
    ensures t <= s / -a ==> s + t * a >= 0.0
    ensures s + (s / -a) * a == 0.0
    ensures s / -a >= 0.0 && (s > 0.0 ==> s / -a > 0.0)
  {
    var q := s / -a;
    assert q * -a == s;
    assert s + t * a == (t - q) * a;
  }

  lemma SlackLeft(s: real, a: real, t: real)
    requires s >= 0.0 && t >= 0.0 && (a < 0.0 ==> t <= s / -a)
    ensures s + t * a >= 0.0
  {
    if a < 0.0 {
      RatioMeaning(s, a, t);
    } else {
      assert t * a >= 0.0;
    }
  }

  lemma {:induction false} Smallest(ratios: seq<real>, slopes: seq<real>) returns (p: nat)
    requires |ratios| == |slopes| && exists i :: 0 <= i < |slopes| && slopes[i] < 0.0
    ensures p < |slopes| && slopes[p] < 0.0
    ensures forall i :: 0 <= i < |slopes| && slopes[i] < 0.0 ==> ratios[p] <= ratios[i]
  {
    p :| p < |slopes| && slopes[p] < 0.0;
    var i := 0;
    while i < |slopes|
      invariant 0 <= i <= |slopes| && p < |slopes| && slopes[p] < 0.0
      invariant forall j :: 0 <= j < i && slopes[j] < 0.0 ==> ratios[p] <= ratios[j]
    {
      if slopes[i] < 0.0 && ratios[i] < ratios[p] {
        p := i;
      }
      i := i + 1;
    }
  }

  /** The smallest of the distances `slacks[i] / -slopes[i]` over the negative slopes. */
  lemma SmallestRatio(slacks: seq<real>, slopes: seq<real>) returns (p: nat, t: real)
    requires |slacks| == |slopes| && (forall i :: 0 <= i < |slacks| ==> slacks[i] >= 0.0)
    requires exists i :: 0 <= i < |slopes| && slopes[i] < 0.0
    ensures p < |slacks| && slopes[p] < 0.0 && slacks[p] + t * slopes[p] == 0.0
    ensures forall i :: 0 <= i < |slacks| ==> slacks[i] + t * slopes[i] >= 0.0
    ensures t >= 0.0 && (slacks[p] > 0.0 ==> t > 0.0)
  {
    var ratios := seq(|slacks|, i requires 0 <= i < |slacks| =>
      if slopes[i] < 0.0 then slacks[i] / -slopes[i] else 0.0);
    p := Smallest(ratios, slopes);
    t := ratios[p];
    RatioMeaning(slacks[p], slopes[p], t);
    forall i | 0 <= i < |slacks| ensures slacks[i] + t * slopes[i] >= 0.0 {
      SlackLeft(slacks[i], slopes[i], t);
    }
  }

  /** Moving against some constraint until the first one becomes active. */
  lemma StepDown(cs: seq<Constraint>, x: seq<real>, d: seq<real>) returns (t: real)
    requires |x| == |d| && Feasible(cs, x) && Against(cs, d)
    requires Orthogonal(Rows(cs), Active(cs, x), d)
    ensures t > 0.0 && Feasible(cs, Move(x, t, d)) && Active(cs, x) < Active(cs, Move(x, t, d))
  {
    var slacks := seq(|cs|, i requires 0 <= i < |cs| => Slack(cs[i], x));
    var slopes := seq(|cs|, i requires 0 <= i < |cs| => Slope(cs[i], d));
    assert exists i :: 0 <= i < |slopes| && slopes[i] < 0.0 by {
      var i :| 0 <= i < |cs| && Dot(cs[i].row, d, |d|) < 0.0;
      assert slopes[i] < 0.0;
    }
    var p;
    p, t := SmallestRatio(slacks, slopes);
    forall i | i in Active(cs, x) ensures slopes[i] == 0.0 && slacks[i] == 0.0 {
      assert Rows(cs)[i] == cs[i].row;
    }
    assert p !in Active(cs, x);
    var y := Move(x, t, d);
    forall i | 0 <= i < |cs| ensures Slack(cs[i], y) == slacks[i] + t * slopes[i] {
      SlackMove(cs[i], x, t, d);
    }
    assert p in Active(cs, y);
  }

  lemma DownhillDirection(keys: seq<seq<real>>, rows: seq<seq<real>>, c: set<nat>, n: nat) returns (d: seq<real>)
    requires Faithful(keys, n) && SameSize(rows, n) && !TrivialKernel(rows, c, n)
    ensures |d| == n && Orthogonal(rows, c, d) && Negative(Key(keys, d))
  {
    d :| |d| == n && Orthogonal(rows, c, d) && !IsZero(d);
    NonZeroHasSign(Key(keys, d));
    if !Negative(Key(keys, d)) {
      var e := Move(Zeros(n), -1.0, d);
      KeyMove(keys, Zeros(n), -1.0, d);
      KeyZeros(keys, n);
      forall i | i in c ensures Dot(rows[i], e, n) == 0.0 {
        DotMove(rows[i], Zeros(n), -1.0, d, n);
        DotZeros(rows[i], n, n);
      }
      d := e;
    }
  }

  lemma ActiveBound(cs: seq<Constraint>, x: seq<real>)
    requires WellSized(cs, |x|)
    ensures |Active(cs, x)| <= |cs|
  {
    AtMostAsMany(Active(cs, x), |cs|);
  }

  lemma {:induction false} AtMostAsMany(a: set<nat>, m: nat)
    requires forall i :: i in a ==> i < m
    ensures |a| <= m
  {
    if m == 0 {
      assert a == {};
    } else {
      AtMostAsMany(a - {m - 1}, m - 1);
    }
  }

  lemma {:induction false} SubsetCardinality(a: set<nat>, b: set<nat>)
    requires a <= b
    ensures |a| <= |b|
    ensures a < b ==> |a| < |b|
  {
    if a != {} {
      var x :| x in a;
      SubsetCardinality(a - {x}, b - {x});
    }
  }

  /** Below every feasible point lies a feasible vertex. */
  lemma {:induction false} Descend(cs: seq<Constraint>, keys: seq<seq<real>>, x: seq<real>) returns (v: seq<real>)
    requires Feasible(cs, x) && Faithful(keys, |x|) && Blocked(cs, keys, |x|)
    ensures |v| == |x| && Feasible(cs, v) && LexAtMost(Key(keys, v), Key(keys, x))
    ensures TrivialKernel(Rows(cs), Active(cs, v), |v|)
    decreases |cs| - |Active(cs, x)|
  {
    if TrivialKernel(Rows(cs), Active(cs, x), |x|) {
      v := x;
    } else {
      var d := DownhillDirection(keys, Rows(cs), Active(cs, x), |x|);
      var t := StepDown(cs, x, d);
      var y := Move(x, t, d);
      KeyMove(keys, x, t, d);
      MoveIsLess(Key(keys, x), t, Key(keys, d));
      SubsetCardinality(Active(cs, x), Active(cs, y));
      ActiveBound(cs, y);
      v := Descend(cs, keys, y);
      LexTransitive(Key(keys, v), Key(keys, y), Key(keys, x));
    }
  }

  /** A vertex is the only point where its n chosen constraints are active. */
  lemma VertexChoice(cs: seq<Constraint>, v: seq<real>) returns (t: set<nat>)
    requires WellSized(cs, |v|) && TrivialKernel(Rows(cs), Active(cs, v), |v|)
    ensures t <= Active(cs, v) && |t| == |v| && TrivialKernel(Rows(cs), t, |v|)
  {
    t := Extract(Rows(cs), Active(cs, v), |v|, |v|);
  }
}
