/** Finite real vectors and their inner product, the arithmetic every part of
    the cost model rests on. `Fraction` of the source is `real` here: both are exact. */
module Vectors {
  /** The inner product of the first k components. */
  function Dot(u: seq<real>, v: seq<real>, k: nat): real
    requires k <= |u| && k <= |v|
  {
    if k == 0 then 0.0 else Dot(u, v, k - 1) + u[k - 1] * v[k - 1]
  }

  function Zeros(k: nat): (z: seq<real>)
    ensures |z| == k
  {
    seq(k, _ => 0.0)
  }

  /** The vector with a one in position j. */
  function Unit(k: nat, j: nat): (e: seq<real>)
    ensures |e| == k
  {
    seq(k, i => if i == j then 1.0 else 0.0)
  }

  /** The point reached from v after moving t times along d. */
  function Move(v: seq<real>, t: real, d: seq<real>): (w: seq<real>)
    requires |v| == |d|
    ensures |w| == |v|
  {
    seq(|v|, j requires 0 <= j < |v| => v[j] + t * d[j])
  }

  function Minus(u: seq<real>, f: real, w: seq<real>): (r: seq<real>)
    requires |u| == |w|
    ensures |r| == |u|
  {
    seq(|u|, j requires 0 <= j < |u| => u[j] - f * w[j])
  }

  ghost predicate IsZero(v: seq<real>) {
    forall j :: 0 <= j < |v| ==> v[j] == 0.0
  }

  lemma MulDistribute(a: real, f: real, b: real, c: real)
    ensures (a - f * b) * c == a * c - f * (b * c)
    ensures c * (a + f * b) == c * a + f * (c * b)
  {
  }

  lemma {:induction false} DotMinus(u: seq<real>, f: real, w: seq<real>, v: seq<real>, k: nat)
    requires |u| == |w| && k <= |u| && k <= |v|
    ensures Dot(Minus(u, f, w), v, k) == Dot(u, v, k) - f * Dot(w, v, k)
  {
    if k > 0 {
      DotMinus(u, f, w, v, k - 1);
      MulDistribute(u[k - 1], f, w[k - 1], v[k - 1]);
      MulDistribute(0.0, f, Dot(w, v, k - 1), 1.0);
      assert f * Dot(w, v, k) == f * Dot(w, v, k - 1) + f * (w[k - 1] * v[k - 1]);
    }
  }

  lemma {:induction false} DotMove(u: seq<real>, v: seq<real>, t: real, d: seq<real>, k: nat)
    requires |v| == |d| && k <= |u| && k <= |v|
    ensures Dot(u, Move(v, t, d), k) == Dot(u, v, k) + t * Dot(u, d, k)
  {
    if k > 0 {
      DotMove(u, v, t, d, k - 1);
      MulDistribute(v[k - 1], t, d[k - 1], u[k - 1]);
      assert t * Dot(u, d, k) == t * Dot(u, d, k - 1) + t * (u[k - 1] * d[k - 1]);
    }
  }

  lemma {:induction false} DotAgree(u: seq<real>, v: seq<real>, w: seq<real>, k: nat)
    requires k <= |u| && k <= |v| && k <= |w|
    requires forall j :: 0 <= j < k ==> v[j] == w[j]
    ensures Dot(u, v, k) == Dot(u, w, k)
  {
    if k > 0 { DotAgree(u, v, w, k - 1); }
  }

  lemma {:induction false} DotSymmetric(u: seq<real>, v: seq<real>, k: nat)
    requires k <= |u| && k <= |v|
    ensures Dot(u, v, k) == Dot(v, u, k)
  {
    if k > 0 { DotSymmetric(u, v, k - 1); }
  }

  /** Only position p can contribute. */
  lemma {:induction false} DotOne(u: seq<real>, v: seq<real>, k: nat, p: nat)
    requires k <= |u| && k <= |v|
    requires forall j :: 0 <= j < k && j != p ==> u[j] == 0.0 || v[j] == 0.0
    ensures Dot(u, v, k) == if p < k then u[p] * v[p] else 0.0
  {
    if k > 0 { DotOne(u, v, k - 1, p); }
  }

  /** Only positions p and q can contribute. */
  lemma {:induction false} DotTwo(u: seq<real>, v: seq<real>, k: nat, p: nat, q: nat)
    requires k <= |u| && k <= |v| && p < q < k
    requires forall j :: 0 <= j < k && j != p && j != q ==> u[j] == 0.0 || v[j] == 0.0
    ensures Dot(u, v, k) == u[p] * v[p] + u[q] * v[q]
  {
    if k - 1 == q {
      DotOne(u, v, k - 1, p);
    } else {
      DotTwo(u, v, k - 1, p, q);
    }
  }

  lemma {:induction false} DotNonNegative(u: seq<real>, v: seq<real>, k: nat)
    requires k <= |u| && k <= |v|
    requires forall j :: 0 <= j < k ==> u[j] >= 0.0 && v[j] >= 0.0
    ensures Dot(u, v, k) >= 0.0
  {
    if k > 0 { DotNonNegative(u, v, k - 1); }
  }
}
