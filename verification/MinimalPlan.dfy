/** `piano_minimo`: the cheapest coefficients that cover every measured peak, found by
    solving exactly every choice of n constraints and keeping the best feasible vertex. */
module MinimalPlan {
  import opened Vectors
  import opened Wrappers
  import opened Vertices
  import GaussJordan

  const MIB := 1048576

  /** The coefficients of the cost model. */
  datatype Coeff = A | R | C | K | P

  /** The units of one measured point, one per coefficient. */
  datatype Units = Units(a: int, r: int, c: int, k: int, p: int) {
    function Of(v: Coeff): int {
      match v
      case A => a
      case R => r
      case C => c
      case K => k
      case P => p
    }

    predicate NonNegative() {
      a >= 0 && r >= 0 && c >= 0 && k >= 0 && p >= 0
    }
  }

  /** The linear program `piano_minimo` is given. */
  datatype Program = Program(unita: seq<Units>, picchi: seq<int>, variabili: seq<Coeff>,
                             minimi: map<Coeff, real>, massimi: map<Coeff, real>) {
    predicate WellFormed() {
      |unita| == |picchi| && forall i :: 0 <= i < |unita| ==> unita[i].NonNegative()
    }

    /** What the coefficients x predict for point i. */
    function Predicted(i: nat, x: seq<real>): real
      requires i < |unita| && |x| == |variabili|
    {
      Dot(UnitRow(unita[i], variabili), x, |x|)
    }

    /** The coefficients x cover every peak and respect their bounds. */
    ghost predicate Admissible(x: seq<real>)
      requires WellFormed()
    {
      && |x| == |variabili|
      && (forall i :: 0 <= i < |picchi| ==> Predicted(i, x) >= picchi[i] as real)
      && (forall j :: 0 <= j < |x| ==> x[j] >= if variabili[j] in minimi then minimi[variabili[j]] else 0.0)
      && (forall j :: 0 <= j < |x| && variabili[j] in massimi ==> x[j] <= massimi[variabili[j]])
    }

    /** The sum over the points of predicted over measured, a measure counting at least 1 MiB. */
    function RatioSum(x: seq<real>): real
      requires WellFormed() && |x| == |variabili|
    {
      RatioSumTo(x, |picchi|)
    }

    function RatioSumTo(x: seq<real>, k: nat): real
      requires WellFormed() && |x| == |variabili| && k <= |picchi|
    {
      if k == 0 then 0.0
      else
        RatioSumTo(x, k - 1)
        + Predicted(k - 1, x) / (if picchi[k - 1] < 1048576 then 1048576 else picchi[k - 1]) as real
    }
  }

  function Lower(minimi: map<Coeff, real>, v: Coeff): real {
    if v in minimi then minimi[v] else 0.0
  }

  function UnitRow(u: Units, variabili: seq<Coeff>): (row: seq<real>)
    ensures |row| == |variabili|
  {
    seq(|variabili|, j requires 0 <= j < |variabili| => u.Of(variabili[j]) as real)
  }

  function Predictions(unita: seq<Units>, variabili: seq<Coeff>, x: seq<real>): (p: seq<real>)
    requires |x| == |variabili|
    ensures |p| == |unita|
  {
    seq(|unita|, i requires 0 <= i < |unita| => Dot(UnitRow(unita[i], variabili), x, |x|))
  }

  function Weights(picchi: seq<int>): (w: seq<real>)
    ensures |w| == |picchi| && forall i :: 0 <= i < |w| ==> w[i] > 0.0
  {
    seq(|picchi|, i requires 0 <= i < |picchi| => 1.0 / (if picchi[i] > MIB then picchi[i] else MIB) as real)
  }

  function Column(unita: seq<Units>, v: Coeff): (c: seq<real>)
    ensures |c| == |unita|
  {
    seq(|unita|, i requires 0 <= i < |unita| => unita[i].Of(v) as real)
  }

  /** Per variable, the weighted sum of its units over the first k points. */
  function WeightedUnits(w: seq<real>, unita: seq<Units>, variabili: seq<Coeff>, k: nat): (c: seq<real>)
    requires |w| == |unita| && k <= |unita|
    ensures |c| == |variabili|
  {
    seq(|variabili|, j requires 0 <= j < |variabili| => Dot(w, Column(unita, variabili[j]), k))
  }

  /** `costo`: the objective row. */
  function CostRow(lp: Program): (c: seq<real>)
    requires lp.WellFormed()
    ensures |c| == |lp.variabili|
  {
    WeightedUnits(Weights(lp.picchi), lp.unita, lp.variabili, |lp.unita|)
  }

  function NegatedUnit(n: nat, j: nat): (e: seq<real>)
    ensures |e| == n
  {
    seq(n, i => if i == j then -1.0 else 0.0)
  }

  /** The bound constraints of the first k variables, in order. */
  function Bounds(lp: Program, k: nat): (cs: seq<Constraint>)
    requires k <= |lp.variabili|
    ensures WellSized(cs, |lp.variabili|)
  {
    if k == 0 then [] else
      var v := lp.variabili[k - 1];
      var n := |lp.variabili|;
      Bounds(lp, k - 1)
      + [Constraint(Unit(n, k - 1), Lower(lp.minimi, v))]
      + (if v in lp.massimi then [Constraint(NegatedUnit(n, k - 1), -lp.massimi[v])] else [])
  }

  function Points(lp: Program): (cs: seq<Constraint>)
    requires lp.WellFormed()
    ensures |cs| == |lp.unita| && WellSized(cs, |lp.variabili|)
  {
    seq(|lp.unita|, i requires 0 <= i < |lp.unita| =>
      Constraint(UnitRow(lp.unita[i], lp.variabili), lp.picchi[i] as real))
  }

  /** `vincoli`: every point, then the bounds variable by variable. */
  function Constraints(lp: Program): (cs: seq<Constraint>)
    requires lp.WellFormed()
    ensures WellSized(cs, |lp.variabili|)
  {
    Points(lp) + Bounds(lp, |lp.variabili|)
  }

  /** The position of the per-byte coefficient, if the program has one. */
  function PositionOf(variabili: seq<Coeff>, v: Coeff): (i: Option<nat>)
    ensures i.Some? ==> i.value < |variabili| && variabili[i.value] == v
    ensures i.None? ==> v !in variabili
  {
    if variabili == [] then None
    else if variabili[0] == v then Some(0)
    else match PositionOf(variabili[1..], v) case None => None case Some(k) => Some(k + 1)
  }

  function ByteRow(n: nat, indiceC: Option<nat>): (row: seq<real>)
    ensures |row| == n
  {
    if indiceC.Some? then NegatedUnit(n, indiceC.value) else Zeros(n)
  }

  /** The rows of the key `(obiettivo, -per_byte, soluzione)`. */
  function KeyRows(costo: seq<real>, indiceC: Option<nat>): (keys: seq<seq<real>>)
    ensures |keys| == |costo| + 2 && SameSize(keys, |costo|)
  {
    var n := |costo|;
    [costo, ByteRow(n, indiceC)] + seq(n, j requires 0 <= j < n => Unit(n, j))
  }

  function PlanKey(costo: seq<real>, indiceC: Option<nat>, x: seq<real>): (k: seq<real>)
    requires |costo| == |x| && (indiceC.Some? ==> indiceC.value < |x|)
    ensures |k| == |x| + 2
  {
    [Dot(costo, x, |x|), if indiceC.Some? then -x[indiceC.value] else -0.0] + x
  }

  // ----- what the constraints and the objective mean

  lemma DotUnit(n: nat, j: nat, x: seq<real>)
    requires |x| == n && j < n
    ensures Dot(Unit(n, j), x, n) == x[j] && Dot(NegatedUnit(n, j), x, n) == -x[j]
  {
    DotOne(Unit(n, j), x, n, j);
    DotOne(NegatedUnit(n, j), x, n, j);
  }

  lemma {:induction false} BoundsMeaning(lp: Program, k: nat, x: seq<real>)
    requires k <= |lp.variabili| == |x|
    ensures Feasible(Bounds(lp, k), x) <==>
            forall j :: 0 <= j < k ==>
              x[j] >= Lower(lp.minimi, lp.variabili[j])
              && (lp.variabili[j] in lp.massimi ==> x[j] <= lp.massimi[lp.variabili[j]])
  {
    if k > 0 {
      BoundsMeaning(lp, k - 1, x);
      DotUnit(|x|, k - 1, x);
      var cs := Bounds(lp, k);
      var m := |Bounds(lp, k - 1)|;
      assert Bounds(lp, k - 1) == cs[..m];
      assert cs[m] == Constraint(Unit(|x|, k - 1), Lower(lp.minimi, lp.variabili[k - 1]));
      if lp.variabili[k - 1] in lp.massimi {
        assert cs[m + 1].row == NegatedUnit(|x|, k - 1);
      }
      if Feasible(cs, x) {
        assert forall i :: 0 <= i < m ==> Bounds(lp, k - 1)[i] == cs[i];
      }
    }
  }

  lemma AdmissibleIsFeasible(lp: Program, x: seq<real>)
    requires lp.WellFormed() && |x| == |lp.variabili|
    ensures lp.Admissible(x) <==> Feasible(Constraints(lp), x)
  {
    var cs := Constraints(lp);
    var pts := Points(lp);
    var bds := Bounds(lp, |x|);
    BoundsMeaning(lp, |x|, x);
    assert forall i :: 0 <= i < |pts| ==> cs[i] == pts[i];
    assert forall i :: 0 <= i < |bds| ==> cs[|pts| + i] == bds[i];
    assert Feasible(cs, x) <==> Feasible(pts, x) && Feasible(bds, x);
    assert Feasible(pts, x) <==> forall i :: 0 <= i < |lp.picchi| ==> lp.Predicted(i, x) >= lp.picchi[i] as real by {
      assert forall i :: 0 <= i < |pts| ==> Dot(pts[i].row, x, |x|) == lp.Predicted(i, x);
    }
  }

  lemma WeightedUnitsStep(w: seq<real>, unita: seq<Units>, variabili: seq<Coeff>, k: nat)
    requires |w| == |unita| && 0 < k <= |unita|
    ensures WeightedUnits(w, unita, variabili, k)
         == Move(WeightedUnits(w, unita, variabili, k - 1), w[k - 1], UnitRow(unita[k - 1], variabili))
  {
    var row := UnitRow(unita[k - 1], variabili);
    forall j | 0 <= j < |variabili|
      ensures WeightedUnits(w, unita, variabili, k)[j]
           == Move(WeightedUnits(w, unita, variabili, k - 1), w[k - 1], row)[j]
    {
      assert Column(unita, variabili[j])[k - 1] == row[j];
    }
  }

  lemma ExchangeStep(w: seq<real>, unita: seq<Units>, variabili: seq<Coeff>, x: seq<real>, k: nat)
    requires |w| == |unita| && |x| == |variabili| && 0 < k <= |unita|
    ensures Dot(x, WeightedUnits(w, unita, variabili, k), |x|)
         == Dot(x, WeightedUnits(w, unita, variabili, k - 1), |x|) + w[k - 1] * Predictions(unita, variabili, x)[k - 1]
  {
    var row := UnitRow(unita[k - 1], variabili);
    WeightedUnitsStep(w, unita, variabili, k);
    DotMove(x, WeightedUnits(w, unita, variabili, k - 1), w[k - 1], row, |x|);
    DotSymmetric(x, row, |x|);
  }

  /** Weighting the units first or the predictions gives the same sum. */
  lemma {:induction false} WeightedUnitsExchange(w: seq<real>, unita: seq<Units>, variabili: seq<Coeff>, x: seq<real>,
                                                 k: nat)
    requires |w| == |unita| && |x| == |variabili| && k <= |unita|
    ensures Dot(x, WeightedUnits(w, unita, variabili, k), |x|) == Dot(w, Predictions(unita, variabili, x), k)
  {
    if k == 0 {
      assert WeightedUnits(w, unita, variabili, 0) == Zeros(|x|);
      DotZeros(x, |x|, |x|);
    } else {
      WeightedUnitsExchange(w, unita, variabili, x, k - 1);
      ExchangeStep(w, unita, variabili, x, k);
    }
  }

  lemma {:induction false} WeightedRatios(lp: Program, x: seq<real>, k: nat)
    requires lp.WellFormed() && |x| == |lp.variabili| && k <= |lp.picchi|
    ensures Dot(Weights(lp.picchi), Predictions(lp.unita, lp.variabili, x), k) == lp.RatioSumTo(x, k)
  {
    if k > 0 {
      WeightedRatios(lp, x, k - 1);
      var w, p := Weights(lp.picchi)[k - 1], Predictions(lp.unita, lp.variabili, x)[k - 1];
      assert p == lp.Predicted(k - 1, x);
      Reciprocal(p, (if lp.picchi[k - 1] < 1048576 then 1048576 else lp.picchi[k - 1]) as real);
    }
  }

  lemma Reciprocal(p: real, d: real)
    requires d > 0.0
    ensures (1.0 / d) * p == p / d
  {
  }

  /** The objective the code minimises is the sum of the ratios predicted over measured. */
  lemma ObjectiveIsRatioSum(lp: Program, x: seq<real>)
    requires lp.WellFormed() && |x| == |lp.variabili|
    ensures Dot(CostRow(lp), x, |x|) == lp.RatioSum(x)
  {
    WeightedUnitsExchange(Weights(lp.picchi), lp.unita, lp.variabili, x, |lp.unita|);
    WeightedRatios(lp, x, |lp.picchi|);
    DotSymmetric(x, CostRow(lp), |x|);
  }

  lemma CostsNonNegative(lp: Program)
    requires lp.WellFormed()
    ensures forall j :: 0 <= j < |lp.variabili| ==> CostRow(lp)[j] >= 0.0
  {
    forall j | 0 <= j < |lp.variabili| ensures CostRow(lp)[j] >= 0.0 {
      DotNonNegative(Weights(lp.picchi), Column(lp.unita, lp.variabili[j]), |lp.unita|);
    }
  }

  lemma KeyIsPlanKey(costo: seq<real>, indiceC: Option<nat>, x: seq<real>)
    requires |costo| == |x| && (indiceC.Some? ==> indiceC.value < |x|)
    ensures Key(KeyRows(costo, indiceC), x) == PlanKey(costo, indiceC, x)
  {
    var n := |x|;
    var keys := KeyRows(costo, indiceC);
    forall i | 0 <= i < n + 2 ensures Dot(keys[i], x, n) == PlanKey(costo, indiceC, x)[i] {
      if i == 1 {
        if indiceC.Some? {
          DotUnit(n, indiceC.value, x);
        } else {
          DotZeros(x, n, n);
          DotSymmetric(x, Zeros(n), n);
        }
      } else if i >= 2 {
        DotUnit(n, i - 2, x);
      }
    }
  }

  lemma PlanFaithful(costo: seq<real>, indiceC: Option<nat>)
    requires indiceC.Some? ==> indiceC.value < |costo|
    ensures Faithful(KeyRows(costo, indiceC), |costo|)
  {
    forall d | |d| == |costo| && IsZero(Key(KeyRows(costo, indiceC), d)) ensures IsZero(d) {
      KeyIsPlanKey(costo, indiceC, d);
      forall j | 0 <= j < |d| ensures d[j] == 0.0 {
        assert PlanKey(costo, indiceC, d)[j + 2] == d[j];
      }
    }
  }

  // ----- why the key cannot decrease for ever

  /** Raising the per-byte coefficient without limit costs something or is forbidden. */
  predicate ByteTermLimited(lp: Program, indiceC: Option<nat>)
    requires lp.WellFormed() && (indiceC.Some? ==> indiceC.value < |lp.variabili|)
  {
    indiceC.Some? ==>
      lp.variabili[indiceC.value] in lp.massimi || CostRow(lp)[indiceC.value] > 0.0
  }

  /** The per-byte term costs something exactly when some measured point has bytes. */
  lemma {:induction false} ByteCostPositive(w: seq<real>, col: seq<real>, k: nat)
    requires k <= |w| && k <= |col|
    requires forall i :: 0 <= i < k ==> w[i] > 0.0 && col[i] >= 0.0
    ensures Dot(w, col, k) >= 0.0 && (Dot(w, col, k) > 0.0 <==> exists i :: 0 <= i < k && col[i] > 0.0)
  {
    if k > 0 {
      ByteCostPositive(w, col, k - 1);
      assert w[k - 1] * col[k - 1] > 0.0 <==> col[k - 1] > 0.0;
    }
  }

  lemma ByteTermLimitedMeans(lp: Program, i: nat)
    requires lp.WellFormed() && i < |lp.variabili|
    ensures ByteTermLimited(lp, Some(i)) <==>
            lp.variabili[i] in lp.massimi || exists p :: 0 <= p < |lp.unita| && lp.unita[p].Of(lp.variabili[i]) > 0
  {
    var col := Column(lp.unita, lp.variabili[i]);
    ByteCostPositive(Weights(lp.picchi), col, |lp.unita|);
    assert forall p :: 0 <= p < |lp.unita| ==> (col[p] > 0.0 <==> lp.unita[p].Of(lp.variabili[i]) > 0);
  }

  lemma {:induction false} BoundRows(lp: Program, k: nat, j: nat)
    requires j < k <= |lp.variabili|
    ensures exists i :: 0 <= i < |Bounds(lp, k)| && Bounds(lp, k)[i].row == Unit(|lp.variabili|, j)
    ensures lp.variabili[j] in lp.massimi ==>
              exists i :: 0 <= i < |Bounds(lp, k)| && Bounds(lp, k)[i].row == NegatedUnit(|lp.variabili|, j)
  {
    var cs := Bounds(lp, k);
    var m := |Bounds(lp, k - 1)|;
    if j == k - 1 {
      assert cs[m].row == Unit(|lp.variabili|, j);
      if lp.variabili[j] in lp.massimi {
        assert cs[m + 1].row == NegatedUnit(|lp.variabili|, j);
      }
    } else {
      BoundRows(lp, k - 1, j);
      var n := |lp.variabili|;
      assert cs[..m] == Bounds(lp, k - 1);
      var i :| 0 <= i < m && Bounds(lp, k - 1)[i].row == Unit(n, j);
      assert cs[i].row == Unit(n, j);
      if lp.variabili[j] in lp.massimi {
        var i' :| 0 <= i' < m && Bounds(lp, k - 1)[i'].row == NegatedUnit(n, j);
        assert cs[i'].row == NegatedUnit(n, j);
      }
    }
  }

  lemma AgainstBound(lp: Program, d: seq<real>, j: nat)
    requires lp.WellFormed() && |d| == |lp.variabili| && j < |d|
    requires d[j] < 0.0 || (d[j] > 0.0 && lp.variabili[j] in lp.massimi)
    ensures Against(Constraints(lp), d)
  {
    var n := |d|;
    BoundRows(lp, n, j);
    DotUnit(n, j, d);
    var row := if d[j] < 0.0 then Unit(n, j) else NegatedUnit(n, j);
    var i :| 0 <= i < |Bounds(lp, n)| && Bounds(lp, n)[i].row == row;
    assert Constraints(lp)[|Points(lp)| + i].row == row;
  }

  lemma {:induction false} DotPositive(u: seq<real>, v: seq<real>, k: nat, p: nat)
    requires p < k <= |u| && k <= |v| && u[p] > 0.0 && v[p] > 0.0
    requires forall j :: 0 <= j < k ==> u[j] >= 0.0 && v[j] >= 0.0
    ensures Dot(u, v, k) > 0.0
  {
    if p == k - 1 {
      DotNonNegative(u, v, k - 1);
    } else {
      DotPositive(u, v, k - 1, p);
    }
  }

  lemma PlanBlocked(lp: Program, indiceC: Option<nat>)
    requires lp.WellFormed() && (indiceC.Some? ==> indiceC.value < |lp.variabili|)
    requires ByteTermLimited(lp, indiceC)
    ensures Blocked(Constraints(lp), KeyRows(CostRow(lp), indiceC), |lp.variabili|)
  {
    var costo := CostRow(lp);
    var n := |lp.variabili|;
    CostsNonNegative(lp);
    forall d | |d| == n && Negative(Key(KeyRows(costo, indiceC), d)) ensures Against(Constraints(lp), d) {
      KeyIsPlanKey(costo, indiceC, d);
      var k := PlanKey(costo, indiceC, d);
      if j: nat :| j < n && d[j] < 0.0 {
        AgainstBound(lp, d, j);
      } else {
        DotNonNegative(costo, d, n);
        assert k[1..][1..] == d && k[1..][0] == k[1];
        assert k[0] == 0.0 && Negative(k[1..]);
        if k[1] < 0.0 {
          if lp.variabili[indiceC.value] in lp.massimi {
            AgainstBound(lp, d, indiceC.value);
          } else {
            DotPositive(costo, d, n, indiceC.value);
            assert false;
          }
        } else {
          assert Negative(d);
          NegativeEntry(d);
          assert false;
        }
      }
    }
  }

  /** Otherwise every plan is beaten, at the same cost, by one with a larger per-byte term. */
  lemma UnlimitedByteTerm(lp: Program, i: nat, x: seq<real>)
    requires lp.WellFormed() && i < |lp.variabili| && !ByteTermLimited(lp, Some(i))
    requires lp.Admissible(x)
    ensures var y := Move(x, 1.0, Unit(|x|, i));
            && lp.Admissible(y)
            && LexLess(PlanKey(CostRow(lp), Some(i), y), PlanKey(CostRow(lp), Some(i), x))
  {
    var n := |x|;
    var e := Unit(n, i);
    var y := Move(x, 1.0, e);
    CostsNonNegative(lp);
    DotMove(CostRow(lp), x, 1.0, e, n);
    DotOne(CostRow(lp), e, n, i);
    forall p | 0 <= p < |lp.picchi| ensures lp.Predicted(p, y) >= lp.picchi[p] as real {
      var row := UnitRow(lp.unita[p], lp.variabili);
      DotMove(row, x, 1.0, e, n);
      DotOne(row, e, n, i);
    }
    var kx, ky := PlanKey(CostRow(lp), Some(i), x), PlanKey(CostRow(lp), Some(i), y);
    assert ky[0] == kx[0] && ky[1..][0] < kx[1..][0];
  }

  // ----- the enumeration

  /** k positions in [lo, hi). */
  predicate Choice(c: seq<nat>, lo: nat, hi: nat, k: nat) {
    |c| == k && forall j :: 0 <= j < k ==> lo <= c[j] < hi
  }

  /** `itertools.combinations(range(lo, hi), k)`, in its order. */
  function Combinations(lo: nat, hi: nat, k: nat): (cs: seq<seq<nat>>)
    requires lo <= hi
    ensures forall i :: 0 <= i < |cs| ==> Choice(cs[i], lo, hi, k)
    decreases hi - lo
  {
    if k == 0 then [[]]
    else if lo == hi then []
    else
      Prepended(lo, Combinations(lo + 1, hi, k - 1)) + Combinations(lo + 1, hi, k)
  }

  function Prepended(x: nat, tail: seq<seq<nat>>): (r: seq<seq<nat>>)
    ensures |r| == |tail| && forall i :: 0 <= i < |r| ==> r[i] == [x] + tail[i]
  {
    seq(|tail|, i requires 0 <= i < |tail| => [x] + tail[i])
  }

  function Elements(c: seq<nat>): (t: set<nat>)
    ensures forall e :: e in t <==> e in c
  {
    set e | e in c
  }

  ghost predicate Lists(choices: seq<seq<nat>>, t: set<nat>) {
    exists i :: 0 <= i < |choices| && Elements(choices[i]) == t
  }

  lemma ListsTaken(lo: nat, hi: nat, k: nat, t: set<nat>)
    requires lo < hi && 0 < k && Lists(Combinations(lo + 1, hi, k - 1), t)
    ensures Lists(Combinations(lo, hi, k), {lo} + t)
  {
    var i :| 0 <= i < |Combinations(lo + 1, hi, k - 1)| && Elements(Combinations(lo + 1, hi, k - 1)[i]) == t;
    var c := Combinations(lo + 1, hi, k - 1)[i];
    assert Combinations(lo, hi, k)[i] == [lo] + c;
    assert Elements([lo] + c) == {lo} + Elements(c);
  }

  lemma ListsSkipped(lo: nat, hi: nat, k: nat, t: set<nat>)
    requires lo < hi && 0 < k && Lists(Combinations(lo + 1, hi, k), t)
    ensures Lists(Combinations(lo, hi, k), t)
  {
    var i :| 0 <= i < |Combinations(lo + 1, hi, k)| && Elements(Combinations(lo + 1, hi, k)[i]) == t;
    var m := |Prepended(lo, Combinations(lo + 1, hi, k - 1))|;
    assert Combinations(lo, hi, k)[m + i] == Combinations(lo + 1, hi, k)[i];
  }

  lemma ListsEmpty(lo: nat, hi: nat)
    requires lo <= hi
    ensures Lists(Combinations(lo, hi, 0), {})
  {
    assert Elements(Combinations(lo, hi, 0)[0]) == {};
  }

  lemma NonEmpty(t: set<nat>)
    requires |t| > 0
    ensures exists e :: e in t
  {
    assert t != {};
  }

  /** Every set of k positions is one of the combinations. */
  lemma {:induction false} CombinationOf(lo: nat, hi: nat, k: nat, t: set<nat>)
    requires lo <= hi && |t| == k && forall e :: e in t ==> lo <= e < hi
    ensures Lists(Combinations(lo, hi, k), t)
    decreases hi - lo
  {
    hide Lists, Combinations;
    if k == 0 {
      ListsEmpty(lo, hi);
      assert t == {};
    } else {
      NonEmpty(t);
      if lo in t {
        assert t == {lo} + (t - {lo});
        CombinationOf(lo + 1, hi, k - 1, t - {lo});
        ListsTaken(lo, hi, k, t - {lo});
      } else {
        CombinationOf(lo + 1, hi, k, t);
        ListsSkipped(lo, hi, k, t);
      }
    }
  }

  function ChosenRows(cs: seq<Constraint>, choice: seq<nat>): (m: seq<seq<real>>)
    requires Choice(choice, 0, |cs|, |choice|)
    ensures |m| == |choice|
  {
    seq(|choice|, j requires 0 <= j < |choice| => cs[choice[j]].row)
  }

  function ChosenBounds(cs: seq<Constraint>, choice: seq<nat>): (b: seq<real>)
    requires Choice(choice, 0, |cs|, |choice|)
    ensures |b| == |choice|
  {
    seq(|choice|, j requires 0 <= j < |choice| => cs[choice[j]].bound)
  }

  /** x is the only point where the chosen constraints are active. */
  ghost predicate Determined(cs: seq<Constraint>, choice: seq<nat>, x: seq<real>) {
    && Choice(choice, 0, |cs|, |choice|)
    && GaussJordan.IsSolution(ChosenRows(cs, choice), ChosenBounds(cs, choice), x)
    && !GaussJordan.Singular(ChosenRows(cs, choice))
  }

  /** A point that its active constraints determine. */
  ghost predicate Vertex(cs: seq<Constraint>, x: seq<real>) {
    WellSized(cs, |x|) && Feasible(cs, x) && TrivialKernel(Rows(cs), Active(cs, x), |x|)
  }

  /** A choice of n active constraints with a trivial common kernel determines the point. */
  lemma ChoiceDetermines(cs: seq<Constraint>, v: seq<real>, t: set<nat>, choice: seq<nat>)
    requires Choice(choice, 0, |cs|, |v|) && Elements(choice) == t && WellSized(cs, |v|)
    requires t <= Active(cs, v) && TrivialKernel(Rows(cs), t, |v|)
    ensures Determined(cs, choice, v)
  {
    ChoiceIsActive(cs, v, t, choice);
    ChoiceIsRegular(cs, v, t, choice);
  }

  lemma ChoiceIsActive(cs: seq<Constraint>, v: seq<real>, t: set<nat>, choice: seq<nat>)
    requires Choice(choice, 0, |cs|, |v|) && Elements(choice) == t && WellSized(cs, |v|) && t <= Active(cs, v)
    ensures GaussJordan.IsSolution(ChosenRows(cs, choice), ChosenBounds(cs, choice), v)
  {
    hide Dot;
    forall j | 0 <= j < |choice| ensures Dot(cs[choice[j]].row, v, |v|) == cs[choice[j]].bound {
      assert choice[j] in Elements(choice);
    }
  }

  lemma ChoiceIsRegular(cs: seq<Constraint>, v: seq<real>, t: set<nat>, choice: seq<nat>)
    requires Choice(choice, 0, |cs|, |v|) && Elements(choice) == t && WellSized(cs, |v|)
    requires TrivialKernel(Rows(cs), t, |v|)
    ensures !GaussJordan.Singular(ChosenRows(cs, choice))
  {
    hide Dot, IsZero;
    var m := ChosenRows(cs, choice);
    forall z | |z| == |m| && GaussJordan.InKernel(m, z) ensures IsZero(z) {
      forall e | e in t ensures Dot(Rows(cs)[e], z, |z|) == 0.0 {
        var j :| 0 <= j < |choice| && choice[j] == e;
        assert m[j] == Rows(cs)[e];
      }
      assert Orthogonal(Rows(cs), t, z);
    }
  }

  lemma VertexIsEnumerated(cs: seq<Constraint>, v: seq<real>) returns (i: nat)
    requires Vertex(cs, v)
    ensures i < |Combinations(0, |cs|, |v|)| && Determined(cs, Combinations(0, |cs|, |v|)[i], v)
  {
    hide Determined, Feasible, Active, TrivialKernel;
    var t := VertexChoice(cs, v);
    CombinationOf(0, |cs|, |v|, t);
    i :| 0 <= i < |Combinations(0, |cs|, |v|)| && Elements(Combinations(0, |cs|, |v|)[i]) == t;
    ChoiceDetermines(cs, v, t, Combinations(0, |cs|, |v|)[i]);
  }

  lemma DeterminedIsVertex(cs: seq<Constraint>, choice: seq<nat>, x: seq<real>)
    requires Determined(cs, choice, x) && Feasible(cs, x)
    ensures Vertex(cs, x)
  {
    var m := ChosenRows(cs, choice);
    forall z | |z| == |x| && Orthogonal(Rows(cs), Active(cs, x), z) ensures IsZero(z) {
      forall j | 0 <= j < |m| ensures |m[j]| == |z| && Dot(m[j], z, |z|) == 0.0 {
        assert Dot(m[j], x, |x|) == ChosenBounds(cs, choice)[j];
        assert choice[j] in Active(cs, x);
        assert m[j] == Rows(cs)[choice[j]];
      }
      assert GaussJordan.InKernel(m, z);
    }
  }

  datatype NoVertex = NoVertex

  /** The best key so far beats every vertex of the first k choices. */
  ghost predicate BestOf(cs: seq<Constraint>, choices: seq<seq<nat>>, k: nat, costo: seq<real>, indiceC: Option<nat>,
                         best: Option<seq<real>>)
    requires k <= |choices|
    requires indiceC.Some? ==> indiceC.value < |costo|
  {
    && (best.Some? ==> |best.value| == |costo| && Vertex(cs, best.value))
    && forall i, x :: 0 <= i < k && |x| == |costo| && Determined(cs, choices[i], x) && Feasible(cs, x) ==>
         best.Some? && LexAtMost(PlanKey(costo, indiceC, best.value), PlanKey(costo, indiceC, x))
  }

  /** Keeping the smaller of the best key and the key of the vertex of choice k. */
  lemma StepBest(cs: seq<Constraint>, choices: seq<seq<nat>>, k: nat, costo: seq<real>, indiceC: Option<nat>,
                 best: Option<seq<real>>, x: seq<real>)
    requires k < |choices| && |x| == |costo| && Vertex(cs, x)
    requires indiceC.Some? ==> indiceC.value < |costo|
    requires BestOf(cs, choices, k, costo, indiceC, best)
    requires forall y :: Determined(cs, choices[k], y) && Feasible(cs, y) ==> y == x
    ensures var better := best.None? || LexLess(PlanKey(costo, indiceC, x), PlanKey(costo, indiceC, best.value));
            BestOf(cs, choices, k + 1, costo, indiceC, if better then Some(x) else best)
  {
    var better := best.None? || LexLess(PlanKey(costo, indiceC, x), PlanKey(costo, indiceC, best.value));
    if best.Some? {
      LexTotal(PlanKey(costo, indiceC, x), PlanKey(costo, indiceC, best.value));
    }
    var next := if better then Some(x) else best;
    forall i, y | 0 <= i < k + 1 && |y| == |costo| && Determined(cs, choices[i], y) && Feasible(cs, y)
      ensures LexAtMost(PlanKey(costo, indiceC, next.value), PlanKey(costo, indiceC, y))
    {
      if i < k && better {
        LexTransitive(PlanKey(costo, indiceC, x), PlanKey(costo, indiceC, best.value), PlanKey(costo, indiceC, y));
      }
    }
  }

  /** The best vertex of all choices has the least key of all vertices. */
  lemma BestOfAll(cs: seq<Constraint>, costo: seq<real>, indiceC: Option<nat>, best: Option<seq<real>>, v: seq<real>)
    requires |v| == |costo| && Vertex(cs, v) && (indiceC.Some? ==> indiceC.value < |costo|)
    requires BestOf(cs, Combinations(0, |cs|, |v|), |Combinations(0, |cs|, |v|)|, costo, indiceC, best)
    ensures best.Some?
    ensures LexAtMost(PlanKey(costo, indiceC, best.value), PlanKey(costo, indiceC, v))
  {
    hide Determined, LexAtMost, PlanKey, Combinations, TrivialKernel, Active, Choice;
    var i := VertexIsEnumerated(cs, v);
  }

  lemma NoBestYet(cs: seq<Constraint>, choices: seq<seq<nat>>, costo: seq<real>, indiceC: Option<nat>)
    requires indiceC.Some? ==> indiceC.value < |costo|
    ensures BestOf(cs, choices, 0, costo, indiceC, None)
  {
  }

  /** A choice that determines no feasible point changes nothing. */
  lemma SkipBest(cs: seq<Constraint>, choices: seq<seq<nat>>, k: nat, costo: seq<real>, indiceC: Option<nat>,
                 best: Option<seq<real>>)
    requires k < |choices| && (indiceC.Some? ==> indiceC.value < |costo|)
    requires BestOf(cs, choices, k, costo, indiceC, best)
    requires forall y :: !(Determined(cs, choices[k], y) && Feasible(cs, y))
    ensures BestOf(cs, choices, k + 1, costo, indiceC, best)
  {
    hide Determined, Feasible, Vertex, LexAtMost, PlanKey;
  }

  lemma BestIsVertex(cs: seq<Constraint>, choices: seq<seq<nat>>, k: nat, costo: seq<real>, indiceC: Option<nat>,
                     best: Option<seq<real>>)
    requires k <= |choices| && (indiceC.Some? ==> indiceC.value < |costo|)
    requires BestOf(cs, choices, k, costo, indiceC, best)
    ensures best.Some? ==> |best.value| == |costo| && Vertex(cs, best.value)
  {
  }

  /** A vertex whose key is at most that of y, for any index that keeps keys bounded. */
  lemma VertexBelow(lp: Program, indiceC: Option<nat>, y: seq<real>) returns (v: seq<real>)
    requires lp.WellFormed() && lp.Admissible(y)
    requires (indiceC.Some? ==> indiceC.value < |lp.variabili|) && ByteTermLimited(lp, indiceC)
    ensures |v| == |y| && Vertex(Constraints(lp), v)
    ensures LexAtMost(PlanKey(CostRow(lp), indiceC, v), PlanKey(CostRow(lp), indiceC, y))
  {
    AdmissibleIsFeasible(lp, y);
    PlanFaithful(CostRow(lp), indiceC);
    PlanBlocked(lp, indiceC);
    v := Descend(Constraints(lp), KeyRows(CostRow(lp), indiceC), y);
    KeyIsPlanKey(CostRow(lp), indiceC, v);
    KeyIsPlanKey(CostRow(lp), indiceC, y);
  }

  lemma BestIsOptimal(lp: Program, best: seq<real>, y: seq<real>)
    requires lp.WellFormed() && |best| == |lp.variabili| && lp.Admissible(y)
    requires forall v :: |v| == |lp.variabili| && Vertex(Constraints(lp), v) ==>
              LexAtMost(PlanKey(CostRow(lp), PositionOf(lp.variabili, C), best),
                        PlanKey(CostRow(lp), PositionOf(lp.variabili, C), v))
    ensures lp.RatioSum(best) <= lp.RatioSum(y)
    ensures ByteTermLimited(lp, PositionOf(lp.variabili, C)) ==>
              LexAtMost(PlanKey(CostRow(lp), PositionOf(lp.variabili, C), best),
                        PlanKey(CostRow(lp), PositionOf(lp.variabili, C), y))
  {
    var indiceC := PositionOf(lp.variabili, C);
    var v := VertexBelow(lp, None, y);
    ObjectiveIsRatioSum(lp, best);
    ObjectiveIsRatioSum(lp, y);
    assert PlanKey(CostRow(lp), indiceC, best)[0] <= PlanKey(CostRow(lp), indiceC, v)[0];
    assert PlanKey(CostRow(lp), None, v)[0] <= PlanKey(CostRow(lp), None, y)[0];
    if ByteTermLimited(lp, indiceC) {
      var w := VertexBelow(lp, indiceC, y);
      LexTransitive(PlanKey(CostRow(lp), indiceC, best), PlanKey(CostRow(lp), indiceC, w),
                    PlanKey(CostRow(lp), indiceC, y));
    }
  }

  lemma NotBest(lp: Program, best: seq<real>)
    requires lp.WellFormed() && lp.Admissible(best) && !ByteTermLimited(lp, PositionOf(lp.variabili, C))
    ensures exists y :: lp.Admissible(y) &&
              !LexAtMost(PlanKey(CostRow(lp), PositionOf(lp.variabili, C), best),
                         PlanKey(CostRow(lp), PositionOf(lp.variabili, C), y))
  {
    var i := PositionOf(lp.variabili, C).value;
    UnlimitedByteTerm(lp, i, best);
    var y := Move(best, 1.0, Unit(|best|, i));
    LexTotal(PlanKey(CostRow(lp), Some(i), y), PlanKey(CostRow(lp), Some(i), best));
    assert lp.Admissible(y);
  }

  method FeasiblePoint(cs: seq<Constraint>, x: seq<real>) returns (ok: bool)
    requires WellSized(cs, |x|)
    ensures ok <==> Feasible(cs, x)
  {
    for i := 0 to |cs|
      invariant forall k :: 0 <= k < i ==> Dot(cs[k].row, x, |x|) >= cs[k].bound
    {
      if Dot(cs[i].row, x, |x|) < cs[i].bound {
        return false;
      }
    }
    return true;
  }

  /** The feasible point the chosen constraints determine, if there is one. */
  method Candidate(vincoli: seq<Constraint>, scelti: seq<nat>) returns (x: Option<seq<real>>)
    requires WellSized(vincoli, |scelti|) && Choice(scelti, 0, |vincoli|, |scelti|)
    ensures x.Some? ==> |x.value| == |scelti| && Vertex(vincoli, x.value)
    ensures forall y :: Determined(vincoli, scelti, y) && Feasible(vincoli, y) <==> x == Some(y)
  {
    x := GaussJordan.Risolvi(ChosenRows(vincoli, scelti), ChosenBounds(vincoli, scelti));
    if x.Some? {
      assert Determined(vincoli, scelti, x.value);
      var ammissibile := FeasiblePoint(vincoli, x.value);
      if ammissibile {
        DeterminedIsVertex(vincoli, scelti, x.value);
      } else {
        x := None;
      }
    }
  }

  /** The exhaustive search: the vertex with the least key, if there is one. */
  method BestVertex(vincoli: seq<Constraint>, costo: seq<real>, indiceC: Option<nat>)
    returns (migliore: Option<seq<real>>)
    requires WellSized(vincoli, |costo|) && (indiceC.Some? ==> indiceC.value < |costo|)
    ensures migliore.Some? ==> |migliore.value| == |costo| && Vertex(vincoli, migliore.value)
    ensures forall v :: |v| == |costo| && Vertex(vincoli, v) ==>
              migliore.Some? && LexAtMost(PlanKey(costo, indiceC, migliore.value), PlanKey(costo, indiceC, v))
  {
    hide BestOf, Determined, Feasible, Vertex, LexAtMost, LexLess, PlanKey, Combinations;
    migliore := None;
    var scelte := Combinations(0, |vincoli|, |costo|);
    NoBestYet(vincoli, scelte, costo, indiceC);
    for k := 0 to |scelte|
      invariant BestOf(vincoli, scelte, k, costo, indiceC, migliore)
      invariant migliore.Some? ==> |migliore.value| == |costo|
    {
      var candidato := Candidate(vincoli, scelte[k]);
      if candidato.Some? {
        var x := candidato.value;
        StepBest(vincoli, scelte, k, costo, indiceC, migliore, x);
        if migliore.None? || LexLess(PlanKey(costo, indiceC, x), PlanKey(costo, indiceC, migliore.value)) {
          migliore := Some(x);
        }
      } else {
        SkipBest(vincoli, scelte, k, costo, indiceC, migliore);
      }
    }
    BestIsVertex(vincoli, scelte, |scelte|, costo, indiceC, migliore);
    forall v | |v| == |costo| && Vertex(vincoli, v)
      ensures migliore.Some? && LexAtMost(PlanKey(costo, indiceC, migliore.value), PlanKey(costo, indiceC, v))
    {
      BestOfAll(vincoli, costo, indiceC, migliore, v);
    }
  }

  /** The key of `piano_minimo` for the plan x. */
  function KeyOf(lp: Program, x: seq<real>): (k: seq<real>)
    requires lp.WellFormed() && |x| == |lp.variabili|
    ensures |k| == |lp.variabili| + 2
  {
    PlanKey(CostRow(lp), PositionOf(lp.variabili, C), x)
  }

  /** Position j holds the per-byte coefficient. */
  predicate IsByteTerm(variabili: seq<Coeff>, j: nat) {
    j < |variabili| && variabili[j] == C && C !in variabili[..j]
  }

  /** x has the smaller coefficient at the first position where the two differ. */
  ghost predicate FirstBelow(x: seq<real>, y: seq<real>)
    requires |x| == |y|
  {
    exists k :: 0 <= k < |x| && x[k] < y[k] && forall j :: 0 <= j < k ==> x[j] == y[j]
  }

  /** The order of the plans: the smaller sum of ratios, then the larger per-byte term, then the
      smaller coefficients in the order of the variables. */
  ghost predicate NotWorse(lp: Program, x: seq<real>, y: seq<real>)
    requires lp.WellFormed() && |x| == |y| == |lp.variabili|
  {
    || lp.RatioSum(x) < lp.RatioSum(y)
    || (lp.RatioSum(x) == lp.RatioSum(y) &&
        (|| (exists j: nat :: IsByteTerm(lp.variabili, j) && x[j] > y[j])
         || ((forall j: nat :: IsByteTerm(lp.variabili, j) ==> x[j] == y[j]) && (x == y || FirstBelow(x, y)))))
  }

  lemma {:induction false} LexIsFirstBelow(x: seq<real>, y: seq<real>)
    requires |x| == |y|
    ensures LexLess(x, y) <==> FirstBelow(x, y)
    ensures LexAtMost(x, y) <==> x == y || FirstBelow(x, y)
    decreases |x|
  {
    if x != [] {
      LexIsFirstBelow(x[1..], y[1..]);
      if FirstBelow(x, y) && x[0] == y[0] {
        var k :| 0 <= k < |x| && x[k] < y[k] && forall j :: 0 <= j < k ==> x[j] == y[j];
        assert x[1..][k - 1] < y[1..][k - 1];
        assert FirstBelow(x[1..], y[1..]);
      }
      if x[0] == y[0] && FirstBelow(x[1..], y[1..]) {
        var k :| 0 <= k < |x| - 1 && x[1..][k] < y[1..][k] && forall j :: 0 <= j < k ==> x[1..][j] == y[1..][j];
        assert x[k + 1] < y[k + 1] && forall j :: 1 <= j < k + 1 ==> x[j] == x[1..][j - 1] == y[j];
      }
    }
  }

  lemma {:induction false} PositionIsFirst(variabili: seq<Coeff>)
    ensures forall j: nat :: IsByteTerm(variabili, j) <==> PositionOf(variabili, C) == Some(j)
  {
    if variabili != [] {
      PositionIsFirst(variabili[1..]);
      forall j: nat ensures IsByteTerm(variabili, j) <==> PositionOf(variabili, C) == Some(j) {
        if j == 0 {
          assert IsByteTerm(variabili, 0) <==> variabili[0] == C;
        } else if j < |variabili| {
          assert variabili[..j] == [variabili[0]] + variabili[1..][..j - 1];
          assert IsByteTerm(variabili[1..], j - 1) <==> PositionOf(variabili[1..], C) == Some(j - 1 as nat);
        }
      }
    }
  }

  lemma LexKey(a: real, b: real, x: seq<real>, c: real, d: real, y: seq<real>)
    requires |x| == |y|
    ensures LexAtMost([a, b] + x, [c, d] + y) <==> a < c || (a == c && (b < d || (b == d && LexAtMost(x, y))))
  {
    var k, l := [a, b] + x, [c, d] + y;
    assert k[1..][1..] == x && l[1..][1..] == y && k[1..][0] == b && l[1..][0] == d;
    assert LexLess(k, l) <==> a < c || (a == c && LexLess(k[1..], l[1..]));
    assert LexLess(k[1..], l[1..]) <==> b < d || (b == d && LexLess(x, y));
    if a == c && b == d && x == y { assert k == l; }
    if k == l { assert a == k[0] == l[0] == c && b == k[1] == l[1] == d; }
  }

  /** Comparing the code's keys is comparing the plans in that order. */
  lemma KeyOrder(lp: Program, x: seq<real>, y: seq<real>)
    requires lp.WellFormed() && |x| == |y| == |lp.variabili|
    ensures LexAtMost(KeyOf(lp, x), KeyOf(lp, y)) <==> NotWorse(lp, x, y)
  {
    hide LexLess, LexAtMost, FirstBelow, CostRow, IsByteTerm, PositionOf, Program.RatioSum;
    ObjectiveIsRatioSum(lp, x);
    ObjectiveIsRatioSum(lp, y);
    PositionIsFirst(lp.variabili);
    LexIsFirstBelow(x, y);
    LexKey(KeyOf(lp, x)[0], KeyOf(lp, x)[1], x, KeyOf(lp, y)[0], KeyOf(lp, y)[1], y);
    assert KeyOf(lp, x) == [KeyOf(lp, x)[0], KeyOf(lp, x)[1]] + x;
    assert KeyOf(lp, y) == [KeyOf(lp, y)[0], KeyOf(lp, y)[1]] + y;
  }

  /** Raising a coefficient no point has units for costs nothing. */
  lemma SameCost(lp: Program, x: seq<real>, i: nat)
    requires lp.WellFormed() && |x| == |lp.variabili| && i < |x| && !ByteTermLimited(lp, Some(i))
    ensures lp.RatioSum(Move(x, 1.0, Unit(|x|, i))) == lp.RatioSum(x)
  {
    ObjectiveIsRatioSum(lp, x);
    ObjectiveIsRatioSum(lp, Move(x, 1.0, Unit(|x|, i)));
    DotMove(CostRow(lp), x, 1.0, Unit(|x|, i), |x|);
    DotSymmetric(CostRow(lp), Unit(|x|, i), |x|);
    DotUnit(|x|, i, CostRow(lp));
    CostsNonNegative(lp);
  }

  /** Some equally cheap plan is to be preferred. */
  ghost predicate Beaten(lp: Program, x: seq<real>)
    requires lp.WellFormed()
  {
    && |x| == |lp.variabili|
    && exists y :: lp.Admissible(y) && lp.RatioSum(y) == lp.RatioSum(x) && !NotWorse(lp, x, y)
  }

  /** When the per-byte term is free every plan is beaten. */
  lemma UnlimitedIsBeaten(lp: Program, x: seq<real>)
    requires lp.WellFormed() && lp.Admissible(x) && !ByteTermLimited(lp, PositionOf(lp.variabili, C))
    ensures Beaten(lp, x)
  {
    var i := PositionOf(lp.variabili, C).value;
    var y := Move(x, 1.0, Unit(|x|, i));
    UnlimitedByteTerm(lp, i, x);
    SameCost(lp, x, i);
    KeyOrder(lp, x, y);
    LexTotal(KeyOf(lp, y), KeyOf(lp, x));
    assert lp.Admissible(y) && !NotWorse(lp, x, y);
  }

  method PianoMinimo(lp: Program) returns (r: Result<seq<real>, NoVertex>)
    requires lp.WellFormed()
    ensures r.Err? <==> !exists y :: lp.Admissible(y)
    // the plan covers every point, and no admissible real point has a smaller sum of ratios
    ensures r.Ok? ==> lp.Admissible(r.value)
    ensures r.Ok? ==> forall y :: lp.Admissible(y) ==> lp.RatioSum(r.value) <= lp.RatioSum(y)
    // ties: no vertex is better, and no admissible point exactly when the per-byte term is limited
    ensures r.Ok? ==> Vertex(Constraints(lp), r.value)
    ensures r.Ok? ==> forall v :: |v| == |lp.variabili| && Vertex(Constraints(lp), v) ==>
              NotWorse(lp, r.value, v)
    ensures r.Ok? ==> (ByteTermLimited(lp, PositionOf(lp.variabili, C)) <==>
              forall y :: lp.Admissible(y) ==> NotWorse(lp, r.value, y))
  {
    var indiceC := PositionOf(lp.variabili, C);
    var migliore := BestVertex(Constraints(lp), CostRow(lp), indiceC);
    if migliore.None? {
      forall y | lp.Admissible(y) ensures false {
        var v := VertexBelow(lp, None, y);
      }
      return Err(NoVertex);
    }
    var x := migliore.value;
    AdmissibleIsFeasible(lp, x);
    forall y | |y| == |x| ensures LexAtMost(KeyOf(lp, x), KeyOf(lp, y)) <==> NotWorse(lp, x, y) {
      KeyOrder(lp, x, y);
    }
    forall y | lp.Admissible(y)
      ensures lp.RatioSum(x) <= lp.RatioSum(y)
      ensures ByteTermLimited(lp, indiceC) ==> NotWorse(lp, x, y)
    {
      BestIsOptimal(lp, x, y);
    }
    if !ByteTermLimited(lp, indiceC) {
      NotBest(lp, x);
    }
    return Ok(x);
  }
}
