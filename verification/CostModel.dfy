/** `adatta` and `base`: integer coefficients rounded up from the minimal plan, the two
    extrapolation branches by row width, and the evaluation of the model. */
module CostModel {
  import opened Integers
  import opened Vectors
  import opened Wrappers
  import opened MinimalPlan
  import opened StringOrder

  const MILLE := 1000

  /** A measured point: rows, bytes, cells, pairs, peak to cover and width class. */
  datatype Point = Point(R: int, B: int, K: int, P: int, y: int, classe: string) {
    predicate Counts() { R >= 0 && B >= 0 && K >= 0 && P >= 0 }
  }

  /** `modello`: `a` in bytes, the others in thousandths of a byte per unit. */
  datatype Model = Model(a: int, r: int, c: int, k: int, p: int, rS: int, cL: int) {
    predicate NonNegative() {
      a >= 0 && r >= 0 && c >= 0 && k >= 0 && p >= 0 && rS >= 0 && cL >= 0
    }
  }

  // ----- ceilings

  /** `-(-n // d)`. */
  function CeilDiv(n: int, d: int): (q: int)
    requires d > 0
    ensures (q - 1) * d < n <= q * d
  {
    -((-n) / d)
  }

  /** The least integer not below the fraction. */
  function CeilFrazione(x: real): (q: int)
    ensures (q - 1) as real < x <= q as real
  {
    -((-x).Floor)
  }

  function PerUnita(millesimi: int, unita: int): (q: int)
    ensures (q - 1) * MILLE < millesimi * unita <= q * MILLE
  {
    CeilDiv(millesimi * unita, MILLE)
  }

  /** `base`: what the model predicts, every term rounded up. */
  function Base(m: Model, u: Point): int {
    m.a + Max(PerUnita(m.r, u.R) + PerUnita(m.c, u.B), Max(PerUnita(m.rS, u.R), PerUnita(m.cL, u.B)))
    + PerUnita(m.k, u.K) + PerUnita(m.p, u.P)
  }

  lemma PerUnitaMonotone(m: int, u: int, v: int)
    requires m >= 0 && u <= v
    ensures PerUnita(m, u) <= PerUnita(m, v)
    ensures u >= 0 ==> PerUnita(m, u) >= 0
  {
    assert m * u <= m * v;
    if u >= 0 { assert m * u >= 0; }
  }

  /** A larger input never lowers the prediction. */
  lemma BaseMonotone(m: Model, u: Point, v: Point)
    requires m.NonNegative() && u.R <= v.R && u.B <= v.B && u.K <= v.K && u.P <= v.P
    ensures Base(m, u) <= Base(m, v)
  {
    PerUnitaMonotone(m.r, u.R, v.R);
    PerUnitaMonotone(m.c, u.B, v.B);
    PerUnitaMonotone(m.rS, u.R, v.R);
    PerUnitaMonotone(m.cL, u.B, v.B);
    PerUnitaMonotone(m.k, u.K, v.K);
    PerUnitaMonotone(m.p, u.P, v.P);
  }

  function MaxReal(a: real, b: real): real { if a < b then b else a }

  /** One term of the model without rounding. */
  function Quota(millesimi: int, unita: int): real { millesimi as real * unita as real / 1000.0 }

  /** What the model predicts without rounding: the constant, the largest of the plan and the
      two branches, cells and pairs. */
  function Esatto(m: Model, u: Point): real {
    m.a as real
    + MaxReal(Quota(m.r, u.R) + Quota(m.c, u.B), MaxReal(Quota(m.rS, u.R), Quota(m.cL, u.B)))
    + Quota(m.k, u.K) + Quota(m.p, u.P)
  }

  lemma TermRounding(millesimi: int, unita: int)
    ensures Quota(millesimi, unita) <= PerUnita(millesimi, unita) as real < Quota(millesimi, unita) + 1.0
  {
    var q, n := PerUnita(millesimi, unita), millesimi * unita;
    assert (q - 1) * MILLE < n <= q * MILLE;
    assert n as real == millesimi as real * unita as real;
    assert (q * MILLE) as real == q as real * 1000.0;
  }

  /** Rounding term by term adds less than four bytes, and never subtracts any. */
  lemma BaseRounding(m: Model, u: Point)
    ensures Esatto(m, u) <= Base(m, u) as real < Esatto(m, u) + 4.0
  {
    TermRounding(m.r, u.R);
    TermRounding(m.c, u.B);
    TermRounding(m.rS, u.R);
    TermRounding(m.cL, u.B);
    TermRounding(m.k, u.K);
    TermRounding(m.p, u.P);
    hide PerUnita, Quota;
  }

  /** Thousandths rounded up, then the product rounded up, never fall below the exact product. */
  lemma RoundingCovers(coeff: real, m: int, u: int)
    requires m as real >= coeff * 1000.0 && u >= 0
    ensures PerUnita(m, u) as real >= Parte(coeff, u)
  {
    var q := PerUnita(m, u);
    var ur := u as real;
    assert (m as real - coeff * 1000.0) * ur >= 0.0;
    assert (m as real) * ur == (m * u) as real;
    assert (q * 1000) as real >= (m * u) as real;
    assert (coeff * 1000.0) * ur == 1000.0 * (coeff * ur);
  }

  // ----- the program of a fit

  function Variabili(celle: bool, coppie: bool, senzaByte: bool): (vs: seq<Coeff>)
    ensures |vs| == Numero(celle, coppie, senzaByte)
  {
    if coppie then [A, MinimalPlan.P]
    else if senzaByte then [A, MinimalPlan.R]
    else if celle then [A, MinimalPlan.R, C, MinimalPlan.K]
    else [A, MinimalPlan.R, C]
  }

  function UnitsOf(p: Point): Units { Units(1, p.R, p.B, p.K, p.P) }

  function MinPeak(punti: seq<Point>): (m: int)
    requires punti != []
    ensures forall i :: 0 <= i < |punti| ==> m <= punti[i].y
    ensures exists i :: 0 <= i < |punti| && punti[i].y == m
  {
    if |punti| == 1 then punti[0].y
    else
      var rest := MinPeak(punti[1..]);
      assert forall i :: 1 <= i < |punti| ==> punti[i] == punti[1..][i - 1];
      assert exists i :: 1 <= i < |punti| && punti[i].y == rest by {
        var j :| 0 <= j < |punti| - 1 && punti[1..][j].y == rest;
        assert punti[j + 1].y == rest;
      }
      if punti[0].y < rest then punti[0].y else rest
  }

  ghost predicate AllCounts(punti: seq<Point>) {
    forall i :: 0 <= i < |punti| ==> punti[i].Counts()
  }

  function FitProgram(punti: seq<Point>, variabili: seq<Coeff>, cMinimo: int): (lp: Program)
    requires punti != []
    ensures AllCounts(punti) ==> lp.WellFormed()
  {
    Program(seq(|punti|, i requires 0 <= i < |punti| => UnitsOf(punti[i])),
            seq(|punti|, i requires 0 <= i < |punti| => punti[i].y),
            variabili,
            if C in variabili then map[C := cMinimo as real] else map[],
            map[A := MinPeak(punti) as real])
  }

  /** The coefficient of v in a plan, zero when the plan has no such variable. */
  function CoeffOf(variabili: seq<Coeff>, piano: seq<real>, v: Coeff): real
    requires |variabili| == |piano|
  {
    match PositionOf(variabili, v) case None => 0.0 case Some(i) => piano[i]
  }

  /** The rounded plan, without the extrapolation branches. */
  function Rounded(variabili: seq<Coeff>, piano: seq<real>): Model
    requires |variabili| == |piano|
  {
    Model(CeilFrazione(CoeffOf(variabili, piano, A)),
          CeilFrazione(CoeffOf(variabili, piano, MinimalPlan.R) * 1000.0),
          CeilFrazione(CoeffOf(variabili, piano, C) * 1000.0),
          CeilFrazione(CoeffOf(variabili, piano, MinimalPlan.K) * 1000.0),
          CeilFrazione(CoeffOf(variabili, piano, MinimalPlan.P) * 1000.0),
          0, 0)
  }

  // ----- what the program of a fit asks, mode by mode

  /** The number of coefficients of a mode: `a, p`, or `a, r`, or `a, r, c, k`, or `a, r, c`. */
  function Numero(celle: bool, coppie: bool, senzaByte: bool): nat {
    if coppie || senzaByte then 2 else if celle then 4 else 3
  }

  /** What the coefficients x predict for a point, without rounding. */
  function Prevista(celle: bool, coppie: bool, senzaByte: bool, x: seq<real>, p: Point): real
    requires |x| == Numero(celle, coppie, senzaByte)
  {
    if coppie then x[0] + Parte(x[1], p.P)
    else if senzaByte then x[0] + Parte(x[1], p.R)
    else x[0] + Parte(x[1], p.R) + Parte(x[2], p.B) + if celle then Parte(x[3], p.K) else 0.0
  }

  /** One term of a plan. */
  function Parte(coeff: real, unita: int): real { coeff * unita as real }

  /** The coefficients x cover every peak, the constant between zero and the least peak, `c` at
      least `cMinimo` and no other coefficient negative. */
  ghost predicate Piano(punti: seq<Point>, celle: bool, coppie: bool, senzaByte: bool, cMinimo: int, x: seq<real>) {
    && |x| == Numero(celle, coppie, senzaByte)
    && (forall i :: 0 <= i < |punti| ==> Prevista(celle, coppie, senzaByte, x, punti[i]) >= punti[i].y as real)
    && 0.0 <= x[0] && (forall i :: 0 <= i < |punti| ==> x[0] <= punti[i].y as real)
    && x[1] >= 0.0
    && (!coppie && !senzaByte ==> x[2] >= cMinimo as real)
    && (celle && !coppie && !senzaByte ==> x[3] >= 0.0)
  }

  /** The sum over the first k points of predicted over measured, at least 1 MiB. */
  function Costo(punti: seq<Point>, celle: bool, coppie: bool, senzaByte: bool, x: seq<real>, k: nat): real
    requires |x| == Numero(celle, coppie, senzaByte) && k <= |punti|
  {
    if k == 0 then 0.0
    else
      var p := punti[k - 1];
      Costo(punti, celle, coppie, senzaByte, x, k - 1)
      + Prevista(celle, coppie, senzaByte, x, p) / (if p.y < 1048576 then 1048576 else p.y) as real
  }

  /** q is the least integer not below x. */
  predicate Ceiling(q: int, x: real) { x <= q as real < x + 1.0 }

  /** The integer model of a plan: `a` in bytes and the others in thousandths, rounded up, zero
      where the mode has no such coefficient. */
  predicate RoundsPlan(m: Model, celle: bool, coppie: bool, senzaByte: bool, x: seq<real>)
    requires |x| == Numero(celle, coppie, senzaByte)
  {
    && Ceiling(m.a, x[0])
    && (if coppie then m.r == 0 && Ceiling(m.p, x[1] * 1000.0) else m.p == 0 && Ceiling(m.r, x[1] * 1000.0))
    && (if coppie || senzaByte then m.c == 0 else Ceiling(m.c, x[2] * 1000.0))
    && (if celle && !coppie && !senzaByte then Ceiling(m.k, x[3] * 1000.0) else m.k == 0)
  }

  lemma DotSmall(u: seq<real>, v: seq<real>)
    requires 2 <= |u| == |v|
    ensures Dot(u, v, 2) == u[0] * v[0] + u[1] * v[1]
    ensures |u| >= 3 ==> Dot(u, v, 3) == u[0] * v[0] + u[1] * v[1] + u[2] * v[2]
    ensures |u| >= 4 ==> Dot(u, v, 4) == u[0] * v[0] + u[1] * v[1] + u[2] * v[2] + u[3] * v[3]
  {
    assert Dot(u, v, 1) == Dot(u, v, 0) + u[0] * v[0];
    assert Dot(u, v, 2) == Dot(u, v, 1) + u[1] * v[1];
    if |u| >= 3 {
      assert Dot(u, v, 3) == Dot(u, v, 2) + u[2] * v[2];
    }
  }

  lemma PredictedIs(celle: bool, coppie: bool, senzaByte: bool, p: Point, x: seq<real>)
    requires |x| == Numero(celle, coppie, senzaByte)
    ensures Dot(UnitRow(UnitsOf(p), Variabili(celle, coppie, senzaByte)), x, |x|)
         == Prevista(celle, coppie, senzaByte, x, p)
  {
    var vs := Variabili(celle, coppie, senzaByte);
    var row := UnitRow(UnitsOf(p), vs);
    DotSmall(row, x);
    assert row[0] == 1.0;
  }

  lemma {:induction false} RatioSumIs(punti: seq<Point>, celle: bool, coppie: bool, senzaByte: bool, cMinimo: int,
                                      x: seq<real>, k: nat)
    requires AllCounts(punti) && |x| == Numero(celle, coppie, senzaByte) && 0 < |punti| && k <= |punti|
    ensures FitProgram(punti, Variabili(celle, coppie, senzaByte), cMinimo).RatioSumTo(x, k)
         == Costo(punti, celle, coppie, senzaByte, x, k)
  {
    hide Prevista, Dot, UnitRow;
    if k > 0 {
      RatioSumIs(punti, celle, coppie, senzaByte, cMinimo, x, k - 1);
      PredictedIs(celle, coppie, senzaByte, punti[k - 1], x);
    }
  }

  lemma LeastPeak(punti: seq<Point>, a: real)
    requires punti != []
    ensures a <= MinPeak(punti) as real <==> forall i :: 0 <= i < |punti| ==> a <= punti[i].y as real
  {
  }

  ghost predicate FitMeans(punti: seq<Point>, celle: bool, coppie: bool, senzaByte: bool, cMinimo: int, x: seq<real>)
    requires punti != [] && AllCounts(punti)
  {
    var lp := FitProgram(punti, Variabili(celle, coppie, senzaByte), cMinimo);
    && (lp.Admissible(x) <==> Piano(punti, celle, coppie, senzaByte, cMinimo, x))
    && (|x| == |lp.variabili| ==> lp.RatioSum(x) == Costo(punti, celle, coppie, senzaByte, x, |punti|))
  }

  /** The bounds of the program, coefficient by coefficient. */
  lemma BoundsOfFit(punti: seq<Point>, celle: bool, coppie: bool, senzaByte: bool, cMinimo: int, x: seq<real>)
    requires punti != [] && |x| == Numero(celle, coppie, senzaByte)
    ensures WithinBounds(FitProgram(punti, Variabili(celle, coppie, senzaByte), cMinimo), x) <==>
            && 0.0 <= x[0] <= MinPeak(punti) as real && x[1] >= 0.0
            && (!coppie && !senzaByte ==> x[2] >= cMinimo as real)
            && (celle && !coppie && !senzaByte ==> x[3] >= 0.0)
  {
    hide MinPeak;
  }

  ghost predicate WithinBounds(lp: Program, x: seq<real>)
    requires |x| == |lp.variabili|
  {
    && (forall j :: 0 <= j < |x| ==> x[j] >= if lp.variabili[j] in lp.minimi then lp.minimi[lp.variabili[j]] else 0.0)
    && (forall j :: 0 <= j < |x| && lp.variabili[j] in lp.massimi ==> x[j] <= lp.massimi[lp.variabili[j]])
  }

  /** The program `adatta` builds asks for exactly the documented plans and minimises exactly the
      documented sum. */
  lemma FitProgramMeans(punti: seq<Point>, celle: bool, coppie: bool, senzaByte: bool, cMinimo: int, x: seq<real>)
    requires punti != [] && AllCounts(punti)
    ensures FitMeans(punti, celle, coppie, senzaByte, cMinimo, x)
  {
    hide Prevista, Dot, UnitRow, MinPeak, Costo, Variabili;
    var vs := Variabili(celle, coppie, senzaByte);
    var lp := FitProgram(punti, vs, cMinimo);
    if |x| == |vs| {
      forall i | 0 <= i < |punti| ensures lp.Predicted(i, x) == Prevista(celle, coppie, senzaByte, x, punti[i]) {
        PredictedIs(celle, coppie, senzaByte, punti[i], x);
      }
      LeastPeak(punti, x[0]);
      BoundsOfFit(punti, celle, coppie, senzaByte, cMinimo, x);
      RatioSumIs(punti, celle, coppie, senzaByte, cMinimo, x, |punti|);
    }
  }

  lemma PositionOfVariabili(celle: bool, coppie: bool, senzaByte: bool)
    ensures var vs := Variabili(celle, coppie, senzaByte);
            && PositionOf(vs, A) == Some(0)
            && PositionOf(vs, MinimalPlan.R) == (if coppie then None else Some(1))
            && PositionOf(vs, C) == (if coppie || senzaByte then None else Some(2))
            && PositionOf(vs, MinimalPlan.K) == (if celle && !coppie && !senzaByte then Some(3) else None)
            && PositionOf(vs, MinimalPlan.P) == (if coppie then Some(1) else None)
  {
    var vs := Variabili(celle, coppie, senzaByte);
    assert forall v :: PositionOf([], v) == None;
    assert forall v :: PositionOf(vs, v) == if vs[0] == v then Some(0) else
      match PositionOf(vs[1..], v) case None => None case Some(k) => Some(k + 1);
    assert forall v :: PositionOf(vs[1..], v) == if vs[1] == v then Some(0) else
      match PositionOf(vs[1..][1..], v) case None => None case Some(k) => Some(k + 1);
  }

  /** The code's rounding, variable by variable, is that of the mode. */
  lemma RoundedIs(celle: bool, coppie: bool, senzaByte: bool, piano: seq<real>)
    requires |piano| == |Variabili(celle, coppie, senzaByte)|
    ensures RoundsPlan(Rounded(Variabili(celle, coppie, senzaByte), piano), celle, coppie, senzaByte, piano)
    ensures Rounded(Variabili(celle, coppie, senzaByte), piano).rS == 0
    ensures Rounded(Variabili(celle, coppie, senzaByte), piano).cL == 0
  {
    hide PositionOf;
    PositionOfVariabili(celle, coppie, senzaByte);
  }

  // ----- coverage of the measured points

  lemma NoTerm(unita: int)
    ensures PerUnita(0, unita) == 0
  {
  }

  /** Rounding never loses coverage: a rounded plan predicts at least what the plan does. */
  lemma RoundedCovers(celle: bool, coppie: bool, senzaByte: bool, piano: seq<real>, m: Model, u: Point)
    requires |piano| == Numero(celle, coppie, senzaByte) && u.Counts()
    requires RoundsPlan(m, celle, coppie, senzaByte, piano)
    ensures Base(m, u) as real >= Prevista(celle, coppie, senzaByte, piano, u)
  {
    hide PerUnita, Parte;
    NoTerm(u.R);
    NoTerm(u.B);
    NoTerm(u.K);
    NoTerm(u.P);
    RoundingCovers(piano[1], if coppie then m.p else m.r, if coppie then u.P else u.R);
    if !coppie && !senzaByte {
      RoundingCovers(piano[2], m.c, u.B);
      if celle { RoundingCovers(piano[3], m.k, u.K); }
    }
  }

  // ----- width classes

  function ClassOf(punti: seq<Point>, nome: string): (ps: seq<Point>)
    ensures forall i :: 0 <= i < |ps| ==> ps[i] in punti && ps[i].classe == nome
    ensures forall p :: p in punti && p.classe == nome ==> p in ps
  {
    if punti == [] then [] else
      var last := punti[|punti| - 1];
      assert punti == punti[..|punti| - 1] + [last];
      ClassOf(punti[..|punti| - 1], nome) + (if last.classe == nome then [last] else [])
  }

  /** The point with the most rows, then the most bytes. */
  function Biggest(ps: seq<Point>): (g: Point)
    requires ps != []
    ensures g in ps && forall p :: p in ps ==> p.R < g.R || (p.R == g.R && p.B <= g.B)
  {
    if |ps| == 1 then ps[0] else
      var g := Biggest(ps[..|ps| - 1]);
      var last := ps[|ps| - 1];
      assert ps == ps[..|ps| - 1] + [last];
      if g.R < last.R || (g.R == last.R && g.B < last.B) then last else g
  }

  /** `larghezza`: the bytes per row of a class; the source divides by zero without rows. */
  function Larghezza(ps: seq<Point>): Option<real>
    requires ps != []
  {
    var g := Biggest(ps);
    if g.R == 0 then None else Some(WidthOf(g))
  }

  function WidthOf(p: Point): real
    requires p.R != 0
  {
    p.B as real / p.R as real
  }

  /** The order of `(larghezza(nome), nome)`. */
  predicate KeyLess(w: real, n: string, w': real, n': string) {
    w < w' || (w == w' && Before(n, n'))
  }

  ghost predicate Names(punti: seq<Point>, nome: string) {
    exists p :: p in punti && p.classe == nome
  }

  ghost predicate Narrowest(punti: seq<Point>, nome: string) {
    && Names(punti, nome) && ClassOf(punti, nome) != [] && Larghezza(ClassOf(punti, nome)).Some?
    && forall n :: Names(punti, n) && n != nome ==>
         && ClassOf(punti, n) != [] && Larghezza(ClassOf(punti, n)).Some?
         && KeyLess(Larghezza(ClassOf(punti, nome)).value, nome, Larghezza(ClassOf(punti, n)).value, n)
  }

  ghost predicate Widest(punti: seq<Point>, nome: string) {
    && Names(punti, nome) && ClassOf(punti, nome) != [] && Larghezza(ClassOf(punti, nome)).Some?
    && forall n :: Names(punti, n) && n != nome ==>
         && ClassOf(punti, n) != [] && Larghezza(ClassOf(punti, n)).Some?
         && KeyLess(Larghezza(ClassOf(punti, n)).value, n, Larghezza(ClassOf(punti, nome)).value, nome)
  }

  lemma KeyLessTransitive(w: real, n: string, w': real, n': string, w'': real, n'': string)
    requires KeyLess(w, n, w', n') && KeyLess(w', n', w'', n'')
    ensures KeyLess(w, n, w'', n'')
  {
    if w == w' == w'' { BeforeTransitive(n, n', n''); }
  }

  lemma KeyLessTotal(w: real, n: string, w': real, n': string)
    requires n != n'
    ensures KeyLess(w, n, w', n') <==> !KeyLess(w', n', w, n)
  {
    BeforeTotal(n, n');
  }

  // ----- what the widths compare, in integers

  /** g has the most rows of its class, then the most bytes. */
  ghost predicate IsBiggest(punti: seq<Point>, nome: string, g: Point) {
    && g in punti && g.classe == nome
    && forall p :: p in punti && p.classe == nome ==> p.R < g.R || (p.R == g.R && p.B <= g.B)
  }

  lemma BiggestIs(punti: seq<Point>, nome: string)
    ensures Names(punti, nome) <==> ClassOf(punti, nome) != []
    ensures Names(punti, nome) ==> IsBiggest(punti, nome, Biggest(ClassOf(punti, nome)))
    ensures forall g :: IsBiggest(punti, nome, g) ==>
              g.R == Biggest(ClassOf(punti, nome)).R && g.B == Biggest(ClassOf(punti, nome)).B
  {
    hide Biggest;
    var ps := ClassOf(punti, nome);
    if ps != [] {
      assert ps[0] in punti && ps[0].classe == nome;
      assert Biggest(ps) in ps;
    }
    forall g | IsBiggest(punti, nome, g) ensures g.R == Biggest(ps).R && g.B == Biggest(ps).B {
      assert g in ps;
    }
  }

  lemma WidthOrder(g: Point, h: Point)
    requires g.Counts() && h.Counts() && g.R > 0 && h.R > 0
    ensures WidthOf(g) < WidthOf(h) <==> g.B * h.R < h.B * g.R
    ensures WidthOf(g) == WidthOf(h) <==> g.B * h.R == h.B * g.R
  {
    var gb, gr, hb, hr := g.B as real, g.R as real, h.B as real, h.R as real;
    CastProduct(g.B, h.R);
    CastProduct(h.B, g.R);
    QuotientTimes(gb, gr, hr);
    QuotientTimes(hb, hr, gr);
    SameSide(gb / gr, hb / hr, gr * hr);
  }

  lemma QuotientTimes(b: real, r: real, s: real)
    requires r > 0.0
    ensures (b / r) * (r * s) == b * s
    ensures (b / r) * (s * r) == b * s
  {
    assert (b / r) * r == b;
  }

  lemma SameSide(a: real, b: real, v: real)
    requires v > 0.0
    ensures a < b <==> a * v < b * v
    ensures a == b <==> a * v == b * v
  {
  }

  /** The biggest point of class n is narrower than that of class n', ties by name. */
  ghost predicate Narrower(punti: seq<Point>, n: string, n': string) {
    forall g, h :: IsBiggest(punti, n, g) && IsBiggest(punti, n', h) ==>
      g.B * h.R < h.B * g.R || (g.B * h.R == h.B * g.R && Before(n, n'))
  }

  ghost predicate HasRows(punti: seq<Point>, nome: string) {
    Names(punti, nome) && forall g :: IsBiggest(punti, nome, g) ==> g.R > 0
  }

  lemma NarrowerIs(punti: seq<Point>, n: string, n': string)
    requires AllCounts(punti) && HasRows(punti, n) && HasRows(punti, n')
    ensures ClassOf(punti, n) != [] && Larghezza(ClassOf(punti, n)).Some?
    ensures ClassOf(punti, n') != [] && Larghezza(ClassOf(punti, n')).Some?
    ensures Narrower(punti, n, n') <==>
            KeyLess(Larghezza(ClassOf(punti, n)).value, n, Larghezza(ClassOf(punti, n')).value, n')
  {
    hide Biggest, WidthOf, Before, ClassOf, Names, IsBiggest;
    BiggestIs(punti, n);
    BiggestIs(punti, n');
    var g, h := Biggest(ClassOf(punti, n)), Biggest(ClassOf(punti, n'));
    InPoints(punti, n, g);
    InPoints(punti, n', h);
    WidthOrder(g, h);
  }

  lemma InPoints(punti: seq<Point>, n: string, g: Point)
    requires AllCounts(punti) && IsBiggest(punti, n, g)
    ensures g.Counts()
  {
  }

  lemma HasRowsIs(punti: seq<Point>, n: string)
    requires AllCounts(punti)
    ensures HasRows(punti, n) <==> ClassOf(punti, n) != [] && Larghezza(ClassOf(punti, n)).Some?
  {
    hide Biggest, WidthOf, ClassOf, Names, IsBiggest;
    BiggestIs(punti, n);
    if Names(punti, n) { InPoints(punti, n, Biggest(ClassOf(punti, n))); }
  }

  /** The extreme classes compare the widths of their biggest points, in integers, ties by name. */
  lemma ExtremesMean(punti: seq<Point>, nome: string)
    requires AllCounts(punti)
    ensures Narrowest(punti, nome) <==>
            && HasRows(punti, nome)
            && forall n :: Names(punti, n) && n != nome ==> HasRows(punti, n) && Narrower(punti, nome, n)
    ensures Widest(punti, nome) <==>
            && HasRows(punti, nome)
            && forall n :: Names(punti, n) && n != nome ==> HasRows(punti, n) && Narrower(punti, n, nome)
  {
    hide HasRows, Narrower, ClassOf, Larghezza, KeyLess, Names;
    forall n ensures HasRows(punti, n) <==> ClassOf(punti, n) != [] && Larghezza(ClassOf(punti, n)).Some? {
      HasRowsIs(punti, n);
    }
    if HasRows(punti, nome) {
      forall n | HasRows(punti, n)
        ensures Narrower(punti, nome, n) <==>
                KeyLess(Larghezza(ClassOf(punti, nome)).value, nome, Larghezza(ClassOf(punti, n)).value, n)
        ensures Narrower(punti, n, nome) <==>
                KeyLess(Larghezza(ClassOf(punti, n)).value, n, Larghezza(ClassOf(punti, nome)).value, nome)
      {
        NarrowerIs(punti, nome, n);
        NarrowerIs(punti, n, nome);
      }
    }
    HasRowsNamed(punti, nome);
  }

  lemma HasRowsNamed(punti: seq<Point>, nome: string)
    ensures HasRows(punti, nome) ==> Names(punti, nome)
  {
  }

  datatype FitError = EmptyPoints | NoPlan | DivisionByZero

  /** `classi`: the points of each class, the class names in order of first appearance. */
  method Classi(punti: seq<Point>) returns (classi: map<string, seq<Point>>, nomi: seq<string>)
    ensures forall n :: n in classi <==> Names(punti, n)
    ensures forall n :: n in nomi <==> Names(punti, n)
    ensures forall n :: n in classi ==> classi[n] == ClassOf(punti, n) && classi[n] != []
  {
    hide Names, ClassOf;
    classi, nomi := map[], [];
    NoNames();
    for i := 0 to |punti|
      invariant forall n :: n in classi <==> Names(punti[..i], n)
      invariant forall n :: n in nomi <==> n in classi
      invariant forall n :: n in classi ==> classi[n] == ClassOf(punti[..i], n) && classi[n] != []
    {
      var p := punti[i];
      NamesStep(punti, i);
      ClassStep(punti, i);
      if p.classe !in classi {
        NoClassYet(punti[..i], p.classe);
        classi, nomi := classi[p.classe := [p]], nomi + [p.classe];
      } else {
        classi := classi[p.classe := classi[p.classe] + [p]];
      }
    }
    assert punti[..|punti|] == punti;
  }

  lemma NoNames()
    ensures forall n :: !Names([], n)
  {
  }

  lemma NamesStep(punti: seq<Point>, i: nat)
    requires i < |punti|
    ensures forall n :: Names(punti[..i + 1], n) <==> Names(punti[..i], n) || n == punti[i].classe
  {
    assert punti[..i + 1] == punti[..i] + [punti[i]];
    forall n ensures Names(punti[..i + 1], n) <==> Names(punti[..i], n) || n == punti[i].classe {
      assert punti[i] in punti[..i + 1];
    }
  }

  lemma ClassStep(punti: seq<Point>, i: nat)
    requires i < |punti|
    ensures forall n :: ClassOf(punti[..i + 1], n)
                     == ClassOf(punti[..i], n) + (if punti[i].classe == n then [punti[i]] else [])
  {
    assert punti[..i + 1][..i] == punti[..i];
  }

  lemma NoClassYet(punti: seq<Point>, nome: string)
    requires !Names(punti, nome)
    ensures ClassOf(punti, nome) == []
  {
  }

  /** `min(classi, key=lambda nome: (larghezza(nome), nome))`. */
  method MinClasse(larghezze: map<string, real>, nomi: seq<string>) returns (stretta: string)
    requires nomi != [] && forall n :: n in nomi ==> n in larghezze
    ensures stretta in nomi
    ensures forall n :: n in nomi && n != stretta ==> KeyLess(larghezze[stretta], stretta, larghezze[n], n)
  {
    stretta := nomi[0];
    for i := 1 to |nomi|
      invariant stretta in nomi
      invariant forall j :: 0 <= j < i && nomi[j] != stretta ==>
        KeyLess(larghezze[stretta], stretta, larghezze[nomi[j]], nomi[j])
    {
      var n := nomi[i];
      assert n in nomi;
      if KeyLess(larghezze[n], n, larghezze[stretta], stretta) {
        forall j | 0 <= j < i && nomi[j] != n ensures KeyLess(larghezze[n], n, larghezze[nomi[j]], nomi[j]) {
          if nomi[j] != stretta {
            KeyLessTransitive(larghezze[n], n, larghezze[stretta], stretta, larghezze[nomi[j]], nomi[j]);
          }
        }
        stretta := n;
      } else if n != stretta {
        KeyLessTotal(larghezze[n], n, larghezze[stretta], stretta);
      }
    }
  }

  /** `max(classi, key=lambda nome: (larghezza(nome), nome))`. */
  method MaxClasse(larghezze: map<string, real>, nomi: seq<string>) returns (larga: string)
    requires nomi != [] && forall n :: n in nomi ==> n in larghezze
    ensures larga in nomi
    ensures forall n :: n in nomi && n != larga ==> KeyLess(larghezze[n], n, larghezze[larga], larga)
  {
    larga := nomi[0];
    for i := 1 to |nomi|
      invariant larga in nomi
      invariant forall j :: 0 <= j < i && nomi[j] != larga ==>
        KeyLess(larghezze[nomi[j]], nomi[j], larghezze[larga], larga)
    {
      var n := nomi[i];
      assert n in nomi;
      if KeyLess(larghezze[larga], larga, larghezze[n], n) {
        forall j | 0 <= j < i && nomi[j] != n ensures KeyLess(larghezze[nomi[j]], nomi[j], larghezze[n], n) {
          if nomi[j] != larga {
            KeyLessTransitive(larghezze[nomi[j]], nomi[j], larghezze[larga], larga, larghezze[n], n);
          }
        }
        larga := n;
      } else if n != larga {
        KeyLessTotal(larghezze[n], n, larghezze[larga], larga);
      }
    }
  }

  /** The width of every class, or nothing when a class has no rows. */
  method Larghezze(classi: map<string, seq<Point>>, nomi: seq<string>) returns (r: Option<map<string, real>>)
    requires forall n :: n in nomi ==> n in classi && classi[n] != []
    ensures r.None? <==> exists n :: n in nomi && Larghezza(classi[n]).None?
    ensures r.Some? ==> forall n :: n in nomi ==> n in r.value && Larghezza(classi[n]) == Some(r.value[n])
  {
    var larghezze: map<string, real> := map[];
    for i := 0 to |nomi|
      invariant forall j :: 0 <= j < i ==>
                  nomi[j] in larghezze && Larghezza(classi[nomi[j]]) == Some(larghezze[nomi[j]])
    {
      assert nomi[i] in nomi;
      match Larghezza(classi[nomi[i]])
      case None => return None;
      case Some(w) => larghezze := larghezze[nomi[i] := w];
    }
    return Some(larghezze);
  }

  function UnitOf(p: Point, perByte: bool): int { if perByte then p.B else p.R }

  /** `ceil_div(y * MILLE, unita)`. */
  function Quoziente(p: Point, perByte: bool): int
    requires UnitOf(p, perByte) > 0
  {
    CeilDiv(p.y * MILLE, UnitOf(p, perByte))
  }

  /** m thousandths per unit cover the peak of p. */
  predicate Below(p: Point, perByte: bool, m: int) {
    UnitOf(p, perByte) > 0 && m * UnitOf(p, perByte) >= p.y * 1000
  }

  /** m thousandths per unit cover the peak of p and one less do not. */
  predicate Attains(p: Point, perByte: bool, m: int) {
    Below(p, perByte, m) && (m - 1) * UnitOf(p, perByte) < p.y * 1000
  }

  lemma QuotientDecides(p: Point, perByte: bool, m: int)
    requires UnitOf(p, perByte) > 0
    ensures Below(p, perByte, m) <==> Quoziente(p, perByte) <= m
    ensures Attains(p, perByte, m) <==> Quoziente(p, perByte) == m
  {
    var u, q := UnitOf(p, perByte), Quoziente(p, perByte);
    if q <= m { Scale(q, m, u); } else { Scale(m, q - 1, u); }
    if q < m { Scale(q, m - 1, u); }
  }

  /** m is the least number of thousandths that covers every peak of the points. */
  ghost predicate IsEnvelope(ps: seq<Point>, perByte: bool, m: int) {
    (forall p :: p in ps ==> Below(p, perByte, m)) && (exists p :: p in ps && Attains(p, perByte, m))
  }

  /** `max(ceil_div(y * MILLE, unita))` over a class; the source divides by zero on a zero unit. */
  method Inviluppo(ps: seq<Point>, perByte: bool) returns (r: Option<int>)
    requires ps != [] && AllCounts(ps)
    ensures r.None? <==> exists p :: p in ps && UnitOf(p, perByte) == 0
    ensures r.Some? ==> IsEnvelope(ps, perByte, r.value)
  {
    var m := 0;
    for i := 0 to |ps|
      invariant forall j :: 0 <= j < i ==> Below(ps[j], perByte, m)
      invariant i > 0 ==> exists j :: 0 <= j < i && Attains(ps[j], perByte, m)
    {
      if UnitOf(ps[i], perByte) == 0 {
        return None;
      }
      var q := Quoziente(ps[i], perByte);
      QuotientDecides(ps[i], perByte, q);
      QuotientDecides(ps[i], perByte, m);
      if i == 0 || m < q {
        forall j | 0 <= j < i ensures Below(ps[j], perByte, q) { Scale(m, q, UnitOf(ps[j], perByte)); }
        m := q;
        assert Attains(ps[i], perByte, m);
      }
    }
    assert forall p :: p in ps ==> Below(p, perByte, m);
    return Some(m);
  }

  // ----- the fit

  /** A plan whose sum of ratios no other plan undercuts. */
  ghost predicate CheapestPlan(punti: seq<Point>, celle: bool, coppie: bool, senzaByte: bool, cMinimo: int,
                               piano: seq<real>)
  {
    && Piano(punti, celle, coppie, senzaByte, cMinimo, piano)
    && forall x :: Piano(punti, celle, coppie, senzaByte, cMinimo, x) ==>
         Costo(punti, celle, coppie, senzaByte, piano, |punti|) <= Costo(punti, celle, coppie, senzaByte, x, |punti|)
  }

  /** What `adatta` returns: the minimal plan rounded up, and in the default mode the
      envelopes of the narrowest class per row and of the widest class per byte. */
  ghost predicate Fitted(punti: seq<Point>, celle: bool, coppie: bool, senzaByte: bool, cMinimo: int,
                         m: Model, piano: seq<real>, stretta: string, larga: string)
    requires punti != [] && AllCounts(punti)
  {
    && CheapestPlan(punti, celle, coppie, senzaByte, cMinimo, piano)
    && RoundsPlan(m, celle, coppie, senzaByte, piano)
    && (if celle || coppie || senzaByte then m.rS == 0 && m.cL == 0
        else && Narrowest(punti, stretta) && IsEnvelope(ClassOf(punti, stretta), false, m.rS)
             && Widest(punti, larga) && IsEnvelope(ClassOf(punti, larga), true, m.cL))
  }

  /** Some width or some envelope of the default mode divides by zero. */
  ghost predicate Undefined(punti: seq<Point>)
    requires AllCounts(punti)
  {
    || (exists n :: Names(punti, n) && ClassOf(punti, n) != [] && Larghezza(ClassOf(punti, n)).None?)
    || (exists n, p :: Narrowest(punti, n) && p in ClassOf(punti, n) && p.R == 0)
    || (exists n, p :: Widest(punti, n) && p in ClassOf(punti, n) && p.B == 0)
  }

  /** When the default mode divides by zero: a class whose biggest point has no rows, or a point
      without rows in the narrowest class, or one without bytes in the widest. */
  lemma UndefinedMeans(punti: seq<Point>)
    requires AllCounts(punti)
    ensures Undefined(punti) <==>
            || (exists n :: Names(punti, n) && !HasRows(punti, n))
            || (exists n, p :: Narrowest(punti, n) && p in punti && p.classe == n && p.R == 0)
            || (exists n, p :: Widest(punti, n) && p in punti && p.classe == n && p.B == 0)
  {
    hide Narrowest, Widest, HasRows, Larghezza, Names;
    forall n
      ensures HasRows(punti, n) <==> ClassOf(punti, n) != [] && Larghezza(ClassOf(punti, n)).Some?
      ensures Names(punti, n) <==> ClassOf(punti, n) != []
      ensures forall p :: p in ClassOf(punti, n) <==> p in punti && p.classe == n
    {
      HasRowsIs(punti, n);
      BiggestIs(punti, n);
    }
  }

  /** The narrowest and the widest class are unique. */
  lemma OnlyExtremes(punti: seq<Point>, stretta: string, larga: string)
    requires Narrowest(punti, stretta) && Widest(punti, larga)
    ensures forall n :: Narrowest(punti, n) ==> n == stretta
    ensures forall n :: Widest(punti, n) ==> n == larga
  {
    forall n | Narrowest(punti, n) ensures n == stretta {
      if n != stretta {
        KeyLessTotal(Larghezza(ClassOf(punti, n)).value, n, Larghezza(ClassOf(punti, stretta)).value, stretta);
      }
    }
    forall n | Widest(punti, n) ensures n == larga {
      if n != larga {
        KeyLessTotal(Larghezza(ClassOf(punti, n)).value, n, Larghezza(ClassOf(punti, larga)).value, larga);
      }
    }
  }

  /** Once every width is defined only the two extreme classes can divide by zero. */
  lemma UndefinedAtExtremes(punti: seq<Point>, stretta: string, larga: string)
    requires AllCounts(punti) && Narrowest(punti, stretta) && Widest(punti, larga)
    requires forall n :: Names(punti, n) ==> ClassOf(punti, n) != [] && Larghezza(ClassOf(punti, n)).Some?
    ensures AllCounts(ClassOf(punti, stretta)) && AllCounts(ClassOf(punti, larga))
    ensures Undefined(punti) <==>
            || (exists p :: p in ClassOf(punti, stretta) && UnitOf(p, false) == 0)
            || (exists p :: p in ClassOf(punti, larga) && UnitOf(p, true) == 0)
  {
    OnlyExtremes(punti, stretta, larga);
    if p :| p in ClassOf(punti, stretta) && UnitOf(p, false) == 0 {
      assert p.R == 0;
    }
    if p :| p in ClassOf(punti, larga) && UnitOf(p, true) == 0 {
      assert p.B == 0;
    }
  }

  /** The two extrapolation branches of the default mode. */
  method Rami(punti: seq<Point>) returns (r: Option<(int, int)>, ghost stretta: string, ghost larga: string)
    requires AllCounts(punti) && punti != []
    ensures r.None? <==> Undefined(punti)
    ensures r.Some? ==> Narrowest(punti, stretta) && IsEnvelope(ClassOf(punti, stretta), false, r.value.0)
    ensures r.Some? ==> Widest(punti, larga) && IsEnvelope(ClassOf(punti, larga), true, r.value.1)
  {
    stretta, larga := "", "";
    var classi, nomi := Classi(punti);
    assert Names(punti, punti[0].classe);
    var larghezze := Larghezze(classi, nomi);
    if larghezze.None? {
      return None, stretta, larga;
    }
    var s := MinClasse(larghezze.value, nomi);
    var l := MaxClasse(larghezze.value, nomi);
    stretta, larga := s, l;
    UndefinedAtExtremes(punti, s, l);
    var rS := Inviluppo(classi[s], false);
    var cL := Inviluppo(classi[l], true);
    if rS.None? || cL.None? {
      return None, stretta, larga;
    }
    return Some((rS.value, cL.value)), stretta, larga;
  }

  /** The least real plan of the mode, from the program `adatta` builds. */
  method PianoDi(punti: seq<Point>, celle: bool, coppie: bool, senzaByte: bool, cMinimo: int)
    returns (r: Result<seq<real>, NoVertex>)
    requires punti != [] && AllCounts(punti)
    ensures r.Err? <==> !exists x :: Piano(punti, celle, coppie, senzaByte, cMinimo, x)
    ensures r.Ok? ==> |r.value| == Numero(celle, coppie, senzaByte)
    ensures r.Ok? ==> CheapestPlan(punti, celle, coppie, senzaByte, cMinimo, r.value)
  {
    hide Costo, Prevista, MinPeak, NotWorse, Vertex, ByteTermLimited, Program.RatioSum, Program.Predicted;
    var lp := FitProgram(punti, Variabili(celle, coppie, senzaByte), cMinimo);
    r := PianoMinimo(lp);
    forall x | lp.Admissible(x) ensures Piano(punti, celle, coppie, senzaByte, cMinimo, x) {
      FitProgramMeans(punti, celle, coppie, senzaByte, cMinimo, x);
    }
    forall x | Piano(punti, celle, coppie, senzaByte, cMinimo, x)
      ensures lp.Admissible(x) && lp.RatioSum(x) == Costo(punti, celle, coppie, senzaByte, x, |punti|)
    {
      FitProgramMeans(punti, celle, coppie, senzaByte, cMinimo, x);
    }
  }

  lemma LeastByteTerm(m: Model, celle: bool, coppie: bool, senzaByte: bool, cMinimo: int, punti: seq<Point>,
                      piano: seq<real>)
    requires Piano(punti, celle, coppie, senzaByte, cMinimo, piano) && !coppie && !senzaByte
    requires RoundsPlan(m, celle, coppie, senzaByte, piano)
    ensures m.c >= cMinimo * MILLE
  {
    hide Prevista;
    assert m.c as real >= cMinimo as real * 1000.0;
  }

  method Adatta(punti: seq<Point>, celle: bool, coppie: bool, senzaByte: bool, cMinimo: int)
    returns (r: Result<Model, FitError>, ghost piano: seq<real>, ghost stretta: string, ghost larga: string)
    requires AllCounts(punti)
    ensures r == Err(EmptyPoints) <==> punti == []
    ensures punti != [] ==>
      (r == Err(NoPlan) <==> !exists x :: Piano(punti, celle, coppie, senzaByte, cMinimo, x))
    ensures r == Err(DivisionByZero) ==> !(celle || coppie || senzaByte) && Undefined(punti)
    ensures r.Ok? <==>
            && punti != [] && (celle || coppie || senzaByte || !Undefined(punti))
            && exists x :: Piano(punti, celle, coppie, senzaByte, cMinimo, x)
    ensures r.Ok? && !coppie && !senzaByte ==> r.value.c >= cMinimo * MILLE
    ensures r.Ok? ==> Fitted(punti, celle, coppie, senzaByte, cMinimo, r.value, piano, stretta, larga)
  {
    hide Piano, Costo, Rounded, Variabili, Ceiling, Narrowest, Widest, Undefined, IsEnvelope;
    piano, stretta, larga := [], "", "";
    if punti == [] {
      return Err(EmptyPoints), piano, stretta, larga;
    }
    var vs := Variabili(celle, coppie, senzaByte);
    var soluzione := PianoDi(punti, celle, coppie, senzaByte, cMinimo);
    if soluzione.Err? {
      return Err(NoPlan), piano, stretta, larga;
    }
    piano := soluzione.value;
    var modello := Rounded(vs, soluzione.value);
    RoundedIs(celle, coppie, senzaByte, piano);
    if !(coppie || celle || senzaByte) {
      var rami;
      rami, stretta, larga := Rami(punti);
      if rami.None? {
        return Err(DivisionByZero), piano, stretta, larga;
      }
      modello := modello.(rS := rami.value.0, cL := rami.value.1);
    }
    if !coppie && !senzaByte {
      LeastByteTerm(modello, celle, coppie, senzaByte, cMinimo, punti, piano);
    }
    return Ok(modello), piano, stretta, larga;
  }

  /** A measured point of the cells mode without bytes. */
  const SENZA_BYTE := Point(1, 0, 1, 0, 1, "x")

  /** The program of one point without bytes covers it with the constant alone. */
  lemma ConstantCovers()
    ensures Piano([SENZA_BYTE], true, false, false, 0, [1.0, 0.0, 0.0, 0.0])
  {
  }

  lemma ByteTermFree()
    ensures var lp := FitProgram([SENZA_BYTE], Variabili(true, false, false), 0);
            lp.WellFormed() && !ByteTermLimited(lp, PositionOf(lp.variabili, C))
  {
    var lp := FitProgram([SENZA_BYTE], Variabili(true, false, false), 0);
    PositionOfVariabili(true, false, false);
    ByteTermLimitedMeans(lp, 2);
  }

  /** The documented tie rule, the larger per-byte term among equally cheap plans, fails on a
      program `adatta` builds: a point without bytes leaves that term free, so the constant alone
      is beaten, and so is every other plan. */
  lemma TieRuleFails()
    ensures var lp := FitProgram([SENZA_BYTE], Variabili(true, false, false), 0);
            && lp.WellFormed() && !ByteTermLimited(lp, PositionOf(lp.variabili, C))
            && lp.Admissible([1.0, 0.0, 0.0, 0.0]) && forall x :: lp.Admissible(x) ==> Beaten(lp, x)
  {
    hide Beaten, ByteTermLimited, Program.Admissible, Piano;
    var lp := FitProgram([SENZA_BYTE], Variabili(true, false, false), 0);
    ConstantCovers();
    FitProgramMeans([SENZA_BYTE], true, false, false, 0, [1.0, 0.0, 0.0, 0.0]);
    ByteTermFree();
    forall x | lp.Admissible(x) ensures Beaten(lp, x) {
      UnlimitedIsBeaten(lp, x);
    }
  }

  // ----- what the fitted model guarantees

  /** Every measured point is covered, whatever the mode. */
  lemma FittedCovers(punti: seq<Point>, celle: bool, coppie: bool, senzaByte: bool, cMinimo: int,
                     m: Model, piano: seq<real>, stretta: string, larga: string, i: nat)
    requires punti != [] && AllCounts(punti) && i < |punti|
    requires Fitted(punti, celle, coppie, senzaByte, cMinimo, m, piano, stretta, larga)
    ensures Base(m, punti[i]) >= punti[i].y
  {
    RoundedCovers(celle, coppie, senzaByte, piano, m, punti[i]);
  }

  /** `verifica_copertura`. */
  method VerificaCopertura(modello: Model, punti: seq<Point>) returns (ok: bool)
    ensures ok <==> forall i :: 0 <= i < |punti| ==> Base(modello, punti[i]) >= punti[i].y
  {
    for i := 0 to |punti|
      invariant forall j :: 0 <= j < i ==> Base(modello, punti[j]) >= punti[j].y
    {
      if Base(modello, punti[i]) < punti[i].y {
        return false;
      }
    }
    return true;
  }

  /** The generator's own check on its own fit cannot fail. */
  method AdattaEVerifica(punti: seq<Point>, celle: bool, coppie: bool, senzaByte: bool, cMinimo: int)
    returns (r: Result<Model, FitError>, ok: bool)
    requires AllCounts(punti)
    ensures ok
    ensures r.Ok? ==> forall i :: 0 <= i < |punti| ==> Base(r.value, punti[i]) >= punti[i].y
    ensures r.Ok? <==>
            && punti != [] && (celle || coppie || senzaByte || !Undefined(punti))
            && exists x :: Piano(punti, celle, coppie, senzaByte, cMinimo, x)
  {
    ghost var piano, stretta, larga;
    r, piano, stretta, larga := Adatta(punti, celle, coppie, senzaByte, cMinimo);
    ok := true;
    if r.Ok? {
      forall i | 0 <= i < |punti| ensures Base(r.value, punti[i]) >= punti[i].y {
        FittedCovers(punti, celle, coppie, senzaByte, cMinimo, r.value, piano, stretta, larga, i);
      }
      ok := VerificaCopertura(r.value, punti);
    }
  }

  /** A fit exists only for non-negative peaks: the constant lies between zero and the least. */
  lemma FittedPeaks(punti: seq<Point>, celle: bool, coppie: bool, senzaByte: bool, cMinimo: int,
                    m: Model, piano: seq<real>, stretta: string, larga: string)
    requires punti != [] && AllCounts(punti)
    requires Fitted(punti, celle, coppie, senzaByte, cMinimo, m, piano, stretta, larga)
    ensures forall i :: 0 <= i < |punti| ==> punti[i].y >= 0
  {
    forall i | 0 <= i < |punti| ensures punti[i].y >= 0 {
      assert 0.0 <= piano[0] <= punti[i].y as real;
    }
  }

  /** With a non-negative bound on `c` no coefficient of a fit is negative. */
  lemma FittedNonNegative(punti: seq<Point>, celle: bool, coppie: bool, senzaByte: bool, cMinimo: int,
                          m: Model, piano: seq<real>, stretta: string, larga: string)
    requires punti != [] && AllCounts(punti) && cMinimo >= 0
    requires Fitted(punti, celle, coppie, senzaByte, cMinimo, m, piano, stretta, larga)
    ensures m.NonNegative()
  {
    FittedPeaks(punti, celle, coppie, senzaByte, cMinimo, m, piano, stretta, larga);
    assert m.a >= 0 && m.r >= 0 && m.c >= 0 && m.k >= 0 && m.p >= 0;
    if !(celle || coppie || senzaByte) {
      EnvelopeNonNegative(punti, stretta, false, m.rS);
      EnvelopeNonNegative(punti, larga, true, m.cL);
    }
  }

  lemma EnvelopeNonNegative(punti: seq<Point>, nome: string, perByte: bool, m: int)
    requires forall i :: 0 <= i < |punti| ==> punti[i].y >= 0
    requires IsEnvelope(ClassOf(punti, nome), perByte, m)
    ensures m >= 0
  {
    var p :| p in ClassOf(punti, nome) && Attains(p, perByte, m);
    assert p.y >= 0;
    assert m * UnitOf(p, perByte) >= p.y * MILLE;
    SignOfFactor(m, UnitOf(p, perByte));
  }

  lemma SignOfFactor(m: int, v: int)
    requires v > 0 && m * v >= 0
    ensures m >= 0
  {
  }

  /** The model predicts at least the linear cost r1 * R + c1 * B of the input. */
  ghost predicate Covers(m: Model, r1: real, c1: real, u: Point) {
    Base(m, u) as real >= r1 * u.R as real + c1 * u.B as real
  }

  /** One branch: thousandths covering the exact ratio of a point cover, on any input no
      further from it than the point's own width, the whole linear cost. */
  lemma BranchCovers(p: Point, perByte: bool, m: int, r1: real, c1: real, u: Point)
    requires Below(p, perByte, m) && p.Counts() && u.Counts() && r1 >= 0.0 && c1 >= 0.0
    requires p.y as real == r1 * p.R as real + c1 * p.B as real
    requires if perByte then u.R * p.B <= p.R * u.B else u.B * p.R <= p.B * u.R
    ensures PerUnita(m, UnitOf(u, perByte)) as real >= r1 * u.R as real + c1 * u.B as real
  {
    var v := UnitOf(p, perByte);
    var w := UnitOf(u, perByte);
    var q := PerUnita(m, w);
    BranchArithmetic(m, v, p.y, w, q);
    CrossWidth(p, perByte, r1, c1, u);
    CastProduct(q, v);
    CastProduct(p.y, w);
    Cancel(q as real, r1 * u.R as real + c1 * u.B as real, v as real);
  }

  lemma Scale(a: int, b: int, v: int)
    requires a <= b && v >= 0
    ensures a * v <= b * v
  {
  }

  lemma CastProduct(a: int, b: int)
    ensures (a * b) as real == a as real * b as real
  {
  }

  lemma BranchArithmetic(m: int, v: int, y: int, w: int, q: int)
    requires v > 0 && w >= 0 && m * v >= y * MILLE && m * w <= q * MILLE
    ensures q * v >= y * w
  {
    Scale(y * MILLE, m * v, w);
    Scale(m * w, q * MILLE, v);
    assert (m * v) * w == (m * w) * v;
    assert (y * MILLE) * w == MILLE * (y * w);
    assert (q * MILLE) * v == MILLE * (q * v);
  }

  lemma Cancel(a: real, b: real, v: real)
    requires v > 0.0 && a * v >= b * v
    ensures a >= b
  {
  }

  lemma CrossWidth(p: Point, perByte: bool, r1: real, c1: real, u: Point)
    requires r1 >= 0.0 && c1 >= 0.0
    requires p.y as real == r1 * p.R as real + c1 * p.B as real
    requires if perByte then u.R * p.B <= p.R * u.B else u.B * p.R <= p.B * u.R
    ensures p.y as real * UnitOf(u, perByte) as real
         >= (r1 * u.R as real + c1 * u.B as real) * UnitOf(p, perByte) as real
  {
    var pr, pb, ur, ub := p.R as real, p.B as real, u.R as real, u.B as real;
    if perByte {
      assert ur * pb == (u.R * p.B) as real && pr * ub == (p.R * u.B) as real;
      assert r1 * (pr * ub - ur * pb) >= 0.0;
      assert (r1 * pr + c1 * pb) * ub - (r1 * ur + c1 * ub) * pb == r1 * (pr * ub - ur * pb);
    } else {
      assert ub * pr == (u.B * p.R) as real && pb * ur == (p.B * u.R) as real;
      assert c1 * (pb * ur - ub * pr) >= 0.0;
      assert (r1 * pr + c1 * pb) * ur - (r1 * ur + c1 * ub) * pr == c1 * (pb * ur - ub * pr);
    }
  }

  /** The peaks are exactly r1 * R + c1 * B. */
  ghost predicate Exact(punti: seq<Point>, r1: real, c1: real) {
    r1 >= 0.0 && c1 >= 0.0 &&
    forall p :: p in punti ==> p.y as real == r1 * p.R as real + c1 * p.B as real
  }

  /** The input is no wider than some point of the narrowest class, or no narrower than
      some point of the widest one. */
  ghost predicate OutsideMeasures(punti: seq<Point>, stretta: string, larga: string, u: Point) {
    || (exists p :: p in ClassOf(punti, stretta) && u.B * p.R <= p.B * u.R)
    || (exists p :: p in ClassOf(punti, larga) && u.R * p.B <= p.R * u.B)
  }

  /** The two branches of the default mode, with no negative coefficient anywhere. */
  ghost predicate Branches(punti: seq<Point>, m: Model, stretta: string, larga: string) {
    && m.NonNegative() && AllCounts(punti)
    && Narrowest(punti, stretta) && IsEnvelope(ClassOf(punti, stretta), false, m.rS)
    && Widest(punti, larga) && IsEnvelope(ClassOf(punti, larga), true, m.cL)
  }

  lemma {:induction false} FittedBranches(punti: seq<Point>, cMinimo: int, m: Model, piano: seq<real>,
                                          stretta: string, larga: string)
    requires punti != [] && AllCounts(punti) && cMinimo >= 0
    requires Fitted(punti, false, false, false, cMinimo, m, piano, stretta, larga)
    ensures Branches(punti, m, stretta, larga)
  {
    FittedNonNegative(punti, false, false, false, cMinimo, m, piano, stretta, larga);
  }

  lemma {:induction false} BranchesCover(punti: seq<Point>, m: Model, stretta: string, larga: string,
                                         r1: real, c1: real, u: Point)
    requires Branches(punti, m, stretta, larga)
    requires Exact(punti, r1, c1) && u.Counts() && OutsideMeasures(punti, stretta, larga, u)
    ensures Covers(m, r1, c1, u)
  {
    PerUnitaMonotone(m.k, 0, u.K);
    PerUnitaMonotone(m.p, 0, u.P);
    if p :| p in ClassOf(punti, stretta) && u.B * p.R <= p.B * u.R {
      BranchCovers(p, false, m.rS, r1, c1, u);
    } else {
      var p :| p in ClassOf(punti, larga) && u.R * p.B <= p.R * u.B;
      BranchCovers(p, true, m.cL, r1, c1, u);
    }
  }

  /** The extrapolation guarantee of the default mode. */
  lemma {:induction false} Extrapolation(punti: seq<Point>, cMinimo: int, m: Model, piano: seq<real>,
                                         stretta: string, larga: string, r1: real, c1: real, u: Point)
    requires punti != [] && AllCounts(punti) && cMinimo >= 0
    requires Fitted(punti, false, false, false, cMinimo, m, piano, stretta, larga)
    requires Exact(punti, r1, c1) && u.Counts() && OutsideMeasures(punti, stretta, larga, u)
    ensures Covers(m, r1, c1, u)
  {
    FittedBranches(punti, cMinimo, m, piano, stretta, larga);
    BranchesCover(punti, m, stretta, larga, r1, c1, u);
  }

  lemma ExactPeaks(punti: seq<Point>, r1: real, c1: real)
    requires AllCounts(punti) && Exact(punti, r1, c1)
    ensures forall i :: 0 <= i < |punti| ==> punti[i].y >= 0
  {
    forall i | 0 <= i < |punti| ensures punti[i].y >= 0 {
      var p := punti[i];
      assert p in punti;
      assert r1 * p.R as real >= 0.0 && c1 * p.B as real >= 0.0;
    }
  }

  /** With a single class every width is outside the measures, so the guarantee is unconditional. */
  lemma ExtrapolationOneClass(punti: seq<Point>, cMinimo: int, m: Model, piano: seq<real>, stretta: string,
                              larga: string,
                              r1: real, c1: real, u: Point)
    requires punti != [] && AllCounts(punti) && cMinimo >= 0
    requires forall i, j :: 0 <= i < |punti| && 0 <= j < |punti| ==> punti[i].classe == punti[j].classe
    requires Fitted(punti, false, false, false, cMinimo, m, piano, stretta, larga)
    requires Exact(punti, r1, c1) && u.Counts()
    ensures Covers(m, r1, c1, u)
  {
    var p := punti[0];
    assert stretta == p.classe && larga == p.classe;
    assert p in ClassOf(punti, p.classe);
    assert u.B * p.R <= p.B * u.R || u.R * p.B <= p.R * u.B;
    Extrapolation(punti, cMinimo, m, piano, stretta, larga, r1, c1, u);
  }

  // ----- when a plan exists

  /** Some unit of the mode can raise the prediction of p. */
  predicate Raisable(celle: bool, coppie: bool, senzaByte: bool, p: Point) {
    if coppie then p.P > 0
    else p.R > 0 || (!senzaByte && (p.B > 0 || (celle && p.K > 0)))
  }

  function MaxPeak(punti: seq<Point>): (m: int)
    ensures m >= 0 && forall i :: 0 <= i < |punti| ==> punti[i].y <= m
  {
    if punti == [] then 0 else
      var rest := MaxPeak(punti[..|punti| - 1]);
      Max(rest, punti[|punti| - 1].y)
  }

  lemma Enlarges(a: real, b: real)
    requires a >= 1.0 && b >= 0.0
    ensures b * a >= b
  {
  }

  /** A point that cannot be raised is predicted the constant, whatever the other coefficients. */
  lemma UnraisedPrediction(celle: bool, coppie: bool, senzaByte: bool, x: seq<real>, p: Point)
    requires |x| == Numero(celle, coppie, senzaByte) && p.Counts()
    ensures !Raisable(celle, coppie, senzaByte, p) ==> Prevista(celle, coppie, senzaByte, x, p) == x[0]
  {
    hide Parte;
    forall c: real ensures Parte(c, 0) == 0.0 { NoUnit(c); }
  }

  lemma NoUnit(c: real)
    ensures Parte(c, 0) == 0.0
  {
  }

  /** A plan exists exactly when no peak is negative and every point above the smallest
      peak has a positive unit of the mode to raise its prediction with. */
  lemma {:induction false} PlanExists(punti: seq<Point>, celle: bool, coppie: bool, senzaByte: bool, cMinimo: int)
    requires punti != [] && AllCounts(punti)
    ensures (exists x :: Piano(punti, celle, coppie, senzaByte, cMinimo, x))
       <==> MinPeak(punti) >= 0 &&
            forall i :: 0 <= i < |punti| && punti[i].y > MinPeak(punti) ==> Raisable(celle, coppie, senzaByte, punti[i])
  {
    hide Prevista, MinPeak, Raisable;
    if x :| Piano(punti, celle, coppie, senzaByte, cMinimo, x) {
      LeastPeak(punti, x[0]);
      forall i | 0 <= i < |punti| && punti[i].y > MinPeak(punti) ensures Raisable(celle, coppie, senzaByte, punti[i]) {
        UnraisedPrediction(celle, coppie, senzaByte, x, punti[i]);
      }
    }
    if MinPeak(punti) >= 0 &&
       forall i :: 0 <= i < |punti| && punti[i].y > MinPeak(punti) ==> Raisable(celle, coppie, senzaByte, punti[i]) {
      LargePlan(punti, celle, coppie, senzaByte, cMinimo);
    }
  }

  /** A raisable point is covered by any coefficient not below its peak. */
  lemma {:induction false} RaisedPrediction(celle: bool, coppie: bool, senzaByte: bool, x: seq<real>, p: Point,
                                            big: real)
    requires |x| == Numero(celle, coppie, senzaByte) && p.Counts() && big >= 0.0
    requires x[0] >= 0.0 && forall j :: 1 <= j < |x| ==> x[j] == big
    ensures Prevista(celle, coppie, senzaByte, x, p) >= x[0]
    ensures Raisable(celle, coppie, senzaByte, p) ==> Prevista(celle, coppie, senzaByte, x, p) >= big
  {
    hide Parte;
    RaisedUnit(big, p.R);
    RaisedUnit(big, p.B);
    RaisedUnit(big, p.K);
    RaisedUnit(big, p.P);
  }

  lemma RaisedUnit(big: real, u: int)
    requires big >= 0.0 && u >= 0
    ensures Parte(big, u) >= 0.0 && (u > 0 ==> Parte(big, u) >= big)
  {
    if u > 0 { Enlarges(u as real, big); }
  }

  /** The smallest peak as constant and one large coefficient everywhere else. */
  lemma {:induction false} LargePlan(punti: seq<Point>, celle: bool, coppie: bool, senzaByte: bool, cMinimo: int)
    requires punti != [] && AllCounts(punti) && MinPeak(punti) >= 0
    requires forall i :: 0 <= i < |punti| && punti[i].y > MinPeak(punti) ==>
               Raisable(celle, coppie, senzaByte, punti[i])
    ensures exists x :: Piano(punti, celle, coppie, senzaByte, cMinimo, x)
  {
    hide Prevista, MinPeak, MaxPeak, Raisable;
    var low := MinPeak(punti);
    var big := Max(MaxPeak(punti), cMinimo);
    var x := seq(Numero(celle, coppie, senzaByte), j => if j == 0 then low as real else big as real);
    forall i | 0 <= i < |punti| ensures Prevista(celle, coppie, senzaByte, x, punti[i]) >= punti[i].y as real {
      RaisedPrediction(celle, coppie, senzaByte, x, punti[i], big as real);
    }
    assert Piano(punti, celle, coppie, senzaByte, cMinimo, x);
  }

  lemma {:induction false} RowsAndBytesDefined(punti: seq<Point>)
    requires AllCounts(punti) && forall i :: 0 <= i < |punti| ==> punti[i].R > 0 && punti[i].B > 0
    ensures !Undefined(punti)
  {
    forall n | Names(punti, n) && ClassOf(punti, n) != [] ensures Larghezza(ClassOf(punti, n)).Some? {
      assert Biggest(ClassOf(punti, n)) in punti;
    }
  }

  /** On points with rows and bytes the default fit always succeeds. */
  lemma {:induction false} DefaultFitSucceeds(punti: seq<Point>, cMinimo: int)
    requires punti != [] && AllCounts(punti)
    requires forall i :: 0 <= i < |punti| ==> punti[i].R > 0 && punti[i].B > 0 && punti[i].y >= 0
    ensures exists x :: Piano(punti, false, false, false, cMinimo, x)
    ensures !Undefined(punti)
  {
    RowsAndBytesDefined(punti);
    PlanExists(punti, false, false, false, cMinimo);
  }

  lemma {:induction false} SinglePointClass(punti: seq<Point>, p: Point)
    requires p in punti && p.R > 0 && forall z :: z in punti && z.classe == p.classe ==> z == p
    ensures p in ClassOf(punti, p.classe)
    ensures Larghezza(ClassOf(punti, p.classe)) == Some(WidthOf(p))
  {
    var ps := ClassOf(punti, p.classe);
    assert p in ps;
    var g := Biggest(ps);
    var i :| 0 <= i < |ps| && ps[i] == g;
    assert ps[i] in punti && ps[i].classe == p.classe;
    assert g == p;
  }

  /** Of two classes the one with the smaller key is the narrowest. */
  lemma {:induction false} OfTwoClasses(punti: seq<Point>, a: string, wa: real, b: string, wb: real, stretta: string,
                                        larga: string)
    requires Narrowest(punti, stretta) && Widest(punti, larga)
    requires Names(punti, a) && Names(punti, b) && a != b && wa < wb
    requires forall n :: Names(punti, n) ==> n == a || n == b
    requires ClassOf(punti, a) != [] && Larghezza(ClassOf(punti, a)) == Some(wa)
    requires ClassOf(punti, b) != [] && Larghezza(ClassOf(punti, b)) == Some(wb)
    ensures stretta == a && larga == b
  {
    assert KeyLess(wa, a, wb, b);
    KeyLessTotal(wa, a, wb, b);
  }

  lemma {:induction false} PairMember(punti: seq<Point>, i: nat)
    requires |punti| == 2 && punti[0].classe != punti[1].classe && i < 2 && punti[i].R > 0
    ensures Names(punti, punti[i].classe) && punti[i] in ClassOf(punti, punti[i].classe)
    ensures Larghezza(ClassOf(punti, punti[i].classe)) == Some(WidthOf(punti[i]))
  {
    assert punti[i] in punti;
    SinglePointClass(punti, punti[i]);
  }

  lemma {:induction false} PairClasses(punti: seq<Point>, stretta: string, larga: string)
    requires |punti| == 2 && punti[0].classe != punti[1].classe && punti[0].R > 0 && punti[1].R > 0
    requires WidthOf(punti[0]) < WidthOf(punti[1])
    requires Narrowest(punti, stretta) && Widest(punti, larga)
    ensures stretta == punti[0].classe && larga == punti[1].classe
  {
    hide Narrowest, Widest, ClassOf, Larghezza, WidthOf;
    PairMember(punti, 0);
    PairMember(punti, 1);
    OfTwoClasses(punti, punti[0].classe, WidthOf(punti[0]), punti[1].classe, WidthOf(punti[1]), stretta, larga);
  }

  /** An input no wider than p or no narrower than q. */
  predicate Esterno(p: Point, q: Point, u: Point) {
    u.Counts() && (u.B * p.R <= p.B * u.R || u.R * q.B <= q.R * u.B)
  }

  lemma {:induction false} EsternoIsOutside(punti: seq<Point>, u: Point)
    requires |punti| == 2 && punti[0].classe != punti[1].classe && punti[0].R > 0 && punti[1].R > 0
    requires Esterno(punti[0], punti[1], u)
    ensures OutsideMeasures(punti, punti[0].classe, punti[1].classe, u)
  {
    PairMember(punti, 0);
    PairMember(punti, 1);
  }

  function Ingresso(i: (int, int)): Point { Point(i.0, i.1, 0, 0, 0, "") }

  /** `verifica_controesempio_rami`: the generator's own counterexample to subtracting the
      constant before taking envelopes, the true cost being exactly 1000 * R + B. The check
      passes because of the guarantee. */
  method VerificaControesempioRami() returns (ok: bool)
    ensures ok
  {
    var stretto := Point(1000, 1000, 0, 0, 1001000, "stretta");
    var largo := Point(2000, 2000000, 0, 0, 4000000, "larga");
    ok := ControllaRami([stretto, largo], 1000, 1,
                        [(2000, 1000), (1000, 1000), (10, 5), (2000, 2000000), (10, 10000000)]);
  }

  ghost predicate CoppiaDiMisure(punti: seq<Point>, r1: int, c1: int) {
    && |punti| == 2 && punti[0].classe != punti[1].classe && AllCounts(punti) && r1 >= 0 && c1 >= 0
    && (forall i :: 0 <= i < 2 ==> punti[i].R > 0 && punti[i].B > 0 && punti[i].y == r1 * punti[i].R + c1 * punti[i].B)
    && WidthOf(punti[0]) < WidthOf(punti[1])
  }

  lemma {:induction false} ExactPair(punti: seq<Point>, r1: int, c1: int)
    requires AllCounts(punti) && r1 >= 0 && c1 >= 0
    requires forall i :: 0 <= i < |punti| ==> punti[i].y == r1 * punti[i].R + c1 * punti[i].B
    ensures Exact(punti, r1 as real, c1 as real) && forall i :: 0 <= i < |punti| ==> punti[i].y >= 0
  {
    forall i | 0 <= i < |punti|
      ensures punti[i].y as real == r1 as real * punti[i].R as real + c1 as real * punti[i].B as real
    {
      CastProduct(r1, punti[i].R);
      CastProduct(c1, punti[i].B);
    }
    ExactPeaks(punti, r1 as real, c1 as real);
  }

  lemma {:induction false} PairOutside(punti: seq<Point>, stretta: string, larga: string, r1: int, c1: int, u: Point)
    requires CoppiaDiMisure(punti, r1, c1) && Narrowest(punti, stretta) && Widest(punti, larga)
    requires Esterno(punti[0], punti[1], u)
    ensures OutsideMeasures(punti, stretta, larga, u) && Exact(punti, r1 as real, c1 as real)
  {
    PairClasses(punti, stretta, larga);
    EsternoIsOutside(punti, u);
    ExactPair(punti, r1, c1);
  }

  lemma CostAsReal(r1: int, c1: int, righe: int, byte: int)
    ensures (r1 * righe + c1 * byte) as real == r1 as real * righe as real + c1 as real * byte as real
  {
    CastProduct(r1, righe);
    CastProduct(c1, byte);
  }

  method ControllaRami(punti: seq<Point>, r1: int, c1: int, ingressi: seq<(int, int)>) returns (ok: bool)
    requires CoppiaDiMisure(punti, r1, c1)
    requires forall i :: 0 <= i < |ingressi| ==> Esterno(punti[0], punti[1], Ingresso(ingressi[i]))
    ensures ok
  {
    ghost var piano, stretta, larga;
    var r;
    ExactPair(punti, r1, c1);
    DefaultFitSucceeds(punti, 0);
    r, piano, stretta, larga := Adatta(punti, false, false, false, 0);
    FittedBranches(punti, 0, r.value, piano, stretta, larga);
    forall i | 0 <= i < |ingressi| ensures Covers(r.value, r1 as real, c1 as real, Ingresso(ingressi[i])) {
      PairOutside(punti, stretta, larga, r1, c1, Ingresso(ingressi[i]));
      BranchesCover(punti, r.value, stretta, larga, r1 as real, c1 as real, Ingresso(ingressi[i]));
    }
    ok := ControllaIngressi(r.value, r1, c1, ingressi);
  }

  /** The integer comparison of the check decides the real one. */
  predicate Sopra(m: Model, r1: int, c1: int, righe: int, byte: int)
    ensures Sopra(m, r1, c1, righe, byte) <==> Covers(m, r1 as real, c1 as real, Ingresso((righe, byte)))
  {
    CostAsReal(r1, c1, righe, byte);
    Base(m, Ingresso((righe, byte))) >= r1 * righe + c1 * byte
  }

  /** The loop of the check: no input is predicted below its true cost. */
  method ControllaIngressi(modello: Model, r1: int, c1: int, ingressi: seq<(int, int)>) returns (ok: bool)
    ensures ok <==> forall i :: 0 <= i < |ingressi| ==> Covers(modello, r1 as real, c1 as real, Ingresso(ingressi[i]))
  {
    for k := 0 to |ingressi|
      invariant forall i :: 0 <= i < k ==> Covers(modello, r1 as real, c1 as real, Ingresso(ingressi[i]))
    {
      if !Sopra(modello, r1, c1, ingressi[k].0, ingressi[k].1) {
        return false;
      }
    }
    return true;
  }
}