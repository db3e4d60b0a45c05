/** Exact Gauss-Jordan elimination (`_risolvi`): the solution of a square system,
    or the proof that the matrix is singular. */
module GaussJordan {
  import opened Vectors
  import opened Wrappers

  ghost predicate Square(m: seq<seq<real>>) {
    forall i :: 0 <= i < |m| ==> |m[i]| == |m|
  }

  /** Every row of `m` is orthogonal to v. */
  ghost predicate InKernel(m: seq<seq<real>>, v: seq<real>) {
    forall i :: 0 <= i < |m| ==> |m[i]| == |v| && Dot(m[i], v, |v|) == 0.0
  }

  ghost predicate Singular(m: seq<seq<real>>) {
    exists v :: |v| == |m| && !IsZero(v) && InKernel(m, v)
  }

  ghost predicate IsSolution(m: seq<seq<real>>, b: seq<real>, x: seq<real>) {
    && |x| == |m| == |b|
    && forall i :: 0 <= i < |m| ==> |m[i]| == |x| && Dot(m[i], x, |x|) == b[i]
  }

  // ----- augmented rows

  ghost predicate Augmented(rows: seq<seq<real>>) {
    forall i :: 0 <= i < |rows| ==> |rows[i]| == |rows| + 1
  }

  function Augment(m: seq<seq<real>>, b: seq<real>): (rows: seq<seq<real>>)
    requires |m| == |b|
    ensures |rows| == |m|
  {
    seq(|m|, i requires 0 <= i < |m| => m[i] + [b[i]])
  }

  /** The first `c` columns are already diagonal with a non-zero diagonal. */
  ghost predicate Diagonal(rows: seq<seq<real>>, c: nat)
    requires Augmented(rows) && c <= |rows|
  {
    forall i, j :: 0 <= i < |rows| && 0 <= j < c ==> (rows[i][j] != 0.0 <==> i == j)
  }

  ghost predicate SameKernel(a: seq<seq<real>>, b: seq<seq<real>>) {
    forall z :: InKernel(a, z) <==> InKernel(b, z)
  }

  function Swap(rows: seq<seq<real>>, p: nat, q: nat): (r: seq<seq<real>>)
    requires p < |rows| && q < |rows|
    ensures |r| == |rows|
  {
    rows[p := rows[q]][q := rows[p]]
  }

  /** Row i after the pivot row c has been subtracted from it. */
  function Reduced(rows: seq<seq<real>>, c: nat, i: nat): (r: seq<real>)
    requires Augmented(rows) && c < |rows| && i < |rows| && rows[c][c] != 0.0
    ensures |r| == |rows| + 1
  {
    if i != c && rows[i][c] != 0.0 then Minus(rows[i], rows[i][c] / rows[c][c], rows[c]) else rows[i]
  }

  function Eliminate(rows: seq<seq<real>>, c: nat): (r: seq<seq<real>>)
    requires Augmented(rows) && c < |rows| && rows[c][c] != 0.0
    ensures |r| == |rows| && Augmented(r)
  {
    seq(|rows|, i requires 0 <= i < |rows| => Reduced(rows, c, i))
  }

  lemma SwapKeepsKernel(rows: seq<seq<real>>, p: nat, q: nat)
    requires p < |rows| && q < |rows|
    ensures SameKernel(rows, Swap(rows, p, q))
  {
    var s := Swap(rows, p, q);
    forall z ensures InKernel(rows, z) <==> InKernel(s, z) {
      if InKernel(s, z) {
        forall i | 0 <= i < |rows| ensures |rows[i]| == |z| && Dot(rows[i], z, |z|) == 0.0 {
          var k := if i == p then q else if i == q then p else i;
          assert s[k] == rows[i];
        }
      }
    }
  }

  lemma EliminateKeepsKernel(rows: seq<seq<real>>, c: nat)
    requires Augmented(rows) && c < |rows| && rows[c][c] != 0.0
    ensures SameKernel(rows, Eliminate(rows, c))
  {
    var e := Eliminate(rows, c);
    forall z ensures InKernel(rows, z) <==> InKernel(e, z) {
      assert e[c] == rows[c];
      if |z| == |rows| + 1 && Dot(rows[c], z, |z|) == 0.0 {
        forall i | 0 <= i < |rows| ensures Dot(e[i], z, |z|) == Dot(rows[i], z, |z|) {
          DotMinus(rows[i], rows[i][c] / rows[c][c], rows[c], z, |z|);
        }
      }
    }
  }

  lemma ClearEntry(a: real, p: real)
    requires p != 0.0
    ensures a - (a / p) * p == 0.0
  {
  }

  lemma ReducedEntry(rows: seq<seq<real>>, c: nat, i: nat, j: nat)
    requires Augmented(rows) && c < |rows| && i < |rows| && j < c + 1 && rows[c][c] != 0.0 && Diagonal(rows, c)
    ensures Reduced(rows, c, i)[j] != 0.0 <==> i == j
  {
    if i != c && rows[i][c] != 0.0 {
      var f := rows[i][c] / rows[c][c];
      if j == c {
        ClearEntry(rows[i][c], rows[c][c]);
      } else {
        assert rows[c][j] == 0.0;
        assert Reduced(rows, c, i)[j] == rows[i][j] - f * 0.0;
      }
    }
  }

  lemma EliminateDiagonal(rows: seq<seq<real>>, c: nat)
    requires Augmented(rows) && c < |rows| && rows[c][c] != 0.0 && Diagonal(rows, c)
    ensures Diagonal(Eliminate(rows, c), c + 1)
  {
    forall i, j | 0 <= i < |rows| && 0 <= j < c + 1 ensures Eliminate(rows, c)[i][j] != 0.0 <==> i == j {
      ReducedEntry(rows, c, i, j);
    }
  }

  lemma SwapDiagonal(rows: seq<seq<real>>, c: nat, p: nat)
    requires Augmented(rows) && c <= p < |rows| && Diagonal(rows, c)
    ensures Augmented(Swap(rows, c, p)) && Diagonal(Swap(rows, c, p), c)
  {
  }

  // ----- reading the result off the rows

  /** Augmented rows annihilate (y, -1) exactly when y solves the system. */
  lemma KernelIsSolution(m: seq<seq<real>>, b: seq<real>, y: seq<real>)
    requires Square(m) && |m| == |b| == |y|
    ensures InKernel(Augment(m, b), y + [-1.0]) <==> IsSolution(m, b, y)
  {
    var z := y + [-1.0];
    forall i | 0 <= i < |m|
      ensures Dot(Augment(m, b)[i], z, |z|) == Dot(m[i], y, |y|) - b[i]
    {
      AppendDot(m[i], b[i], y, -1.0);
    }
  }

  /** Augmented rows annihilate (v, 0) exactly when v is in the kernel of the matrix. */
  lemma KernelIsNull(m: seq<seq<real>>, b: seq<real>, v: seq<real>)
    requires Square(m) && |m| == |b| == |v|
    ensures InKernel(Augment(m, b), v + [0.0]) <==> InKernel(m, v)
  {
    var z := v + [0.0];
    forall i | 0 <= i < |m| ensures Dot(Augment(m, b)[i], z, |z|) == Dot(m[i], v, |v|) {
      AppendDot(m[i], b[i], v, 0.0);
    }
  }

  lemma AppendDot(u: seq<real>, a: real, v: seq<real>, t: real)
    requires |u| == |v|
    ensures Dot(u + [a], v + [t], |u| + 1) == Dot(u, v, |u|) + a * t
  {
    DotAgree(u + [a], v + [t], v, |u|);
    DotSymmetric(u + [a], v, |u|);
    DotAgree(v, u + [a], u, |u|);
    DotSymmetric(u, v, |u|);
  }

  /** A column without a pivot gives a non-zero kernel vector. */
  lemma NoPivot(rows: seq<seq<real>>, c: nat) returns (v: seq<real>)
    requires Augmented(rows) && c < |rows| && Diagonal(rows, c)
    requires forall i :: c <= i < |rows| ==> rows[i][c] == 0.0
    ensures |v| == |rows| && !IsZero(v) && InKernel(rows, v + [0.0])
  {
    var n := |rows|;
    v := seq(n, j requires 0 <= j < n =>
      if j < c then -rows[j][c] / rows[j][j] else if j == c then 1.0 else 0.0);
    assert v[c] == 1.0;
    var z := v + [0.0];
    forall i | 0 <= i < n ensures Dot(rows[i], z, n + 1) == 0.0 {
      if i < c {
        DotTwo(rows[i], z, n + 1, i, c);
        assert (-rows[i][c] / rows[i][i]) * rows[i][i] == -rows[i][c];
      } else {
        DotOne(rows[i], z, n + 1, n);
      }
    }
  }

  /** Fully diagonal rows fix every component of a kernel vector. */
  lemma DiagonalRow(rows: seq<seq<real>>, z: seq<real>, i: nat)
    requires Augmented(rows) && Diagonal(rows, |rows|) && |z| == |rows| + 1 && i < |rows|
    ensures Dot(rows[i], z, |z|) == rows[i][i] * z[i] + rows[i][|rows|] * z[|rows|]
  {
    DotTwo(rows[i], z, |z|, i, |rows|);
  }

  lemma Quotient(a: real, x: real, b: real)
    requires a != 0.0 && a * x == b
    ensures x == b / a
  {
  }

  /** A vector the diagonal rows annihilate together with t is t times the quotients. */
  lemma DiagonalForces(rows: seq<seq<real>>, y: seq<real>, t: real)
    requires Augmented(rows) && Diagonal(rows, |rows|) && |y| == |rows| && InKernel(rows, y + [t])
    ensures forall i :: 0 <= i < |y| ==> rows[i][i] != 0.0 && y[i] == (-t * rows[i][|rows|]) / rows[i][i]
  {
    forall i | 0 <= i < |y| ensures rows[i][i] != 0.0 && y[i] == (-t * rows[i][|rows|]) / rows[i][i] {
      DiagonalRow(rows, y + [t], i);
      Quotient(rows[i][i], y[i], -t * rows[i][|rows|]);
    }
  }

  lemma DiagonalSatisfied(rows: seq<seq<real>>, x: seq<real>)
    requires Augmented(rows) && Diagonal(rows, |rows|) && |x| == |rows|
    requires forall i :: 0 <= i < |x| ==> x[i] == rows[i][|rows|] / rows[i][i]
    ensures InKernel(rows, x + [-1.0])
  {
    forall i | 0 <= i < |rows| ensures Dot(rows[i], x + [-1.0], |rows| + 1) == 0.0 {
      DiagonalRow(rows, x + [-1.0], i);
      assert rows[i][i] * (rows[i][|rows|] / rows[i][i]) == rows[i][|rows|];
    }
  }

  lemma DiagonalSolves(m: seq<seq<real>>, b: seq<real>, rows: seq<seq<real>>, x: seq<real>)
    requires Square(m) && |m| == |b| == |rows| == |x|
    requires Augmented(rows) && Diagonal(rows, |rows|) && SameKernel(Augment(m, b), rows)
    requires forall i :: 0 <= i < |x| ==> x[i] == rows[i][|rows|] / rows[i][i]
    ensures forall y :: IsSolution(m, b, y) <==> y == x
    ensures !Singular(m)
  {
    KernelIsSolution(m, b, x);
    DiagonalSatisfied(rows, x);
    forall y | IsSolution(m, b, y) ensures y == x {
      KernelIsSolution(m, b, y);
      DiagonalForces(rows, y, -1.0);
    }
    forall v | |v| == |rows| && InKernel(m, v) ensures IsZero(v) {
      KernelIsNull(m, b, v);
      DiagonalForces(rows, v, 0.0);
    }
  }

  /** The first row from `colonna` down with a non-zero entry there, or n. */
  method Perno(righe: array<seq<real>>, colonna: nat) returns (perno: nat)
    requires Augmented(righe[..]) && colonna < righe.Length
    ensures colonna <= perno <= righe.Length
    ensures perno < righe.Length ==> righe[perno][colonna] != 0.0
    ensures forall i :: colonna <= i < perno ==> righe[..][i][colonna] == 0.0
  {
    perno := colonna;
    while perno < righe.Length && righe[..][perno][colonna] == 0.0
      invariant colonna <= perno <= righe.Length
      invariant forall i :: colonna <= i < perno ==> righe[..][i][colonna] == 0.0
    {
      perno := perno + 1;
    }
  }

  /** Subtracts the pivot row from every other row that has an entry in its column. */
  method Elimina(righe: array<seq<real>>, colonna: nat)
    requires Augmented(righe[..]) && colonna < righe.Length && righe[colonna][colonna] != 0.0
    modifies righe
    ensures righe[..] == Eliminate(old(righe[..]), colonna)
  {
    ghost var before := righe[..];
    for i := 0 to righe.Length
      invariant forall k :: 0 <= k < i ==> righe[k] == Reduced(before, colonna, k)
      invariant forall k :: i <= k < righe.Length ==> righe[k] == before[k]
    {
      assert righe[colonna] == before[colonna];
      if i != colonna && righe[i][colonna] != 0.0 {
        var fattore := righe[i][colonna] / righe[colonna][colonna];
        righe[i] := Minus(righe[i], fattore, righe[colonna]);
      }
    }
  }

  /** `_risolvi`: rows are swapped and replaced in place, column by column. */
  method Risolvi(matrice: seq<seq<real>>, termini: seq<real>) returns (r: Option<seq<real>>)
    requires Square(matrice) && |termini| == |matrice|
    ensures r.Some? ==> forall y :: IsSolution(matrice, termini, y) <==> y == r.value
    ensures r.None? <==> Singular(matrice)
  {
    var n := |matrice|;
    ghost var start := Augment(matrice, termini);
    var righe := new seq<real>[n](i requires 0 <= i < n => matrice[i] + [termini[i]]);
    assert righe[..] == start;
    for colonna := 0 to n
      invariant Augmented(righe[..]) && Diagonal(righe[..], colonna) && SameKernel(start, righe[..])
    {
      var perno := Perno(righe, colonna);
      if perno == n {
        ghost var v := NoPivot(righe[..], colonna);
        KernelIsNull(matrice, termini, v);
        return None;
      }
      ghost var before := righe[..];
      SwapKeepsKernel(before, colonna, perno);
      SwapDiagonal(before, colonna, perno);
      righe[colonna], righe[perno] := righe[perno], righe[colonna];
      ghost var swapped := righe[..];
      assert swapped == Swap(before, colonna, perno);
      Elimina(righe, colonna);
      EliminateKeepsKernel(swapped, colonna);
      EliminateDiagonal(swapped, colonna);
    }
    var finali := righe[..];
    var x := seq(n, i requires 0 <= i < n && |finali| == n && Augmented(finali) && Diagonal(finali, n) =>
      finali[i][n] / finali[i][i]);
    DiagonalSolves(matrice, termini, finali, x);
    return Some(x);
  }
}
