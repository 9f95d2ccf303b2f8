/**
 Gauss-Jordan elimination keeps the solution set of a linear system.  It therefore returns the
 one solution when the matrix is regular, and gives up only when the matrix is singular.
 */
module GaussJordan {
  import opened GF256
  import opened Powers
  import opened LinearAlgebra

  /** Columns before c are those of the identity matrix. */
  ghost predicate Reduced(m: Matrix, c: nat)
    requires IsMatrix(m, |m|, |m|) && c <= |m|
  {
    forall i, j :: 0 <= i < |m| && 0 <= j < c ==> m[i][j] == if i == j then 1 else 0
  }

  ghost predicate CanPivot(m: Matrix, c: nat, p: nat)
  {
    IsMatrix(m, |m|, |m|) && c <= p < |m| && Reduced(m, c) && m[p][c] != 0
  }

  // ----- the row operations on a single right-hand side -----

  ghost function NormalizeRhs(b: Vector, m: Matrix, c: nat, p: nat): (b': Vector)
    requires CanPivot(m, c, p) && |b| == |m|
    ensures |b'| == |m|
  {
    var s := Swap(b, c, p);
    s[c := Mul(s[c], Inv(m[p][c]))]
  }

  ghost function EliminateRhs(b: Vector, m: Matrix, c: nat): (b': Vector)
    requires IsMatrix(m, |m|, |m|) && c < |m| && |b| == |m|
    ensures |b'| == |m|
  {
    seq(|b|, r requires 0 <= r < |b| => if r == c || m[r][c] == 0 then b[r] else Add(b[r], Mul(m[r][c], b[c])))
  }

  lemma SideColumns(b: Matrix, m: Matrix, c: nat, p: nat, l: nat, j: nat)
    requires CanPivot(m, c, p) && IsMatrix(b, |m|, l) && j < l
    ensures var b1, m1 := NormalizeSide(b, m, c, p, l), Normalize(m, c, p);
            Column(b1, j) == NormalizeRhs(Column(b, j), m, c, p)
            && Column(EliminateSide(b1, m1, c, l), j) == EliminateRhs(Column(b1, j), m1, c)
  {}

  lemma ZeroRhs(m: Matrix, c: nat, p: nat)
    requires CanPivot(m, c, p)
    ensures NormalizeRhs(Zeros(|m|), m, c, p) == Zeros(|m|)
    ensures EliminateRhs(Zeros(|m|), Normalize(m, c, p), c) == Zeros(|m|)
  {
    MulZero(Inv(m[p][c]));
    forall r | 0 <= r < |m|
      ensures EliminateRhs(Zeros(|m|), Normalize(m, c, p), c)[r] == 0
    {
      MulZero(Normalize(m, c, p)[r][c]);
    }
  }

  // ----- one column -----

  lemma NormalizedRow(m: Matrix, c: nat, p: nat, j: nat)
    requires CanPivot(m, c, p) && j < |m|
    ensures Normalize(m, c, p)[c][j] == Mul(m[p][j], Inv(m[p][c]))
  {
    MulZero(Inv(m[p][c]));
  }

  lemma NormalizeReduces(m: Matrix, c: nat, p: nat)
    requires CanPivot(m, c, p)
    ensures Reduced(Normalize(m, c, p), c) && Normalize(m, c, p)[c][c] == 1
  {}

  lemma EliminatedRow(m: Matrix, c: nat, r: nat, j: nat)
    requires IsMatrix(m, |m|, |m|) && c < |m| && Reduced(m, c) && m[c][c] == 1
    requires r < |m| && j < |m| && r != c
    ensures Eliminate(m, c)[r][j] == Add(m[r][j], Mul(m[r][c], m[c][j]))
  {
    MulZero(m[c][j]);
    MulZero(m[r][c]);
  }

  lemma EliminateReduces(m: Matrix, c: nat)
    requires IsMatrix(m, |m|, |m|) && c < |m| && Reduced(m, c) && m[c][c] == 1
    ensures Reduced(Eliminate(m, c), c + 1)
  {
    var e := Eliminate(m, c);
    forall i, j | 0 <= i < |m| && 0 <= j < c + 1
      ensures e[i][j] == if i == j then 1 else 0
    {
      if i != c {
        EliminatedRow(m, c, i, j);
        MulZero(m[i][c]);
        MulOne(m[i][c]);
        AddSelf(m[i][c]);
      }
    }
  }

  lemma MulCancel(x: Byte, y: Byte, f: Byte)
    requires f != 0
    ensures Mul(x, f) == Mul(y, f) <==> x == y
  {
    MulAssoc(x, f, Inv(f)); MulOne(x);
    MulAssoc(y, f, Inv(f)); MulOne(y);
  }

  lemma AddCancels(x: Byte, y: Byte, z: Byte)
    ensures Add(x, z) == Add(y, z) <==> x == y
  {
    AddCancel(x, z);
    AddCancel(y, z);
  }

  lemma NormalizeSolves(m: Matrix, c: nat, p: nat, v: Vector, b: Vector)
    requires CanPivot(m, c, p) && |v| == |b| == |m|
    ensures Solves(m, v, b) <==> Solves(Normalize(m, c, p), v, NormalizeRhs(b, m, c, p))
  {
    var m', b', n, f := Normalize(m, c, p), NormalizeRhs(b, m, c, p), |m|, Inv(m[p][c]);
    assert Dot(m'[c], v, n) == Mul(Dot(m[p], v, n), f) by {
      forall j | 0 <= j < n
        ensures m'[c][j] == Mul(m[p][j], f)
      {
        NormalizedRow(m, c, p, j);
      }
      DotScale(m[p], m'[c], f, v, n);
    }
    MulCancel(Dot(m[p], v, n), b[p], f);
    assert Dot(m'[c], v, n) == b'[c] <==> Dot(m[p], v, n) == b[p];
    assert p != c ==> m'[p] == m[c] && b'[p] == b[c];
    assert forall i :: 0 <= i < n && i != c && i != p ==> m'[i] == m[i] && b'[i] == b[i];
  }

  lemma EliminateSolves(m: Matrix, c: nat, v: Vector, b: Vector)
    requires IsMatrix(m, |m|, |m|) && c < |m| && Reduced(m, c) && m[c][c] == 1
    requires |v| == |b| == |m|
    ensures Solves(m, v, b) <==> Solves(Eliminate(m, c), v, EliminateRhs(b, m, c))
  {
    var m', b', n := Eliminate(m, c), EliminateRhs(b, m, c), |m|;
    assert m'[c] == m[c] && b'[c] == b[c];
    if Dot(m[c], v, n) == b[c] {
      forall r | 0 <= r < n
        ensures Dot(m'[r], v, n) == b'[r] <==> Dot(m[r], v, n) == b[r]
      {
        if r != c && m[r][c] != 0 {
          forall j | 0 <= j < n
            ensures m'[r][j] == Add(m[r][j], Mul(m[r][c], m[c][j]))
          {
            EliminatedRow(m, c, r, j);
          }
          DotAddMul(m[r], m'[r], m[r][c], m[c], v, n);
          AddCancels(Dot(m[r], v, n), b[r], Mul(m[r][c], b[c]));
        }
      }
    }
  }

  /** What the recursive step of `Gauss` works on. */
  ghost function Round(m: Matrix, c: nat, p: nat): (m': Matrix)
    requires CanPivot(m, c, p)
    ensures IsMatrix(m', |m|, |m|) && Reduced(m', c + 1)
  {
    NormalizeReduces(m, c, p);
    EliminateReduces(Normalize(m, c, p), c);
    Eliminate(Normalize(m, c, p), c)
  }

  lemma RoundKeepsSolutions(m: Matrix, b: Matrix, c: nat, p: nat, l: nat, v: Vector, j: nat)
    requires CanPivot(m, c, p) && IsMatrix(b, |m|, l) && |v| == |m| && j < l
    ensures var b' := EliminateSide(NormalizeSide(b, m, c, p, l), Normalize(m, c, p), c, l);
            Solves(m, v, Column(b, j)) <==> Solves(Round(m, c, p), v, Column(b', j))
  {
    SideColumns(b, m, c, p, l, j);
    NormalizeReduces(m, c, p);
    NormalizeSolves(m, c, p, v, Column(b, j));
    EliminateSolves(Normalize(m, c, p), c, v, NormalizeRhs(Column(b, j), m, c, p));
  }

  lemma RoundKeepsNullSpace(m: Matrix, c: nat, p: nat, v: Vector)
    requires CanPivot(m, c, p) && |v| == |m|
    ensures Solves(m, v, Zeros(|m|)) <==> Solves(Round(m, c, p), v, Zeros(|m|))
  {
    ZeroRhs(m, c, p);
    NormalizeReduces(m, c, p);
    NormalizeSolves(m, c, p, v, Zeros(|m|));
    EliminateSolves(Normalize(m, c, p), c, v, Zeros(|m|));
  }

  // ----- the whole elimination -----

  lemma IdentitySolves(m: Matrix, v: Vector, b: Vector)
    requires IsMatrix(m, |m|, |m|) && Reduced(m, |m|) && |v| == |b| == |m|
    ensures Solves(m, v, b) <==> v == b
  {
    forall i | 0 <= i < |m|
      ensures Dot(m[i], v, |m|) == v[i]
    {
      DotSingle(m[i], v, i, |m|);
      MulOne(v[i]);
    }
  }

  /** A result is the one and only solution of every column's system. */
  lemma {:induction false} GaussSolves(m: Matrix, b: Matrix, c: nat, l: nat, v: Vector, j: nat)
    requires IsMatrix(m, |m|, |m|) && c <= |m| && Reduced(m, c) && IsMatrix(b, |m|, l)
    requires |v| == |m| && j < l && Gauss(m, b, c, l).Some?
    ensures Solves(m, v, Column(b, j)) <==> v == Column(Gauss(m, b, c, l).value, j)
    decreases |m| - c
  {
    if c == |m| {
      IdentitySolves(m, v, Column(b, j));
    } else {
      var p := Pivot(m, c, c);
      RoundKeepsSolutions(m, b, c, p, l, v, j);
      var side := EliminateSide(NormalizeSide(b, m, c, p, l), Normalize(m, c, p), c, l);
      GaussSolves(Round(m, c, p), side, c + 1, l, v, j);
    }
  }

  /** The elimination finds a pivot in every column exactly when only zero is mapped to zero. */
  lemma {:induction false} GaussSomeMeansRegular(m: Matrix, b: Matrix, c: nat, l: nat, v: Vector)
    requires IsMatrix(m, |m|, |m|) && c <= |m| && Reduced(m, c) && IsMatrix(b, |m|, l)
    requires |v| == |m| && Gauss(m, b, c, l).Some? && Solves(m, v, Zeros(|m|))
    ensures v == Zeros(|m|)
    decreases |m| - c
  {
    if c == |m| {
      IdentitySolves(m, v, Zeros(|m|));
    } else {
      var p := Pivot(m, c, c);
      RoundKeepsNullSpace(m, c, p, v);
      var side := EliminateSide(NormalizeSide(b, m, c, p, l), Normalize(m, c, p), c, l);
      GaussSomeMeansRegular(Round(m, c, p), side, c + 1, l, v);
    }
  }

  /** The null vector that a column without a pivot gives. */
  function Witness(m: Matrix, c: nat): (v: Vector)
    requires IsMatrix(m, |m|, |m|) && c < |m|
    ensures |v| == |m|
  {
    seq(|m|, j requires 0 <= j < |m| => if j < c then m[j][c] else if j == c then 1 else 0)
  }

  lemma WitnessIsNull(m: Matrix, c: nat)
    requires IsMatrix(m, |m|, |m|) && c < |m| && Reduced(m, c)
    requires forall i :: c <= i < |m| ==> m[i][c] == 0
    ensures Solves(m, Witness(m, c), Zeros(|m|))
  {
    var v, n := Witness(m, c), |m|;
    forall i | 0 <= i < n
      ensures Dot(m[i], v, n) == 0
    {
      DotSingle(m[i], v, i, c);
      DotTail(m[i], v, c + 1, n);
      assert Dot(m[i], v, c + 1) == Add(Dot(m[i], v, c), Mul(m[i][c], 1));
      MulOne(m[i][c]);
      if i < c {
        MulOne(v[i]);
        AddSelf(m[i][c]);
      }
    }
  }

  lemma {:induction false} DotTail(r: Vector, v: Vector, k: nat, n: nat)
    requires k <= n <= |r| && n <= |v|
    requires forall i :: k <= i < n ==> v[i] == 0
    ensures Dot(r, v, n) == Dot(r, v, k)
  {
    if k < n {
      DotTail(r, v, k, n - 1);
      MulZero(r[n - 1]);
    }
  }

  lemma {:induction false} GaussNoneMeansSingular(m: Matrix, b: Matrix, c: nat, l: nat) returns (v: Vector)
    requires IsMatrix(m, |m|, |m|) && c <= |m| && Reduced(m, c) && IsMatrix(b, |m|, l)
    requires Gauss(m, b, c, l).None?
    ensures |v| == |m| && v != Zeros(|m|) && Solves(m, v, Zeros(|m|))
    decreases |m| - c
  {
    var p := Pivot(m, c, c);
    if p == |m| {
      v := Witness(m, c);
      assert v[c] == 1;
      WitnessIsNull(m, c);
    } else {
      var side := EliminateSide(NormalizeSide(b, m, c, p, l), Normalize(m, c, p), c, l);
      v := GaussNoneMeansSingular(Round(m, c, p), side, c + 1, l);
      RoundKeepsNullSpace(m, c, p, v);
    }
  }

  // ----- the contract of the decoder's elimination -----

  ghost predicate Regular(m: Matrix)
    requires IsMatrix(m, |m|, |m|)
  {
    forall v: Vector :: |v| == |m| && Solves(m, v, Zeros(|m|)) ==> v == Zeros(|m|)
  }

  lemma GaussDecidesRegularity(m: Matrix, b: Matrix, l: nat)
    requires IsMatrix(m, |m|, |m|) && IsMatrix(b, |m|, l)
    ensures Gauss(m, b, 0, l).Some? <==> Regular(m)
  {
    if Gauss(m, b, 0, l).Some? {
      forall v: Vector | |v| == |m| && Solves(m, v, Zeros(|m|))
        ensures v == Zeros(|m|)
      {
        GaussSomeMeansRegular(m, b, 0, l, v);
      }
    } else {
      var v := GaussNoneMeansSingular(m, b, 0, l);
    }
  }
}
