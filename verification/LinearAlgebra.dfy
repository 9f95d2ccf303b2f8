/** Vectors and matrices over GF(2^8), and Gauss-Jordan elimination as the codec performs it. */
module LinearAlgebra {
  import opened GF256
  import opened Powers

  datatype Option<T> = None | Some(value: T)

  type Vector = seq<Byte>
  type Matrix = seq<Vector>

  ghost predicate IsMatrix(m: Matrix, rows: nat, columns: nat)
  {
    |m| == rows && forall i :: 0 <= i < rows ==> |m[i]| == columns
  }

  // ----- inner products -----

  /** The sum of r[i] * v[i] over i < n. */
  function Dot(r: Vector, v: Vector, n: nat): Byte
    requires n <= |r| && n <= |v|
  {
    if n == 0 then 0 else Add(Dot(r, v, n - 1), Mul(r[n - 1], v[n - 1]))
  }

  lemma {:induction false} DotScale(r: Vector, r': Vector, f: Byte, v: Vector, n: nat)
    requires n <= |r| && n <= |r'| && n <= |v|
    requires forall i :: 0 <= i < n ==> r'[i] == Mul(r[i], f)
    ensures Dot(r', v, n) == Mul(Dot(r, v, n), f)
  {
    if n == 0 {
      MulZero(f);
    } else {
      var i := n - 1;
      DotScale(r, r', f, v, i);
      MulAddLeft(Dot(r, v, i), Mul(r[i], v[i]), f);
      MulSwap(r[i], v[i], f);
    }
  }

  lemma {:induction false} DotAddMul(r: Vector, r': Vector, f: Byte, p: Vector, v: Vector, n: nat)
    requires n <= |r| && n <= |r'| && n <= |p| && n <= |v|
    requires forall i :: 0 <= i < n ==> r'[i] == Add(r[i], Mul(f, p[i]))
    ensures Dot(r', v, n) == Add(Dot(r, v, n), Mul(f, Dot(p, v, n)))
  {
    if n > 0 {
      var i := n - 1;
      DotAddMul(r, r', f, p, v, i);
      MulAddLeft(r[i], Mul(f, p[i]), v[i]);
      MulAssoc(f, p[i], v[i]);
      MulAddRight(f, Dot(p, v, i), Mul(p[i], v[i]));
      AddSwap4(Dot(r, v, i), Mul(f, Dot(p, v, i)), Mul(r[i], v[i]), Mul(f, Mul(p[i], v[i])));
    }
  }

  lemma {:induction false} DotSame(r: Vector, r': Vector, v: Vector, v': Vector, n: nat)
    requires n <= |r| && n <= |r'| && n <= |v| && n <= |v'|
    requires forall i :: 0 <= i < n ==> r'[i] == r[i] && v'[i] == v[i]
    ensures Dot(r', v', n) == Dot(r, v, n)
  {
    if n > 0 { DotSame(r, r', v, v', n - 1); }
  }

  /** Only position j contributes. */
  lemma {:induction false} DotSingle(r: Vector, v: Vector, j: nat, n: nat)
    requires n <= |r| && n <= |v|
    requires forall i :: 0 <= i < n && i != j ==> r[i] == 0 || v[i] == 0
    ensures Dot(r, v, n) == if j < n then Mul(r[j], v[j]) else 0
  {
    if n > 0 {
      var i := n - 1;
      DotSingle(r, v, j, i);
      MulZero(r[i]);
      MulZero(v[i]);
    }
  }

  // ----- linear systems -----

  ghost predicate Solves(m: Matrix, v: Vector, b: Vector)
    requires IsMatrix(m, |m|, |v|) && |b| == |m|
  {
    forall i :: 0 <= i < |m| ==> Dot(m[i], v, |v|) == b[i]
  }

  function Zeros(n: nat): Vector { seq(n, i => 0) }

  /** Column b of the right-hand sides. */
  function Column(m: Matrix, b: nat): (c: Vector)
    requires forall i :: 0 <= i < |m| ==> b < |m[i]|
    ensures |c| == |m|
  {
    seq(|m|, i requires 0 <= i < |m| => m[i][b])
  }

  // ----- row operations -----

  function Swap<T>(s: seq<T>, i: nat, j: nat): seq<T>
    requires i < |s| && j < |s|
  {
    s[i := s[j]][j := s[i]]
  }

  /** Multiplies the entries from position `from` on. */
  function ScaleFrom(r: Vector, f: Byte, from: nat): (r': Vector)
    ensures |r'| == |r|
  {
    seq(|r|, c requires 0 <= c < |r| => if c < from then r[c] else Mul(r[c], f))
  }

  /** Adds f * p to the entries from position `from` on. */
  function AddMulFrom(r: Vector, f: Byte, p: Vector, from: nat): (r': Vector)
    requires |p| == |r|
    ensures |r'| == |r|
  {
    seq(|r|, c requires 0 <= c < |r| => if c < from then r[c] else Add(r[c], Mul(f, p[c])))
  }

  function Eliminate(m: Matrix, c: nat): (m': Matrix)
    requires IsMatrix(m, |m|, |m|) && c < |m|
    ensures IsMatrix(m', |m|, |m|)
  {
    seq(|m|, r requires 0 <= r < |m| => if r == c || m[r][c] == 0 then m[r] else AddMulFrom(m[r], m[r][c], m[c], c))
  }

  /** The same row operations on the right-hand sides; the factors come from the matrix. */
  function EliminateSide(b: Matrix, m: Matrix, c: nat, l: nat): (b': Matrix)
    requires IsMatrix(m, |m|, |m|) && c < |m| && IsMatrix(b, |m|, l)
    ensures IsMatrix(b', |m|, l)
  {
    seq(|b|, r requires 0 <= r < |b| => if r == c || m[r][c] == 0 then b[r] else AddMulFrom(b[r], m[r][c], b[c], 0))
  }

  /** The first row at or below r with a non-zero entry in column c, or |m|. */
  function Pivot(m: Matrix, c: nat, r: nat): (p: nat)
    requires IsMatrix(m, |m|, |m|) && c < |m| && r <= |m|
    ensures r <= p <= |m|
    ensures forall i :: r <= i < p ==> m[i][c] == 0
    ensures p < |m| ==> m[p][c] != 0
    decreases |m| - r
  {
    if r == |m| || m[r][c] != 0 then r else Pivot(m, c, r + 1)
  }

  /** Swap the pivot row up and scale it to a leading one. */
  ghost function Normalize(m: Matrix, c: nat, p: nat): (m': Matrix)
    requires IsMatrix(m, |m|, |m|) && c <= p < |m| && m[p][c] != 0
    ensures IsMatrix(m', |m|, |m|)
  {
    var s := Swap(m, c, p);
    s[c := ScaleFrom(s[c], Inv(m[p][c]), c)]
  }

  ghost function NormalizeSide(b: Matrix, m: Matrix, c: nat, p: nat, l: nat): (b': Matrix)
    requires IsMatrix(m, |m|, |m|) && c <= p < |m| && m[p][c] != 0 && IsMatrix(b, |m|, l)
    ensures IsMatrix(b', |m|, l)
  {
    var s := Swap(b, c, p);
    s[c := ScaleFrom(s[c], Inv(m[p][c]), 0)]
  }

  /** Gauss-Jordan elimination from column c on; None when a column has no pivot. */
  ghost function Gauss(m: Matrix, b: Matrix, c: nat, l: nat): (x: Option<Matrix>)
    requires IsMatrix(m, |m|, |m|) && c <= |m| && IsMatrix(b, |m|, l)
    ensures x.Some? ==> IsMatrix(x.value, |m|, l)
    decreases |m| - c
  {
    if c == |m| then Some(b)
    else
      var p := Pivot(m, c, c);
      if p == |m| then None
      else
        var m1 := Normalize(m, c, p);
        var b1 := NormalizeSide(b, m, c, p, l);
        Gauss(Eliminate(m1, c), EliminateSide(b1, m1, c, l), c + 1, l)
  }
}
