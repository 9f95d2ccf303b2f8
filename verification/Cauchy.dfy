/**
 The encoding matrix of the codec: k identity rows over m rows of the Cauchy matrix with entries
 1 / (x_i + y_j), x_i = i and y_j = k + j.  Any k of its rows form a regular matrix.
 */
module Cauchy {
  import opened GF256
  import opened Powers
  import opened LinearAlgebra
  import opened GaussJordan
  import opened Counting

  /** 1 / (x + y) */
  ghost function Entry(x: Byte, y: Byte): (c: Byte)
    requires x != y
    ensures c != 0 && Mul(Add(x, y), c) == 1
  {
    AddIsZero(x, y);
    Inv(Add(x, y))
  }

  // ----- the square Cauchy system has only the zero solution -----

  ghost predicate Distinct(s: seq<Byte>, n: nat)
    requires n <= |s|
  {
    forall i, j :: 0 <= i < j < n ==> s[i] != s[j]
  }

  ghost predicate Apart(xs: seq<Byte>, y: Byte, n: nat)
    requires n <= |xs|
  {
    forall i :: 0 <= i < n ==> xs[i] != y
  }

  /** The sum of v[i] / (xs[i] + y) over i < n. */
  ghost function CauchySum(xs: seq<Byte>, v: Vector, y: Byte, n: nat): Byte
    requires n <= |xs| && n <= |v| && Apart(xs, y, n)
  {
    if n == 0 then 0 else Add(CauchySum(xs, v, y, n - 1), Mul(Entry(xs[n - 1], y), v[n - 1]))
  }

  lemma {:induction false} CauchySumOfZeros(xs: seq<Byte>, v: Vector, y: Byte, n: nat)
    requires n <= |xs| && n <= |v| && Apart(xs, y, n)
    requires forall i :: 0 <= i < n ==> v[i] == 0
    ensures CauchySum(xs, v, y, n) == 0
  {
    if n > 0 {
      CauchySumOfZeros(xs, v, y, n - 1);
      MulZero(Entry(xs[n - 1], y));
    }
  }

  lemma EntryShift(x0: Byte, x: Byte, y: Byte)
    requires x != y
    ensures Mul(Add(x0, y), Entry(x, y)) == Add(Mul(Add(x0, x), Entry(x, y)), 1)
  {
    assert Add(x0, y) == Add(Add(x0, x), Add(x, y)) by {
      AddAssoc(Add(x0, x), x, y);
      AddCancel(x0, x);
    }
    MulAddLeft(Add(x0, x), Add(x, y), Entry(x, y));
  }

  lemma EntrySum(x: Byte, y: Byte, y0: Byte)
    requires x != y && x != y0
    ensures Add(Entry(x, y), Entry(x, y0)) == Mul(Mul(Entry(x, y), Entry(x, y0)), Add(y, y0))
  {
    var a, b := Entry(x, y), Entry(x, y0);
    assert Mul(Mul(a, b), Add(x, y0)) == a by {
      MulAssoc(a, b, Add(x, y0));
      MulComm(b, Add(x, y0));
      MulOne(a);
    }
    assert Mul(Mul(a, b), Add(x, y)) == b by {
      MulSwap(a, b, Add(x, y));
      MulComm(a, Add(x, y));
      MulOne(b);
    }
    assert Add(y, y0) == Add(Add(x, y0), Add(x, y)) by {
      AddComm(x, y0);
      AddAssoc(Add(y0, x), x, y);
      AddCancel(y0, x);
      AddComm(y, y0);
    }
    MulAddRight(Mul(a, b), Add(x, y0), Add(x, y));
  }

  /** The coefficient left of v once x0 and y0 are eliminated. */
  ghost function Folded(x0: Byte, y0: Byte, x: Byte, v: Byte): Byte
    requires x != y0
  {
    Mul(Mul(Add(x0, x), Entry(x, y0)), v)
  }

  lemma FoldTerm(x0: Byte, y0: Byte, x: Byte, y: Byte, v: Byte)
    requires x != y && x != y0
    ensures Add(Mul(Add(x0, y), Mul(Entry(x, y), v)), Mul(Add(x0, y0), Mul(Entry(x, y0), v)))
         == Mul(Add(y, y0), Mul(Entry(x, y), Folded(x0, y0, x, v)))
  {
    var a, b, d, e := Entry(x, y), Entry(x, y0), Add(x0, x), Add(y, y0);
    var p, q := Mul(Add(x0, y), a), Mul(Add(x0, y0), b);
    MulAssoc(Add(x0, y), a, v);
    MulAssoc(Add(x0, y0), b, v);
    MulAddLeft(p, q, v);
    assert Add(p, q) == Mul(d, Add(a, b)) by {
      EntryShift(x0, x, y);
      EntryShift(x0, x, y0);
      AddSwap4(Mul(d, a), 1, Mul(d, b), 1);
      AddSelf(1);
      MulAddRight(d, a, b);
    }
    EntrySum(x, y, y0);
    assert Mul(Mul(d, Mul(Mul(a, b), e)), v) == Mul(e, Mul(a, Mul(Mul(d, b), v))) by {
      RearrangeFactors(d, a, b, e, v);
    }
  }

  lemma RearrangeFactors(d: Byte, a: Byte, b: Byte, e: Byte, v: Byte)
    ensures Mul(Mul(d, Mul(Mul(a, b), e)), v) == Mul(e, Mul(a, Mul(Mul(d, b), v)))
  {
    calc {
      Mul(Mul(d, Mul(Mul(a, b), e)), v);
      { MulAssoc(d, Mul(a, b), e); MulComm(Mul(d, Mul(a, b)), e); }
      Mul(Mul(e, Mul(d, Mul(a, b))), v);
      { MulAssoc(e, Mul(d, Mul(a, b)), v); MulComm(a, b); MulAssoc(d, b, a); }
      Mul(e, Mul(Mul(Mul(d, b), a), v));
      { MulComm(Mul(d, b), a); MulAssoc(a, Mul(d, b), v); }
      Mul(e, Mul(a, Mul(Mul(d, b), v)));
    }
  }

  lemma {:induction false} FoldSum(xs: seq<Byte>, v: Vector, w: Vector, x0: Byte, y0: Byte, y: Byte, n: nat)
    requires n <= |xs| && n <= |v| && n <= |w| && Apart(xs, y, n) && Apart(xs, y0, n)
    requires forall i :: 0 <= i < n ==> w[i] == Folded(x0, y0, xs[i], v[i])
    ensures Add(Mul(Add(x0, y), CauchySum(xs, v, y, n)), Mul(Add(x0, y0), CauchySum(xs, v, y0, n)))
         == Mul(Add(y, y0), CauchySum(xs, w, y, n))
  {
    if n == 0 {
      MulZero(Add(x0, y)); MulZero(Add(x0, y0)); MulZero(Add(y, y0));
    } else {
      var i := n - 1;
      FoldSum(xs, v, w, x0, y0, y, i);
      FoldTerm(x0, y0, xs[i], y, v[i]);
      var s, s0, t, t0 := CauchySum(xs, v, y, i), CauchySum(xs, v, y0, i), Mul(Entry(xs[i], y), v[i]),
          Mul(Entry(xs[i], y0), v[i]);
      MulAddRight(Add(x0, y), s, t);
      MulAddRight(Add(x0, y0), s0, t0);
      AddSwap4(Mul(Add(x0, y), s), Mul(Add(x0, y), t), Mul(Add(x0, y0), s0), Mul(Add(x0, y0), t0));
      MulAddRight(Add(y, y0), CauchySum(xs, w, y, i), Mul(Entry(xs[i], y), w[i]));
    }
  }

  /** An equation, solved for the last unknown. */
  lemma LastUnknown(xs: seq<Byte>, v: Vector, y: Byte, n: nat)
    requires 0 < n <= |xs| && n <= |v| && Apart(xs, y, n) && CauchySum(xs, v, y, n) == 0
    ensures Mul(Add(xs[n - 1], y), CauchySum(xs, v, y, n - 1)) == v[n - 1]
  {
    var x := xs[n - 1];
    AddIsZero(CauchySum(xs, v, y, n - 1), Mul(Entry(x, y), v[n - 1]));
    MulAssoc(Add(x, y), Entry(x, y), v[n - 1]);
    MulOne(v[n - 1]);
  }

  lemma {:induction false} CauchyIsRegular(xs: seq<Byte>, ys: seq<Byte>, v: Vector, n: nat)
    requires n <= |xs| && n <= |ys| && n <= |v| && Distinct(xs, n) && Distinct(ys, n)
    requires forall j :: 0 <= j < n ==> Apart(xs, ys[j], n)
    requires forall j :: 0 <= j < n ==> CauchySum(xs, v, ys[j], n) == 0
    ensures forall i :: 0 <= i < n ==> v[i] == 0
    decreases n
  {
    if n > 0 {
      var k := n - 1;
      var x0, y0 := xs[k], ys[k];
      assert Apart(xs, y0, n);
      var w: Vector := seq(k, i requires 0 <= i < k => Folded(x0, y0, xs[i], v[i]));
      forall j | 0 <= j < k
        ensures Apart(xs, ys[j], k) && CauchySum(xs, w, ys[j], k) == 0
      {
        FoldedEquation(xs, ys, v, w, j, k);
      }
      CauchyIsRegular(xs, ys, w, k);
      forall i | 0 <= i < k
        ensures v[i] == 0
      {
        assert w[i] == 0;
        FoldedIsZero(x0, y0, xs[i], v[i]);
      }
      CauchySumOfZeros(xs, v, y0, k);
      LastUnknown(xs, v, y0, n);
      MulZero(Add(x0, y0));
    }
  }

  lemma FoldedIsZero(x0: Byte, y0: Byte, x: Byte, v: Byte)
    requires x != y0 && x != x0 && Folded(x0, y0, x, v) == 0
    ensures v == 0
  {
    AddIsZero(x0, x);
    NoZeroDivisors(Add(x0, x), Entry(x, y0));
    NoZeroDivisors(Mul(Add(x0, x), Entry(x, y0)), v);
  }

  lemma FoldedEquation(xs: seq<Byte>, ys: seq<Byte>, v: Vector, w: Vector, j: nat, k: nat)
    requires j < k < |xs| && k < |ys| && k < |v| && k == |w| && ys[j] != ys[k]
    requires Apart(xs, ys[j], k + 1) && Apart(xs, ys[k], k + 1)
    requires CauchySum(xs, v, ys[j], k + 1) == 0 && CauchySum(xs, v, ys[k], k + 1) == 0
    requires forall i :: 0 <= i < k ==> w[i] == Folded(xs[k], ys[k], xs[i], v[i])
    ensures CauchySum(xs, w, ys[j], k) == 0
  {
    var x0, y0, y := xs[k], ys[k], ys[j];
    LastUnknown(xs, v, y, k + 1);
    LastUnknown(xs, v, y0, k + 1);
    FoldSum(xs, v, w, x0, y0, y, k);
    AddSelf(v[k]);
    AddIsZero(y, y0);
    NoZeroDivisors(Add(y, y0), CauchySum(xs, w, y, k));
  }

  // ----- any k rows of the stacked matrix -----

  /** Row `idx` of the encoding matrix: a unit vector, or the Cauchy row with y = idx. */
  ghost function EncodingRow(k: nat, idx: nat): (r: Vector)
    requires k <= 256 && idx < 256
    ensures |r| == k
  {
    if idx < k then seq(k, i => if i == idx then 1 else 0)
    else seq(k, i requires 0 <= i < k => Entry(i, idx))
  }

  ghost function EncodingRows(k: nat, indices: seq<nat>): (m: Matrix)
    requires k <= 256 && forall r :: 0 <= r < |indices| ==> indices[r] < 256
    ensures IsMatrix(m, |indices|, k)
  {
    seq(|indices|, r requires 0 <= r < |indices| => EncodingRow(k, indices[r]))
  }

  ghost predicate DistinctIndices(indices: seq<nat>, bound: nat)
  {
    (forall r :: 0 <= r < |indices| ==> indices[r] < bound)
    && forall r, s :: 0 <= r < s < |indices| ==> indices[r] != indices[s]
  }

  /** The data positions below n that are not among the received indices, in order. */
  ghost function Missing(indices: seq<nat>, n: nat): (xs: seq<Byte>)
    requires n <= 256
    ensures forall t :: 0 <= t < |xs| ==> xs[t] < n && xs[t] !in indices
    ensures Distinct(xs, |xs|)
  {
    if n == 0 then []
    else Missing(indices, n - 1) + if n - 1 in indices then [] else [n - 1]
  }

  /** A product with a parity row runs over the missing positions only. */
  lemma {:induction false} ParityRowIsCauchySum(k: nat, indices: seq<nat>, y: Byte, v: Vector, u: Vector,
                                                xs: seq<Byte>, n: nat)
    requires n <= k <= y && |v| == k && xs == Missing(indices, k) && |u| == |xs|
    requires Missing(indices, n) <= xs && Apart(xs, y, |xs|)
    requires forall i :: 0 <= i < k && i in indices ==> v[i] == 0
    requires forall t :: 0 <= t < |xs| ==> u[t] == v[xs[t]]
    ensures Dot(EncodingRow(k, y), v, n) == CauchySum(xs, u, y, |Missing(indices, n)|)
  {
    if n > 0 {
      var i := n - 1;
      assert Missing(indices, i) <= Missing(indices, n);
      ParityRowIsCauchySum(k, indices, y, v, u, xs, i);
      if i in indices {
        MulZero(Entry(i, y));
      } else {
        var t := |Missing(indices, i)|;
        assert Missing(indices, n)[t] == i;
        assert xs[t] == i;
      }
    }
  }

  /** The parity indices among the first n, in order of arrival. */
  ghost function Parities(k: nat, indices: seq<nat>, n: nat): (ys: seq<Byte>)
    requires n <= |indices| && DistinctIndices(indices, 256)
    ensures forall t :: 0 <= t < |ys| ==> k <= ys[t] && ys[t] in indices[..n]
    ensures Distinct(ys, |ys|)
  {
    if n == 0 then []
    else
      assert indices[n - 1] !in indices[..n - 1];
      Parities(k, indices, n - 1) + if indices[n - 1] < k then [] else [indices[n - 1]]
  }

  /** The data indices among the first n. */
  ghost function DataIndices(k: nat, indices: seq<nat>, n: nat): (d: set<int>)
    requires n <= |indices| && DistinctIndices(indices, 256)
    ensures forall x :: x in d ==> 0 <= x < k && x in indices
    ensures forall r :: n <= r < |indices| ==> indices[r] !in d
  {
    if n == 0 then {}
    else if indices[n - 1] < k then DataIndices(k, indices, n - 1) + {indices[n - 1]}
    else DataIndices(k, indices, n - 1)
  }

  function CountData(k: nat, indices: seq<nat>, n: nat): nat
    requires n <= |indices|
  {
    if n == 0 then 0 else CountData(k, indices, n - 1) + if indices[n - 1] < k then 1 else 0
  }

  lemma {:induction false} CountParities(k: nat, indices: seq<nat>, n: nat)
    requires n <= |indices| && DistinctIndices(indices, 256)
    ensures |Parities(k, indices, n)| == n - CountData(k, indices, n)
  {
    if n > 0 { CountParities(k, indices, n - 1); }
  }

  lemma {:induction false} CountDataIndices(k: nat, indices: seq<nat>, n: nat)
    requires n <= |indices| && DistinctIndices(indices, 256)
    ensures |DataIndices(k, indices, n)| == CountData(k, indices, n)
  {
    if n > 0 {
      CountDataIndices(k, indices, n - 1);
      assert indices[n - 1] !in DataIndices(k, indices, n - 1);
    }
  }

  /** With k rows received, there are at least as many parity rows as missing data rows. */
  lemma EnoughParities(k: nat, indices: seq<nat>)
    requires |indices| == k <= 256 && DistinctIndices(indices, 256)
    ensures |Missing(indices, k)| <= |Parities(k, indices, k)|
  {
    var xs, d := Missing(indices, k), DataIndices(k, indices, k);
    CountParities(k, indices, k);
    CountDataIndices(k, indices, k);
    var missing: seq<int> := seq(|xs|, t requires 0 <= t < |xs| => xs[t] as int);
    ElementsSize(missing);
    Pigeonhole(Elements(missing) + d, k);
    assert Elements(missing) !! d;
  }

  lemma NullVectorIsZero(k: nat, indices: seq<nat>, v: Vector)
    requires |indices| == |v| == k <= 256 && DistinctIndices(indices, 256)
    requires Solves(EncodingRows(k, indices), v, Zeros(k))
    ensures v == Zeros(k)
  {
    var xs, ys := Missing(indices, k), Parities(k, indices, k);
    forall i | 0 <= i < k && i in indices
      ensures v[i] == 0
    {
      var r :| 0 <= r < k && indices[r] == i;
      DataRowPicks(k, indices, v, r);
    }
    var u: Vector := seq(|xs|, t requires 0 <= t < |xs| => v[xs[t]]);
    forall j | 0 <= j < |ys|
      ensures Apart(xs, ys[j], |xs|) && CauchySum(xs, u, ys[j], |xs|) == 0
    {
      var r :| 0 <= r < k && indices[r] == ys[j];
      assert Dot(EncodingRows(k, indices)[r], v, k) == 0;
      ParityRowIsCauchySum(k, indices, ys[j], v, u, xs, k);
    }
    EnoughParities(k, indices);
    CauchyIsRegular(xs, ys, u, |xs|);
    forall i | 0 <= i < k
      ensures v[i] == 0
    {
      if i !in indices {
        MissingContains(indices, k, i);
        var t :| 0 <= t < |xs| && xs[t] == i;
        assert u[t] == 0;
      }
    }
  }

  lemma DataRowPicks(k: nat, indices: seq<nat>, v: Vector, r: nat)
    requires r < |indices| == |v| == k <= 256 && DistinctIndices(indices, 256) && indices[r] < k
    requires Solves(EncodingRows(k, indices), v, Zeros(k))
    ensures v[indices[r]] == 0
  {
    var row := EncodingRows(k, indices)[r];
    assert Dot(row, v, k) == 0;
    DotSingle(row, v, indices[r], k);
    MulOne(v[indices[r]]);
  }

  lemma {:induction false} MissingContains(indices: seq<nat>, n: nat, i: nat)
    requires i < n <= 256 && i !in indices
    ensures exists t :: 0 <= t < |Missing(indices, n)| && Missing(indices, n)[t] == i
  {
    var xs := Missing(indices, n - 1);
    if i < n - 1 {
      MissingContains(indices, n - 1, i);
      var t :| 0 <= t < |xs| && xs[t] == i;
      assert Missing(indices, n)[t] == i;
    } else {
      assert Missing(indices, n)[|xs|] == i;
    }
  }

  /** Any k distinct rows of the encoding matrix are linearly independent. */
  lemma AnyRowsAreRegular(k: nat, indices: seq<nat>)
    requires |indices| == k <= 256 && DistinctIndices(indices, 256)
    ensures Regular(EncodingRows(k, indices))
  {
    var m := EncodingRows(k, indices);
    forall v: Vector | |v| == |m| && Solves(m, v, Zeros(|m|))
      ensures v == Zeros(|m|)
    {
      NullVectorIsZero(k, indices, v);
    }
  }
}
