/** The frames of one group: k data frames and m parity frames. */
module FecFrames {
  import opened GF256
  import opened LinearAlgebra
  import opened Cauchy
  import opened FecWire

  ghost predicate LegalConfig(k: nat, m: nat)
  {
    1 <= k && 1 <= m && k + m <= 254
  }

  const MAX_U16 := 0xFFFF

  /** Payloads that `encode` accepts. */
  ghost predicate Fits(k: nat, payload: Bytes)
  {
    |payload| + 2 * k <= MAX_U16
  }

  ghost predicate IsGroup(k: nat, data: seq<Bytes>)
  {
    |data| == k && forall i :: 0 <= i < k ==> Fits(k, data[i])
  }

  function Max(a: nat, b: nat): nat { if a < b then b else a }

  function MaxLen(data: seq<Bytes>, n: nat): (l: nat)
    requires n <= |data|
    ensures forall i :: 0 <= i < n ==> |data[i]| <= l
    ensures l > 0 ==> exists i :: 0 <= i < n && |data[i]| == l
  {
    if n == 0 then 0 else Max(MaxLen(data, n - 1), |data[n - 1]|)
  }

  /** Byte b of a payload that is padded with zeros. */
  function PadAt(d: Bytes, b: nat): Byte { if b < |d| then d[b] else 0 }

  function Pad(d: Bytes, l: nat): (p: Bytes)
    ensures |p| == l
  {
    seq(l, b requires 0 <= b => PadAt(d, b))
  }

  /** The payloads as the rows of a matrix. */
  function DataMatrix(data: seq<Bytes>, l: nat): (x: Matrix)
    ensures IsMatrix(x, |data|, l)
  {
    seq(|data|, i requires 0 <= i < |data| => Pad(data[i], l))
  }

  /** Parity row j: at each byte position, the Cauchy row times the payload bytes there. */
  ghost function ParityVector(k: nat, data: seq<Bytes>, j: nat): (p: Bytes)
    requires |data| == k && k + j < 256
    ensures |p| == MaxLen(data, k)
  {
    var l := MaxLen(data, k);
    seq(l, b requires 0 <= b < l => Dot(EncodingRow(k, k + j), Column(DataMatrix(data, l), b), k))
  }

  /**
   The code itself: where only payload i has a byte that is not zero, parity j times x_i + y_j is that
   byte, with x_i = i and y_j = k + j.  As parity rows are linear, this determines them.
   */
  lemma ParityOfOne(k: nat, data: seq<Bytes>, j: nat, i: nat, b: nat)
    requires |data| == k && k + j < 256 && i < k && b < MaxLen(data, k)
    requires forall h :: 0 <= h < k && h != i ==> PadAt(data[h], b) == 0
    ensures Mul(Add(i, k + j), ParityVector(k, data, j)[b]) == PadAt(data[i], b)
  {
    var l := MaxLen(data, k);
    var row, column := EncodingRow(k, k + j), Column(DataMatrix(data, l), b);
    assert forall h :: 0 <= h < k ==> column[h] == PadAt(data[h], b);
    DotSingle(row, column, i, k);
    MulAssoc(Add(i, k + j), Entry(i, k + j), column[i]);
    MulOne(column[i]);
  }

  /** Two big-endian bytes for each of the first n lengths. */
  function Manifest(lens: seq<U16>, n: nat): (bytes: Bytes)
    requires n <= |lens|
    ensures |bytes| == 2 * n
    ensures forall i :: 0 <= i < n ==> bytes[2 * i] == High(lens[i]) && bytes[2 * i + 1] == Low(lens[i])
  {
    if n == 0 then [] else Manifest(lens, n - 1) + [High(lens[n - 1]), Low(lens[n - 1])]
  }

  function Lengths(data: seq<Bytes>): (lens: seq<U16>)
    requires forall i :: 0 <= i < |data| ==> |data[i]| <= MAX_U16
    ensures |lens| == |data| && forall i :: 0 <= i < |data| ==> lens[i] == |data[i]|
  {
    seq(|data|, i requires 0 <= i < |data| => |data[i]|)
  }

  ghost function DataFrame(k: nat, m: nat, g: U32, i: nat, payload: Bytes): Bytes
    requires LegalConfig(k, m) && i < k && Fits(k, payload)
  {
    MakeHeader(Header(g, i, k, m, |payload|)) + payload
  }

  ghost function ParityPayload(k: nat, data: seq<Bytes>, j: nat): (p: Bytes)
    requires k + j < 256 && IsGroup(k, data)
    ensures |p| <= MAX_U16
  {
    Manifest(Lengths(data), k) + ParityVector(k, data, j)
  }

  ghost function ParityFrame(k: nat, m: nat, g: U32, data: seq<Bytes>, j: nat): Bytes
    requires LegalConfig(k, m) && j < m && IsGroup(k, data)
  {
    var p := ParityPayload(k, data, j);
    MakeHeader(Header(g, k + j, k, m, |p|)) + p
  }

  /** Frame idx of the group, in the order in which the sender emits them. */
  ghost function Frame(k: nat, m: nat, g: U32, data: seq<Bytes>, idx: nat): Bytes
    requires LegalConfig(k, m) && idx < k + m && IsGroup(k, data)
  {
    if idx < k then DataFrame(k, m, g, idx, data[idx]) else ParityFrame(k, m, g, data, idx - k)
  }
}
