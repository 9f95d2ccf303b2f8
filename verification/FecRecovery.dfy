/**
 Any k of the k + m frames of a group recover its k payloads, in every order of arrival and
 whatever datagrams of other groups arrive in between.
 */
module FecRecovery {
  import opened GF256
  import opened LinearAlgebra
  import opened GaussJordan
  import opened Cauchy
  import opened FecWire
  import opened FecFrames
  import opened FecReceiver
  import opened FecInvariant

  // ----- the state of a group that received a set of its own frames -----

  ghost function SlotContent(k: nat, data: seq<Bytes>, i: nat): Bytes
    requires IsGroup(k, data) && i < 256
  {
    if i < k then data[i] else ParityVector(k, data, i - k)
  }

  ghost predicate HasParity(k: nat, s: set<nat>)
  {
    exists i :: i in s && i >= k
  }

  ghost function SlotsOf(k: nat, m: nat, data: seq<Bytes>, s: set<nat>): (slots: seq<Option<Bytes>>)
    requires LegalConfig(k, m) && IsGroup(k, data)
    ensures |slots| == k + m
  {
    seq(k + m, i requires 0 <= i < k + m => if i in s then Some(SlotContent(k, data, i)) else None)
  }

  ghost function LensOf(k: nat, data: seq<Bytes>, s: set<nat>): (lens: seq<U16>)
    requires IsGroup(k, data)
    ensures |lens| == k
  {
    seq(k, i requires 0 <= i < k => if i in s || HasParity(k, s) then |data[i]| else 0)
  }

  ghost function GroupOf(k: nat, m: nat, data: seq<Bytes>, s: set<nat>): (group: RecvGroup)
    requires LegalConfig(k, m) && IsGroup(k, data)
    ensures Shaped(k, m, group) && !group.delivered
  {
    var slots := SlotsOf(k, m, data, s);
    RecvGroup(k, m, slots, LensOf(k, data, s), CountFilled(slots, k + m), false)
  }

  lemma EmptyGroup(k: nat, m: nat, data: seq<Bytes>)
    requires LegalConfig(k, m) && IsGroup(k, data)
    ensures GroupOf(k, m, data, {}) == FreshGroup(k, m)
  {
    CountNone(k + m, SlotsOf(k, m, data, {}));
  }

  // ----- what a frame of the group does to it -----

  ghost function PayloadOfFrame(k: nat, data: seq<Bytes>, idx: nat): (p: Bytes)
    requires IsGroup(k, data) && idx < 256
    ensures |p| <= MAX_U16 && (idx >= k ==> |p| >= 2 * k)
  {
    if idx < k then data[idx] else ParityPayload(k, data, idx - k)
  }

  ghost function OwnEvent(k: nat, m: nat, g: U32, data: seq<Bytes>, idx: nat): (e: Event)
    requires LegalConfig(k, m) && IsGroup(k, data) && idx < k + m
    ensures ValidEvent(k, m, e) && e.Packet? && e.groupId == g
  {
    Packet(g, idx, PayloadOfFrame(k, data, idx))
  }

  /** The receiver reads back from a frame what the sender put into it. */
  lemma FrameIsOwnEvent(k: nat, m: nat, g: U32, data: seq<Bytes>, idx: nat)
    requires LegalConfig(k, m) && IsGroup(k, data) && idx < k + m
    ensures EventOf(k, m, Frame(k, m, g, data, idx)) == OwnEvent(k, m, g, data, idx)
  {
    var p := PayloadOfFrame(k, data, idx);
    var h := Header(g, idx, k, m, |p|);
    assert Frame(k, m, g, data, idx) == MakeHeader(h) + p;
    ParseOfMake(h, p);
  }

  lemma ManifestRoundTrip(k: nat, data: seq<Bytes>, j: nat)
    requires IsGroup(k, data) && k + j < 256
    ensures ManifestLens(ParityPayload(k, data, j), k) == Lengths(data)
    ensures ParityPayload(k, data, j)[2 * k..] == ParityVector(k, data, j)
  {
    var lens := Lengths(data);
    forall i | 0 <= i < k
      ensures ManifestLens(ParityPayload(k, data, j), k)[i] == lens[i]
    {
      assert ParityPayload(k, data, j)[2 * i] == High(lens[i]);
      assert ParityPayload(k, data, j)[2 * i + 1] == Low(lens[i]);
    }
  }

  lemma StoreFrame(k: nat, m: nat, data: seq<Bytes>, s: set<nat>, idx: nat)
    requires LegalConfig(k, m) && IsGroup(k, data) && idx < k + m && idx !in s
    ensures var group, p := GroupOf(k, m, data, s), PayloadOfFrame(k, data, idx);
            !Ignored(k, m, group, idx, p)
            && Store(k, m, group, idx, p) == GroupOf(k, m, data, s + {idx})
            && GroupOf(k, m, data, s + {idx}).received == group.received + 1
  {
    var slots, slots' := SlotsOf(k, m, data, s), SlotsOf(k, m, data, s + {idx});
    assert slots' == slots[idx := Some(SlotContent(k, data, idx))];
    CountAfterFill(slots, idx, SlotContent(k, data, idx), k + m);
    StoredLens(k, data, s, idx);
    if idx >= k { ManifestRoundTrip(k, data, idx - k); }
  }

  lemma StoredLens(k: nat, data: seq<Bytes>, s: set<nat>, idx: nat)
    requires IsGroup(k, data)
    ensures LensOf(k, data, s + {idx}) == if idx < k then LensOf(k, data, s)[idx := |data[idx]|] else Lengths(data)
  {
    assert HasParity(k, s + {idx}) <==> HasParity(k, s) || idx >= k;
    assert forall i :: 0 <= i < k ==> (i in s + {idx} <==> i in s || i == idx);
  }

  // ----- a complete group decodes to its payloads -----

  lemma {:induction false} AllFilled(slots: seq<Option<Bytes>>, n: nat)
    requires n <= |slots| && CountFilled(slots, n) == n
    ensures forall i :: 0 <= i < n ==> slots[i].Some?
  {
    if n > 0 { AllFilled(slots, n - 1); }
  }

  lemma {:induction false} CountBeyond(slots: seq<Option<Bytes>>, k: nat, n: nat)
    requires k <= n <= |slots| && forall i :: k <= i < n ==> slots[i].None?
    ensures CountFilled(slots, n) == CountFilled(slots, k)
  {
    if k < n { CountBeyond(slots, k, n - 1); }
  }

  /** With k frames received, either a parity frame is among them or all the data frames are. */
  lemma ParityOrAllData(k: nat, m: nat, data: seq<Bytes>, s: set<nat>)
    requires LegalConfig(k, m) && IsGroup(k, data) && GroupOf(k, m, data, s).received >= k
    ensures (exists i :: k <= i < k + m && i in s) || (forall i :: 0 <= i < k ==> i in s)
  {
    var slots := SlotsOf(k, m, data, s);
    if forall i :: k <= i < k + m ==> i !in s {
      CountBeyond(slots, k, k + m);
      AllFilled(slots, k);
      forall i | 0 <= i < k
        ensures i in s
      {
        assert slots[i].Some?;
      }
    }
  }

  lemma {:induction false} SymbolLenAtMost(slots: seq<Option<Bytes>>, n: nat, l: nat)
    requires n <= |slots| && forall i :: 0 <= i < n && slots[i].Some? ==> |slots[i].value| <= l
    ensures SymbolLen(slots, n) <= l
  {
    if n > 0 { SymbolLenAtMost(slots, n - 1, l); }
  }

  lemma SymbolLenIsMaxLen(k: nat, m: nat, data: seq<Bytes>, s: set<nat>)
    requires LegalConfig(k, m) && IsGroup(k, data) && GroupOf(k, m, data, s).received >= k
    ensures SymbolLen(SlotsOf(k, m, data, s), k + m) == MaxLen(data, k)
  {
    var slots, l := SlotsOf(k, m, data, s), MaxLen(data, k);
    SymbolLenAtMost(slots, k + m, l);
    ParityOrAllData(k, m, data, s);
    if i :| k <= i < k + m && i in s {
      assert |slots[i].value| == l;
    } else if l > 0 {
      var i :| 0 <= i < k && |data[i]| == l;
      assert |slots[i].value| == l;
    }
  }

  lemma LensAreExact(k: nat, m: nat, data: seq<Bytes>, s: set<nat>)
    requires LegalConfig(k, m) && IsGroup(k, data) && GroupOf(k, m, data, s).received >= k
    ensures LensOf(k, data, s) == Lengths(data)
  {
    ParityOrAllData(k, m, data, s);
  }

  /** The padded payloads solve the system that the received frames pose. */
  lemma PayloadsSolve(k: nat, m: nat, data: seq<Bytes>, s: set<nat>, idx: seq<nat>, b: nat)
    requires LegalConfig(k, m) && IsGroup(k, data) && b < MaxLen(data, k) && |idx| == k
    requires forall r :: 0 <= r < k ==> idx[r] < k + m && idx[r] in s
    ensures var l := MaxLen(data, k);
            Solves(EncodingRows(k, idx), Column(DataMatrix(data, l), b),
                   Column(PaddedRows(SlotsOf(k, m, data, s), idx, l), b))
  {
    var l := MaxLen(data, k);
    var rows, v, side := EncodingRows(k, idx), Column(DataMatrix(data, l), b),
        PaddedRows(SlotsOf(k, m, data, s), idx, l);
    forall r | 0 <= r < k
      ensures Dot(rows[r], v, k) == side[r][b]
    {
      var i := idx[r];
      if i < k {
        DotSingle(rows[r], v, i, k);
        MulOne(v[i]);
      }
    }
  }

  lemma TruncateUndoesPad(data: seq<Bytes>, l: nat, lens: seq<U16>)
    requires |lens| == |data|
    requires forall i :: 0 <= i < |data| ==> lens[i] == |data[i]| <= l
    ensures Truncate(DataMatrix(data, l), lens) == data
  {
    forall i | 0 <= i < |data|
      ensures Truncate(DataMatrix(data, l), lens)[i] == data[i]
    {
      assert Pad(data[i], l)[..lens[i]] == data[i];
    }
  }

  lemma SameColumns(x: Matrix, y: Matrix, k: nat, l: nat)
    requires IsMatrix(x, k, l) && IsMatrix(y, k, l)
    requires forall b :: 0 <= b < l ==> Column(x, b) == Column(y, b)
    ensures x == y
  {
    forall i | 0 <= i < k
      ensures x[i] == y[i]
    {
      forall b | 0 <= b < l
        ensures x[i][b] == y[i][b]
      {
        assert Column(x, b)[i] == x[i][b];
        assert Column(y, b)[i] == y[i][b];
      }
    }
  }

  lemma EliminationFindsPayloads(k: nat, m: nat, data: seq<Bytes>, s: set<nat>, idx: seq<nat>)
    requires LegalConfig(k, m) && IsGroup(k, data) && |idx| == k && DistinctIndices(idx, k + m)
    requires forall r :: 0 <= r < k ==> idx[r] in s
    ensures var l := MaxLen(data, k);
            Gauss(EncodingRows(k, idx), PaddedRows(SlotsOf(k, m, data, s), idx, l), 0, l) == Some(DataMatrix(data, l))
  {
    var l := MaxLen(data, k);
    var rows, side := EncodingRows(k, idx), PaddedRows(SlotsOf(k, m, data, s), idx, l);
    assert DistinctIndices(idx, 256);
    assert Gauss(rows, side, 0, l).Some? by {
      AnyRowsAreRegular(k, idx);
      GaussDecidesRegularity(rows, side, l);
    }
    var x := Gauss(rows, side, 0, l).value;
    forall b | 0 <= b < l
      ensures Column(DataMatrix(data, l), b) == Column(x, b)
    {
      PayloadsSolve(k, m, data, s, idx, b);
      GaussSolves(rows, side, 0, l, Column(DataMatrix(data, l), b), b);
    }
    SameColumns(DataMatrix(data, l), x, k, l);
  }

  lemma ReassembleGroup(k: nat, m: nat, data: seq<Bytes>, s: set<nat>)
    requires LegalConfig(k, m) && IsGroup(k, data) && GroupOf(k, m, data, s).received >= k
    ensures Reassemble(k, m, GroupOf(k, m, data, s)) == data
  {
    var group := GroupOf(k, m, data, s);
    var idx := FilledSlots(group.slots, k + m, k);
    FilledSlotsSize(group.slots, k + m, k);
    SymbolLenIsMaxLen(k, m, data, s);
    EliminationFindsPayloads(k, m, data, s, idx);
    LensAreExact(k, m, data, s);
    TruncateUndoesPad(data, MaxLen(data, k), group.dataLens);
  }
}
