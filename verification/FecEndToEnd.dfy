/** A sender and a receiver object end to end, as the codec's own tests drive them. */
module FecEndToEnd {
  import opened GF256
  import opened LinearAlgebra
  import opened Cauchy
  import opened FecWire
  import opened FecFrames
  import opened FecReceiver
  import opened FecRecovery
  import opened FecRuns
  import opened FecStream
  import opened FecCodec

  /** The constructor, with its rejected settings as None. */
  method Create(k: Byte, m: Byte) returns (r: Option<Codec>)
    ensures r.Some? <==> LegalConfig(k, m)
    ensures r.Some? ==> fresh(r.value) && r.value.Valid() && r.value.k == k && r.value.m == m
    ensures r.Some? ==> r.value.sendGroupId == 0 && r.value.sendBuf == [] && r.value.Recv() == NO_RECEIVER
  {
    if k < 1 || m < 1 || k as int + m as int > 254 {
      return None;
    }
    var codec := new Codec(k, m);
    r := Some(codec);
  }

  /** The first n frames of the group are there. */
  ghost predicate Emitted(k: nat, m: nat, g: U32, data: seq<Bytes>, frames: seq<Bytes>, n: nat)
    requires LegalConfig(k, m) && IsGroup(k, data) && n <= k + m
  {
    |frames| == n && forall i :: 0 <= i < n ==> frames[i] == Frame(k, m, g, data, i)
  }

  method EncodeFront(c: Codec, data: seq<Bytes>) returns (frames: seq<Bytes>)
    requires c.Valid() && c.sendBuf == [] && IsGroup(c.k, data)
    modifies c`sendGroupId, c`sendSeq, c`sendBuf, c`sendLens
    ensures c.Valid() && c.sendBuf == data[..c.k - 1] && c.sendGroupId == old(c.sendGroupId)
    ensures Emitted(c.k, c.m, c.sendGroupId, data, frames, c.k - 1)
  {
    frames := [];
    for n := 0 to c.k - 1
      invariant c.Valid() && c.sendBuf == data[..n] && c.sendGroupId == old(c.sendGroupId)
      invariant Emitted(c.k, c.m, c.sendGroupId, data, frames, n)
    {
      var r := c.Encode(data[n]);
      frames := frames + [r.dataFrame];
    }
  }

  /** Encoding the k payloads of a group emits exactly the group's k + m frames, in index order. */
  method EncodeGroup(c: Codec, data: seq<Bytes>) returns (frames: seq<Bytes>)
    requires c.Valid() && c.sendBuf == [] && IsGroup(c.k, data)
    modifies c`sendGroupId, c`sendSeq, c`sendBuf, c`sendLens
    ensures c.Valid() && c.sendBuf == [] && c.sendGroupId == IdOf(old(c.sendGroupId), 1)
    ensures Emitted(c.k, c.m, old(c.sendGroupId), data, frames, c.k + c.m)
  {
    frames := EncodeFront(c, data);
    var r := c.Encode(data[c.k - 1]);
    assert data[..c.k - 1] + [data[c.k - 1]] == data;
    AppendParities(c.k, c.m, old(c.sendGroupId), data, frames, r);
    frames := frames + [r.dataFrame] + r.parityFrames;
  }

  lemma AppendParities(k: nat, m: nat, g: U32, data: seq<Bytes>, frames: seq<Bytes>, r: EncodeResult)
    requires LegalConfig(k, m) && IsGroup(k, data) && Emitted(k, m, g, data, frames, k - 1) && r.Encoded?
    requires r.dataFrame == DataFrame(k, m, g, k - 1, data[k - 1])
    requires |r.parityFrames| == m && forall j :: 0 <= j < m ==> r.parityFrames[j] == ParityFrame(k, m, g, data, j)
    ensures Emitted(k, m, g, data, frames + [r.dataFrame] + r.parityFrames, k + m)
  {
    var all := frames + [r.dataFrame] + r.parityFrames;
    forall i | 0 <= i < k + m
      ensures all[i] == Frame(k, m, g, data, i)
    {
      if i >= k { assert all[i] == r.parityFrames[i - k]; }
    }
  }

  method DecodeFrames(c: Codec, ds: seq<Bytes>) returns (outs: seq<seq<Bytes>>)
    requires c.Valid()
    modifies c
    ensures c.Valid() && (c.Recv(), outs) == DecodeAll(c.k, c.m, old(c.Recv()), ds)
  {
    outs := [];
    for n := 0 to |ds|
      invariant c.Valid()
      invariant (c.Recv(), outs) == DecodeAll(c.k, c.m, old(c.Recv()), ds[..n])
    {
      var out := c.DecodeDatagram(ds[n]);
      assert ds[..n + 1][..n] == ds[..n];
      outs := outs + [out];
    }
    assert ds[..|ds|] == ds;
  }

  /** Keep any k frames, in any order: the receiver ends with exactly the payloads that were sent. */
  method RoundTrip(k: Byte, m: Byte, data: seq<Bytes>, keep: seq<nat>) returns (decoded: seq<Bytes>)
    requires LegalConfig(k, m) && IsGroup(k, data) && |keep| == k && DistinctIndices(keep, k + m)
    ensures decoded == data
  {
    var sender := new Codec(k, m);
    var receiver := new Codec(k, m);
    var frames := EncodeGroup(sender, data);
    var ds: seq<Bytes> := [];
    for t := 0 to k
      invariant |ds| == t && forall u :: 0 <= u < t ==> ds[u] == frames[keep[u]]
    {
      ds := ds + [frames[keep[t]]];
    }
    assert ds == FramesOf(k, m, 0, data, keep);
    var outs := DecodeFrames(receiver, ds);
    AnyKFramesRecover(k, m, 0, data, keep);
    decoded := outs[k - 1];
  }

  // ----- many groups -----

  ghost predicate AllEmitted(k: nat, m: nat, g: U32, groups: seq<seq<Bytes>>, frames: seq<seq<Bytes>>, n: nat)
    requires LegalConfig(k, m) && AreGroups(k, groups) && n <= |groups|
  {
    |frames| == n && forall i :: 0 <= i < n ==> Emitted(k, m, IdOf(g, i), groups[i], frames[i], k + m)
  }

  lemma NextId(g: U32, i: nat)
    ensures IdOf(IdOf(g, i), 1) == IdOf(g, i + 1)
  {}

  /** Encoding groups one after the other emits all their frames, under consecutive ids. */
  method EncodeGroups(c: Codec, groups: seq<seq<Bytes>>) returns (frames: seq<seq<Bytes>>)
    requires c.Valid() && c.sendBuf == [] && AreGroups(c.k, groups)
    modifies c`sendGroupId, c`sendSeq, c`sendBuf, c`sendLens
    ensures c.Valid() && c.sendBuf == [] && AllEmitted(c.k, c.m, old(c.sendGroupId), groups, frames, |groups|)
  {
    frames := [];
    for i := 0 to |groups|
      invariant c.Valid() && c.sendBuf == [] && c.sendGroupId == IdOf(old(c.sendGroupId), i)
      invariant AllEmitted(c.k, c.m, old(c.sendGroupId), groups, frames, i)
    {
      var some := EncodeGroup(c, groups[i]);
      frames := frames + [some];
      NextId(old(c.sendGroupId), i);
    }
  }

  /** The frames that the link lets through, in the order in which it does. */
  method Pick(k: nat, m: nat, frames: seq<seq<Bytes>>, kept: seq<Kept>) returns (ds: seq<Bytes>)
    requires Arrive(k, m, |frames|, kept) && forall i :: 0 <= i < |frames| ==> |frames[i]| == k + m
    ensures |ds| == |kept| && forall t :: 0 <= t < |kept| ==> ds[t] == frames[kept[t].group][kept[t].index]
  {
    ds := [];
    for t := 0 to |kept|
      invariant |ds| == t && forall u :: 0 <= u < t ==> ds[u] == frames[kept[u].group][kept[u].index]
    {
      ds := ds + [frames[kept[t].group][kept[t].index]];
    }
  }

  lemma PickedAreStream(k: nat, m: nat, g: U32, groups: seq<seq<Bytes>>, frames: seq<seq<Bytes>>, kept: seq<Kept>,
                        ds: seq<Bytes>)
    requires LegalConfig(k, m) && AreGroups(k, groups) && AllEmitted(k, m, g, groups, frames, |groups|)
    requires Arrive(k, m, |groups|, kept) && |ds| == |kept|
    requires forall t :: 0 <= t < |kept| ==> ds[t] == frames[kept[t].group][kept[t].index]
    ensures EventsOf(k, m, ds) == StreamEvents(k, m, g, groups, kept)
  {
    forall t | 0 <= t < |kept|
      ensures EventsOf(k, m, ds)[t] == StreamEvents(k, m, g, groups, kept)[t]
    {
      var i := kept[t].group;
      assert Emitted(k, m, IdOf(g, i), groups[i], frames[i], k + m);
      FrameIsOwnEvent(k, m, IdOf(g, i), groups[i], kept[t].index);
    }
  }

  /**
   One sender, one receiver and many groups: whichever frames arrive, in whichever order, the k-th
   one of each group returns exactly the payloads of that group, and the others return nothing.
   */
  method StreamRoundTrip(k: Byte, m: Byte, groups: seq<seq<Bytes>>, kept: seq<Kept>) returns (outs: seq<seq<Bytes>>)
    requires LegalConfig(k, m) && AreGroups(k, groups) && Arrive(k, m, |groups|, kept) && AtMostOnce(k, kept)
    requires |groups| + |Overfull(k, kept)| <= MAX_RECEIVE_GROUPS
    ensures |outs| == |kept|
    ensures forall t :: 0 <= t < |kept| ==>
              outs[t] == if Count(kept[..t + 1], kept[t].group) == k then groups[kept[t].group] else []
  {
    var sender := new Codec(k, m);
    var receiver := new Codec(k, m);
    var frames := EncodeGroups(sender, groups);
    var ds := Pick(k, m, frames, kept);
    outs := DecodeFrames(receiver, ds);
    DecodeAllIsRun(k, m, NO_RECEIVER, ds);
    PickedAreStream(k, m, 0, groups, frames, kept, ds);
    forall t | 0 <= t < |kept|
      ensures outs[t] == if Count(kept[..t + 1], kept[t].group) == k then groups[kept[t].group] else []
    {
      StreamDelivers(k, m, 0, groups, kept, t);
    }
  }
}
