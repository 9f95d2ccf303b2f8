/**
 Many groups of one sender over a link that loses and reorders frames, at one receiver.  The sender
 numbers its groups consecutively, so frames of different groups do not mix: the k-th frame of each
 group returns exactly its payloads.
 */
module FecStream {
  import opened GF256
  import opened LinearAlgebra
  import opened Counting
  import opened Cauchy
  import opened FecWire
  import opened FecFrames
  import opened FecReceiver
  import opened FecInvariant
  import opened FecRecovery
  import opened FecRuns
  import opened FecIsolation
  import opened FecDelivery

  const U32_VALUES: nat := 0x1_0000_0000

  /** A frame that arrives: which group of the stream it belongs to, and its index there. */
  datatype Kept = Kept(group: nat, index: nat)

  /** The id of the i-th group of a sender that starts with id g. */
  function IdOf(g: U32, i: nat): U32 { (g + i) % U32_VALUES }

  lemma IdsDiffer(g: U32, i: nat, j: nat)
    requires i < U32_VALUES && j < U32_VALUES && i != j
    ensures IdOf(g, i) != IdOf(g, j)
  {}

  ghost predicate AreGroups(k: nat, groups: seq<seq<Bytes>>)
  {
    |groups| <= U32_VALUES && forall i :: 0 <= i < |groups| ==> IsGroup(k, groups[i])
  }

  /** Any frames of the groups in any order, none of them twice. */
  ghost predicate Arrive(k: nat, m: nat, n: nat, kept: seq<Kept>)
  {
    && (forall t :: 0 <= t < |kept| ==> kept[t].group < n && kept[t].index < k + m)
    && forall t, u :: 0 <= t < u < |kept| ==> kept[t] != kept[u]
  }

  ghost function StreamEvents(k: nat, m: nat, g: U32, groups: seq<seq<Bytes>>, kept: seq<Kept>): (es: Events)
    requires LegalConfig(k, m) && AreGroups(k, groups) && Arrive(k, m, |groups|, kept)
    ensures |es| == |kept| && ValidEvents(k, m, es)
    ensures forall t :: 0 <= t < |kept| ==>
              es[t] == OwnEvent(k, m, IdOf(g, kept[t].group), groups[kept[t].group], kept[t].index)
  {
    seq(|kept|, t requires 0 <= t < |kept| =>
      OwnEvent(k, m, IdOf(g, kept[t].group), groups[kept[t].group], kept[t].index))
  }

  /** How many frames of group i have arrived. */
  function Count(kept: seq<Kept>, i: nat): nat
  {
    if kept == [] then 0 else Count(kept[..|kept| - 1], i) + if kept[|kept| - 1].group == i then 1 else 0
  }

  /** The same, starting again at every k-th frame. */
  function CountModulo(k: nat, kept: seq<Kept>, i: nat): nat
  {
    if kept == [] then 0
    else
      var c := CountModulo(k, kept[..|kept| - 1], i);
      if kept[|kept| - 1].group != i then c else if c + 1 == k then 0 else c + 1
  }

  /** How often a frame arrives for a group of which nothing is stored. */
  function Openings(k: nat, kept: seq<Kept>): nat
  {
    if kept == [] then 0
    else
      var before := kept[..|kept| - 1];
      Openings(k, before) + if CountModulo(k, before, kept[|kept| - 1].group) == 0 then 1 else 0
  }

  /** Every k-th frame of a group returns its payloads, any other frame returns nothing. */
  ghost predicate Recovers(k: nat, groups: seq<seq<Bytes>>, kept: seq<Kept>, outs: seq<seq<Bytes>>)
  {
    |outs| == |kept| && forall t :: 0 <= t < |kept| ==> RecoversAt(k, groups, kept, outs, t)
  }

  ghost predicate RecoversAt(k: nat, groups: seq<seq<Bytes>>, kept: seq<Kept>, outs: seq<seq<Bytes>>, t: nat)
    requires t < |kept| == |outs|
  {
    && kept[t].group < |groups|
    && outs[t] == if CountModulo(k, kept[..t + 1], kept[t].group) == 0 then groups[kept[t].group] else []
  }

  // ----- what is stored of a group -----

  /** The frames of group i that have arrived since it was last complete. */
  ghost function Batch(k: nat, kept: seq<Kept>, i: nat): set<nat>
  {
    if kept == [] then {}
    else
      var before, last := Batch(k, kept[..|kept| - 1], i), kept[|kept| - 1];
      if last.group != i then before
      else if |before + {last.index}| == k then {}
      else before + {last.index}
  }

  lemma {:induction false} BatchArrived(k: nat, m: nat, n: nat, kept: seq<Kept>, i: nat, index: nat)
    requires Arrive(k, m, n, kept) && index in Batch(k, kept, i)
    ensures Kept(i, index) in kept && index < k + m
  {
    var last := |kept| - 1;
    if kept[last] != Kept(i, index) {
      BatchArrived(k, m, n, kept[..last], i, index);
    }
  }

  lemma BatchIsNew(k: nat, m: nat, n: nat, kept: seq<Kept>)
    requires Arrive(k, m, n, kept) && kept != []
    ensures kept[|kept| - 1].index !in Batch(k, kept[..|kept| - 1], kept[|kept| - 1].group)
  {
    var before, last := kept[..|kept| - 1], kept[|kept| - 1];
    if last.index in Batch(k, before, last.group) {
      BatchArrived(k, m, n, before, last.group, last.index);
      assert false;
    }
  }

  /** As the frames are distinct, a batch is as large as the count says. */
  lemma {:induction false} BatchSize(k: nat, m: nat, n: nat, kept: seq<Kept>, i: nat)
    requires k > 0 && Arrive(k, m, n, kept)
    ensures |Batch(k, kept, i)| == CountModulo(k, kept, i)
  {
    if kept != [] {
      BatchSize(k, m, n, kept[..|kept| - 1], i);
      BatchIsNew(k, m, n, kept);
    }
  }

  lemma {:induction false} GroupSize(k: nat, m: nat, data: seq<Bytes>, s: set<nat>)
    requires LegalConfig(k, m) && IsGroup(k, data) && forall i :: i in s ==> i < k + m
    ensures GroupOf(k, m, data, s).received == |s|
  {
    if s == {} {
      EmptyGroup(k, m, data);
    } else {
      var i :| i in s;
      GroupSize(k, m, data, s - {i});
      StoreFrame(k, m, data, s - {i}, i);
      assert s - {i} + {i} == s;
    }
  }

  // ----- the receiver in the middle of the stream -----

  /** The receiver holds exactly the current batch of group i. */
  ghost predicate HoldsBatch(k: nat, m: nat, r: Receiver, g: U32, data: seq<Bytes>, s: set<nat>)
    requires LegalConfig(k, m) && IsGroup(k, data)
  {
    Holds(k, m, r, g, data, s) && (s == {} ==> g !in r.groups)
  }

  /** One more frame of its own group, while there is room for another group. */
  lemma BatchStep(k: nat, m: nat, r: Receiver, g: U32, data: seq<Bytes>, s: set<nat>, index: nat)
    requires Inv(k, m, r) && IsGroup(k, data) && HoldsBatch(k, m, r, g, data, s) && index < k + m && index !in s
    requires (forall i :: i in s ==> i < k + m) && (s == {} ==> |r.order| < MAX_RECEIVE_GROUPS)
    ensures var (r', out) := Handle(k, m, r, OwnEvent(k, m, g, data, index));
            && HoldsBatch(k, m, r', g, data, if |s| + 1 == k then {} else s + {index})
            && out == (if |s| + 1 == k then data else []) && |s| < k
  {
    GroupSize(k, m, data, s + {index});
    GroupSize(k, m, data, s);
    OwnStep(k, m, g, data, r, s, index, MAX_RECEIVE_GROUPS - |r.order|);
    EmptyGroup(k, m, data);
  }

  lemma OrderGrows(k: nat, m: nat, r: Receiver, e: Event)
    requires Inv(k, m, r) && ValidEvent(k, m, e) && e.Packet? && (Registers(r, e) ==> |r.order| < MAX_RECEIVE_GROUPS)
    ensures |Handle(k, m, r, e).0.order| == |r.order| + if Registers(r, e) then 1 else 0
  {
    RegisterKeepsInv(k, m, r, e.groupId);
    if Registers(r, e) { RegisterOnce(k, m, r, e.groupId); }
    var r1 := Register(k, m, r, e.groupId);
    AcceptAgrees(k, m, r1, r1, e.groupId, e.index, e.payload);
  }

  /** Frames of other groups leave it alone. */
  lemma OtherBatchStep(k: nat, m: nat, r: Receiver, g: U32, data: seq<Bytes>, s: set<nat>, e: Event)
    requires Inv(k, m, r) && IsGroup(k, data) && HoldsBatch(k, m, r, g, data, s)
    requires ValidEvent(k, m, e) && Foreign(g, e) && (Registers(r, e) ==> |r.order| < MAX_RECEIVE_GROUPS)
    ensures HoldsBatch(k, m, Handle(k, m, r, e).0, g, data, s)
  {
    ForeignFrameKeeps(k, m, r, g, e, MAX_RECEIVE_GROUPS - |r.order|);
  }

  ghost predicate StreamInv(k: nat, m: nat, g: U32, groups: seq<seq<Bytes>>, kept: seq<Kept>, r: Receiver)
    requires LegalConfig(k, m) && AreGroups(k, groups)
  {
    && Inv(k, m, r) && |r.order| == Openings(k, kept)
    && forall i :: 0 <= i < |groups| ==> BatchHeld(k, m, g, groups, kept, r, i)
  }

  ghost predicate BatchHeld(k: nat, m: nat, g: U32, groups: seq<seq<Bytes>>, kept: seq<Kept>, r: Receiver, i: nat)
    requires LegalConfig(k, m) && AreGroups(k, groups) && i < |groups|
  {
    HoldsBatch(k, m, r, IdOf(g, i), groups[i], Batch(k, kept, i))
  }

  lemma LastFits(k: nat, m: nat, n: nat, kept: seq<Kept>)
    requires k > 0 && Arrive(k, m, n, kept) && kept != []
    ensures var before, last := kept[..|kept| - 1], kept[|kept| - 1];
            var s := Batch(k, before, last.group);
            && last.index !in s && |s| == CountModulo(k, before, last.group)
            && forall index :: index in s ==> index < k + m
  {
    var before, last := kept[..|kept| - 1], kept[|kept| - 1];
    BatchIsNew(k, m, n, kept);
    BatchSize(k, m, n, before, last.group);
    forall index | index in Batch(k, before, last.group)
      ensures index < k + m
    {
      BatchArrived(k, m, n, before, last.group, index);
    }
  }

  lemma OthersStay(k: nat, m: nat, g: U32, groups: seq<seq<Bytes>>, kept: seq<Kept>, r: Receiver, e: Event, i: nat)
    requires LegalConfig(k, m) && AreGroups(k, groups) && kept != [] && i < |groups|
    requires Inv(k, m, r) && BatchHeld(k, m, g, groups, kept[..|kept| - 1], r, i) && ValidEvent(k, m, e)
    requires Foreign(IdOf(g, i), e) && (Registers(r, e) ==> |r.order| < MAX_RECEIVE_GROUPS)
    requires kept[|kept| - 1].group != i
    ensures BatchHeld(k, m, g, groups, kept, Handle(k, m, r, e).0, i)
  {
    OtherBatchStep(k, m, r, IdOf(g, i), groups[i], Batch(k, kept[..|kept| - 1], i), e);
  }

  lemma StreamStep(k: nat, m: nat, g: U32, groups: seq<seq<Bytes>>, kept: seq<Kept>, r: Receiver)
    requires LegalConfig(k, m) && AreGroups(k, groups) && Arrive(k, m, |groups|, kept) && kept != []
    requires StreamInv(k, m, g, groups, kept[..|kept| - 1], r) && Openings(k, kept) <= MAX_RECEIVE_GROUPS
    ensures var last := kept[|kept| - 1];
            var (r', out) := Handle(k, m, r, OwnEvent(k, m, IdOf(g, last.group), groups[last.group], last.index));
            && StreamInv(k, m, g, groups, kept, r')
            && out == if CountModulo(k, kept, last.group) == 0 then groups[last.group] else []
  {
    var before, last := kept[..|kept| - 1], kept[|kept| - 1];
    var id, data := IdOf(g, last.group), groups[last.group];
    var e := OwnEvent(k, m, id, data, last.index);
    assert BatchHeld(k, m, g, groups, before, r, last.group);
    LastFits(k, m, |groups|, kept);
    BatchStep(k, m, r, id, data, Batch(k, before, last.group), last.index);
    OrderGrows(k, m, r, e);
    HandleKeepsInv(k, m, r, e);
    forall i | 0 <= i < |groups| && i != last.group
      ensures BatchHeld(k, m, g, groups, kept, Handle(k, m, r, e).0, i)
    {
      assert BatchHeld(k, m, g, groups, before, r, i);
      IdsDiffer(g, i, last.group);
      OthersStay(k, m, g, groups, kept, r, e, i);
    }
    assert BatchHeld(k, m, g, groups, kept, Handle(k, m, r, e).0, last.group);
  }

  // ----- whole streams -----

  lemma RecoversAppend(k: nat, groups: seq<seq<Bytes>>, kept: seq<Kept>, outs: seq<seq<Bytes>>)
    requires kept != [] && |outs| == |kept| && Recovers(k, groups, kept[..|kept| - 1], outs[..|kept| - 1])
    requires RecoversAt(k, groups, kept, outs, |kept| - 1)
    ensures Recovers(k, groups, kept, outs)
  {
    forall t | 0 <= t < |kept|
      ensures RecoversAt(k, groups, kept, outs, t)
    {
      if t < |kept| - 1 {
        assert RecoversAt(k, groups, kept[..|kept| - 1], outs[..|kept| - 1], t);
        assert kept[..|kept| - 1][..t + 1] == kept[..t + 1];
      }
    }
  }

  lemma StreamAppend(k: nat, m: nat, g: U32, groups: seq<seq<Bytes>>, kept: seq<Kept>, r: Receiver,
                     outs: seq<seq<Bytes>>)
    requires LegalConfig(k, m) && AreGroups(k, groups) && Arrive(k, m, |groups|, kept) && kept != []
    requires StreamInv(k, m, g, groups, kept[..|kept| - 1], r) && Recovers(k, groups, kept[..|kept| - 1], outs)
    requires Openings(k, kept) <= MAX_RECEIVE_GROUPS
    ensures var (r', out) := Handle(k, m, r, StreamEvents(k, m, g, groups, kept)[|kept| - 1]);
            StreamInv(k, m, g, groups, kept, r') && Recovers(k, groups, kept, outs + [out])
  {
    var n := |kept| - 1;
    StreamStep(k, m, g, groups, kept, r);
    var outs' := outs + [Handle(k, m, r, StreamEvents(k, m, g, groups, kept)[n]).1];
    assert outs'[..n] == outs && kept[..n + 1] == kept;
    RecoversAppend(k, groups, kept, outs');
  }

  lemma StreamPrefix(k: nat, m: nat, g: U32, groups: seq<seq<Bytes>>, kept: seq<Kept>)
    requires LegalConfig(k, m) && AreGroups(k, groups) && Arrive(k, m, |groups|, kept) && kept != []
    ensures StreamEvents(k, m, g, groups, kept)[..|kept| - 1] == StreamEvents(k, m, g, groups, kept[..|kept| - 1])
  {}

  /** While the stream opens at most 256 groups, every k-th frame of a group returns exactly its payloads. */
  lemma {:induction false} StreamRecovers(k: nat, m: nat, g: U32, groups: seq<seq<Bytes>>, kept: seq<Kept>)
    requires LegalConfig(k, m) && AreGroups(k, groups) && Arrive(k, m, |groups|, kept)
    requires Openings(k, kept) <= MAX_RECEIVE_GROUPS
    ensures var (r, outs) := Run(k, m, NO_RECEIVER, StreamEvents(k, m, g, groups, kept));
            StreamInv(k, m, g, groups, kept, r) && Recovers(k, groups, kept, outs)
    decreases |kept|
  {
    if kept != [] {
      var n := |kept| - 1;
      var before, es := kept[..n], StreamEvents(k, m, g, groups, kept);
      StreamRecovers(k, m, g, groups, before);
      StreamPrefix(k, m, g, groups, kept);
      var (r, outs) := Run(k, m, NO_RECEIVER, es[..n]);
      StreamAppend(k, m, g, groups, kept, r, outs);
    } else {
      assert StreamEvents(k, m, g, groups, kept) == [];
    }
  }

  // ----- counting frames -----

  /** The groups of which frames arrive, and those of which more than k do. */
  function Started(kept: seq<Kept>): (s: set<int>)
  {
    if kept == [] then {} else Started(kept[..|kept| - 1]) + {kept[|kept| - 1].group as int}
  }

  function Overfull(k: nat, kept: seq<Kept>): set<int>
  {
    if kept == [] then {}
    else
      var before, last := kept[..|kept| - 1], kept[|kept| - 1];
      Overfull(k, before) + if Count(before, last.group) >= k then {last.group as int} else {}
  }

  lemma {:induction false} StartedIff(k: nat, kept: seq<Kept>, i: nat)
    requires k > 0
    ensures i in Started(kept) <==> Count(kept, i) > 0
    ensures i in Overfull(k, kept) <==> Count(kept, i) > k
  {
    if kept != [] { StartedIff(k, kept[..|kept| - 1], i); }
  }

  lemma {:induction false} StartedBound(kept: seq<Kept>, n: nat)
    requires forall t :: 0 <= t < |kept| ==> kept[t].group < n
    ensures forall i :: i in Started(kept) ==> 0 <= i < n
  {
    if kept != [] { StartedBound(kept[..|kept| - 1], n); }
  }

  lemma {:induction false} CountGrows(kept: seq<Kept>, i: nat, t: nat)
    requires t <= |kept|
    ensures Count(kept[..t], i) <= Count(kept, i)
  {
    if t == |kept| {
      assert kept[..t] == kept;
    } else {
      CountGrows(kept[..|kept| - 1], i, t);
      assert kept[..|kept| - 1][..t] == kept[..t];
    }
  }

  lemma {:induction false} CountIsModulo(k: nat, kept: seq<Kept>, i: nat)
    requires k > 0 && Count(kept, i) < 2 * k
    ensures CountModulo(k, kept, i) == if Count(kept, i) < k then Count(kept, i) else Count(kept, i) - k
  {
    if kept != [] { CountIsModulo(k, kept[..|kept| - 1], i); }
  }

  /** No group has two full sets of frames among those that arrive. */
  ghost predicate AtMostOnce(k: nat, kept: seq<Kept>)
  {
    forall i: nat :: Count(kept, i) < 2 * k
  }

  lemma AtMostOnceBefore(k: nat, kept: seq<Kept>, t: nat)
    requires AtMostOnce(k, kept) && t <= |kept|
    ensures AtMostOnce(k, kept[..t])
  {
    forall i: nat
      ensures Count(kept[..t], i) < 2 * k
    {
      CountGrows(kept, i, t);
      assert Count(kept, i) < 2 * k;
    }
  }

  lemma {:induction false} OpeningsAre(k: nat, kept: seq<Kept>)
    requires k > 0 && AtMostOnce(k, kept)
    ensures Openings(k, kept) == |Started(kept)| + |Overfull(k, kept)|
  {
    if kept != [] {
      var before, i := kept[..|kept| - 1], kept[|kept| - 1].group;
      AtMostOnceBefore(k, kept, |kept| - 1);
      OpeningsAre(k, before);
      assert Count(kept, i) < 2 * k;
      CountIsModulo(k, before, i);
      StartedIff(k, before, i);
      AddOne(Started(before), i);
      AddOne(Overfull(k, before), i);
      assert Overfull(k, before) + {} == Overfull(k, before);
    }
  }

  lemma AddOne(s: set<int>, i: int)
    ensures |s + {i}| == |s| + if i in s then 0 else 1
  {
    if i in s { assert s + {i} == s; }
  }

  // ----- fewer parity than data frames -----

  ghost function OwnOf(kept: seq<Kept>, i: nat): (own: seq<Option<nat>>)
    ensures |own| == |kept|
  {
    seq(|kept|, t requires 0 <= t < |kept| => if kept[t].group == i then Some(kept[t].index) else None)
  }

  lemma SeenStep(kept: seq<Kept>, i: nat)
    requires kept != []
    ensures var before, last := kept[..|kept| - 1], kept[|kept| - 1];
            Seen(OwnOf(kept, i)) == Seen(OwnOf(before, i)) + if last.group == i then {last.index} else {}
  {
    assert OwnOf(kept, i)[..|kept| - 1] == OwnOf(kept[..|kept| - 1], i);
  }

  lemma LastIsNew(k: nat, m: nat, n: nat, kept: seq<Kept>)
    requires Arrive(k, m, n, kept) && kept != []
    ensures kept[|kept| - 1] !in kept[..|kept| - 1]
  {}

  lemma {:induction false} SeenOf(k: nat, m: nat, n: nat, kept: seq<Kept>, i: nat)
    requires Arrive(k, m, n, kept)
    ensures |Seen(OwnOf(kept, i))| == Count(kept, i)
    ensures forall index :: index in Seen(OwnOf(kept, i)) ==> Kept(i, index) in kept
  {
    if kept != [] {
      var before, last := kept[..|kept| - 1], kept[|kept| - 1];
      SeenOf(k, m, n, before, i);
      SeenStep(kept, i);
      LastIsNew(k, m, n, kept);
      forall index | index in Seen(OwnOf(kept, i))
        ensures Kept(i, index) in kept
      {
        if index in Seen(OwnOf(before, i)) { assert Kept(i, index) in before; }
      }
    }
  }

  lemma FewerParities(k: nat, m: nat, n: nat, kept: seq<Kept>)
    requires Arrive(k, m, n, kept) && m < k
    ensures AtMostOnce(k, kept)
  {
    forall i: nat
      ensures Count(kept, i) < 2 * k
    {
      SeenOf(k, m, n, kept, i);
      Pigeonhole(Seen(OwnOf(kept, i)), k + m);
    }
  }

  lemma EnoughRoom(k: nat, kept: seq<Kept>, n: nat)
    requires k > 0 && AtMostOnce(k, kept) && forall t :: 0 <= t < |kept| ==> kept[t].group < n
    ensures Openings(k, kept) <= n + |Overfull(k, kept)|
  {
    OpeningsAre(k, kept);
    StartedBound(kept, n);
    Pigeonhole(Started(kept), n);
  }

  /** A group is complete at its k-th frame only. */
  lemma CompleteAt(k: nat, kept: seq<Kept>, t: nat)
    requires k > 0 && AtMostOnce(k, kept) && t < |kept|
    ensures CountModulo(k, kept[..t + 1], kept[t].group) == 0 <==> Count(kept[..t + 1], kept[t].group) == k
  {
    AtMostOnceBefore(k, kept, t + 1);
    assert Count(kept[..t + 1], kept[t].group) < 2 * k;
    CountIsModulo(k, kept[..t + 1], kept[t].group);
    assert kept[..t + 1][..t] == kept[..t];
  }

  /**
   Any frames of n consecutive groups, in any order and interleaving and none twice, with no group
   arriving in two full sets (as with m < k it cannot).  If n plus the number of groups of which
   more than k frames arrive is at most 256, the k-th frame of each group returns exactly its
   payloads, and every other frame returns nothing.
   */
  lemma StreamDelivers(k: nat, m: nat, g: U32, groups: seq<seq<Bytes>>, kept: seq<Kept>, t: nat)
    requires LegalConfig(k, m) && AreGroups(k, groups) && Arrive(k, m, |groups|, kept) && AtMostOnce(k, kept)
    requires |groups| + |Overfull(k, kept)| <= MAX_RECEIVE_GROUPS && t < |kept|
    ensures var outs := Run(k, m, NO_RECEIVER, StreamEvents(k, m, g, groups, kept)).1;
            outs[t] == if Count(kept[..t + 1], kept[t].group) == k then groups[kept[t].group] else []
  {
    EnoughRoom(k, kept, |groups|);
    StreamRecovers(k, m, g, groups, kept);
    var outs := Run(k, m, NO_RECEIVER, StreamEvents(k, m, g, groups, kept)).1;
    assert RecoversAt(k, groups, kept, outs, t);
    CompleteAt(k, kept, t);
  }

  // ----- streams of any length -----

  /** A group of which nothing has arrived is neither stored nor remembered. */
  lemma {:induction false} NothingStored(k: nat, m: nat, es: Events, g: U32)
    requires LegalConfig(k, m) && ValidEvents(k, m, es) && forall t :: 0 <= t < |es| ==> Foreign(g, es[t])
    ensures var r := Run(k, m, NO_RECEIVER, es).0; g !in r.order && g !in r.groups && Inv(k, m, r)
  {
    RunKeepsInv(k, m, NO_RECEIVER, es);
    if es != [] {
      var n := |es| - 1;
      NothingStored(k, m, es[..n], g);
      OrderForeign(k, m, Run(k, m, NO_RECEIVER, es[..n]).0, es[n], g);
    }
  }

  lemma OrderForeign(k: nat, m: nat, r: Receiver, e: Event, g: U32)
    requires Inv(k, m, r) && ValidEvent(k, m, e) && Foreign(g, e) && g !in r.order
    ensures g !in Handle(k, m, r, e).0.order
  {
    if e.Packet? {
      RegisterKeepsInv(k, m, r, e.groupId);
      if Registers(r, e) { RegisterOnce(k, m, r, e.groupId); }
      var r1 := Register(k, m, r, e.groupId);
      AcceptAgrees(k, m, r1, r1, e.groupId, e.index, e.payload);
    }
  }

  lemma {:induction false} CountConcat(a: seq<Kept>, b: seq<Kept>, i: nat)
    ensures Count(a + b, i) == Count(a, i) + Count(b, i)
    decreases |b|
  {
    if b == [] {
      assert a + b == a;
    } else {
      CountConcat(a, b[..|b| - 1], i);
      assert (a + b)[..|a + b| - 1] == a + b[..|b| - 1];
    }
  }

  lemma SegmentCount(kept: seq<Kept>, t: nat, u: nat, i: nat)
    requires t <= u < |kept|
    ensures Count(kept[..u + 1], i) == Count(kept[..t], i) + Count(kept[t..u + 1], i)
  {
    assert kept[..u + 1] == kept[..t] + kept[t..u + 1];
    CountConcat(kept[..t], kept[t..u + 1], i);
  }

  lemma {:induction false} CountZero(kept: seq<Kept>, i: nat, t: nat)
    requires Count(kept, i) == 0 && t < |kept|
    ensures kept[t].group != i
  {
    if t < |kept| - 1 { CountZero(kept[..|kept| - 1], i, t); }
  }

  lemma {:induction false} RunPrefix(k: nat, m: nat, r: Receiver, es: Events, n: nat)
    requires LegalConfig(k, m) && AllShaped(k, m, r) && ValidEvents(k, m, es) && n <= |es|
    ensures Run(k, m, r, es).1[..n] == Run(k, m, r, es[..n]).1
  {
    if n == |es| {
      assert es[..n] == es;
    } else {
      var last := |es| - 1;
      RunPrefix(k, m, r, es[..last], n);
      assert es[..last][..n] == es[..n];
    }
  }

  lemma StreamTraffic(k: nat, m: nat, g: U32, groups: seq<seq<Bytes>>, kept: seq<Kept>, i: nat)
    requires LegalConfig(k, m) && AreGroups(k, groups) && Arrive(k, m, |groups|, kept) && i < |groups|
    ensures Traffic(k, m, IdOf(g, i), groups[i], StreamEvents(k, m, g, groups, kept), OwnOf(kept, i))
  {
    var es, own := StreamEvents(k, m, g, groups, kept), OwnOf(kept, i);
    forall t | 0 <= t < |es|
      ensures Matches(k, m, IdOf(g, i), groups[i], es[t], own[t])
    {
      if kept[t].group != i { IdsDiffer(g, kept[t].group, i); }
    }
  }

  lemma LastOfMany(k: nat, m: nat, n: nat, kept: seq<Kept>, i: nat)
    requires Arrive(k, m, n, kept) && kept != [] && kept[|kept| - 1].group == i && Count(kept, i) == k
    ensures var seen := Seen(OwnOf(kept[..|kept| - 1], i)); kept[|kept| - 1].index !in seen && |seen| == k - 1
  {
    SeenOf(k, m, n, kept[..|kept| - 1], i);
    LastIsNew(k, m, n, kept);
    assert kept[|kept| - 1] == Kept(i, kept[|kept| - 1].index);
  }

  /** The frames from t on that arrive at a receiver which has nothing of group i yet. */
  lemma SegmentRecovers(k: nat, m: nat, g: U32, groups: seq<seq<Bytes>>, kept: seq<Kept>, r: Receiver, i: nat)
    requires LegalConfig(k, m) && AreGroups(k, groups) && Arrive(k, m, |groups|, kept) && i < |groups|
    requires Inv(k, m, r) && IdOf(g, i) !in r.order && IdOf(g, i) !in r.groups
    requires 0 < |kept| <= MAX_RECEIVE_GROUPS && kept[|kept| - 1].group == i && Count(kept, i) == k
    ensures Run(k, m, r, StreamEvents(k, m, g, groups, kept)).1[|kept| - 1] == groups[i]
  {
    var n, es, own, id := |kept| - 1, StreamEvents(k, m, g, groups, kept), OwnOf(kept, i), IdOf(g, i);
    assert own[..n] == OwnOf(kept[..n], i);
    LastOfMany(k, m, |groups|, kept, i);
    StreamTraffic(k, m, g, groups, kept, i);
    RegistrationsBound(k, m, r, es);
    KthFrameRecovers(k, m, id, groups[i], r, es, own, 0);
  }

  lemma OutputOfSegment(k: nat, m: nat, es: Events, a: Events, b: Events)
    requires LegalConfig(k, m) && ValidEvents(k, m, es) && ValidEvents(k, m, a) && ValidEvents(k, m, b) && b != []
    requires |a + b| <= |es| && es[..|a + b|] == a + b
    ensures var r, u := Run(k, m, NO_RECEIVER, a).0, |a + b| - 1;
            Run(k, m, NO_RECEIVER, es).1[u] == Run(k, m, r, b).1[|b| - 1]
  {
    RunConcat(k, m, NO_RECEIVER, a, b);
    RunPrefix(k, m, NO_RECEIVER, es, |a + b|);
    var u := |a + b| - 1;
    assert Run(k, m, NO_RECEIVER, es).1[u] == Run(k, m, NO_RECEIVER, es).1[..|a + b|][u];
  }

  lemma NothingYet(k: nat, m: nat, g: U32, groups: seq<seq<Bytes>>, kept: seq<Kept>, t: nat, i: nat)
    requires LegalConfig(k, m) && AreGroups(k, groups) && Arrive(k, m, |groups|, kept) && t <= |kept|
    requires i < |groups| && Count(kept[..t], i) == 0
    ensures var r := Run(k, m, NO_RECEIVER, StreamEvents(k, m, g, groups, kept)[..t]).0;
            IdOf(g, i) !in r.order && IdOf(g, i) !in r.groups && Inv(k, m, r)
  {
    var es := StreamEvents(k, m, g, groups, kept);
    forall s | 0 <= s < t
      ensures Foreign(IdOf(g, i), es[..t][s])
    {
      CountZero(kept[..t], i, s);
      IdsDiffer(g, kept[s].group, i);
    }
    NothingStored(k, m, es[..t], IdOf(g, i));
  }

  lemma SliceConcat<T>(s: seq<T>, t: nat, u: nat)
    requires t <= u < |s|
    ensures s[..u + 1] == s[..t] + s[t..u + 1] && |s[..t] + s[t..u + 1]| == u + 1
  {}

  /** What the whole run returns at u is what the segment from t to u returns last. */
  lemma WindowOutput(k: nat, m: nat, es: Events, t: nat, u: nat)
    requires LegalConfig(k, m) && ValidEvents(k, m, es) && t <= u < |es|
    ensures Run(k, m, NO_RECEIVER, es).1[u] == Run(k, m, Run(k, m, NO_RECEIVER, es[..t]).0, es[t..u + 1]).1[u - t]
  {
    SliceConcat(es, t, u);
    OutputOfSegment(k, m, es, es[..t], es[t..u + 1]);
  }

  lemma ArriveSlice(k: nat, m: nat, n: nat, kept: seq<Kept>, t: nat, u: nat)
    requires Arrive(k, m, n, kept) && t <= u <= |kept|
    ensures Arrive(k, m, n, kept[t..u])
  {}

  lemma SegmentEvents(k: nat, m: nat, g: U32, groups: seq<seq<Bytes>>, kept: seq<Kept>, t: nat, u: nat)
    requires LegalConfig(k, m) && AreGroups(k, groups) && Arrive(k, m, |groups|, kept) && t <= u < |kept|
    ensures StreamEvents(k, m, g, groups, kept)[t..u + 1] == StreamEvents(k, m, g, groups, kept[t..u + 1])
  {}

  lemma LastOfWindow(k: nat, m: nat, g: U32, groups: seq<seq<Bytes>>, kept: seq<Kept>, r: Receiver, t: nat, u: nat)
    requires LegalConfig(k, m) && AreGroups(k, groups) && Arrive(k, m, |groups|, kept)
    requires t <= u < |kept| && u - t < MAX_RECEIVE_GROUPS
    requires Count(kept[..t], kept[u].group) == 0 && Count(kept[..u + 1], kept[u].group) == k
    requires Inv(k, m, r) && IdOf(g, kept[u].group) !in r.order && IdOf(g, kept[u].group) !in r.groups
    ensures Run(k, m, r, StreamEvents(k, m, g, groups, kept)[t..u + 1]).1[u - t] == groups[kept[u].group]
  {
    var i, segment := kept[u].group, kept[t..u + 1];
    SegmentCount(kept, t, u, i);
    ArriveSlice(k, m, |groups|, kept, t, u + 1);
    assert Run(k, m, r, StreamEvents(k, m, g, groups, segment)).1[|segment| - 1] == groups[i] by {
      SegmentRecovers(k, m, g, groups, segment, r, i);
    }
    SegmentEvents(k, m, g, groups, kept, t, u);
  }

  /**
   In a stream of any length, whatever is lost, reordered or evicted elsewhere: if from the first to
   the k-th frame of a group at most 256 frames arrive, the k-th one returns exactly its payloads.
   */
  lemma WindowRecovers(k: nat, m: nat, g: U32, groups: seq<seq<Bytes>>, kept: seq<Kept>, t: nat, u: nat)
    requires LegalConfig(k, m) && AreGroups(k, groups) && Arrive(k, m, |groups|, kept)
    requires t <= u < |kept| && u - t < MAX_RECEIVE_GROUPS && kept[t].group == kept[u].group
    requires Count(kept[..t], kept[u].group) == 0 && Count(kept[..u + 1], kept[u].group) == k
    ensures Run(k, m, NO_RECEIVER, StreamEvents(k, m, g, groups, kept)).1[u] == groups[kept[u].group]
  {
    var es := StreamEvents(k, m, g, groups, kept);
    NothingYet(k, m, g, groups, kept, t, kept[u].group);
    LastOfWindow(k, m, g, groups, kept, Run(k, m, NO_RECEIVER, es[..t]).0, t, u);
    WindowOutput(k, m, es, t, u);
  }
}
