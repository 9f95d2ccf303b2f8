/** Whole runs of the receiver: recovery in every order and interleaving. */
module FecRuns {
  import opened GF256
  import opened LinearAlgebra
  import opened Cauchy
  import opened FecWire
  import opened FecFrames
  import opened FecReceiver
  import opened FecInvariant
  import opened FecRecovery

  ghost predicate Foreign(g: U32, e: Event)
  {
    e.Packet? ==> e.groupId != g
  }

  /** A parity frame of the group that is too short for its manifest. */
  ghost predicate TooShort(k: nat, g: U32, e: Event)
  {
    e.Packet? && e.groupId == g && e.index >= k && |e.payload| < 2 * k
  }

  /** Frame i of the group for Some(i); anything that is not for the group, or malformed, for None. */
  ghost predicate Matches(k: nat, m: nat, g: U32, data: seq<Bytes>, e: Event, own: Option<nat>)
    requires LegalConfig(k, m) && IsGroup(k, data)
  {
    match own
    case None => Foreign(g, e) || TooShort(k, g, e)
    case Some(i) => i < k + m && e == OwnEvent(k, m, g, data, i)
  }

  /** own[t] names the frame of group g that arrives at step t, or None for any other datagram. */
  ghost predicate Traffic(k: nat, m: nat, g: U32, data: seq<Bytes>, es: Events, own: seq<Option<nat>>)
    requires LegalConfig(k, m) && IsGroup(k, data)
  {
    |own| == |es| && ValidEvents(k, m, es) && forall t :: 0 <= t < |es| ==> Matches(k, m, g, data, es[t], own[t])
  }

  /** The distinct frames of the group that have arrived. */
  ghost function Seen(own: seq<Option<nat>>): set<nat>
  {
    if own == [] then {}
    else
      var last := own[|own| - 1];
      Seen(own[..|own| - 1]) + if last.Some? then {last.value} else {}
  }

  /** The event opens a new group. */
  ghost predicate Registers(r: Receiver, e: Event)
  {
    e.Packet? && e.groupId !in r.groups
  }

  /** How many groups a run opens. */
  ghost function Registrations(k: nat, m: nat, r: Receiver, es: Events): nat
    requires LegalConfig(k, m) && AllShaped(k, m, r) && ValidEvents(k, m, es)
  {
    if es == [] then 0
    else
      var before := es[..|es| - 1];
      Registrations(k, m, r, before) + if Registers(Run(k, m, r, before).0, es[|es| - 1]) then 1 else 0
  }

  /** No entry for g in the order queue reaches the front within `left` more registrations. */
  ghost predicate Remembered(r: Receiver, g: U32, left: nat)
  {
    forall p :: 0 <= p < |r.order| && r.order[p] == g ==> |r.order| - p + left <= MAX_RECEIVE_GROUPS
  }

  /** The receiver holds exactly the frames s of the group. */
  ghost predicate Holds(k: nat, m: nat, r: Receiver, g: U32, data: seq<Bytes>, s: set<nat>)
    requires LegalConfig(k, m) && IsGroup(k, data)
  {
    (g in r.groups ==> r.groups[g] == GroupOf(k, m, data, s)) && (s != {} ==> g in r.groups)
  }

  // ----- single steps -----

  lemma RegisterRemembers(k: nat, m: nat, r: Receiver, g': U32, g: U32, left: nat)
    requires Inv(k, m, r) && g' !in r.groups && 1 <= left <= MAX_RECEIVE_GROUPS && Remembered(r, g, left)
    ensures var r' := Register(k, m, r, g');
            Remembered(r', g, left - 1) && (g != g' ==> (g in r'.groups <==> g in r.groups))
            && (g != g' && g in r.groups ==> r'.groups[g] == r.groups[g])
  {
    RegisterOnce(k, m, r, g');
    var r' := Register(k, m, r, g');
    forall p | 0 <= p < |r'.order| && r'.order[p] == g
      ensures |r'.order| - p + left - 1 <= MAX_RECEIVE_GROUPS
    {
      if p < |r'.order| - 1 {
        var q := if |r.order| == MAX_RECEIVE_GROUPS then p + 1 else p;
        assert r.order[q] == g;
      }
    }
    if |r.order| == MAX_RECEIVE_GROUPS && g != g' && g in r.groups {
      assert r.order[0] != g;
    }
  }

  lemma AcceptOther(k: nat, m: nat, r: Receiver, g': U32, index: Byte, payload: Bytes, g: U32)
    requires Inv(k, m, r) && g' in r.groups && index < k + m && |payload| <= MAX_U16 && g != g'
    ensures var r' := Accept(k, m, r, g', index, payload).0;
            && r'.order == r.order && (g in r'.groups <==> g in r.groups)
            && (g in r.groups ==> r'.groups[g] == r.groups[g])
  {}

  lemma ForeignStep(k: nat, m: nat, g: U32, data: seq<Bytes>, r: Receiver, s: set<nat>, e: Event, left: nat)
    requires Inv(k, m, r) && IsGroup(k, data) && Holds(k, m, r, g, data, s) && ValidEvent(k, m, e) && Foreign(g, e)
    requires Remembered(r, g, left) && left <= MAX_RECEIVE_GROUPS && (Registers(r, e) ==> left >= 1)
    ensures var r' := Handle(k, m, r, e).0;
            Holds(k, m, r', g, data, s) && Remembered(r', g, if Registers(r, e) then left - 1 else left)
  {
    if e.Packet? {
      RegisterKeepsInv(k, m, r, e.groupId);
      if Registers(r, e) { RegisterRemembers(k, m, r, e.groupId, g, left); }
      AcceptOther(k, m, Register(k, m, r, e.groupId), e.groupId, e.index, e.payload, g);
    }
  }

  /** Registering on the first own frame leaves the group with the frames seen so far. */
  lemma OwnRegister(k: nat, m: nat, g: U32, data: seq<Bytes>, r: Receiver, s: set<nat>, left: nat)
    requires Inv(k, m, r) && IsGroup(k, data) && Holds(k, m, r, g, data, s)
    requires Remembered(r, g, left) && left <= MAX_RECEIVE_GROUPS && (g !in r.groups ==> left >= 1)
    ensures var r1 := Register(k, m, r, g);
            Inv(k, m, r1) && r1.groups[g] == GroupOf(k, m, data, s)
            && Remembered(r1, g, if g !in r.groups then left - 1 else left)
  {
    RegisterKeepsInv(k, m, r, g);
    EmptyGroup(k, m, data);
    if g !in r.groups { RegisterRemembers(k, m, r, g, g, left); }
  }

  /** A malformed frame opens the group at most. */
  lemma TooShortStep(k: nat, m: nat, g: U32, data: seq<Bytes>, r: Receiver, s: set<nat>, e: Event, left: nat)
    requires Inv(k, m, r) && IsGroup(k, data) && Holds(k, m, r, g, data, s) && ValidEvent(k, m, e) && TooShort(k, g, e)
    requires Remembered(r, g, left) && left <= MAX_RECEIVE_GROUPS && (Registers(r, e) ==> left >= 1)
    ensures var r' := Handle(k, m, r, e).0;
            Holds(k, m, r', g, data, s) && Remembered(r', g, if Registers(r, e) then left - 1 else left)
  {
    OwnRegister(k, m, g, data, r, s, left);
  }

  lemma OwnStep(k: nat, m: nat, g: U32, data: seq<Bytes>, r: Receiver, s: set<nat>, i: nat, left: nat)
    requires Inv(k, m, r) && IsGroup(k, data) && Holds(k, m, r, g, data, s) && i < k + m && i !in s
    requires Remembered(r, g, left) && left <= MAX_RECEIVE_GROUPS && (g !in r.groups ==> left >= 1)
    ensures var (r', out) := Handle(k, m, r, OwnEvent(k, m, g, data, i));
            Remembered(r', g, if g !in r.groups then left - 1 else left)
            && if GroupOf(k, m, data, s + {i}).received < k then out == [] && Holds(k, m, r', g, data, s + {i})
               else out == data && g !in r'.groups
  {
    OwnRegister(k, m, g, data, r, s, left);
    StoreFrame(k, m, data, s, i);
    if GroupOf(k, m, data, s + {i}).received >= k {
      ReassembleGroup(k, m, data, s + {i});
    }
  }

  lemma DuplicateStep(k: nat, m: nat, g: U32, data: seq<Bytes>, r: Receiver, s: set<nat>, i: nat)
    requires Inv(k, m, r) && IsGroup(k, data) && Holds(k, m, r, g, data, s) && i < k + m && i in s
    ensures Handle(k, m, r, OwnEvent(k, m, g, data, i)) == (r, [])
  {}

  // ----- whole runs -----

  lemma {:induction false} SeenSize(k: nat, m: nat, data: seq<Bytes>, own: seq<Option<nat>>)
    requires LegalConfig(k, m) && IsGroup(k, data)
    requires forall t :: 0 <= t < |own| && own[t].Some? ==> own[t].value < k + m
    ensures GroupOf(k, m, data, Seen(own)).received == |Seen(own)|
  {
    if own == [] {
      EmptyGroup(k, m, data);
    } else {
      var before, last := own[..|own| - 1], own[|own| - 1];
      SeenSize(k, m, data, before);
      if last.Some? && last.value !in Seen(before) {
        StoreFrame(k, m, data, Seen(before), last.value);
      } else {
        assert Seen(own) == Seen(before);
      }
    }
  }

  /** Nothing is returned for the group's own frames. */
  ghost predicate Silent(own: seq<Option<nat>>, outs: seq<seq<Bytes>>)
  {
    |own| == |outs| && forall t :: 0 <= t < |own| && own[t].Some? ==> outs[t] == []
  }

  lemma SilentAppend(own: seq<Option<nat>>, outs: seq<seq<Bytes>>, out: seq<Bytes>)
    requires own != [] && Silent(own[..|own| - 1], outs) && (own[|own| - 1].Some? ==> out == [])
    ensures Silent(own, outs + [out])
  {
    forall t | 0 <= t < |own| && own[t].Some?
      ensures (outs + [out])[t] == []
    {
      if t < |own| - 1 { assert own[..|own| - 1][t] == own[t]; }
    }
  }

  lemma SeenGrows(own: seq<Option<nat>>)
    requires own != []
    ensures |Seen(own[..|own| - 1])| <= |Seen(own)|
  {
    var before := Seen(own[..|own| - 1]);
    if own[|own| - 1].Some? && own[|own| - 1].value !in before {
      assert |Seen(own)| == |before| + 1;
    } else {
      assert Seen(own) == before;
    }
  }

  lemma NextStep(k: nat, m: nat, g: U32, data: seq<Bytes>, r: Receiver, s: set<nat>, own: Option<nat>, e: Event,
                 left: nat)
    requires Inv(k, m, r) && IsGroup(k, data) && Holds(k, m, r, g, data, s)
    requires ValidEvent(k, m, e) && Matches(k, m, g, data, e, own)
    requires Remembered(r, g, left) && left <= MAX_RECEIVE_GROUPS && (Registers(r, e) ==> left >= 1)
    requires own.Some? ==> GroupOf(k, m, data, s + {own.value}).received < k
    ensures var (r', out) := Handle(k, m, r, e);
            Holds(k, m, r', g, data, if own.Some? then s + {own.value} else s)
            && Remembered(r', g, if Registers(r, e) then left - 1 else left) && (own.Some? ==> out == [])
  {
    match own
    case None =>
      if Foreign(g, e) {
        ForeignStep(k, m, g, data, r, s, e, left);
      } else {
        TooShortStep(k, m, g, data, r, s, e, left);
      }
    case Some(i) =>
      if i in s {
        assert s + {i} == s;
        DuplicateStep(k, m, g, data, r, s, i);
      } else {
        OwnStep(k, m, g, data, r, s, i, left);
      }
  }

  /** Until the k-th distinct frame, the group's frames are collected and nothing is returned for them. */
  lemma {:induction false} Progress(k: nat, m: nat, g: U32, data: seq<Bytes>, r: Receiver, es: Events,
                                    own: seq<Option<nat>>, left: nat)
    requires Inv(k, m, r) && IsGroup(k, data) && g !in r.groups && Traffic(k, m, g, data, es, own)
    requires |Seen(own)| < k
    requires Registrations(k, m, r, es) + left <= MAX_RECEIVE_GROUPS
    requires Remembered(r, g, Registrations(k, m, r, es) + left)
    ensures var (r', outs) := Run(k, m, r, es);
            Inv(k, m, r') && Holds(k, m, r', g, data, Seen(own)) && Remembered(r', g, left) && Silent(own, outs)
    decreases |es|
  {
    if es != [] {
      var n := |es| - 1;
      var es0, own0, e := es[..n], own[..n], es[n];
      var r0 := Run(k, m, r, es0).0;
      var left0 := left + if Registers(r0, e) then 1 else 0;
      SeenGrows(own);
      Progress(k, m, g, data, r, es0, own0, left0);
      HandleKeepsInv(k, m, r0, e);
      SeenSize(k, m, data, own);
      NextStep(k, m, g, data, r0, Seen(own0), own[n], e, left0);
      SilentAppend(own, Run(k, m, r, es0).1, Handle(k, m, r0, e).1);
    }
  }

  /**
   The k-th distinct frame of a group returns exactly its payloads.  The group's earlier frames
   return nothing, and neither malformed datagrams nor those of other groups interfere, as long as
   the run opens at most 256 groups.
   */
  lemma KthFrameRecovers(k: nat, m: nat, g: U32, data: seq<Bytes>, r: Receiver, es: Events, own: seq<Option<nat>>,
                         left: nat)
    requires Inv(k, m, r) && IsGroup(k, data) && g !in r.groups && Traffic(k, m, g, data, es, own)
    requires es != [] && own[|own| - 1].Some?
    requires own[|own| - 1].value !in Seen(own[..|own| - 1]) && |Seen(own[..|own| - 1])| == k - 1
    requires Registrations(k, m, r, es) + left <= MAX_RECEIVE_GROUPS
    requires Remembered(r, g, Registrations(k, m, r, es) + left)
    ensures var (r', outs) := Run(k, m, r, es);
            Silent(own[..|own| - 1], outs[..|es| - 1]) && outs[|es| - 1] == data
            && Inv(k, m, r') && g !in r'.groups && Remembered(r', g, left)
  {
    var n := |es| - 1;
    var es0, own0, e, i := es[..n], own[..n], es[n], own[n].value;
    var (r0, outs0) := Run(k, m, r, es0);
    var left0 := left + if Registers(r0, e) then 1 else 0;
    Progress(k, m, g, data, r, es0, own0, left0);
    HandleKeepsInv(k, m, r0, e);
    assert GroupOf(k, m, data, Seen(own0) + {i}).received == k by {
      SeenSize(k, m, data, own0);
      StoreFrame(k, m, data, Seen(own0), i);
    }
    OwnStep(k, m, g, data, r0, Seen(own0), i, left0);
    assert Run(k, m, r, es).1[..n] == outs0;
  }

  // ----- the promise of the codec -----

  lemma {:induction false} RegistrationsBound(k: nat, m: nat, r: Receiver, es: Events)
    requires LegalConfig(k, m) && AllShaped(k, m, r) && ValidEvents(k, m, es)
    ensures Registrations(k, m, r, es) <= |es|
  {
    if es != [] { RegistrationsBound(k, m, r, es[..|es| - 1]); }
  }

  ghost function Picked(picks: seq<nat>): (own: seq<Option<nat>>)
    ensures |own| == |picks|
  {
    seq(|picks|, t requires 0 <= t < |picks| => Some(picks[t]))
  }

  lemma {:induction false} SeenPicked(picks: seq<nat>)
    requires forall t, u :: 0 <= t < u < |picks| ==> picks[t] != picks[u]
    ensures |Seen(Picked(picks))| == |picks|
    ensures forall i :: i in Seen(Picked(picks)) <==> i in picks
  {
    if picks != [] {
      var n := |picks| - 1;
      assert Picked(picks)[..n] == Picked(picks[..n]);
      SeenPicked(picks[..n]);
      assert picks == picks[..n] + [picks[n]];
    }
  }

  ghost function OwnEvents(k: nat, m: nat, g: U32, data: seq<Bytes>, picks: seq<nat>): (es: Events)
    requires LegalConfig(k, m) && IsGroup(k, data) && DistinctIndices(picks, k + m)
    ensures |es| == |picks| && ValidEvents(k, m, es)
    ensures forall t :: 0 <= t < |picks| ==> es[t] == OwnEvent(k, m, g, data, picks[t])
  {
    seq(|picks|, t requires 0 <= t < |picks| => OwnEvent(k, m, g, data, picks[t]))
  }

  lemma PickedEventsRecover(k: nat, m: nat, g: U32, data: seq<Bytes>, picks: seq<nat>, r: Receiver, left: nat)
    requires LegalConfig(k, m) && IsGroup(k, data) && |picks| == k && DistinctIndices(picks, k + m)
    requires Inv(k, m, r) && g !in r.groups && k + left <= MAX_RECEIVE_GROUPS && Remembered(r, g, k + left)
    ensures var (r', outs) := Run(k, m, r, OwnEvents(k, m, g, data, picks));
            outs == seq(k - 1, t => []) + [data] && Inv(k, m, r') && g !in r'.groups && Remembered(r', g, left)
  {
    var es, own, n := OwnEvents(k, m, g, data, picks), Picked(picks), k - 1;
    RegistrationsBound(k, m, r, es);
    assert own[..n] == Picked(picks[..n]);
    SeenPicked(picks[..n]);
    KthFrameRecovers(k, m, g, data, r, es, own, left);
    SilentPicked(picks[..n], Run(k, m, r, es).1[..n]);
  }

  lemma SilentPicked(picks: seq<nat>, outs: seq<seq<Bytes>>)
    requires Silent(Picked(picks), outs)
    ensures outs == seq(|picks|, t => [])
  {
    assert forall t :: 0 <= t < |picks| ==> Picked(picks)[t].Some?;
  }

  /** The frames with the given indices, in the given order. */
  ghost function FramesOf(k: nat, m: nat, g: U32, data: seq<Bytes>, picks: seq<nat>): (ds: seq<Bytes>)
    requires LegalConfig(k, m) && IsGroup(k, data) && DistinctIndices(picks, k + m)
    ensures |ds| == |picks|
  {
    seq(|picks|, t requires 0 <= t < |picks| => Frame(k, m, g, data, picks[t]))
  }

  lemma FramesAreOwnEvents(k: nat, m: nat, g: U32, data: seq<Bytes>, picks: seq<nat>)
    requires LegalConfig(k, m) && IsGroup(k, data) && DistinctIndices(picks, k + m)
    ensures EventsOf(k, m, FramesOf(k, m, g, data, picks)) == OwnEvents(k, m, g, data, picks)
  {
    forall t | 0 <= t < |picks|
      ensures EventsOf(k, m, FramesOf(k, m, g, data, picks))[t] == OwnEvents(k, m, g, data, picks)[t]
    {
      FrameIsOwnEvent(k, m, g, data, picks[t]);
    }
  }

  /**
   For every legal k and m, every k payloads and every k distinct frames of their group, in any
   order: a fresh decoder returns nothing for the first k - 1 and exactly the payloads on the k-th.
   */
  lemma AnyKFramesRecover(k: nat, m: nat, g: U32, data: seq<Bytes>, picks: seq<nat>)
    requires LegalConfig(k, m) && IsGroup(k, data) && |picks| == k && DistinctIndices(picks, k + m)
    ensures DecodeAll(k, m, NO_RECEIVER, FramesOf(k, m, g, data, picks)).1 == seq(k - 1, t => []) + [data]
  {
    DecodeAllIsRun(k, m, NO_RECEIVER, FramesOf(k, m, g, data, picks));
    FramesAreOwnEvents(k, m, g, data, picks);
    PickedEventsRecover(k, m, g, data, picks, NO_RECEIVER, 0);
  }
}
