/**
 Groups do not influence each other: whatever frames arrive for a group, genuine or not, they return
 exactly what they would return if nothing else had arrived.
 */
module FecIsolation {
  import opened GF256
  import opened FecWire
  import opened FecFrames
  import opened FecReceiver
  import opened FecInvariant
  import opened FecRuns

  /** The events for group g. */
  ghost function Only(g: U32, es: Events): Events
  {
    if es == [] then []
    else
      var last := |es| - 1;
      Only(g, es[..last]) + if Foreign(g, es[last]) then [] else [es[last]]
  }

  /** What those events returned. */
  ghost function OutsFor(g: U32, es: Events, outs: seq<seq<Bytes>>): seq<seq<Bytes>>
    requires |es| == |outs|
  {
    if es == [] then []
    else
      var last := |es| - 1;
      OutsFor(g, es[..last], outs[..last]) + if Foreign(g, es[last]) then [] else [outs[last]]
  }

  lemma {:induction false} OnlyIsValid(k: nat, m: nat, g: U32, es: Events)
    requires ValidEvents(k, m, es)
    ensures ValidEvents(k, m, Only(g, es)) && forall t :: 0 <= t < |Only(g, es)| ==> !Foreign(g, Only(g, es)[t])
  {
    if es != [] { OnlyIsValid(k, m, g, es[..|es| - 1]); }
  }

  /** Both receivers hold the same frames of group g. */
  ghost predicate SameGroup(r: Receiver, r': Receiver, g: U32)
  {
    (g in r.groups <==> g in r'.groups) && (g in r.groups ==> r.groups[g] == r'.groups[g])
  }

  lemma AcceptAgrees(k: nat, m: nat, r: Receiver, r': Receiver, g: U32, index: Byte, payload: Bytes)
    requires Inv(k, m, r) && Inv(k, m, r') && g in r.groups && SameGroup(r, r', g)
    requires index < k + m && |payload| <= MAX_U16
    ensures var (s, out) := Accept(k, m, r, g, index, payload);
            var (s', out') := Accept(k, m, r', g, index, payload);
            out == out' && SameGroup(s, s', g) && s.order == r.order
  {}

  /** A frame of the group does the same in both, and uses up one registration at most. */
  lemma OwnFrameAgrees(k: nat, m: nat, r: Receiver, r': Receiver, g: U32, e: Event, left: nat)
    requires Inv(k, m, r) && Inv(k, m, r') && SameGroup(r, r', g) && ValidEvent(k, m, e) && !Foreign(g, e)
    requires Remembered(r, g, left) && left <= MAX_RECEIVE_GROUPS && (Registers(r, e) ==> left >= 1)
    ensures var (s, out), (s', out') := Handle(k, m, r, e), Handle(k, m, r', e);
            out == out' && SameGroup(s, s', g) && Remembered(s, g, if Registers(r, e) then left - 1 else left)
  {
    RegisterKeepsInv(k, m, r, g);
    RegisterKeepsInv(k, m, r', g);
    if Registers(r, e) { RegisterRemembers(k, m, r, g, g, left); }
    AcceptAgrees(k, m, Register(k, m, r, g), Register(k, m, r', g), g, e.index, e.payload);
  }

  /** A frame of another group, or a malformed datagram, leaves the group alone. */
  lemma ForeignFrameKeeps(k: nat, m: nat, r: Receiver, g: U32, e: Event, left: nat)
    requires Inv(k, m, r) && ValidEvent(k, m, e) && Foreign(g, e)
    requires Remembered(r, g, left) && left <= MAX_RECEIVE_GROUPS && (Registers(r, e) ==> left >= 1)
    ensures var s := Handle(k, m, r, e).0;
            SameGroup(s, r, g) && Remembered(s, g, if Registers(r, e) then left - 1 else left)
  {
    if e.Packet? {
      RegisterKeepsInv(k, m, r, e.groupId);
      if Registers(r, e) { RegisterRemembers(k, m, r, e.groupId, g, left); }
      AcceptOther(k, m, Register(k, m, r, e.groupId), e.groupId, e.index, e.payload, g);
    }
  }

  /** The run on everything and the run on the group's frames alone agree about the group. */
  ghost predicate Agree(k: nat, m: nat, g: U32, r: Receiver, es: Events)
    requires Inv(k, m, r) && ValidEvents(k, m, es)
  {
    OnlyIsValid(k, m, g, es);
    var (s, outs), (s', outs') := Run(k, m, r, es), Run(k, m, NO_RECEIVER, Only(g, es));
    OutsFor(g, es, outs) == outs' && SameGroup(s, s', g)
  }

  lemma OwnFrameKeepsAgreement(k: nat, m: nat, g: U32, r: Receiver, es: Events, left: nat)
    requires Inv(k, m, r) && ValidEvents(k, m, es) && es != [] && !Foreign(g, es[|es| - 1])
    requires Agree(k, m, g, r, es[..|es| - 1])
    requires var s, e := Run(k, m, r, es[..|es| - 1]).0, es[|es| - 1];
             Remembered(s, g, left) && left <= MAX_RECEIVE_GROUPS && (Registers(s, e) ==> left >= 1)
    ensures Agree(k, m, g, r, es)
  {
    var n := |es| - 1;
    var before, e := es[..n], es[n];
    OnlyIsValid(k, m, g, before);
    var (s, outs) := Run(k, m, r, before);
    var s' := Run(k, m, NO_RECEIVER, Only(g, before)).0;
    RunKeepsInv(k, m, r, before);
    RunKeepsInv(k, m, NO_RECEIVER, Only(g, before));
    OwnFrameAgrees(k, m, s, s', g, e, left);
    assert Only(g, es)[..|Only(g, before)|] == Only(g, before);
    assert Run(k, m, r, es).1[..n] == outs;
  }

  lemma ForeignFrameKeepsAgreement(k: nat, m: nat, g: U32, r: Receiver, es: Events, left: nat)
    requires Inv(k, m, r) && ValidEvents(k, m, es) && es != [] && Foreign(g, es[|es| - 1])
    requires Agree(k, m, g, r, es[..|es| - 1])
    requires var s, e := Run(k, m, r, es[..|es| - 1]).0, es[|es| - 1];
             Remembered(s, g, left) && left <= MAX_RECEIVE_GROUPS && (Registers(s, e) ==> left >= 1)
    ensures Agree(k, m, g, r, es)
  {
    var n := |es| - 1;
    var before := es[..n];
    var (s, outs) := Run(k, m, r, before);
    assert SameGroup(Run(k, m, r, es).0, s, g) by {
      RunKeepsInv(k, m, r, before);
      ForeignFrameKeeps(k, m, s, g, es[n], left);
    }
    assert Only(g, es) == Only(g, before);
    assert Run(k, m, r, es).1[..n] == outs;
    assert OutsFor(g, es, Run(k, m, r, es).1) == OutsFor(g, before, outs);
  }

  /** How long the group is still safe from eviction. */
  lemma StepRemembers(k: nat, m: nat, g: U32, s: Receiver, e: Event, left: nat)
    requires Inv(k, m, s) && ValidEvent(k, m, e)
    requires Remembered(s, g, left) && left <= MAX_RECEIVE_GROUPS && (Registers(s, e) ==> left >= 1)
    ensures Remembered(Handle(k, m, s, e).0, g, if Registers(s, e) then left - 1 else left)
  {
    if Foreign(g, e) {
      ForeignFrameKeeps(k, m, s, g, e, left);
    } else {
      OwnFrameAgrees(k, m, s, s, g, e, left);
    }
  }

  /**
   For every sequence of datagrams and every group: the group's frames, whatever they contain,
   return exactly what they return to a fresh receiver that gets nothing else, and leave the same
   frames stored, as long as the run opens at most 256 groups.
   */
  lemma {:induction false} GroupsAreIsolated(k: nat, m: nat, g: U32, r: Receiver, es: Events, left: nat)
    requires Inv(k, m, r) && g !in r.groups && ValidEvents(k, m, es)
    requires Registrations(k, m, r, es) + left <= MAX_RECEIVE_GROUPS
    requires Remembered(r, g, Registrations(k, m, r, es) + left)
    ensures Agree(k, m, g, r, es) && Remembered(Run(k, m, r, es).0, g, left)
    decreases |es|
  {
    if es != [] {
      var n := |es| - 1;
      var s, e := Run(k, m, r, es[..n]).0, es[n];
      var left0 := left + if Registers(s, e) then 1 else 0;
      GroupsAreIsolated(k, m, g, r, es[..n], left0);
      RunKeepsInv(k, m, r, es[..n]);
      StepRemembers(k, m, g, s, e, left0);
      if Foreign(g, e) {
        ForeignFrameKeepsAgreement(k, m, g, r, es, left0);
      } else {
        OwnFrameKeepsAgreement(k, m, g, r, es, left0);
      }
    }
  }
}
