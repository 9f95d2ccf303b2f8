/** What every datagram, well formed or not, keeps true of the receiver. */
module FecInvariant {
  import opened GF256
  import opened LinearAlgebra
  import opened GaussJordan
  import opened Cauchy
  import opened FecWire
  import opened FecFrames
  import opened FecReceiver

  ghost predicate Inv(k: nat, m: nat, r: Receiver)
  {
    && LegalConfig(k, m) && AllShaped(k, m, r)
    && |r.order| <= MAX_RECEIVE_GROUPS
    && forall g :: g in r.groups ==> g in r.order && !r.groups[g].delivered && r.groups[g].received < k
  }

  /** k filled slots always decode: the elimination never runs into a singular matrix. */
  lemma ReassembleSucceeds(k: nat, m: nat, group: RecvGroup)
    requires LegalConfig(k, m) && Shaped(k, m, group) && group.received >= k
    ensures |Reassemble(k, m, group)| == k
  {
    var idx, l := FilledSlots(group.slots, k + m, k), SymbolLen(group.slots, k + m);
    assert |idx| == k by { FilledSlotsSize(group.slots, k + m, k); }
    assert DistinctIndices(idx, 256);
    var rows, side := EncodingRows(k, idx), PaddedRows(group.slots, idx, l);
    assert Gauss(rows, side, 0, l).Some? by {
      AnyRowsAreRegular(k, idx);
      GaussDecidesRegularity(rows, side, l);
    }
  }

  /** Registering a group appends it and drops at most the oldest one. */
  lemma RegisterOnce(k: nat, m: nat, r: Receiver, g: U32)
    requires Inv(k, m, r) && g !in r.groups
    ensures var r', full := Register(k, m, r, g), |r.order| == MAX_RECEIVE_GROUPS;
            r'.order == (if full then r.order[1..] else r.order) + [g]
            && r'.groups ==
               (if full && r.order[0] != g then r.groups - {r.order[0]} else r.groups)[g := FreshGroup(k, m)]
  {
    var r0 := Receiver(r.groups[g := FreshGroup(k, m)], r.order + [g]);
    if |r.order| == MAX_RECEIVE_GROUPS {
      assert r0.order[0] == r.order[0];
      assert r0.order[1..] == r.order[1..] + [g];
      var r1 := Receiver(if r.order[0] != g then r0.groups - {r.order[0]} else r0.groups, r0.order[1..]);
      assert Evict(r0, g) == Evict(r1, g) == r1;
    }
  }

  lemma RegisterKeepsInv(k: nat, m: nat, r: Receiver, g: U32)
    requires Inv(k, m, r)
    ensures Inv(k, m, Register(k, m, r, g))
  {
    if g !in r.groups {
      RegisterOnce(k, m, r, g);
      RegisterShaped(k, m, r, g);
      CountNone(k + m, FreshGroup(k, m).slots);
    }
  }

  lemma AcceptKeepsInv(k: nat, m: nat, r: Receiver, g: U32, index: Byte, payload: Bytes)
    requires Inv(k, m, r) && g in r.groups && index < k + m && |payload| <= MAX_U16
    ensures Inv(k, m, Accept(k, m, r, g, index, payload).0)
  {
    if !Ignored(k, m, r.groups[g], index, payload) {
      StoreShaped(k, m, r.groups[g], index, payload);
      var group' := Store(k, m, r.groups[g], index, payload);
      if group'.received >= k {
        ReassembleSucceeds(k, m, group');
      }
    }
  }

  lemma HandleKeepsInv(k: nat, m: nat, r: Receiver, e: Event)
    requires Inv(k, m, r) && ValidEvent(k, m, e)
    ensures Inv(k, m, Handle(k, m, r, e).0)
  {
    if e.Packet? {
      RegisterKeepsInv(k, m, r, e.groupId);
      AcceptKeepsInv(k, m, Register(k, m, r, e.groupId), e.groupId, e.index, e.payload);
    }
  }

  lemma {:induction false} RunKeepsInv(k: nat, m: nat, r: Receiver, es: Events)
    requires Inv(k, m, r) && ValidEvents(k, m, es)
    ensures Inv(k, m, Run(k, m, r, es).0)
  {
    if es != [] {
      var last := |es| - 1;
      RunKeepsInv(k, m, r, es[..last]);
      HandleKeepsInv(k, m, Run(k, m, r, es[..last]).0, es[last]);
    }
  }

  /** For every sequence of arbitrary datagrams, from the empty receiver. */
  lemma EveryRunKeepsInv(k: nat, m: nat, ds: seq<Bytes>)
    requires LegalConfig(k, m)
    ensures Inv(k, m, DecodeAll(k, m, NO_RECEIVER, ds).0)
  {
    DecodeAllIsRun(k, m, NO_RECEIVER, ds);
    RunKeepsInv(k, m, NO_RECEIVER, EventsOf(k, m, ds));
  }
}
