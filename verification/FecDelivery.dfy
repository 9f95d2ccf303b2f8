/** How often a group is delivered when none of its frames repeats. */
module FecDelivery {
  import opened GF256
  import opened LinearAlgebra
  import opened Counting
  import opened Cauchy
  import opened FecWire
  import opened FecFrames
  import opened FecReceiver
  import opened FecInvariant
  import opened FecRecovery
  import opened FecRuns

  ghost predicate IsFor(g: U32, e: Event)
  {
    e.Packet? && e.groupId == g
  }

  /** Events for g that reach the group table. */
  ghost function Arrivals(g: U32, es: Events): nat
  {
    if es == [] then 0 else Arrivals(g, es[..|es| - 1]) + if IsFor(g, es[|es| - 1]) then 1 else 0
  }

  /** `weight` for every event for g that returned payloads. */
  ghost function Deliveries(weight: nat, g: U32, es: Events, outs: seq<seq<Bytes>>): nat
    requires |es| == |outs|
  {
    if es == [] then 0
    else
      var n := |es| - 1;
      Deliveries(weight, g, es[..n], outs[..n]) + if IsFor(g, es[n]) && outs[n] != [] then weight else 0
  }

  lemma {:induction false} WeightedDeliveries(weight: nat, g: U32, es: Events, outs: seq<seq<Bytes>>)
    requires |es| == |outs|
    ensures Deliveries(weight, g, es, outs) == weight * Deliveries(1, g, es, outs)
  {
    if es != [] {
      var n := |es| - 1;
      WeightedDeliveries(weight, g, es[..n], outs[..n]);
    }
  }

  ghost function Held(r: Receiver, g: U32): nat
  {
    if g in r.groups then r.groups[g].received else 0
  }

  /** A delivery uses up k frames that were held or just arrived. */
  lemma StepAccount(k: nat, m: nat, r: Receiver, e: Event, g: U32)
    requires Inv(k, m, r) && ValidEvent(k, m, e)
    ensures var (r', out) := Handle(k, m, r, e);
            Held(r', g) + (if IsFor(g, e) && out != [] then k else 0) <= Held(r, g) + if IsFor(g, e) then 1 else 0
  {
    if e.Packet? {
      if e.groupId !in r.groups {
        RegisterOnce(k, m, r, e.groupId);
        CountNone(k + m, FreshGroup(k, m).slots);
      }
      RegisterKeepsInv(k, m, r, e.groupId);
      if !IsFor(g, e) {
        AcceptOther(k, m, Register(k, m, r, e.groupId), e.groupId, e.index, e.payload, g);
      }
    }
  }

  lemma {:induction false} RunAccount(k: nat, m: nat, r: Receiver, es: Events, g: U32)
    requires Inv(k, m, r) && ValidEvents(k, m, es)
    ensures var (r', outs) := Run(k, m, r, es);
            Deliveries(k, g, es, outs) + Held(r', g) <= Held(r, g) + Arrivals(g, es)
  {
    if es != [] {
      var n := |es| - 1;
      var (r0, outs0) := Run(k, m, r, es[..n]);
      RunAccount(k, m, r, es[..n], g);
      RunKeepsInv(k, m, r, es[..n]);
      StepAccount(k, m, r0, es[n], g);
      assert Run(k, m, r, es).1[..n] == outs0;
    }
  }

  /** No two events for g carry the same frame index. */
  ghost predicate NoRepeats(g: U32, es: Events)
  {
    forall t, u :: 0 <= t < u < |es| && IsFor(g, es[t]) && IsFor(g, es[u]) ==> es[t].index != es[u].index
  }

  ghost function Indices(g: U32, es: Events): (s: set<int>)
    ensures forall i :: i in s ==> exists t :: 0 <= t < |es| && IsFor(g, es[t]) && es[t].index == i
  {
    if es == [] then {}
    else
      var n := |es| - 1;
      var s := Indices(g, es[..n]);
      assert forall i :: i in s ==> exists t :: 0 <= t < |es| && IsFor(g, es[t]) && es[t].index == i by {
        forall i | i in s
          ensures exists t :: 0 <= t < |es| && IsFor(g, es[t]) && es[t].index == i
        {
          var t :| 0 <= t < n && IsFor(g, es[..n][t]) && es[..n][t].index == i;
          assert IsFor(g, es[t]) && es[t].index == i;
        }
      }
      s + if IsFor(g, es[n]) then {es[n].index as int} else {}
  }

  lemma {:induction false} ArrivalsAreDistinct(g: U32, es: Events)
    requires NoRepeats(g, es)
    ensures |Indices(g, es)| == Arrivals(g, es)
  {
    if es != [] {
      var n := |es| - 1;
      ArrivalsAreDistinct(g, es[..n]);
      if IsFor(g, es[n]) {
        assert es[n].index as int !in Indices(g, es[..n]);
      }
    }
  }

  /** With fewer parity than data frames, a group whose frames do not repeat is delivered at most once. */
  lemma DeliveredAtMostOnce(k: nat, m: nat, es: Events, g: U32)
    requires LegalConfig(k, m) && m < k && ValidEvents(k, m, es) && NoRepeats(g, es)
    ensures Deliveries(1, g, es, Run(k, m, NO_RECEIVER, es).1) <= 1
  {
    var outs := Run(k, m, NO_RECEIVER, es).1;
    assert Deliveries(k, g, es, outs) <= k + m by {
      RunAccount(k, m, NO_RECEIVER, es, g);
      ArrivalsAreDistinct(g, es);
      Pigeonhole(Indices(g, es), k + m);
    }
    WeightedDeliveries(k, g, es, outs);
    LessThanTwice(k, Deliveries(1, g, es, outs));
  }

  lemma LessThanTwice(k: nat, n: nat)
    requires k * n < 2 * k
    ensures n <= 1
  {
    assert n >= 2 ==> k * n == 2 * k + k * (n - 2);
  }

  // ----- and with at least as many parity as data frames it can be delivered twice -----

  lemma {:induction false} RunConcat(k: nat, m: nat, r: Receiver, es: Events, es': Events)
    requires LegalConfig(k, m) && AllShaped(k, m, r) && ValidEvents(k, m, es) && ValidEvents(k, m, es')
    ensures ValidEvents(k, m, es + es')
    ensures var (r1, outs) := Run(k, m, r, es);
            var (r2, outs') := Run(k, m, r1, es');
            Run(k, m, r, es + es') == (r2, outs + outs')
    decreases |es'|
  {
    if es' == [] {
      assert es + es' == es;
      assert Run(k, m, r, es).1 + [] == Run(k, m, r, es).1;
    } else {
      var n := |es'| - 1;
      RunConcat(k, m, r, es, es'[..n]);
      assert (es + es')[..|es| + n] == es + es'[..n] && (es + es')[|es| + n] == es'[n];
      var (r1, outs) := Run(k, m, r, es);
      var (r2, outs') := Run(k, m, r1, es'[..n]);
      var out := Handle(k, m, r2, es'[n]).1;
      assert (outs + outs') + [out] == outs + (outs' + [out]);
    }
  }

  lemma {:induction false} DeliveriesConcat(g: U32, es: Events, outs: seq<seq<Bytes>>, es': Events,
                                            outs': seq<seq<Bytes>>)
    requires |es| == |outs| && |es'| == |outs'|
    ensures Deliveries(1, g, es + es', outs + outs') == Deliveries(1, g, es, outs) + Deliveries(1, g, es', outs')
    decreases |es'|
  {
    if es' == [] {
      assert es + es' == es && outs + outs' == outs;
    } else {
      var n := |es'| - 1;
      DeliveriesConcat(g, es, outs, es'[..n], outs'[..n]);
      assert (es + es')[..|es| + n] == es + es'[..n];
      assert (outs + outs')[..|es| + n] == outs + outs'[..n];
    }
  }

  lemma LastOnlyDelivery(g: U32, es: Events, outs: seq<seq<Bytes>>)
    requires |es| == |outs| > 0 && IsFor(g, es[|es| - 1]) && outs[|es| - 1] != []
    ensures Deliveries(1, g, es, outs) >= 1
  {}

  /** Frames 0..k-1, then frames k..2k-1. */
  ghost function Consecutive(from: nat, n: nat): (picks: seq<nat>)
    ensures |picks| == n && forall t :: 0 <= t < n ==> picks[t] == from + t
  {
    seq(n, t requires 0 <= t => from + t)
  }

  lemma DeliveredTwice(k: nat, m: nat, g: U32, data: seq<Bytes>) returns (es: Events)
    requires LegalConfig(k, m) && k <= m && IsGroup(k, data)
    ensures ValidEvents(k, m, es) && NoRepeats(g, es)
    ensures Deliveries(1, g, es, Run(k, m, NO_RECEIVER, es).1) >= 2
  {
    var a, b := OwnEvents(k, m, g, data, Consecutive(0, k)), OwnEvents(k, m, g, data, Consecutive(k, k));
    es := a + b;
    assert NoRepeats(g, es);
    PickedEventsRecover(k, m, g, data, Consecutive(0, k), NO_RECEIVER, k);
    var (r1, outs) := Run(k, m, NO_RECEIVER, a);
    PickedEventsRecover(k, m, g, data, Consecutive(k, k), r1, 0);
    var (r2, outs') := Run(k, m, r1, b);
    RunConcat(k, m, NO_RECEIVER, a, b);
    DeliveriesConcat(g, a, outs, b, outs');
    LastOnlyDelivery(g, a, outs);
    LastOnlyDelivery(g, b, outs');
  }

  /** The exact condition. */
  lemma AtMostOnceIff(k: nat, m: nat, g: U32)
    requires LegalConfig(k, m)
    ensures (forall es :: ValidEvents(k, m, es) && NoRepeats(g, es) ==>
            Deliveries(1, g, es, Run(k, m, NO_RECEIVER, es).1) <= 1)
       <==> m < k
  {
    if m < k {
      forall es | ValidEvents(k, m, es) && NoRepeats(g, es)
        ensures Deliveries(1, g, es, Run(k, m, NO_RECEIVER, es).1) <= 1
      {
        DeliveredAtMostOnce(k, m, es, g);
      }
    } else {
      var data: seq<Bytes> := seq(k, i => []);
      var es := DeliveredTwice(k, m, g, data);
    }
  }
}
