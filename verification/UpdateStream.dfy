/**
 Incremental updates refine full tables.  A neighbour that applies everything a node sends it, in
 order, ends up with the node's full poisoned advertisement on every destination that has no
 unsent change, once one full table has been among the messages.
 */
module UpdateStream {
  import opened Clock
  import opened RouterModel

  /** The cost that a set of advertised routes gives to d. */
  function CostIn(c: Costs, d: Id): nat { if d in c && c[d] < INF_COST then c[d] else INF_COST }

  predicate Unsent(table: Table, d: Id) { d in table && table[d].dirty }

  /** What the receiver knows is known to the sender too, and is current unless a change is unsent. */
  ghost predicate Tracks(view: Costs, table: Table, u: Id)
  {
    forall d :: d in view ==>
      d in table && view[d] < INF_COST && (table[d].dirty || view[d] == PoisonedCost(table[d].route, u))
  }

  /** The receiver's view is the full poisoned table wherever nothing is unsent. */
  ghost predicate Synced(view: Costs, table: Table, u: Id)
  {
    forall d :: !Unsent(table, d) ==> CostIn(view, d) == CostIn(FullUpdate(table, u), d)
  }

  lemma MergeStream(view: Costs, table: Table, nt: map<Id, Route>, now: Time, u: Id)
    requires Tracks(view, table, u)
    ensures Tracks(view, Merge(table, nt, now), u)
    ensures Synced(view, table, u) ==> Synced(view, Merge(table, nt, now), u)
  {
    var table' := Merge(table, nt, now);
    if Synced(view, table, u) {
      forall d | !Unsent(table', d)
        ensures CostIn(view, d) == CostIn(FullUpdate(table', u), d)
      {
        assert !Unsent(table, d);
      }
    }
  }

  lemma TriggerStream(view: Costs, table: Table, u: Id)
    requires Tracks(view, table, u)
    ensures var view' := ApplyUpdate(view, TriggeredUpdate(table, u));
            Tracks(view', ClearDirty(table), u) && (Synced(view, table, u) ==> Synced(view', ClearDirty(table), u))
  {
    var view', table' := ApplyUpdate(view, TriggeredUpdate(table, u)), ClearDirty(table);
    if Synced(view, table, u) {
      forall d | !Unsent(table', d)
        ensures CostIn(view', d) == CostIn(FullUpdate(table', u), d)
      {
        if d in table && Due(table[d]) {
          assert CostIn(view', d) == CostIn(TriggeredUpdate(table, u), d);
        } else {
          assert !Unsent(table, d) && CostIn(view', d) == CostIn(view, d);
        }
      }
    }
  }

  lemma FullStream(view: Costs, table: Table, u: Id)
    requires Tracks(view, table, u)
    ensures var view' := ApplyUpdate(view, FullUpdate(table, u));
            Tracks(view', table, u) && Synced(view', table, u)
  {}

  lemma CollectStream(view: Costs, table: Table, now: Time, u: Id)
    requires Tracks(view, table, u)
    requires forall d :: d in table && Dead(table[d], now) ==> !table[d].dirty && table[d].route.cost == INF_COST
    ensures Tracks(view, CollectDead(table, now), u)
    ensures Synced(view, table, u) ==> Synced(view, CollectDead(table, now), u)
  {
    var table' := CollectDead(table, now);
    if Synced(view, table, u) {
      forall d | !Unsent(table', d)
        ensures CostIn(view, d) == CostIn(FullUpdate(table', u), d)
      {
        assert !Unsent(table, d);
      }
    }
  }

  // ----- whole runs -----

  /** The receiver applies the broadcasts in the order in which they were sent. */
  function Receive(view: Costs, sent: seq<Broadcast>, u: Id): Costs
  {
    if sent == [] then view
    else
      var before := Receive(view, sent[..|sent| - 1], u);
      if u in sent[|sent| - 1] then ApplyUpdate(before, sent[|sent| - 1][u]) else before
  }

  lemma ReceiveOne(view: Costs, b: Broadcast, u: Id)
    requires u in b
    ensures Receive(view, [b], u) == ApplyUpdate(view, b[u])
  {
    assert Receive(view, [b][..0], u) == view;
  }

  lemma {:induction false} ReceiveConcat(view: Costs, a: seq<Broadcast>, b: seq<Broadcast>, u: Id)
    ensures Receive(view, a + b, u) == Receive(Receive(view, a, u), b, u)
    decreases |b|
  {
    if b == [] {
      assert a + b == a;
    } else {
      var n := |b| - 1;
      ReceiveConcat(view, a, b[..n], u);
      assert (a + b)[..|a| + n] == a + b[..n] && (a + b)[|a| + n] == b[n];
    }
  }

  lemma AfterTriggerStream(node: Node, now: Time, view: Costs, u: Id)
    requires u in node.views && Tracks(view, node.table, u)
    ensures var view' := Receive(view, if TriggerDue(node, now) then TriggeredBroadcast(node) else [], u);
            var table' := AfterTrigger(node, now).table;
            Tracks(view', table', u) && (Synced(view, node.table, u) ==> Synced(view', table', u))
  {
    if TriggerDue(node, now) {
      TriggerStream(view, node.table, u);
      if |TriggeredBroadcast(node)| == 1 {
        ReceiveOne(view, TriggeredBroadcast(node)[0], u);
      } else {
        assert TriggeredUpdate(node.table, u) == map[];
        assert ApplyUpdate(view, map[]) == view;
      }
    }
  }

  lemma AfterFullStream(node: Node, full: bool, view: Costs, u: Id)
    requires u in node.views && Tracks(view, node.table, u)
    ensures var view' := Receive(view, if full then FullBroadcast(node) else [], u);
            Tracks(view', node.table, u) && (full || Synced(view, node.table, u) ==> Synced(view', node.table, u))
  {
    if full {
      FullStream(view, node.table, u);
      ReceiveOne(view, FullBroadcast(node)[0], u);
    }
  }

  lemma AfterExpiryStream(node: Node, nt: map<Id, Route>, at: Time, now: Time, view: Costs, u: Id)
    requires Tracks(view, node.table, u)
    ensures var table' := AfterExpiry(node, nt, at, now).table;
            Tracks(view, table', u) && (Synced(view, node.table, u) ==> Synced(view, table', u))
  {
    MergeStream(view, node.table, nt, now, u);
  }

  /** Sending and collecting, once the silent neighbours are gone. */
  lemma SendStream(node: Node, clock: Time, now: Time, view: Costs, u: Id)
    requires NodeInv(node, clock) && Tracks(view, node.table, u) && u in node.views
    ensures var (node', sent) := SendAndCollect(node, now);
            var view' := Receive(view, sent, u);
            && Tracks(view', node'.table, u)
            && (FullDue(node, now) || Synced(view, node.table, u) ==> Synced(view', node'.table, u))
  {
    var node' := AfterTrigger(node, now);
    var triggered := if TriggerDue(node, now) then TriggeredBroadcast(node) else [];
    var full := if FullDue(node, now) then FullBroadcast(node') else [];
    AfterTriggerStream(node, now, view, u);
    AfterFullStream(node', FullDue(node, now), Receive(view, triggered, u), u);
    ReceiveConcat(view, triggered, full, u);
    forall d | d in node'.table && Dead(node'.table[d], now)
      ensures !node'.table[d].dirty
    {
      DeadRoutesAreSent(node, clock, now, d);
    }
    CollectStream(Receive(view, triggered + full, u), node'.table, now, u);
  }

  lemma MaintainStream(node: Node, nt: map<Id, Route>, clock: Time, at: Time, now: Time, view: Costs, u: Id)
    requires NodeInv(node, clock) && clock <= now && Tracks(view, node.table, u)
    requires var views := ExpireViews(node.views, at); NewRoutes(node.self, views, Advertised(views), nt) && u in views
    ensures var (node', sent) := Maintain(node, nt, at, now);
            var view' := Receive(view, sent, u);
            Tracks(view', node'.table, u)
            && (FullDue(node, at) || Synced(view, node.table, u) ==> Synced(view', node'.table, u))
  {
    AfterExpiryKeepsInv(node, nt, clock, at, now);
    AfterExpiryStream(node, nt, at, now, view, u);
    SendStream(AfterExpiry(node, nt, at, now), now, at, view, u);
  }

  lemma StepStream(node: Node, ev: Event, clock: Time, now: Time, node': Node, sent: seq<Broadcast>, view: Costs, u: Id)
    requires NodeInv(node, clock) && clock <= now && Step(node, ev, now, node', sent)
    requires u in node.views && u in node'.views && Tracks(view, node.table, u)
    ensures var view' := Receive(view, sent, u);
            Tracks(view', node'.table, u)
            && ((ev.Tick? && FullDue(node, ev.at)) || Synced(view, node.table, u) ==> Synced(view', node'.table, u))
  {
    var nt :| StepWith(node, ev, nt, now, node', sent);
    if ev.Tick? {
      MaintainStream(node, nt, clock, ev.at, now, view, u);
    } else {
      MergeStream(view, node.table, nt, now, u);
    }
  }

  /** A run of one node: node i handles event i at time i and sends broadcast i. */
  datatype Trace = Trace(nodes: seq<Node>, events: seq<Event>, times: seq<Time>, sent: seq<seq<Broadcast>>)

  ghost predicate StepAt(tr: Trace, i: nat)
  {
    && i < |tr.events| && i + 1 < |tr.nodes| && i + 1 < |tr.times| && i < |tr.sent|
    && tr.times[i] <= tr.times[i + 1] && NotSelf(tr.nodes[i].self, tr.events[i])
    && Step(tr.nodes[i], tr.events[i], tr.times[i + 1], tr.nodes[i + 1], tr.sent[i])
  }

  ghost predicate IsTrace(tr: Trace)
  {
    && |tr.nodes| == |tr.events| + 1 == |tr.times| == |tr.sent| + 1
    && forall i: nat {:trigger StepAt(tr, i)} :: i < |tr.events| ==> StepAt(tr, i)
  }

  /** A full table goes out at step i. */
  ghost predicate FullAt(tr: Trace, i: nat)
    requires IsTrace(tr) && i < |tr.events|
  {
    tr.events[i].Tick? && FullDue(tr.nodes[i], tr.events[i].at)
  }

  /** The receiver's view after the first n steps, from an empty one. */
  ghost function ViewAfter(tr: Trace, u: Id, n: nat): Costs
    requires IsTrace(tr) && n <= |tr.events|
  {
    if n == 0 then map[] else Receive(ViewAfter(tr, u, n - 1), tr.sent[n - 1], u)
  }

  lemma {:induction false} TraceKeepsInv(tr: Trace, n: nat)
    requires IsTrace(tr) && n <= |tr.events| && NodeInv(tr.nodes[0], tr.times[0])
    ensures NodeInv(tr.nodes[n], tr.times[n])
  {
    if n > 0 {
      TraceKeepsInv(tr, n - 1);
      assert StepAt(tr, n - 1);
      StepKeepsInv(tr.nodes[n - 1], tr.events[n - 1], tr.times[n - 1], tr.times[n], tr.nodes[n], tr.sent[n - 1]);
    }
  }

  lemma TraceStream(tr: Trace, i: nat, view: Costs, u: Id)
    requires IsTrace(tr) && i < |tr.events| && NodeInv(tr.nodes[0], tr.times[0])
    requires u in tr.nodes[i].views && u in tr.nodes[i + 1].views && Tracks(view, tr.nodes[i].table, u)
    ensures var view' := Receive(view, tr.sent[i], u);
            && Tracks(view', tr.nodes[i + 1].table, u)
            && (FullAt(tr, i) || Synced(view, tr.nodes[i].table, u) ==> Synced(view', tr.nodes[i + 1].table, u))
  {
    TraceKeepsInv(tr, i);
    assert StepAt(tr, i);
    StepStream(tr.nodes[i], tr.events[i], tr.times[i], tr.times[i + 1], tr.nodes[i + 1], tr.sent[i], view, u);
  }

  lemma {:induction false} ViewTracks(tr: Trace, u: Id, n: nat)
    requires IsTrace(tr) && n <= |tr.events| && NodeInv(tr.nodes[0], tr.times[0])
    requires forall i :: 0 <= i <= n ==> u in tr.nodes[i].views
    ensures Tracks(ViewAfter(tr, u, n), tr.nodes[n].table, u)
    ensures (exists i :: 0 <= i < n && FullAt(tr, i)) ==> Synced(ViewAfter(tr, u, n), tr.nodes[n].table, u)
  {
    if n > 0 {
      ViewTracks(tr, u, n - 1);
      TraceStream(tr, n - 1, ViewAfter(tr, u, n - 1), u);
    }
  }

  /**
   Over every run in which u stays a neighbour and a full table went out: with all messages
   applied, u's view is the full poisoned advertisement on every destination without unsent change.
   */
  lemma IncrementalRefinesFull(tr: Trace, u: Id, d: Id)
    requires IsTrace(tr) && NodeInv(tr.nodes[0], tr.times[0])
    requires forall i :: 0 <= i < |tr.nodes| ==> u in tr.nodes[i].views
    requires exists i :: 0 <= i < |tr.events| && FullAt(tr, i)
    ensures var last := tr.nodes[|tr.events|];
            !Unsent(last.table, d) ==> CostIn(ViewAfter(tr, u, |tr.events|), d) == CostIn(FullUpdate(last.table, u), d)
  {
    ViewTracks(tr, u, |tr.events|);
  }

  // ----- losses are announced before they are forgotten -----

  /** Every one of the given neighbours is told that d is unreachable. */
  ghost predicate Withdraws(sent: seq<Broadcast>, neighbors: set<Id>, d: Id)
  {
    exists b :: b in sent && b.Keys == neighbors && forall n :: n in b ==> d in b[n] && b[n][d] == INF_COST
  }

  /** An infinite entry without unsent change. */
  predicate Settled(table: Table, d: Id)
  {
    d in table && table[d].route.cost == INF_COST && !table[d].dirty
  }

  lemma TriggerWithdraws(node: Node, d: Id)
    requires d in node.table && node.table[d].route.cost == INF_COST
    ensures Withdraws(TriggeredBroadcast(node), node.views.Keys, d)
  {
    assert Due(node.table[d]);
    var b := TriggeredBroadcast(node)[0];
    assert b in TriggeredBroadcast(node);
  }

  lemma WithdrawsAppend(a: seq<Broadcast>, b: seq<Broadcast>, neighbors: set<Id>, d: Id)
    requires Withdraws(a, neighbors, d)
    ensures Withdraws(a + b, neighbors, d)
  {
    var x :| x in a && x.Keys == neighbors && forall n :: n in x ==> d in x[n] && x[n][d] == INF_COST;
    assert x in a + b;
  }

  /** d is gone, or settled, in the new table. */
  predicate GoneOrSettled(table: Table, table': Table, d: Id)
  {
    Settled(table', d) || (d in table && d !in table')
  }

  /** It was settled before, with the same entry if there still is one. */
  predicate WasSettled(table: Table, table': Table, d: Id)
  {
    Settled(table, d) && (d in table' ==> table'[d] == table[d])
  }

  lemma MergeSettles(table: Table, nt: map<Id, Route>, now: Time, d: Id)
    ensures GoneOrSettled(table, Merge(table, nt, now), d) ==> WasSettled(table, Merge(table, nt, now), d)
  {}

  /** A destination that is settled or gone after sending was settled before, or is withdrawn now. */
  lemma SendSettles(node: Node, clock: Time, now: Time, d: Id)
    requires NodeInv(node, clock)
    ensures var (node', sent) := SendAndCollect(node, now);
            GoneOrSettled(node.table, node'.table, d) ==>
              WasSettled(node.table, node'.table, d) || Withdraws(sent, node'.views.Keys, d)
  {
    var (node', sent) := SendAndCollect(node, now);
    if GoneOrSettled(node.table, node'.table, d) && !Settled(node.table, d) {
      assert d in node.table && node.table[d].dirty && node.table[d].route.cost == INF_COST;
      assert TriggerDue(node, now);
      TriggerWithdraws(node, d);
      var full := if FullDue(node, now) then FullBroadcast(AfterTrigger(node, now)) else [];
      WithdrawsAppend(TriggeredBroadcast(node), full, node.views.Keys, d);
    }
  }

  lemma MaintainSettles(node: Node, nt: map<Id, Route>, clock: Time, at: Time, now: Time, d: Id)
    requires NodeInv(node, clock) && clock <= now
    requires var views := ExpireViews(node.views, at); NewRoutes(node.self, views, Advertised(views), nt)
    ensures var (node', sent) := Maintain(node, nt, at, now);
            GoneOrSettled(node.table, node'.table, d) ==>
              WasSettled(node.table, node'.table, d) || Withdraws(sent, node'.views.Keys, d)
  {
    AfterExpiryKeepsInv(node, nt, clock, at, now);
    MergeSettles(node.table, nt, now, d);
    SendSettles(AfterExpiry(node, nt, at, now), now, at, d);
  }

  lemma StepSettles(node: Node, ev: Event, clock: Time, now: Time, node': Node, sent: seq<Broadcast>, d: Id)
    requires NodeInv(node, clock) && clock <= now && Step(node, ev, now, node', sent)
    ensures GoneOrSettled(node.table, node'.table, d) ==>
              WasSettled(node.table, node'.table, d) || Withdraws(sent, node'.views.Keys, d)
  {
    var nt :| StepWith(node, ev, nt, now, node', sent);
    if ev.Tick? {
      MaintainSettles(node, nt, clock, ev.at, now, d);
    } else {
      MergeSettles(node.table, nt, now, d);
    }
  }

  /** d was withdrawn from all neighbours of the moment, at time `since` or later and before step i. */
  ghost predicate Withdrawn(tr: Trace, d: Id, since: Time, i: nat)
    requires IsTrace(tr) && i <= |tr.events|
  {
    exists j :: 0 <= j < i && since <= tr.times[j + 1] && Withdraws(tr.sent[j], tr.nodes[j + 1].views.Keys, d)
  }

  lemma {:induction false} SettledIsWithdrawn(tr: Trace, d: Id, i: nat)
    requires IsTrace(tr) && i <= |tr.events| && tr.nodes[0] == Initial(tr.nodes[0].self, tr.times[0])
    requires Settled(tr.nodes[i].table, d)
    ensures Withdrawn(tr, d, tr.nodes[i].table[d].lastUpdated, i)
  {
    var j := i - 1;
    InitialInv(tr.nodes[0].self, tr.times[0]);
    TraceKeepsInv(tr, j);
    TraceKeepsInv(tr, i);
    assert StepAt(tr, j);
    StepSettles(tr.nodes[j], tr.events[j], tr.times[j], tr.times[i], tr.nodes[i], tr.sent[j], d);
    if !Withdraws(tr.sent[j], tr.nodes[j + 1].views.Keys, d) {
      SettledIsWithdrawn(tr, d, j);
    }
  }

  /** In every run from the start: a route is only forgotten after its loss has been sent to all neighbours. */
  lemma ForgottenOnlyAfterWithdrawal(tr: Trace, d: Id, i: nat)
    requires IsTrace(tr) && i < |tr.events| && tr.nodes[0] == Initial(tr.nodes[0].self, tr.times[0])
    requires d in tr.nodes[i].table && d !in tr.nodes[i + 1].table
    ensures Withdrawn(tr, d, tr.nodes[i].table[d].lastUpdated, i + 1)
  {
    InitialInv(tr.nodes[0].self, tr.times[0]);
    TraceKeepsInv(tr, i);
    assert StepAt(tr, i);
    StepSettles(tr.nodes[i], tr.events[i], tr.times[i], tr.times[i + 1], tr.nodes[i + 1], tr.sent[i], d);
    if !Withdraws(tr.sent[i], tr.nodes[i + 1].views.Keys, d) {
      SettledIsWithdrawn(tr, d, i);
    }
  }
}
