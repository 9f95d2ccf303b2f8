/**
 The router's clock work over whole runs of one node: who is a neighbour and what is known of it,
 when changes are announced and what the announcements say, when full tables go out, and when a
 dead route is forgotten.
 */
module RouterTiming {
  import opened Clock
  import opened RouterModel
  import opened UpdateStream

  /** A run from the construction of the router on. */
  ghost predicate Begins(tr: Trace)
  {
    IsTrace(tr) && tr.nodes[0] == Initial(tr.nodes[0].self, tr.times[0])
  }

  lemma BeginsInv(tr: Trace, i: nat)
    requires Begins(tr) && i <= |tr.events|
    ensures NodeInv(tr.nodes[i], tr.times[i])
  {
    InitialInv(tr.nodes[0].self, tr.times[0]);
    TraceKeepsInv(tr, i);
  }

  // ----- neighbours -----

  /** The event makes n a neighbour. */
  predicate Joins(ev: Event, n: Id) { (ev.Connected? || ev.UpdateReceived?) && ev.peer == n }

  /** Something is heard from n. */
  predicate Speaks(ev: Event, n: Id) { (ev.Connected? || ev.UpdateReceived? || ev.DataReceived?) && ev.peer == n }

  /** When n was last heard of before step i. */
  function LastSpoke(tr: Trace, n: Id, i: nat): Time
    requires |tr.times| > 0 && i <= |tr.events|
  {
    if i == 0 then tr.times[0]
    else if Speaks(tr.events[i - 1], n) then tr.events[i - 1].at
    else LastSpoke(tr, n, i - 1)
  }

  /** Step s neither disconnects n nor finds it silent for more than 180 s. */
  predicate Survives(tr: Trace, n: Id, s: nat)
    requires |tr.times| > 0 && s < |tr.events|
  {
    && !(tr.events[s].Disconnected? && tr.events[s].peer == n)
    && (tr.events[s].Tick? ==> tr.events[s].at - LastSpoke(tr, n, s) <= ROUTE_TIMEOUT)
  }

  ghost predicate NeighborSince(tr: Trace, n: Id, a: nat, i: nat)
    requires |tr.times| > 0 && i <= |tr.events|
  {
    a < i && Joins(tr.events[a], n) && forall s :: a < s < i ==> Survives(tr, n, s)
  }

  lemma StepViews(node: Node, ev: Event, now: Time, node': Node, sent: seq<Broadcast>)
    requires Step(node, ev, now, node', sent)
    ensures node'.views == ViewsAfter(node.views, ev)
  {
    var nt :| StepWith(node, ev, nt, now, node', sent);
    if ev.Tick? { ExpiryViews(node, nt, ev.at, now); }
  }

  lemma ExpiryViews(node: Node, nt: map<Id, Route>, at: Time, now: Time)
    ensures AfterExpiry(node, nt, at, now).views == ExpireViews(node.views, at)
  {
    if ExpireViews(node.views, at).Keys == node.views.Keys {
      assert ExpireViews(node.views, at) == node.views;
    }
  }

  lemma TraceViews(tr: Trace, i: nat)
    requires IsTrace(tr) && i < |tr.events|
    ensures tr.nodes[i + 1].views == ViewsAfter(tr.nodes[i].views, tr.events[i])
  {
    assert StepAt(tr, i);
    StepViews(tr.nodes[i], tr.events[i], tr.times[i + 1], tr.nodes[i + 1], tr.sent[i]);
  }

  lemma {:induction false} LastHeardIs(tr: Trace, n: Id, i: nat)
    requires Begins(tr) && i <= |tr.events| && n in tr.nodes[i].views
    ensures tr.nodes[i].views[n].lastHeard == LastSpoke(tr, n, i)
  {
    TraceViews(tr, i - 1);
    if n in tr.nodes[i - 1].views { LastHeardIs(tr, n, i - 1); }
  }

  /** One step: n is a neighbour afterwards if it joins, or was one before and survives. */
  lemma NeighborStep(tr: Trace, n: Id, i: nat)
    requires Begins(tr) && i < |tr.events|
    ensures n in tr.nodes[i + 1].views <==>
              Joins(tr.events[i], n) || (n in tr.nodes[i].views && Survives(tr, n, i))
  {
    TraceViews(tr, i);
    if n in tr.nodes[i].views { LastHeardIs(tr, n, i); }
  }

  lemma SinceStep(tr: Trace, n: Id, a: nat, i: nat)
    requires |tr.times| > 0 && i < |tr.events|
    ensures NeighborSince(tr, n, a, i + 1) <==>
              (a == i && Joins(tr.events[i], n)) || (NeighborSince(tr, n, a, i) && Survives(tr, n, i))
  {}

  /**
   n is a neighbour if and only if it has connected or sent an update, has not been disconnected
   since, and no tick since came more than 180 s after the latest event from n before it.
   */
  lemma {:induction false} NeighborIff(tr: Trace, n: Id, i: nat)
    requires Begins(tr) && i <= |tr.events|
    ensures n in tr.nodes[i].views <==> exists a: nat :: NeighborSince(tr, n, a, i)
  {
    if i > 0 {
      NeighborIff(tr, n, i - 1);
      NeighborStep(tr, n, i - 1);
      if Joins(tr.events[i - 1], n) {
        SinceStep(tr, n, i - 1, i - 1);
      } else if n in tr.nodes[i].views {
        var a: nat :| NeighborSince(tr, n, a, i - 1);
        SinceStep(tr, n, a, i - 1);
      } else if a: nat :| NeighborSince(tr, n, a, i) {
        SinceStep(tr, n, a, i - 1);
      }
    }
  }

  // ----- what is known of a neighbour -----

  /** The cost of d in the latest update from n that mentions it, since step a. */
  function LatestCost(tr: Trace, n: Id, d: Id, a: nat, i: nat): nat
    requires i <= |tr.events|
  {
    if i <= a then INF_COST
    else
      var ev := tr.events[i - 1];
      if ev.UpdateReceived? && ev.peer == n && d in ev.costs then ev.costs[d] else LatestCost(tr, n, d, a, i - 1)
  }

  /**
   What n is taken to offer is what it last said, since it became a neighbour; neither data packets
   nor another connection change that.
   */
  lemma {:induction false} OfferIsLatest(tr: Trace, n: Id, d: Id, a: nat, i: nat)
    requires Begins(tr) && a < i <= |tr.events| && n !in tr.nodes[a].views
    requires forall s :: a < s <= i ==> n in tr.nodes[s].views
    ensures var routes := tr.nodes[i].views[n].routes;
            && (d in routes <==> LatestCost(tr, n, d, a, i) < INF_COST)
            && (d in routes ==> routes[d] == LatestCost(tr, n, d, a, i))
    decreases i
  {
    TraceViews(tr, i - 1);
    if a < i - 1 { OfferIsLatest(tr, n, d, a, i - 1); }
  }

  // ----- one step, as far as tables and announcements go -----

  /** d has a new route, or is new. */
  predicate Differs(table: Table, table': Table, d: Id)
  {
    d in table' && !(d in table && table[d].route == table'[d].route)
  }

  /** What is new is marked and stamped, and what stays at infinity stays as it is. */
  ghost predicate TableMerged(table: Table, table': Table, now: Time)
  {
    && table.Keys <= table'.Keys
    && (forall d :: d in table' ==>
          if Differs(table, table', d) then table'[d].dirty && table'[d].lastUpdated == now else table'[d] == table[d])
    && forall d :: d in table && Differs(table, table', d) ==>
         table[d].route.cost < INF_COST || table'[d].route.cost < INF_COST
  }

  /** The routes are recomputed, or stay; any change arms the trigger, unless it is pending. */
  ghost predicate Merged(node: Node, mid: Node, now: Time)
  {
    && TableMerged(node.table, mid.table, now) && mid.lastPeriodic == node.lastPeriodic && mid.self == node.self
    && (node.triggerPending ==> mid.triggerPending && mid.triggerDeadline == node.triggerDeadline)
    && (!node.triggerPending && mid.triggerPending ==>
          mid.triggerDeadline == now + TRIGGER_DEBOUNCE && exists d :: Differs(node.table, mid.table, d))
    && (!mid.triggerPending ==> forall d :: !Differs(node.table, mid.table, d))
  }

  lemma MergeDiffers(table: Table, nt: map<Id, Route>, now: Time, d: Id)
    ensures Differs(table, Merge(table, nt, now), d) <==>
              (d in nt && !(d in table && table[d].route == nt[d]))
              || (d in table && d !in nt && table[d].route.cost < INF_COST)
  {}

  lemma MergeMerges(table: Table, nt: map<Id, Route>, now: Time)
    requires forall d :: d in nt ==> nt[d].cost < INF_COST
    ensures TableMerged(table, Merge(table, nt, now), now)
  {
    forall d
      ensures Differs(table, Merge(table, nt, now), d) <==>
                (d in nt && !(d in table && table[d].route == nt[d]))
                || (d in table && d !in nt && table[d].route.cost < INF_COST)
    {
      MergeDiffers(table, nt, now, d);
    }
  }

  lemma ChangesDiffer(table: Table, nt: map<Id, Route>, now: Time)
    ensures MergeChanges(table, nt) <==> exists d :: Differs(table, Merge(table, nt, now), d)
  {
    if d :| Differs(table, Merge(table, nt, now), d) { MergeDiffers(table, nt, now, d); }
    if d :| d in nt && !(d in table && table[d].route == nt[d]) { MergeDiffers(table, nt, now, d); }
    if d :| d in table && d !in nt && table[d].route.cost < INF_COST { MergeDiffers(table, nt, now, d); }
  }

  lemma RecalculateMerges(node: Node, views: Views, nt: map<Id, Route>, now: Time)
    requires NewRoutes(node.self, views, Advertised(views), nt)
    ensures Merged(node, Recalculate(node.(views := views), nt, now), now)
  {
    assert forall d :: d in nt ==> BestRoute(node.self, views, Advertised(views), d, nt[d]);
    MergeMerges(node.table, nt, now);
    ChangesDiffer(node.table, nt, now);
  }

  lemma RefreshMerges(node: Node, views: Views, now: Time)
    ensures Merged(node, node.(views := views), now)
  {}

  lemma ExpiryMerges(node: Node, nt: map<Id, Route>, at: Time, now: Time)
    requires var views := ExpireViews(node.views, at); NewRoutes(node.self, views, Advertised(views), nt)
    ensures Merged(node, AfterExpiry(node, nt, at, now), now)
  {
    RefreshMerges(node, node.views, now);
    RecalculateMerges(node, ExpireViews(node.views, at), nt, now);
  }

  /** Before a tick sends anything, and after any other event. */
  lemma StepMerges(node: Node, ev: Event, clock: Time, now: Time, node': Node, sent: seq<Broadcast>) returns (mid: Node)
    requires NodeInv(node, clock) && clock <= now && NotSelf(node.self, ev) && Step(node, ev, now, node', sent)
    ensures Merged(node, mid, now) && NodeInv(mid, now) && ev.at <= now
    ensures if ev.Tick? then (node', sent) == SendAndCollect(mid, ev.at) else node' == mid && sent == []
  {
    var nt :| StepWith(node, ev, nt, now, node', sent);
    if ev.Tick? {
      mid := AfterExpiry(node, nt, ev.at, now);
      AfterExpiryKeepsInv(node, nt, clock, ev.at, now);
      ExpiryMerges(node, nt, ev.at, now);
    } else {
      mid := node';
      StepKeepsInv(node, ev, clock, now, node', sent);
      if ev.DataReceived? {
        RefreshMerges(node, ViewsAfter(node.views, ev), now);
      } else {
        RecalculateMerges(node, ViewsAfter(node.views, ev), nt, now);
      }
    }
  }

  /** What sending and collecting leaves of the table. */
  lemma SendKeeps(mid: Node, at: Time, d: Id)
    ensures var (node', sent) := SendAndCollect(mid, at);
            && (d in node'.table <==> d in mid.table && !Dead(mid.table[d], at))
            && (d in node'.table ==>
                  && node'.table[d].route == mid.table[d].route
                  && node'.table[d].lastUpdated == mid.table[d].lastUpdated
                  && (node'.table[d].dirty <==> mid.table[d].dirty && !TriggerDue(mid, at)))
  {}

  // ----- nothing is announced later than 100 ms after it has changed -----

  /** A message to all neighbours of the moment tells the state of d, poisoned for its next hop. */
  ghost predicate Announces(sent: seq<Broadcast>, node': Node, d: Id)
  {
    exists b :: b in sent && Tells(b, node', d)
  }

  ghost predicate Tells(b: Broadcast, node': Node, d: Id)
  {
    b.Keys == node'.views.Keys && forall n :: n in b ==> d in b[n] && b[n][d] == AdvertisedCost(node', d, n)
  }

  /** A dropped route and one through the neighbour itself are infinite. */
  function AdvertisedCost(node': Node, d: Id, n: Id): nat
  {
    if d !in node'.table || node'.table[d].route.hop == n then INF_COST else node'.table[d].route.cost
  }

  lemma AdvertisedIs(mid: Node, clock: Time, at: Time, d: Id, n: Id)
    requires NodeInv(mid, clock) && d in mid.table
    ensures AdvertisedCost(SendAndCollect(mid, at).0, d, n) == PoisonedCost(mid.table[d].route, n)
  {
    SendKeeps(mid, at, d);
  }

  lemma DueIsAnnounced(mid: Node, clock: Time, at: Time, d: Id)
    requires NodeInv(mid, clock) && d in mid.table && Due(mid.table[d]) && TriggerDue(mid, at)
    ensures var (node', sent) := SendAndCollect(mid, at); Announces(sent, node', d)
  {
    var (node', sent) := SendAndCollect(mid, at);
    var b := TriggeredBroadcast(mid)[0];
    assert sent[0] == b;
    forall n | n in b
      ensures d in b[n] && b[n][d] == AdvertisedCost(node', d, n)
    {
      AdvertisedIs(mid, clock, at, d, n);
    }
    assert Tells(b, node', d);
  }

  /** A change that is still to be announced, by the given time. */
  ghost predicate Owed(node: Node, d: Id, limit: Time)
  {
    d in node.table && node.table[d].dirty && node.triggerPending && node.triggerDeadline <= limit
  }

  lemma SendOwed(mid: Node, clock: Time, at: Time, d: Id, limit: Time)
    requires NodeInv(mid, clock) && Owed(mid, d, limit)
    ensures var (node', sent) := SendAndCollect(mid, at);
            Announces(sent, node', d) || (Owed(node', d, limit) && at < limit)
  {
    if TriggerDue(mid, at) {
      DueIsAnnounced(mid, clock, at, d);
    } else {
      SendKeeps(mid, at, d);
      if Dead(mid.table[d], at) { DeadRoutesAreSent(mid, clock, at, d); }
    }
  }

  lemma StepOwed(node: Node, ev: Event, clock: Time, now: Time, node': Node, sent: seq<Broadcast>, d: Id, limit: Time)
    requires NodeInv(node, clock) && clock <= now && NotSelf(node.self, ev) && Step(node, ev, now, node', sent)
    requires Owed(node, d, limit)
    ensures Announces(sent, node', d) || (Owed(node', d, limit) && (ev.Tick? ==> ev.at < limit))
  {
    var mid := StepMerges(node, ev, clock, now, node', sent);
    assert Owed(mid, d, limit);
    if ev.Tick? { SendOwed(mid, now, ev.at, d, limit); }
  }

  lemma StepChange(node: Node, ev: Event, clock: Time, now: Time, node': Node, sent: seq<Broadcast>, d: Id)
    requires NodeInv(node, clock) && clock <= now && NotSelf(node.self, ev) && Step(node, ev, now, node', sent)
    requires Differs(node.table, node'.table, d)
    ensures Announces(sent, node', d) || Owed(node', d, now + TRIGGER_DEBOUNCE)
  {
    var mid := StepMerges(node, ev, clock, now, node', sent);
    if ev.Tick? { SendKeeps(mid, ev.at, d); }
    assert Differs(node.table, mid.table, d);
    assert Owed(mid, d, now + TRIGGER_DEBOUNCE);
    if ev.Tick? { SendOwed(mid, now, ev.at, d, now + TRIGGER_DEBOUNCE); }
  }

  /** Step i changes the route to d. */
  predicate ChangedAt(tr: Trace, i: nat, d: Id)
    requires i + 1 < |tr.nodes|
  {
    Differs(tr.nodes[i].table, tr.nodes[i + 1].table, d)
  }

  ghost predicate AnnouncedAt(tr: Trace, i: nat, d: Id)
    requires i < |tr.sent| && i + 1 < |tr.nodes|
  {
    Announces(tr.sent[i], tr.nodes[i + 1], d)
  }

  lemma TraceOwed(tr: Trace, i: nat, d: Id, limit: Time)
    requires Begins(tr) && i < |tr.events| && Owed(tr.nodes[i], d, limit)
    ensures || AnnouncedAt(tr, i, d)
            || (Owed(tr.nodes[i + 1], d, limit) && (tr.events[i].Tick? ==> tr.events[i].at < limit))
  {
    BeginsInv(tr, i);
    assert StepAt(tr, i);
    StepOwed(tr.nodes[i], tr.events[i], tr.times[i], tr.times[i + 1], tr.nodes[i + 1], tr.sent[i], d, limit);
  }

  lemma TraceChange(tr: Trace, i: nat, d: Id)
    requires Begins(tr) && i < |tr.events| && ChangedAt(tr, i, d)
    ensures AnnouncedAt(tr, i, d) || Owed(tr.nodes[i + 1], d, tr.times[i + 1] + TRIGGER_DEBOUNCE)
  {
    BeginsInv(tr, i);
    assert StepAt(tr, i);
    StepChange(tr.nodes[i], tr.events[i], tr.times[i], tr.times[i + 1], tr.nodes[i + 1], tr.sent[i], d);
  }

  lemma {:induction false} OwedUntilAnnounced(tr: Trace, j: nat, i: nat, d: Id)
    requires Begins(tr) && j < i <= |tr.events| && ChangedAt(tr, j, d)
    ensures || (exists s :: j <= s < i && AnnouncedAt(tr, s, d))
            || Owed(tr.nodes[i], d, tr.times[j + 1] + TRIGGER_DEBOUNCE)
    decreases i
  {
    if i == j + 1 {
      TraceChange(tr, j, d);
    } else {
      OwedUntilAnnounced(tr, j, i - 1, d);
      if Owed(tr.nodes[i - 1], d, tr.times[j + 1] + TRIGGER_DEBOUNCE) {
        TraceOwed(tr, i - 1, d, tr.times[j + 1] + TRIGGER_DEBOUNCE);
      }
    }
  }

  /** Every change is announced to all neighbours at the latest by the first tick 100 ms or more after it. */
  lemma AnnouncedInTime(tr: Trace, j: nat, t: nat, d: Id)
    requires Begins(tr) && j < t < |tr.events| && ChangedAt(tr, j, d)
    requires tr.events[t].Tick? && tr.events[t].at >= tr.times[j + 1] + TRIGGER_DEBOUNCE
    ensures exists s :: j <= s <= t && AnnouncedAt(tr, s, d)
  {
    OwedUntilAnnounced(tr, j, t, d);
    if Owed(tr.nodes[t], d, tr.times[j + 1] + TRIGGER_DEBOUNCE) {
      TraceOwed(tr, t, d, tr.times[j + 1] + TRIGGER_DEBOUNCE);
    }
  }

  /** After every tick, what is still unsent has changed less than 100 ms before it. */
  lemma TickSends(node: Node, at: Time, clock: Time, now: Time, node': Node, sent: seq<Broadcast>, d: Id)
    requires NodeInv(node, clock) && clock <= now && Step(node, Tick(at), now, node', sent)
    requires d in node'.table && node'.table[d].dirty
    ensures at < node'.table[d].lastUpdated + TRIGGER_DEBOUNCE
  {
    var mid := StepMerges(node, Tick(at), clock, now, node', sent);
    SendKeeps(mid, at, d);
  }
}
