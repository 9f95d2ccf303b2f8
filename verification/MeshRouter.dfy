/**
 The router object of a node.  Every event method is one `Step` of the model; iteration over hash
 maps takes the entries in an arbitrary order.
 */
module MeshRouter {
  import opened Clock
  import opened RouterModel
  import RouterTiming

  // ----- one advertised route at a time -----

  /** Takes an offered route over when it is the first or a cheaper one. */
  function Offer(self: Id, nt: map<Id, Route>, n: Id, d: Id, cost: nat): map<Id, Route>
  {
    if d == self || cost + 1 >= INF_COST then nt
    else if d !in nt || cost + 1 < nt[d].cost then nt[d := Route(n, cost + 1)]
    else nt
  }

  lemma OfferKeepsBest(self: Id, views: Views, pairs: Pairs, nt: map<Id, Route>, n: Id, d: Id)
    requires self !in views && NewRoutes(self, views, pairs, nt) && n in views && d in views[n].routes
    ensures NewRoutes(self, views, pairs + {(n, d)}, Offer(self, nt, n, d, views[n].routes[d]))
  {
    var pairs', nt' := pairs + {(n, d)}, Offer(self, nt, n, d, views[n].routes[d]);
    forall e
      ensures e in nt' <==> HasRoute(self, views, pairs', e)
    {
      if Offered(views, pairs, e) {
        var w :| w in views && e in views[w].routes && (w, e) in pairs && views[w].routes[e] + 1 < INF_COST;
        assert (w, e) in pairs';
      }
      if Offered(views, pairs', e) && e != d {
        var w :| w in views && e in views[w].routes && (w, e) in pairs' && views[w].routes[e] + 1 < INF_COST;
        assert (w, e) in pairs;
      }
    }
    forall e | e in nt'
      ensures BestRoute(self, views, pairs', e, nt'[e])
    {
      assert e in nt ==> BestRoute(self, views, pairs, e, nt[e]);
      assert e !in nt ==> !Offered(views, pairs, e);
    }
  }

  lemma NeighborsOnly(self: Id, views: Views, nt: map<Id, Route>)
    requires self !in views && nt.Keys == {self} + views.Keys
    requires nt[self] == Route(self, 0) && forall n :: n in views ==> nt[n] == Route(n, 1)
    ensures NewRoutes(self, views, {}, nt)
  {}

  /** Clearing the flags first does not change what is sent. */
  lemma ClearedUpdate(table: Table, dests: set<Id>, n: Id)
    requires dests == set d | d in table && Due(table[d])
    ensures (map d | d in dests :: PoisonedCost(ClearDirty(table)[d].route, n)) == TriggeredUpdate(table, n)
  {}

  lemma ClearedBroadcast(node: Node, dests: set<Id>, b: Broadcast)
    requires dests != {} && dests == set d | d in node.table && Due(node.table[d])
    requires b.Keys == node.views.Keys && forall n :: n in b ==> b[n] == TriggeredUpdate(node.table, n)
    ensures [b] == TriggeredBroadcast(node)
  {
    var d :| d in dests;
    assert d in node.table && Due(node.table[d]);
    assert b == map n | n in node.views :: TriggeredUpdate(node.table, n);
  }

  class Router {
    const selfId: Id
    var table: Table
    var views: Views
    var triggerPending: bool
    var triggerDeadline: Time
    var lastPeriodic: Time
    /** The time of the last event. */
    ghost var clock: Time

    ghost function State(): Node
      reads this
    {
      Node(selfId, table, views, triggerPending, triggerDeadline, lastPeriodic)
    }

    ghost predicate Valid()
      reads this
    {
      NodeInv(State(), clock)
    }

    constructor (self: Id, now: Time)
      ensures Valid() && State() == Initial(self, now) && clock == now
    {
      selfId := self;
      table := map[self := RouteEntry(Route(self, 0), false, now)];
      views := map[];
      triggerPending, triggerDeadline, lastPeriodic := false, now, now;
      clock := now;
      new;
      InitialInv(self, now);
    }

    // ----- recomputing the routes -----

    method DirectRoutes() returns (nt: map<Id, Route>)
      requires selfId !in views
      ensures NewRoutes(selfId, views, {}, nt)
    {
      nt := map[selfId := Route(selfId, 0)];
      var todo := views.Keys;
      while todo != {}
        invariant todo <= views.Keys
        invariant nt.Keys == {selfId} + (views.Keys - todo) && nt[selfId] == Route(selfId, 0)
        invariant forall n :: n in views && n !in todo ==> nt[n] == Route(n, 1)
        decreases todo
      {
        var n :| n in todo;
        nt := nt[n := Route(n, 1)];
        todo := todo - {n};
      }
      NeighborsOnly(selfId, views, nt);
    }

    /** Offers everything that one neighbour advertises. */
    method OfferAll(n: Id, start: map<Id, Route>, ghost pairs: Pairs) returns (nt: map<Id, Route>)
      requires selfId !in views && n in views && NewRoutes(selfId, views, pairs, start)
      ensures NewRoutes(selfId, views, pairs + (set d | d in views[n].routes :: (n, d)), nt)
    {
      nt := start;
      var dests := views[n].routes.Keys;
      ghost var done: Pairs := {};
      while dests != {}
        invariant dests <= views[n].routes.Keys
        invariant done == set d | d in views[n].routes && d !in dests :: (n, d)
        invariant NewRoutes(selfId, views, pairs + done, nt)
        decreases dests
      {
        var d :| d in dests;
        OfferKeepsBest(selfId, views, pairs + done, nt, n, d);
        nt := Offer(selfId, nt, n, d, views[n].routes[d]);
        assert pairs + done + {(n, d)} == pairs + (done + {(n, d)});
        done := done + {(n, d)};
        dests := dests - {d};
      }
      assert done == set d | d in views[n].routes :: (n, d);
    }

    method ComputeRoutes() returns (nt: map<Id, Route>)
      requires selfId !in views
      ensures NewRoutes(selfId, views, Advertised(views), nt)
    {
      nt := DirectRoutes();
      var todo := views.Keys;
      ghost var done: Pairs := {};
      while todo != {}
        invariant todo <= views.Keys
        invariant done == set n, d | n in views && n !in todo && d in views[n].routes :: (n, d)
        invariant NewRoutes(selfId, views, done, nt)
        decreases todo
      {
        var n :| n in todo;
        nt := OfferAll(n, nt, done);
        done := done + set d | d in views[n].routes :: (n, d);
        todo := todo - {n};
      }
      assert done == Advertised(views);
    }

    // ----- merging -----

    /** New and changed routes. */
    method MergeNew(nt: map<Id, Route>, now: Time) returns (changed: bool)
      modifies this`table
      ensures table.Keys == old(table).Keys + nt.Keys
      ensures forall d :: d in nt ==> table[d] == MergeEntry(old(table), nt, now, d)
      ensures forall d :: d in old(table) && d !in nt ==> table[d] == old(table)[d]
      ensures changed <==> exists d :: d in nt && !(d in old(table) && old(table)[d].route == nt[d])
    {
      changed := false;
      ghost var table0 := table;
      var todo := nt.Keys;
      while todo != {}
        invariant todo <= nt.Keys
        invariant table.Keys == table0.Keys + (nt.Keys - todo)
        invariant forall d :: d in nt && d !in todo ==> table[d] == MergeEntry(table0, nt, now, d)
        invariant forall d :: d in table0 && (d !in nt || d in todo) ==> table[d] == table0[d]
        invariant changed <==> exists d :: d in nt && d !in todo && !(d in table0 && table0[d].route == nt[d])
        decreases todo
      {
        var d :| d in todo;
        todo := todo - {d};
        if d !in table || table[d].route != nt[d] {
          table := table[d := RouteEntry(nt[d], true, now)];
          changed := true;
        }
      }
    }

    /** Routes that are no longer offered go to infinity. */
    method MergeLost(nt: map<Id, Route>, now: Time) returns (changed: bool)
      modifies this`table
      ensures table.Keys == old(table).Keys
      ensures forall d :: d in table ==>
                table[d] == if d !in nt && old(table)[d].route.cost < INF_COST
                            then RouteEntry(Route(old(table)[d].route.hop, INF_COST), true, now) else old(table)[d]
      ensures changed <==> exists d :: d in table && d !in nt && old(table)[d].route.cost < INF_COST
    {
      changed := false;
      ghost var table0 := table;
      var todo := table.Keys;
      while todo != {}
        invariant todo <= table.Keys == table0.Keys
        invariant forall d :: d in table && d !in todo ==>
                    table[d] == if d !in nt && table0[d].route.cost < INF_COST
                                then RouteEntry(Route(table0[d].route.hop, INF_COST), true, now) else table0[d]
        invariant forall d :: d in todo ==> table[d] == table0[d]
        invariant changed <==> exists d :: d in table && d !in todo && d !in nt && table0[d].route.cost < INF_COST
        decreases todo
      {
        var d :| d in todo;
        todo := todo - {d};
        if d !in nt && table[d].route.cost < INF_COST {
          table := table[d := RouteEntry(Route(table[d].route.hop, INF_COST), true, now)];
          changed := true;
        }
      }
    }

    method MergeRoutes(nt: map<Id, Route>, now: Time) returns (changed: bool)
      modifies this`table
      ensures table == Merge(old(table), nt, now)
      ensures changed <==> MergeChanges(old(table), nt)
    {
      ghost var table0 := table;
      var isNew := MergeNew(nt, now);
      ghost var table1 := table;
      var isLost := MergeLost(nt, now);
      assert isLost <==> exists d :: d in table0 && d !in nt && table0[d].route.cost < INF_COST by {
        assert forall d :: d in table1 && d !in nt ==> d in table0 && table1[d] == table0[d];
      }
      forall d | d in table
        ensures table[d] == MergeEntry(table0, nt, now, d)
      {}
      changed := isNew || isLost;
    }

    method RecalculateForwardingTable(now: Time) returns (ghost nt: map<Id, Route>)
      requires selfId !in views
      modifies this`table, this`triggerPending, this`triggerDeadline
      ensures NewRoutes(selfId, views, Advertised(views), nt)
      ensures State() == Recalculate(old(State()), nt, now)
    {
      var routes := ComputeRoutes();
      nt := routes;
      ghost var table0 := table;
      var changed := MergeRoutes(routes, now);
      assert table == Merge(table0, nt, now);
      if changed && !triggerPending {
        triggerPending := true;
        triggerDeadline := now + TRIGGER_DEBOUNCE;
      }
    }

    // ----- peers and updates -----

    method PeerConnected(peer: Id, at: Time, now: Time)
      requires Valid() && clock <= at <= now && peer != selfId
      modifies this
      ensures Valid() && clock == now && Step(old(State()), Connected(peer, at), now, State(), [])
    {
      ghost var node := State();
      views := views[peer := NeighborView(ViewOf(views, peer), at)];
      ghost var nt := RecalculateForwardingTable(now);
      Finish(node, Connected(peer, at), nt, now);
    }

    method PeerDisconnected(peer: Id, now: Time)
      requires Valid() && clock <= now && peer != selfId
      modifies this
      ensures Valid() && clock == now && Step(old(State()), Disconnected(peer, now), now, State(), [])
    {
      ghost var node := State();
      views := views - {peer};
      ghost var nt := RecalculateForwardingTable(now);
      Finish(node, Disconnected(peer, now), nt, now);
    }

    /** Applies the entries of a received table one by one. */
    method ApplyCosts(routes: Costs, costs: Costs) returns (r: Costs)
      ensures r == ApplyUpdate(routes, costs)
    {
      r := routes;
      var todo := costs.Keys;
      while todo != {}
        invariant todo <= costs.Keys
        invariant forall d :: d in r <==> if d in costs && d !in todo then costs[d] < INF_COST else d in routes
        invariant forall d :: d in r ==> r[d] == if d in costs && d !in todo then costs[d] else routes[d]
        decreases todo
      {
        var d :| d in todo;
        todo := todo - {d};
        if costs[d] >= INF_COST {
          r := r - {d};
        } else {
          r := r[d := costs[d]];
        }
      }
    }

    method ProcessRoutingUpdate(peer: Id, costs: Costs, at: Time, now: Time)
      requires Valid() && clock <= at <= now && peer != selfId
      modifies this
      ensures Valid() && clock == now && Step(old(State()), UpdateReceived(peer, costs, at), now, State(), [])
    {
      ghost var node := State();
      var routes := ApplyCosts(ViewOf(views, peer), costs);
      views := views[peer := NeighborView(routes, at)];
      ghost var nt := RecalculateForwardingTable(now);
      Finish(node, UpdateReceived(peer, costs, at), nt, now);
    }

    /** Any packet from a known neighbour refreshes its timer. */
    method Heard(peer: Id, now: Time)
      requires Valid() && clock <= now && peer != selfId
      modifies this
      ensures Valid() && clock == now && Step(old(State()), DataReceived(peer, now), now, State(), [])
    {
      ghost var node := State();
      if peer in views {
        RefreshKeepsMatch(selfId, views, peer, now, table);
        views := views[peer := NeighborView(views[peer].routes, now)];
      }
      FiniteRoutesAreNew(selfId, views, table);
      Finish(node, DataReceived(peer, now), FiniteRoutes(table), now);
    }

    /** A control step ends with the invariant re-established at the new time. */
    ghost method Finish(node: Node, ev: Event, nt: map<Id, Route>, now: Time)
      requires NodeInv(node, clock) && clock <= now && node.self == selfId && NotSelf(selfId, ev)
      requires StepWith(node, ev, nt, now, State(), [])
      modifies this`clock
      ensures clock == now && Valid() && Step(node, ev, now, State(), [])
    {
      assert Step(node, ev, now, State(), []);
      StepKeepsInv(node, ev, clock, now, State(), []);
      clock := now;
    }

    // ----- periodic maintenance -----

    /** Drops neighbours that have been silent for too long. */
    method ExpireNeighbors(now: Time) returns (expired: bool)
      modifies this`views
      ensures views == ExpireViews(old(views), now)
      ensures forall n :: n in views <==> n in old(views) && now - old(views)[n].lastHeard <= ROUTE_TIMEOUT
      ensures expired <==> views.Keys != old(views).Keys
    {
      expired := false;
      ghost var views0 := views;
      var todo := views.Keys;
      while todo != {}
        invariant todo <= views.Keys <= views0.Keys
        invariant forall n :: n in views0 ==> (n in views <==> n in todo || now - views0[n].lastHeard <= ROUTE_TIMEOUT)
        invariant forall n :: n in views ==> views[n] == views0[n]
        invariant expired <==> exists n :: n in views0 && n !in views
        decreases todo
      {
        var n :| n in todo;
        todo := todo - {n};
        if now - views[n].lastHeard > ROUTE_TIMEOUT {
          views := views - {n};
          expired := true;
        }
      }
    }

    /** The update for one neighbour over the given destinations, with poison reverse. */
    method BuildUpdate(dests: set<Id>, neighbor: Id) returns (update: Costs)
      requires dests <= table.Keys
      ensures update == map d | d in dests :: PoisonedCost(table[d].route, neighbor)
    {
      update := map[];
      var todo := dests;
      while todo != {}
        invariant todo <= dests && update.Keys == dests - todo
        invariant forall d :: d in update ==> update[d] == PoisonedCost(table[d].route, neighbor)
        decreases todo
      {
        var d :| d in todo;
        var cost := table[d].route.cost;
        if table[d].route.hop == neighbor {
          cost := INF_COST;
        }
        update := update[d := cost];
        todo := todo - {d};
      }
    }

    method BuildBroadcast(dests: set<Id>) returns (b: Broadcast)
      requires dests <= table.Keys
      ensures b == map n | n in views :: map d | d in dests :: PoisonedCost(table[d].route, n)
    {
      b := map[];
      var todo := views.Keys;
      while todo != {}
        invariant todo <= views.Keys && b.Keys == views.Keys - todo
        invariant forall n :: n in b ==> b[n] == map d | d in dests :: PoisonedCost(table[d].route, n)
        decreases todo
      {
        var n :| n in todo;
        var update := BuildUpdate(dests, n);
        b := b[n := update];
        todo := todo - {n};
      }
    }

    /** The destinations to send, with their dirty flags cleared on the way. */
    method TakeDue() returns (dests: set<Id>)
      modifies this`table
      ensures dests == set d | d in old(table) && Due(old(table)[d])
      ensures table == ClearDirty(old(table))
    {
      dests := {};
      ghost var table0 := table;
      var todo := table.Keys;
      while todo != {}
        invariant todo <= table.Keys == table0.Keys
        invariant forall d :: d in dests <==> d in table0 && d !in todo && Due(table0[d])
        invariant forall d :: d in table0 ==>
                  table[d] == if d !in todo && Due(table0[d]) then table0[d].(dirty := false) else table0[d]
        decreases todo
      {
        var d :| d in todo;
        todo := todo - {d};
        if table[d].dirty || table[d].route.cost >= INF_COST {
          dests := dests + {d};
          table := table[d := table[d].(dirty := false)];
        }
      }
    }

    method SendTriggeredUpdates() returns (sent: seq<Broadcast>)
      modifies this`table
      ensures table == ClearDirty(old(table)) && sent == TriggeredBroadcast(old(State()))
    {
      ghost var node := State();
      var dests := TakeDue();
      if dests == {} {
        assert forall d :: d in node.table && Due(node.table[d]) ==> d in dests;
        return [];
      }
      var b := BuildBroadcast(dests);
      forall n | n in b
        ensures b[n] == TriggeredUpdate(node.table, n)
      {
        ClearedUpdate(node.table, dests, n);
      }
      ClearedBroadcast(node, dests, b);
      sent := [b];
    }

    method BroadcastFullTable() returns (sent: seq<Broadcast>)
      ensures sent == FullBroadcast(State())
    {
      var b := BuildBroadcast(table.Keys);
      forall n | n in views
        ensures b[n] == FullUpdate(table, n)
      {}
      assert b == map n | n in views :: FullUpdate(table, n);
      sent := [b];
    }

    method CollectDeadRoutes(now: Time)
      modifies this`table
      ensures table == CollectDead(old(table), now)
    {
      ghost var table0 := table;
      var todo := table.Keys;
      while todo != {}
        invariant todo <= table.Keys <= table0.Keys
        invariant forall d :: d in table0 ==> (d in table <==> d in todo || !Dead(table0[d], now))
        invariant forall d :: d in table ==> table[d] == table0[d]
        decreases todo
      {
        var d :| d in todo;
        todo := todo - {d};
        if table[d].route.cost >= INF_COST && now - table[d].lastUpdated > DEAD_ROUTE_TIME {
          table := table - {d};
        }
      }
    }

    method ExpireStep(at: Time, now: Time) returns (ghost nt: map<Id, Route>)
      requires Valid() && clock <= at <= now
      modifies this`views, this`table, this`triggerPending, this`triggerDeadline
      ensures var v := ExpireViews(old(views), at); NewRoutes(selfId, v, Advertised(v), nt)
      ensures State() == AfterExpiry(old(State()), nt, at, now)
    {
      ghost var node := State();
      var expired := ExpireNeighbors(at);
      if expired {
        nt := RecalculateForwardingTable(now);
      } else {
        assert views == node.views;
        nt := FiniteRoutes(table);
        FiniteRoutesAreNew(selfId, views, table);
      }
    }

    method SendDue(now: Time) returns (sent: seq<Broadcast>)
      modifies this`table, this`triggerPending, this`lastPeriodic
      ensures (State(), sent) == SendAndCollect(old(State()), now)
    {
      ghost var node := State();
      sent := [];
      if triggerPending && now >= triggerDeadline {
        sent := SendTriggeredUpdates();
        triggerPending := false;
      }
      assert State() == AfterTrigger(node, now);
      if now - lastPeriodic > UPDATE_INTERVAL {
        var full := BroadcastFullTable();
        sent := sent + full;
        lastPeriodic := now;
      }
      CollectDeadRoutes(now);
      assert sent + [] == sent && [] + sent == sent;
    }

    /** The tick reads the clock once for its own tests, and again when it recomputes the routes. */
    method RunPeriodicMaintenance(at: Time, now: Time) returns (sent: seq<Broadcast>)
      requires Valid() && clock <= at <= now
      modifies this
      ensures Valid() && clock == now && Step(old(State()), Tick(at), now, State(), sent)
      ensures forall d :: d in table && table[d].dirty ==> at < table[d].lastUpdated + TRIGGER_DEBOUNCE
    {
      ghost var node := State();
      ghost var nt := ExpireStep(at, now);
      sent := SendDue(at);
      assert StepWith(node, Tick(at), nt, now, State(), sent);
      StepKeepsInv(node, Tick(at), clock, now, State(), sent);
      forall d | d in table && table[d].dirty
        ensures at < table[d].lastUpdated + TRIGGER_DEBOUNCE
      {
        RouterTiming.TickSends(node, at, clock, now, State(), sent, d);
      }
      clock := now;
    }
  }
}
