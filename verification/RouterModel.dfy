/**
 The distance-vector router of one node, as values and transitions: the routes that the
 neighbours' advertisements call for, merging them into the forwarding table, and the updates
 that are sent.  Which of several equally good next hops is taken depends on the iteration order
 of a hash map, so the recomputed routes are a relation and not a function.
 */
module RouterModel {
  import opened Clock

  type Id = string

  const INF_COST := 16
  const TRIGGER_DEBOUNCE := 100
  const ROUTE_TIMEOUT := 180_000
  const UPDATE_INTERVAL := 10_000
  const DEAD_ROUTE_TIME := 15_000

  datatype Route = Route(hop: Id, cost: nat)
  datatype RouteEntry = RouteEntry(route: Route, dirty: bool, lastUpdated: Time)
  datatype NeighborView = NeighborView(routes: map<Id, nat>, lastHeard: Time)

  type Costs = map<Id, nat>
  type Table = map<Id, RouteEntry>
  type Views = map<Id, NeighborView>
  type Pairs = set<(Id, Id)>

  datatype Node = Node(self: Id, table: Table, views: Views, triggerPending: bool, triggerDeadline: Time,
                       lastPeriodic: Time)

  // ----- the routes that the views call for -----

  /** All (neighbour, destination) pairs that are advertised. */
  ghost function Advertised(views: Views): Pairs
  {
    set n, d | n in views && d in views[n].routes :: (n, d)
  }

  /** Some neighbour among the given pairs offers d at a finite total cost. */
  ghost predicate Offered(views: Views, pairs: Pairs, d: Id)
  {
    exists n :: n in views && d in views[n].routes && (n, d) in pairs && views[n].routes[d] + 1 < INF_COST
  }

  ghost predicate HasRoute(self: Id, views: Views, pairs: Pairs, d: Id)
  {
    d == self || d in views || Offered(views, pairs, d)
  }

  /** Self at 0, a neighbour at 1 via itself, anything else at one more than the least offer. */
  ghost predicate BestRoute(self: Id, views: Views, pairs: Pairs, d: Id, r: Route)
  {
    if d == self then r == Route(self, 0)
    else if d in views then r == Route(d, 1)
    else
      && r.hop in views && d in views[r.hop].routes && (r.hop, d) in pairs
      && r.cost == views[r.hop].routes[d] + 1 && r.cost < INF_COST
      && forall n :: n in views && d in views[n].routes && (n, d) in pairs ==> r.cost <= views[n].routes[d] + 1
  }

  ghost predicate NewRoutes(self: Id, views: Views, pairs: Pairs, nt: map<Id, Route>)
  {
    && (forall d :: d in nt <==> HasRoute(self, views, pairs, d))
    && forall d :: d in nt ==> BestRoute(self, views, pairs, d, nt[d])
  }

  // ----- merging into the forwarding table -----

  function MergeEntry(table: Table, nt: map<Id, Route>, now: Time, d: Id): RouteEntry
    requires d in table || d in nt
  {
    if d in nt then
      if d in table && table[d].route == nt[d] then table[d] else RouteEntry(nt[d], true, now)
    else if table[d].route.cost < INF_COST then
      RouteEntry(Route(table[d].route.hop, INF_COST), true, now)
    else table[d]
  }

  function Merge(table: Table, nt: map<Id, Route>, now: Time): (t: Table)
    ensures t.Keys == table.Keys + nt.Keys
  {
    map d | d in table.Keys + nt.Keys :: MergeEntry(table, nt, now, d)
  }

  ghost predicate MergeChanges(table: Table, nt: map<Id, Route>)
  {
    (exists d :: d in nt && !(d in table && table[d].route == nt[d]))
    || (exists d :: d in table && d !in nt && table[d].route.cost < INF_COST)
  }

  ghost function Recalculate(node: Node, nt: map<Id, Route>, now: Time): Node
  {
    var changed := MergeChanges(node.table, nt) && !node.triggerPending;
    node.(table := Merge(node.table, nt, now),
          triggerPending := node.triggerPending || changed,
          triggerDeadline := if changed then now + TRIGGER_DEBOUNCE else node.triggerDeadline)
  }

  // ----- updates -----

  /** Poison reverse: a route through the neighbour itself is advertised to it as infinite. */
  function PoisonedCost(r: Route, neighbor: Id): nat
  {
    if r.hop == neighbor then INF_COST else r.cost
  }

  function FullUpdate(table: Table, neighbor: Id): Costs
  {
    map d | d in table :: PoisonedCost(table[d].route, neighbor)
  }

  predicate Due(e: RouteEntry) { e.dirty || e.route.cost >= INF_COST }

  function TriggeredUpdate(table: Table, neighbor: Id): Costs
  {
    map d | d in table && Due(table[d]) :: PoisonedCost(table[d].route, neighbor)
  }

  function ClearDirty(table: Table): Table
  {
    map d | d in table :: if Due(table[d]) then table[d].(dirty := false) else table[d]
  }

  /** A received update: infinite costs withdraw, finite ones replace. */
  function ApplyUpdate(routes: Costs, update: Costs): Costs
  {
    map d | d in routes.Keys + update.Keys && (d in update ==> update[d] < INF_COST) ::
      if d in update then update[d] else routes[d]
  }

  // ----- the invariants of a node -----

  /** The finite part of the table is what the views call for; the rest is at infinity. */
  ghost predicate TableMatches(self: Id, views: Views, table: Table)
  {
    && (forall d :: d in table ==> table[d].route.cost <= INF_COST)
    && (forall d :: HasRoute(self, views, Advertised(views), d) <==> d in table && table[d].route.cost < INF_COST)
    && forall d :: d in table && table[d].route.cost < INF_COST ==>
         BestRoute(self, views, Advertised(views), d, table[d].route)
  }

  ghost predicate ViewsFinite(views: Views)
  {
    forall n, d :: n in views && d in views[n].routes ==> views[n].routes[d] < INF_COST
  }

  /** Every unsent change has a trigger pending, due at most 100 ms after the change. */
  ghost predicate DirtyPending(node: Node, clock: Time)
  {
    && (node.triggerPending ==> node.triggerDeadline <= clock + TRIGGER_DEBOUNCE)
    && forall d :: d in node.table && node.table[d].dirty ==>
         node.triggerPending && node.triggerDeadline <= node.table[d].lastUpdated + TRIGGER_DEBOUNCE
  }

  ghost predicate Stamped(table: Table, clock: Time)
  {
    forall d :: d in table ==> table[d].lastUpdated <= clock
  }

  ghost predicate NodeInv(node: Node, clock: Time)
  {
    && node.self !in node.views && Stamped(node.table, clock)
    && ViewsFinite(node.views)
    && TableMatches(node.self, node.views, node.table)
    && DirtyPending(node, clock)
  }

  lemma MergeMatches(self: Id, views: Views, table: Table, nt: map<Id, Route>, now: Time)
    requires NewRoutes(self, views, Advertised(views), nt)
    requires forall d :: d in table ==> table[d].route.cost <= INF_COST
    ensures TableMatches(self, views, Merge(table, nt, now))
  {}

  /** The finite part of the table, which is itself a possible outcome of recomputing the routes. */
  function FiniteRoutes(table: Table): map<Id, Route>
  {
    map d | d in table && table[d].route.cost < INF_COST :: table[d].route
  }

  lemma FiniteRoutesAreNew(self: Id, views: Views, table: Table)
    requires TableMatches(self, views, table)
    ensures NewRoutes(self, views, Advertised(views), FiniteRoutes(table))
  {}

  lemma RecalculateKeepsInv(node: Node, nt: map<Id, Route>, clock: Time, now: Time)
    requires NewRoutes(node.self, node.views, Advertised(node.views), nt) && clock <= now
    requires node.self !in node.views && ViewsFinite(node.views)
    requires forall d :: d in node.table ==> node.table[d].route.cost <= INF_COST
    requires DirtyPending(node, clock) && Stamped(node.table, clock)
    ensures NodeInv(Recalculate(node, nt, now), now)
  {
    MergeMatches(node.self, node.views, node.table, nt, now);
    var node' := Recalculate(node, nt, now);
    forall d | d in node'.table && node'.table[d].dirty
      ensures node'.triggerPending && node'.triggerDeadline <= node'.table[d].lastUpdated + TRIGGER_DEBOUNCE
    {
      if !(d in node.table && node'.table[d] == node.table[d]) {
        assert MergeChanges(node.table, nt);
      }
    }
  }

  // ----- periodic maintenance -----

  /** One update for every current neighbour. */
  type Broadcast = map<Id, Costs>

  function ExpireViews(views: Views, now: Time): Views
  {
    map n | n in views && now - views[n].lastHeard <= ROUTE_TIMEOUT :: views[n]
  }

  /** Expiry is judged by the first clock reading of the tick; the recomputation takes another one. */
  ghost function AfterExpiry(node: Node, nt: map<Id, Route>, at: Time, now: Time): Node
  {
    var views := ExpireViews(node.views, at);
    if views.Keys != node.views.Keys then Recalculate(node.(views := views), nt, now) else node
  }

  predicate TriggerDue(node: Node, now: Time) { node.triggerPending && now >= node.triggerDeadline }

  function TriggeredBroadcast(node: Node): seq<Broadcast>
  {
    if exists d :: d in node.table && Due(node.table[d]) then
      [map n | n in node.views :: TriggeredUpdate(node.table, n)]
    else []
  }

  function AfterTrigger(node: Node, now: Time): Node
  {
    if TriggerDue(node, now) then node.(table := ClearDirty(node.table), triggerPending := false) else node
  }

  predicate FullDue(node: Node, now: Time) { now - node.lastPeriodic > UPDATE_INTERVAL }

  function FullBroadcast(node: Node): seq<Broadcast>
  {
    [map n | n in node.views :: FullUpdate(node.table, n)]
  }

  predicate Dead(e: RouteEntry, now: Time) { e.route.cost >= INF_COST && now - e.lastUpdated > DEAD_ROUTE_TIME }

  function CollectDead(table: Table, now: Time): Table
  {
    map d | d in table && !Dead(table[d], now) :: table[d]
  }

  /** Send what is due, then drop routes that have been dead for long. */
  function SendAndCollect(node: Node, now: Time): (Node, seq<Broadcast>)
  {
    var node' := AfterTrigger(node, now);
    var triggered := if TriggerDue(node, now) then TriggeredBroadcast(node) else [];
    var full := if FullDue(node, now) then FullBroadcast(node') else [];
    (node'.(lastPeriodic := if FullDue(node, now) then now else node.lastPeriodic,
            table := CollectDead(node'.table, now)),
     triggered + full)
  }

  /** Silent neighbours go first. */
  ghost function Maintain(node: Node, nt: map<Id, Route>, at: Time, now: Time): (Node, seq<Broadcast>)
  {
    SendAndCollect(AfterExpiry(node, nt, at, now), at)
  }

  // ----- events -----

  /** `at` is the first clock reading while the event is handled. */
  datatype Event =
    | Connected(peer: Id, at: Time)
    | Disconnected(peer: Id, at: Time)
    | UpdateReceived(peer: Id, costs: Costs, at: Time)
    | DataReceived(peer: Id, at: Time)
    | Tick(at: Time)

  function ViewOf(views: Views, peer: Id): Costs { if peer in views then views[peer].routes else map[] }

  /** The views after an event, before the routes are recomputed. */
  function ViewsAfter(views: Views, ev: Event): Views
  {
    match ev
    case Connected(peer, at) => views[peer := NeighborView(ViewOf(views, peer), at)]
    case Disconnected(peer, _) => views - {peer}
    case UpdateReceived(peer, costs, at) => views[peer := NeighborView(ApplyUpdate(ViewOf(views, peer), costs), at)]
    case DataReceived(peer, at) =>
      if peer in views then views[peer := NeighborView(views[peer].routes, at)] else views
    case Tick(at) => ExpireViews(views, at)
  }

  ghost predicate StepWith(node: Node, ev: Event, nt: map<Id, Route>, now: Time, node': Node, sent: seq<Broadcast>)
  {
    var views := ViewsAfter(node.views, ev);
    && ev.at <= now && NewRoutes(node.self, views, Advertised(views), nt)
    && match ev
       case Tick(at) => (node', sent) == Maintain(node, nt, at, now)
       case DataReceived(_, _) => node' == node.(views := views) && sent == []
       case _ => node' == Recalculate(node.(views := views), nt, now) && sent == []
  }

  /** One event of the router thread, with any tie-break among equally good next hops. */
  ghost predicate Step(node: Node, ev: Event, now: Time, node': Node, sent: seq<Broadcast>)
  {
    exists nt :: StepWith(node, ev, nt, now, node', sent)
  }

  ghost predicate NotSelf(self: Id, ev: Event)
  {
    !ev.Tick? ==> ev.peer != self
  }

  lemma RefreshKeepsMatch(self: Id, views: Views, peer: Id, now: Time, table: Table)
    requires peer in views && TableMatches(self, views, table)
    ensures TableMatches(self, views[peer := NeighborView(views[peer].routes, now)], table)
  {
    var views' := views[peer := NeighborView(views[peer].routes, now)];
    assert forall n :: n in views <==> n in views';
    assert forall n :: n in views ==> views'[n].routes == views[n].routes;
    assert Advertised(views') == Advertised(views);
    forall d
      ensures Offered(views', Advertised(views), d) <==> Offered(views, Advertised(views), d)
    {}
  }

  lemma AfterExpiryKeepsInv(node: Node, nt: map<Id, Route>, clock: Time, at: Time, now: Time)
    requires NodeInv(node, clock) && clock <= now
    requires var views := ExpireViews(node.views, at); NewRoutes(node.self, views, Advertised(views), nt)
    ensures NodeInv(AfterExpiry(node, nt, at, now), now)
  {
    var views := ExpireViews(node.views, at);
    if views.Keys != node.views.Keys {
      RecalculateKeepsInv(node.(views := views), nt, clock, now);
    }
  }

  lemma AfterTriggerKeepsInv(node: Node, at: Time, now: Time)
    requires NodeInv(node, now)
    ensures NodeInv(AfterTrigger(node, at), now)
  {}

  /** Dead routes are never collected while a change is still unsent. */
  lemma DeadRoutesAreSent(node: Node, clock: Time, now: Time, d: Id)
    requires NodeInv(node, clock) && d in node.table && Dead(node.table[d], now)
    ensures !AfterTrigger(node, now).table[d].dirty
    ensures node.table[d].dirty ==>
              TriggerDue(node, now) && |TriggeredBroadcast(node)| == 1
              && forall n :: n in node.views ==>
                   d in TriggeredBroadcast(node)[0][n] && TriggeredBroadcast(node)[0][n][d] == INF_COST
  {}

  lemma CollectDeadKeepsMatch(self: Id, views: Views, table: Table, now: Time)
    requires TableMatches(self, views, table)
    ensures TableMatches(self, views, CollectDead(table, now))
  {}

  lemma SendAndCollectKeepsInv(node: Node, at: Time, now: Time)
    requires NodeInv(node, now)
    ensures NodeInv(SendAndCollect(node, at).0, now)
  {
    AfterTriggerKeepsInv(node, at, now);
    var node' := AfterTrigger(node, at);
    CollectDeadKeepsMatch(node'.self, node'.views, node'.table, at);
  }

  lemma MaintainKeepsInv(node: Node, nt: map<Id, Route>, clock: Time, at: Time, now: Time)
    requires NodeInv(node, clock) && clock <= now
    requires var views := ExpireViews(node.views, at); NewRoutes(node.self, views, Advertised(views), nt)
    ensures NodeInv(Maintain(node, nt, at, now).0, now)
  {
    AfterExpiryKeepsInv(node, nt, clock, at, now);
    SendAndCollectKeepsInv(AfterExpiry(node, nt, at, now), at, now);
  }

  /** A router that has just been constructed. */
  function Initial(self: Id, now: Time): Node
  {
    Node(self, map[self := RouteEntry(Route(self, 0), false, now)], map[], false, now, now)
  }

  lemma InitialInv(self: Id, now: Time)
    ensures NodeInv(Initial(self, now), now)
  {}

  lemma ViewsStayFinite(self: Id, views: Views, ev: Event)
    requires self !in views && ViewsFinite(views) && NotSelf(self, ev)
    ensures self !in ViewsAfter(views, ev) && ViewsFinite(ViewsAfter(views, ev))
  {}

  lemma ControlStepKeepsInv(node: Node, ev: Event, nt: map<Id, Route>, clock: Time, now: Time)
    requires NodeInv(node, clock) && clock <= now && NotSelf(node.self, ev)
    requires var views := ViewsAfter(node.views, ev); NewRoutes(node.self, views, Advertised(views), nt)
    ensures NodeInv(Recalculate(node.(views := ViewsAfter(node.views, ev)), nt, now), now)
  {
    ViewsStayFinite(node.self, node.views, ev);
    RecalculateKeepsInv(node.(views := ViewsAfter(node.views, ev)), nt, clock, now);
  }

  /** At every event boundary of every run the node invariant holds. */
  lemma StepKeepsInv(node: Node, ev: Event, clock: Time, now: Time, node': Node, sent: seq<Broadcast>)
    requires NodeInv(node, clock) && clock <= now && NotSelf(node.self, ev) && Step(node, ev, now, node', sent)
    ensures NodeInv(node', now) && node'.self == node.self
  {
    var nt :| StepWith(node, ev, nt, now, node', sent);
    if ev.Tick? {
      MaintainKeepsInv(node, nt, clock, ev.at, now);
    } else if ev.DataReceived? {
      ViewsStayFinite(node.self, node.views, ev);
      if ev.peer in node.views { RefreshKeepsMatch(node.self, node.views, ev.peer, ev.at, node.table); }
    } else {
      ControlStepKeepsInv(node, ev, nt, clock, now);
    }
  }
}
