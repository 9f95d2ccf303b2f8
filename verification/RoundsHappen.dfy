/** Rounds are possible: from every state in which no neighbour has been silent for too long. */
module RoundsHappen {
  import opened Clock
  import opened RouterModel
  import opened MeshRouter
  import opened UpdateStream
  import opened Convergence
  import opened MeshRuns
  import opened AsyncConvergence

  // ----- the routes that an event calls for exist -----

  lemma {:induction false} RoutesExist(self: Id, views: Views, pairs: Pairs) returns (nt: map<Id, Route>)
    requires self !in views && forall q :: q in pairs ==> q.0 in views && q.1 in views[q.0].routes
    ensures NewRoutes(self, views, pairs, nt)
    decreases |pairs|
  {
    if pairs == {} {
      nt := map d | d in {self} + views.Keys :: if d == self then Route(self, 0) else Route(d, 1);
      NeighborsOnly(self, views, nt);
    } else {
      var q :| q in pairs;
      nt := RoutesExist(self, views, pairs - {q});
      OfferKeepsBest(self, views, pairs - {q}, nt, q.0, q.1);
      nt := Offer(self, nt, q.0, q.1, views[q.0].routes[q.1]);
      assert pairs - {q} + {(q.0, q.1)} == pairs;
    }
  }

  /** An update can be handled at any time. */
  lemma UpdateStep(node: Node, n: Id, costs: Costs, now: Time) returns (node': Node)
    requires node.self !in node.views && n in node.views
    ensures Step(node, UpdateReceived(n, costs, now), now, node', [])
    ensures node'.views[n].lastHeard == now && node'.lastPeriodic == node.lastPeriodic
    ensures forall m :: m in node.views && m != n ==> node'.views[m] == node.views[m]
  {
    var ev := UpdateReceived(n, costs, now);
    var views := ViewsAfter(node.views, ev);
    var nt := RoutesExist(node.self, views, Advertised(views));
    node' := Recalculate(node.(views := views), nt, now);
    assert StepWith(node, ev, nt, now, node', []);
  }

  /** No neighbour has been silent for too long. */
  predicate AllHeard(node: Node, now: Time)
  {
    forall n :: n in node.views ==> now - node.views[n].lastHeard <= ROUTE_TIMEOUT
  }

  /** A node that hears from all its neighbours can tick. */
  lemma TickStep(node: Node, clock: Time, now: Time) returns (node': Node, sent: seq<Broadcast>)
    requires NodeInv(node, clock) && AllHeard(node, now)
    ensures Step(node, Tick(now), now, node', sent) && node'.views == node.views
    ensures FullDue(node, now) ==> node'.lastPeriodic == now && sent != []
  {
    assert ExpireViews(node.views, now) == node.views;
    FiniteRoutesAreNew(node.self, node.views, node.table);
    node', sent := SendAndCollect(node, now).0, SendAndCollect(node, now).1;
    assert StepWith(node, Tick(now), FiniteRoutes(node.table), now, node', sent);
  }

  // ----- one step of the mesh -----

  /** Only node u has moved. */
  ghost predicate OthersStay(g: Graph, s: Mesh, s': Mesh, u: Id)
  {
    && s.nodes.Keys == s'.nodes.Keys && s.clocks.Keys == s'.clocks.Keys
    && (forall v :: v in s.nodes && v != u ==> s'.nodes[v] == s.nodes[v])
    && forall v :: v in s.clocks && v != u ==> s'.clocks[v] == s.clocks[v]
  }

  lemma TickMoves(g: Graph, s: Mesh, u: Id, now: Time, node': Node, sent: seq<Broadcast>, s': Mesh)
    requires u in g && u in s.nodes && u in s.clocks && u in s.log && s.clocks[u] <= now && FullDue(s.nodes[u], now)
    requires Step(s.nodes[u], Tick(now), now, node', sent) && node'.views.Keys == g[u]
    requires s' == Mesh(s.nodes[u := node'], s.clocks[u := now], s.log[u := s.log[u] + sent], s.got)
    ensures FullTick(g, s, s', u) && Next(g, s, s')
  {
    assert Moves(g, s, u, Tick(now), now, sent, s');
  }

  /** Only u has sent anything. */
  ghost predicate LogGrows(s: Mesh, s': Mesh, u: Id)
  {
    && u in s.log && s'.log.Keys == s.log.Keys && |s'.log[u]| > |s.log[u]|
    && forall v :: v in s.log && v != u ==> s'.log[v] == s.log[v]
  }

  lemma TickChanges(g: Graph, s: Mesh, u: Id, now: Time, node': Node, sent: seq<Broadcast>, s': Mesh)
    requires u in s.nodes && u in s.clocks && u in s.log && sent != []
    requires s' == Mesh(s.nodes[u := node'], s.clocks[u := now], s.log[u := s.log[u] + sent], s.got)
    ensures OthersStay(g, s, s', u) && LogGrows(s, s', u) && s'.nodes[u] == node' && s'.clocks[u] == now
  {}

  lemma TickMesh(g: Graph, s: Mesh, u: Id, now: Time) returns (s': Mesh)
    requires u in g && u in s.nodes && u in s.clocks && u in s.log && s.nodes[u].views.Keys == g[u]
    requires NodeInv(s.nodes[u], s.clocks[u]) && s.clocks[u] <= now
    requires AllHeard(s.nodes[u], now) && FullDue(s.nodes[u], now)
    ensures FullTick(g, s, s', u) && Next(g, s, s') && OthersStay(g, s, s', u)
    ensures s'.nodes[u].views == s.nodes[u].views && s'.nodes[u].lastPeriodic == now && s'.clocks[u] == now
    ensures s'.got == s.got && LogGrows(s, s', u)
  {
    var node', sent := TickStep(s.nodes[u], s.clocks[u], now);
    s' := Mesh(s.nodes[u := node'], s.clocks[u := now], s.log[u := s.log[u] + sent], s.got);
    assert FullTick(g, s, s', u) && Next(g, s, s') by { TickMoves(g, s, u, now, node', sent, s'); }
    TickChanges(g, s, u, now, node', sent, s');
  }

  /** u has handled one more message from n. */
  ghost predicate HeardOne(s: Mesh, s': Mesh, u: Id, n: Id, now: Time)
  {
    && u in s.nodes && u in s'.nodes && u in s.got && n in s.got[u] && u in s'.clocks
    && s'.log == s.log && s'.clocks[u] == now && s'.got == s.got[u := s.got[u][n := s.got[u][n] + 1]]
    && n in s'.nodes[u].views && s'.nodes[u].views[n].lastHeard == now
    && s'.nodes[u].lastPeriodic == s.nodes[u].lastPeriodic
    && forall m :: m in s.nodes[u].views && m != n ==>
         m in s'.nodes[u].views && s'.nodes[u].views[m] == s.nodes[u].views[m]
  }

  lemma HearMoves(g: Graph, s: Mesh, u: Id, ev: Event, now: Time, node': Node, s': Mesh)
    requires u in g && u in s.nodes && u in s.clocks && u in s.log && s.clocks[u] <= now && Allowed(g, s, u, ev)
    requires Step(s.nodes[u], ev, now, node', []) && node'.views.Keys == g[u]
    requires s' == Mesh(s.nodes[u := node'], s.clocks[u := now], s.log, GotAfter(s, u, ev))
    ensures Next(g, s, s')
  {
    assert s.log[u] + [] == s.log[u];
    assert s.log[u := s.log[u] + []] == s.log;
    assert Moves(g, s, u, ev, now, [], s');
  }

  lemma HearMesh(g: Graph, s: Mesh, u: Id, n: Id, now: Time) returns (s': Mesh)
    requires u in g && n in g[u] && u in s.nodes && s.nodes[u].views.Keys == g[u] && s.nodes[u].self !in g[u]
    requires u in s.clocks && s.clocks[u] <= now && u in s.log && n in s.log && u in s.got && n in s.got[u]
    requires s.got[u][n] < |s.log[n]| && u in s.log[n][s.got[u][n]]
    ensures Next(g, s, s') && OthersStay(g, s, s', u) && HeardOne(s, s', u, n, now)
  {
    var costs := s.log[n][s.got[u][n]][u];
    var node' := UpdateStep(s.nodes[u], n, costs, now);
    var ev := UpdateReceived(n, costs, now);
    UpdateFacts(s.nodes[u], n, costs, now, now, node', []);
    s' := Mesh(s.nodes[u := node'], s.clocks[u := now], s.log, GotAfter(s, u, ev));
    assert Next(g, s, s') by { HearMoves(g, s, u, ev, now, node', s'); }
  }

  // ----- longer runs -----

  function Last(states: seq<Mesh>): Mesh
    requires states != []
  {
    states[|states| - 1]
  }

  lemma Extend(g: Graph, states: seq<Mesh>, s': Mesh) returns (more: seq<Mesh>)
    requires IsRun(g, states) && Next(g, Last(states), s')
    ensures more == states + [s'] && IsRun(g, more) && MeshInv(g, s')
  {
    more := states + [s'];
    forall i: nat | i < |more|
      ensures Follows(g, more, i)
    {
      if i < |states| { assert Follows(g, states, i); }
    }
    RunKeepsInv(g, more, |states|);
  }

  // ----- everybody ticks -----

  /** u can send its full table at time now. */
  ghost predicate Ready(s: Mesh, u: Id, now: Time)
  {
    u in s.nodes && u in s.clocks && s.clocks[u] <= now && AllHeard(s.nodes[u], now) && FullDue(s.nodes[u], now)
  }

  ghost predicate Timely(g: Graph, s: Mesh, now: Time)
  {
    forall u {:trigger Ready(s, u, now)} :: u in g ==> Ready(s, u, now)
  }

  /** Since state e, n has sent a full table at step t. */
  ghost predicate SentAt(g: Graph, states: seq<Mesh>, e: nat, t: nat, n: Id)
  {
    && e <= t && t + 1 < |states| && FullTick(g, states[t], states[t + 1], n)
    && n in states[t + 1].log && n in Last(states).log && |states[t + 1].log[n]| <= |Last(states).log[n]|
  }

  ghost predicate Ticked(g: Graph, states: seq<Mesh>, e: nat, n: Id, now: Time)
  {
    && states != [] && n in Last(states).nodes && n in Last(states).clocks
    && Last(states).clocks[n] <= now && Last(states).nodes[n].lastPeriodic == now
    && exists t: nat :: SentAt(g, states, e, t, n)
  }

  /** u still has something to handle from n, or has just heard from it. */
  ghost predicate Fed(s: Mesh, u: Id, n: Id, now: Time)
  {
    && u in s.nodes && n in s.nodes[u].views && u in s.got && n in s.got[u] && n in s.log
    && (s.got[u][n] < |s.log[n]| || s.nodes[u].views[n].lastHeard == now)
  }

  /** Node n is the last one that has moved; the log is as before, or n has sent something. */
  ghost predicate Longer(g: Graph, states: seq<Mesh>, more: seq<Mesh>, n: Id)
  {
    && |states| > 0 && |more| == |states| + 1 && more[..|states|] == states && IsRun(g, more)
    && OthersStay(g, Last(states), Last(more), n)
    && (Last(more).log == Last(states).log || LogGrows(Last(states), Last(more), n))
  }

  lemma SentStays(g: Graph, states: seq<Mesh>, more: seq<Mesh>, e: nat, t: nat, n: Id, w: Id)
    requires SentAt(g, states, e, t, n) && Longer(g, states, more, w)
    ensures SentAt(g, more, e, t, n)
  {
    assert more[t] == more[..|states|][t] && more[t + 1] == more[..|states|][t + 1];
  }

  lemma TickedStays(g: Graph, states: seq<Mesh>, more: seq<Mesh>, e: nat, n: Id, w: Id, now: Time)
    requires Ticked(g, states, e, n, now) && Longer(g, states, more, w)
    requires n == w ==> w in Last(more).clocks && Last(more).clocks[w] <= now
                        && w in Last(more).nodes && Last(more).nodes[w].lastPeriodic == now
    ensures Ticked(g, more, e, n, now)
  {
    var t: nat :| SentAt(g, states, e, t, n);
    SentStays(g, states, more, e, t, n, w);
  }

  lemma TickOne(g: Graph, states: seq<Mesh>, e: nat, n: Id, now: Time) returns (more: seq<Mesh>)
    requires IsRun(g, states) && e < |states| && n in g && Ready(Last(states), n, now)
    ensures Longer(g, states, more, n) && Ticked(g, more, e, n, now) && LogGrows(Last(states), Last(more), n)
    ensures Last(more).got == Last(states).got
    ensures n in Last(states).nodes && n in Last(more).nodes && Last(more).nodes[n].views == Last(states).nodes[n].views
  {
    var s := Last(states);
    assert NodeShape(g, s, n) by { RunKeepsInv(g, states, |states| - 1); }
    var s' := TickMesh(g, s, n, now);
    more := Extend(g, states, s');
    assert SentAt(g, more, e, |states| - 1, n);
  }

  /** All neighbours of a node that has sent something have something to handle. */
  lemma SenderFeeds(g: Graph, states: seq<Mesh>, more: seq<Mesh>, n: Id, u: Id, now: Time)
    requires IsRun(g, states) && Longer(g, states, more, n) && LogGrows(Last(states), Last(more), n)
    requires Last(more).got == Last(states).got && u in g && n in g[u]
    ensures Fed(Last(more), u, n, now)
  {
    RunKeepsInv(g, states, |states| - 1);
    assert LinkShape(g, Last(states), u, n);
  }

  ghost predicate Started(g: Graph, states: seq<Mesh>, e: nat, todo: set<Id>, now: Time)
  {
    && IsRun(g, states) && e < |states|
    && (forall n {:trigger Ready(Last(states), n, now)} :: n in todo ==> n in g && Ready(Last(states), n, now))
    && (forall n {:trigger Ticked(g, states, e, n, now)} :: n in g && n !in todo ==> Ticked(g, states, e, n, now))
    && forall u, n {:trigger Fed(Last(states), u, n, now)} :: u in g && n in g[u] && n !in todo ==>
         Fed(Last(states), u, n, now)
  }

  lemma FedStays(g: Graph, states: seq<Mesh>, more: seq<Mesh>, u: Id, n: Id, w: Id, now: Time)
    requires Longer(g, states, more, w) && Fed(Last(states), u, n, now) && Last(more).got == Last(states).got
    requires w in Last(states).nodes && w in Last(more).nodes
             && Last(more).nodes[w].views == Last(states).nodes[w].views
    ensures Fed(Last(more), u, n, now)
  {}

  lemma StartedOne(g: Graph, states: seq<Mesh>, e: nat, todo: set<Id>, w: Id, now: Time) returns (more: seq<Mesh>)
    requires Started(g, states, e, todo, now) && w in todo
    ensures |more| == |states| + 1 && more[..|states|] == states && Started(g, more, e, todo - {w}, now)
  {
    assert Ready(Last(states), w, now);
    more := TickOne(g, states, e, w, now);
    forall n | n in todo - {w}
      ensures n in g && Ready(Last(more), n, now)
    {
      assert Ready(Last(states), n, now);
    }
    forall n | n in g && n !in todo - {w}
      ensures Ticked(g, more, e, n, now)
    {
      if n != w { TickedStays(g, states, more, e, n, w, now); }
    }
    forall u, n | u in g && n in g[u] && n !in todo - {w}
      ensures Fed(Last(more), u, n, now)
    {
      if n == w { SenderFeeds(g, states, more, n, u, now); } else { FedStays(g, states, more, u, n, w, now); }
    }
  }

  lemma {:induction false} EverybodyTicks(g: Graph, states: seq<Mesh>, e: nat, todo: set<Id>, now: Time)
    returns (more: seq<Mesh>)
    requires Started(g, states, e, todo, now)
    ensures |states| <= |more| && more[..|states|] == states && Started(g, more, e, {}, now)
    decreases |todo|
  {
    if todo == {} {
      more := states;
    } else {
      var w :| w in todo;
      var next := StartedOne(g, states, e, todo, w, now);
      more := EverybodyTicks(g, next, e, todo - {w}, now);
    }
  }

  // ----- everything is handled -----

  ghost predicate Done(s: Mesh, u: Id, n: Id)
  {
    u in s.got && n in s.got[u] && n in s.log && s.got[u][n] == |s.log[n]|
  }

  /** Everybody has ticked, and the links that are not in todo are empty. */
  ghost predicate Handling(g: Graph, states: seq<Mesh>, e: nat, todo: set<(Id, Id)>, now: Time)
  {
    && Started(g, states, e, {}, now)
    && forall u, n {:trigger Done(Last(states), u, n)} :: u in g && n in g[u] && (u, n) !in todo ==>
         Done(Last(states), u, n)
  }

  lemma CanHear(g: Graph, states: seq<Mesh>, u: Id, n: Id)
    requires IsRun(g, states) && u in g && n in g[u]
    ensures var s := Last(states);
            && u in s.nodes && s.nodes[u].views.Keys == g[u] && s.nodes[u].self !in g[u] && u in s.log
            && n in s.log && forall i :: 0 <= i < |s.log[n]| ==> u in s.log[n][i]
  {
    RunKeepsInv(g, states, |states| - 1);
    assert LinkShape(g, Last(states), u, n);
  }

  lemma HearOne(g: Graph, states: seq<Mesh>, e: nat, u: Id, n: Id, now: Time) returns (more: seq<Mesh>)
    requires Started(g, states, e, {}, now) && u in g && n in g[u]
    requires u in Last(states).got && n in Last(states).got[u] && n in Last(states).log
    requires Last(states).got[u][n] < |Last(states).log[n]|
    ensures Longer(g, states, more, u) && HeardOne(Last(states), Last(more), u, n, now)
  {
    var s := Last(states);
    CanHear(g, states, u, n);
    assert Ticked(g, states, e, u, now);
    var s' := HearMesh(g, s, u, n, now);
    more := Extend(g, states, s');
  }

  lemma FedHears(g: Graph, s: Mesh, s': Mesh, u: Id, n: Id, v: Id, m: Id, now: Time)
    requires OthersStay(g, s, s', u) && HeardOne(s, s', u, n, now) && Fed(s, v, m, now)
    ensures Fed(s', v, m, now)
  {}

  lemma TickedHears(g: Graph, states: seq<Mesh>, more: seq<Mesh>, e: nat, u: Id, n: Id, m: Id, now: Time)
    requires Ticked(g, states, e, m, now) && Longer(g, states, more, u)
    requires HeardOne(Last(states), Last(more), u, n, now)
    ensures Ticked(g, more, e, m, now)
  {
    TickedStays(g, states, more, e, m, u, now);
  }

  lemma StartedStays(g: Graph, states: seq<Mesh>, more: seq<Mesh>, e: nat, u: Id, n: Id, now: Time)
    requires Started(g, states, e, {}, now) && u in g && n in g[u]
    requires Longer(g, states, more, u) && HeardOne(Last(states), Last(more), u, n, now)
    ensures Started(g, more, e, {}, now)
  {
    forall m | m in g
      ensures Ticked(g, more, e, m, now)
    {
      assert Ticked(g, states, e, m, now);
      TickedHears(g, states, more, e, u, n, m, now);
    }
    forall v, m | v in g && m in g[v]
      ensures Fed(Last(more), v, m, now)
    {
      assert Fed(Last(states), v, m, now);
      FedHears(g, Last(states), Last(more), u, n, v, m, now);
    }
  }

  lemma {:induction false} HearLink(g: Graph, states: seq<Mesh>, e: nat, todo: set<(Id, Id)>, u: Id, n: Id, now: Time)
    returns (more: seq<Mesh>)
    requires Handling(g, states, e, todo, now) && u in g && n in g[u] && (u, n) in todo
    requires Fed(Last(states), u, n, now) && Last(states).got[u][n] <= |Last(states).log[n]|
    ensures |states| <= |more| && more[..|states|] == states && Handling(g, more, e, todo - {(u, n)}, now)
    decreases |Last(states).log[n]| - Last(states).got[u][n]
  {
    if Last(states).got[u][n] == |Last(states).log[n]| {
      more := states;
      assert Done(Last(states), u, n);
    } else {
      var next := HearOne(g, states, e, u, n, now);
      StartedStays(g, states, next, e, u, n, now);
      assert Fed(Last(next), u, n, now);
      forall v, m | v in g && m in g[v] && (v, m) !in todo
        ensures Done(Last(next), v, m)
      {
        assert Done(Last(states), v, m);
      }
      more := HearLink(g, next, e, todo, u, n, now);
    }
  }

  lemma {:induction false} EverythingIsHandled(g: Graph, states: seq<Mesh>, e: nat, todo: set<(Id, Id)>, now: Time)
    returns (more: seq<Mesh>)
    requires Handling(g, states, e, todo, now) && forall l :: l in todo ==> l.0 in g && l.1 in g[l.0]
    ensures |states| <= |more| && more[..|states|] == states && Handling(g, more, e, {}, now)
    decreases |todo|
  {
    if todo == {} {
      more := states;
    } else {
      var l :| l in todo;
      assert Fed(Last(states), l.0, l.1, now);
      assert LinkShape(g, Last(states), l.0, l.1) by { RunKeepsInv(g, states, |states| - 1); }
      var next := HearLink(g, states, e, todo, l.0, l.1, now);
      more := EverythingIsHandled(g, next, e, todo - {l}, now);
    }
  }

  // ----- rounds -----

  lemma HandledIsRound(g: Graph, states: seq<Mesh>, e: nat, now: Time)
    requires Handling(g, states, e, {}, now)
    ensures Round(g, states, e, |states| - 1)
  {
    forall u, n | u in g && n in g[u]
      ensures LinkRound(g, states, e, |states| - 1, u, n)
    {
      assert Done(Last(states), u, n);
      assert n in g && Ticked(g, states, e, n, now) by { RunKeepsInv(g, states, |states| - 1); }
      var t: nat :| SentAt(g, states, e, t, n);
      assert FullTableHandled(g, states, e, t, |states| - 1, u, n);
    }
  }

  lemma HandledIsTimely(g: Graph, states: seq<Mesh>, e: nat, now: Time)
    requires Handling(g, states, e, {}, now)
    ensures Timely(g, Last(states), now + UPDATE_INTERVAL + 1)
  {
    var s, next := Last(states), now + UPDATE_INTERVAL + 1;
    forall u | u in g
      ensures Ready(s, u, next)
    {
      assert Ticked(g, states, e, u, now);
      assert NodeShape(g, s, u) by { RunKeepsInv(g, states, |states| - 1); }
      forall n | n in s.nodes[u].views
        ensures s.nodes[u].views[n].lastHeard == now
      {
        assert Done(s, u, n) && Fed(s, u, n, now);
      }
    }
  }

  /** Every run that has come to a timely state can go on with a round, to another timely state. */
  lemma RoundHappens(g: Graph, states: seq<Mesh>, now: Time) returns (more: seq<Mesh>)
    requires IsRun(g, states) && Timely(g, Last(states), now)
    ensures |states| <= |more| && more[..|states|] == states && IsRun(g, more)
    ensures Round(g, more, |states| - 1, |more| - 1) && Timely(g, Last(more), now + UPDATE_INTERVAL + 1)
  {
    var e := |states| - 1;
    assert IsGraph(g) by { RunKeepsInv(g, states, e); }
    forall n | n in g.Keys
      ensures n in g && Ready(Last(states), n, now)
    {}
    var ticked := EverybodyTicks(g, states, e, g.Keys, now);
    var links := set u, n | u in g && n in g[u] :: (u, n);
    more := EverythingIsHandled(g, ticked, e, links, now);
    HandledIsRound(g, more, e, now);
    HandledIsTimely(g, more, e, now);
  }

  lemma RoundStays(g: Graph, states: seq<Mesh>, more: seq<Mesh>, e: nat, e': nat)
    requires Round(g, states, e, e') && |states| <= |more| && more[..|states|] == states
    ensures Round(g, more, e, e')
  {
    forall u, n | u in g && n in g[u]
      ensures LinkRound(g, more, e, e', u, n)
    {
      assert LinkRound(g, states, e, e', u, n);
      var t: nat :| FullTableHandled(g, states, e, t, e', u, n);
      assert more[t] == states[t] && more[t + 1] == states[t + 1] && more[e'] == states[e'];
      assert FullTableHandled(g, more, e, t, e', u, n);
    }
  }

  /** ... and with any number of rounds. */
  lemma {:induction false} RoundsHappen(g: Graph, states: seq<Mesh>, now: Time, k: nat)
    returns (more: seq<Mesh>, marks: seq<nat>)
    requires IsRun(g, states) && Timely(g, Last(states), now)
    ensures |states| <= |more| && more[..|states|] == states && IsRun(g, more)
    ensures |marks| == k + 1 && Rounds(g, more, marks) && marks[k] == |more| - 1
    ensures Timely(g, Last(more), now + k * (UPDATE_INTERVAL + 1))
    decreases k
  {
    if k == 0 {
      more, marks := states, [|states| - 1];
    } else {
      var before, marks0 := RoundsHappen(g, states, now, k - 1);
      more := RoundHappens(g, before, now + (k - 1) * (UPDATE_INTERVAL + 1));
      marks := marks0 + [|more| - 1];
      forall i | 0 <= i < |marks| - 1
        ensures Round(g, more, marks[i], marks[i + 1])
      {
        if i + 1 < |marks0| { RoundStays(g, before, more, marks0[i], marks0[i + 1]); }
      }
    }
  }

  // ----- a network that has just been connected -----

  /** Every node knows its neighbours, and nothing has been sent. */
  function FreshTable(u: Id, neighbors: set<Id>): Table
  {
    map d | d in {u} + neighbors :: RouteEntry(if d == u then Route(u, 0) else Route(d, 1), false, 0)
  }

  function FreshNode(u: Id, neighbors: set<Id>): Node
  {
    Node(u, FreshTable(u, neighbors), map n | n in neighbors :: NeighborView(map[], 0), false, 0, 0)
  }

  function FreshMesh(g: Graph): Mesh
  {
    Mesh(map u | u in g :: FreshNode(u, g[u]), map u | u in g :: 0, map u | u in g :: [],
         map u | u in g :: map n | n in g[u] :: 0)
  }

  lemma FreshNodeInv(u: Id, neighbors: set<Id>)
    requires u !in neighbors
    ensures NodeInv(FreshNode(u, neighbors), 0)
  {
    var node := FreshNode(u, neighbors);
    assert Advertised(node.views) == {};
    forall d
      ensures !Offered(node.views, {}, d)
    {}
  }

  lemma FreshShape(g: Graph, u: Id)
    requires IsGraph(g) && u in g
    ensures NodeShape(g, FreshMesh(g), u) && Ready(FreshMesh(g), u, UPDATE_INTERVAL + 1)
  {
    var s := FreshMesh(g);
    assert s.nodes[u] == FreshNode(u, g[u]) && s.nodes[u].views.Keys == g[u] && s.got[u].Keys == g[u];
    FreshNodeInv(u, g[u]);
  }

  lemma FreshAhead(g: Graph, u: Id, n: Id)
    requires u in g && n in g && n in g[u]
    ensures Ahead(FreshMesh(g), u, n) == map[]
  {
    var s := FreshMesh(g);
    assert s.log[n][s.got[u][n]..] == [];
    assert s.nodes[u].views[n].routes == map[];
  }

  lemma FreshLink(g: Graph, u: Id, n: Id)
    requires IsGraph(g) && u in g && n in g[u]
    ensures LinkShape(g, FreshMesh(g), u, n)
  {
    assert n in g;
    FreshAhead(g, u, n);
    FreshShape(g, u);
    FreshShape(g, n);
  }

  lemma FreshMeshInv(g: Graph)
    requires IsGraph(g)
    ensures MeshInv(g, FreshMesh(g)) && Timely(g, FreshMesh(g), UPDATE_INTERVAL + 1)
  {
    var s := FreshMesh(g);
    forall u | u in g
      ensures NodeShape(g, s, u) && Ready(s, u, UPDATE_INTERVAL + 1)
    {
      FreshShape(g, u);
    }
    forall u, n | u in g && n in g[u]
      ensures LinkShape(g, s, u, n)
    {
      FreshLink(g, u, n);
    }
  }

  /** Every network that has just been connected has a run of fifteen rounds, after which all costs are exact. */
  lemma EveryNetworkConverges(g: Graph) returns (states: seq<Mesh>, marks: seq<nat>)
    requires IsGraph(g)
    ensures states != [] && states[0] == FreshMesh(g) && AfterFifteenRounds(g, states, marks, |states| - 1)
    ensures forall u, d, k: nat :: u in g && k < INF_COST ==>
              (CostAt(Last(states).nodes, u, d) == k <==> Distance(g, u, d, k))
  {
    FreshMeshInv(g);
    var start := [FreshMesh(g)];
    assert forall i: nat :: i < |start| ==> Follows(g, start, i);
    states, marks := RoundsHappen(g, start, UPDATE_INTERVAL + 1, 15);
    assert states[0] == states[..1][0];
    forall u, d, k: nat | u in g && k < INF_COST
      ensures CostAt(Last(states).nodes, u, d) == k <==> Distance(g, u, d, k)
    {
      ConvergesInFifteenRounds(g, states, marks, |states| - 1, u, d, k);
    }
  }
}
