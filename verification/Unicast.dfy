/** The journey of one addressed packet through a converged network. */
module Unicast {
  import opened RouterModel
  import opened Convergence
  import opened MeshRuns
  import opened AsyncConvergence
  import opened DataPlane

  type SeenKeys = map<Id, set<Key>>

  /** Handling at the node where the packet is: sent by itself, or received from `src`. */
  ghost function At(net: Network, seen: SeenKeys, u: Id, src: Id, p: Packet): Outcome
    requires u in net && u in seen
  {
    if src == u then RoutePacket(net[u], seen[u], u, p) else HandlePacket(net[u], seen[u], src, p)
  }

  /** No node has seen a packet with this id that agrees in whether it expects a response. */
  ghost predicate Unseen(net: Network, seen: SeenKeys, p: Packet)
  {
    forall w :: w in net && w in seen ==> (p.id, p.expectResponse) !in seen[w]
  }

  /** The nodes that a packet visits, those where the callback runs, and what all nodes have seen afterwards. */
  datatype Trip = Trip(visited: seq<Id>, delivered: seq<Id>, seen: SeenKeys)

  ghost function Journey(net: Network, seen: SeenKeys, u: Id, src: Id, p: Packet): (trip: Trip)
    requires net.Keys <= seen.Keys && u in net && p.ttl >= 1
    ensures |trip.visited| >= 1 && trip.visited[0] == u && trip.seen.Keys == seen.Keys
    decreases p.ttl
  {
    var out, n := At(net, seen, u, src, p), HopAt(net, u, p.dest);
    var here := if out.delivered then [u] else [];
    if p.dest != BROADCAST && n in out.forwards && n in net then
      assert out.forwards[n].ttl == p.ttl - 1;
      var rest := Journey(net, seen[u := out.seen], n, u, out.forwards[n]);
      Trip([u] + rest.visited, here + rest.delivered, rest.seen)
    else Trip([u], here, seen[u := out.seen])
  }

  /** At u, following the next hop towards d lowers the cost by one. */
  ghost predicate DownhillAt(g: Graph, net: Network, d: Id, u: Id)
    requires u in g
  {
    && u in net && net[u].self == u
    && (CostAt(net, u, d) == 0 <==> u == d)
    && (0 < CostAt(net, u, d) < INF_COST ==>
          HopAt(net, u, d) in g && CostAt(net, HopAt(net, u, d), d) == CostAt(net, u, d) - 1)
  }

  ghost predicate Downhill(g: Graph, net: Network, d: Id)
  {
    net.Keys == g.Keys && forall u {:trigger DownhillAt(g, net, d, u)} :: u in g ==> DownhillAt(g, net, d, u)
  }

  lemma ConvergedIsDownhill(g: Graph, net: Network, d: Id)
    requires Converged(g, net) && net.Keys == g.Keys
    ensures Downhill(g, net, d)
  {
    forall u | u in g
      ensures DownhillAt(g, net, d, u)
    {
      assert NodeOk(g, net, u);
      NearCostsHold(g, net, u, d);
      if 0 < CostAt(net, u, d) < INF_COST { ConvergedHopsDecrease(g, net, u, d); }
    }
  }

  lemma DownhillAfterFifteenRounds(g: Graph, states: seq<Mesh>, marks: seq<nat>, t: nat, d: Id, u: Id)
    requires AfterFifteenRounds(g, states, marks, t) && u in g
    ensures DownhillAt(g, states[t].nodes, d, u)
  {
    var net := states[t].nodes;
    GoodAfterFifteenRounds(g, states, marks, t, u);
    NearCostsHold(g, net, u, d);
    var k, n := CostAt(net, u, d), HopAt(net, u, d);
    if 0 < k < INF_COST {
      assert n in g && CostAt(net, n, d) == k - 1 by {
        HopsAreCloserAfterFifteenRounds(g, states, marks, t, u, d, k);
        ConvergesInFifteenRounds(g, states, marks, t, n, d, k - 1);
      }
    }
  }

  /** At every moment after 15 rounds of an asynchronous run. */
  lemma FifteenRoundsAreDownhill(g: Graph, states: seq<Mesh>, marks: seq<nat>, t: nat, d: Id)
    requires AfterFifteenRounds(g, states, marks, t) && states[t].nodes.Keys == g.Keys
    ensures Downhill(g, states[t].nodes, d)
  {
    forall u | u in g
      ensures DownhillAt(g, states[t].nodes, d, u)
    {
      DownhillAfterFifteenRounds(g, states, marks, t, d, u);
    }
  }

  /** No node at cost c or less has seen the packet. */
  ghost predicate FreshBelow(net: Network, seen: SeenKeys, p: Packet, c: nat)
  {
    forall w {:trigger FreshAt(net, seen, p, c, w)} :: w in net ==> FreshAt(net, seen, p, c, w)
  }

  ghost predicate FreshAt(net: Network, seen: SeenKeys, p: Packet, c: nat, w: Id)
  {
    w in seen && CostAt(net, w, p.dest) <= c ==> (p.id, p.expectResponse) !in seen[w]
  }

  /** The packet is at u, cost c from its destination, and came from one step farther away. */
  ghost predicate OnItsWay(net: Network, seen: SeenKeys, u: Id, src: Id, p: Packet, c: nat)
  {
    && net.Keys <= seen.Keys && u in net && p.ttl >= 1
    && p.dest != BROADCAST && CostAt(net, u, p.dest) == c < INF_COST
    && FreshBelow(net, seen, p, c)
    && (src == u ==> p.origin == u)
    && (src != u ==> CostAt(net, src, p.dest) == c + 1 && CostAt(net, p.origin, p.dest) > c)
  }

  /** A fresh packet for somewhere else goes to the one next hop, if it has TTL left. */
  lemma FreshIsForwarded(net: Network, seen: SeenKeys, u: Id, src: Id, p: Packet)
    requires u in net && u in seen && net[u].self == u && p.dest != BROADCAST && p.dest != u && p.ttl >= 1
    requires KeyOf(p) !in seen[u] && CostAt(net, u, p.dest) < INF_COST
    requires HopAt(net, u, p.dest) != u && HopAt(net, u, p.dest) != src && (src == u <==> p.origin == u)
    ensures var n := HopAt(net, u, p.dest);
            At(net, seen, u, src, p)
            == Outcome(false, seen[u] + {KeyOf(p)}, if p.ttl >= 2 then map[n := p.(ttl := p.ttl - 1)] else map[])
  {
    assert NextHops(net[u], p.dest) == {HopAt(net, u, p.dest)};
  }

  /** What `OnItsWay` says about the node where the packet is. */
  lemma AtHand(g: Graph, net: Network, seen: SeenKeys, u: Id, src: Id, p: Packet, c: nat)
    requires Downhill(g, net, p.dest) && OnItsWay(net, seen, u, src, p, c)
    ensures u in net && u in seen && net[u].self == u && (c == 0 <==> u == p.dest)
    ensures KeyOf(p) !in seen[u] && (src == u <==> p.origin == u)
    ensures var n := HopAt(net, u, p.dest); c > 0 ==> n in net && CostAt(net, n, p.dest) == c - 1 && n != u && n != src
  {
    assert DownhillAt(g, net, p.dest, u) && FreshAt(net, seen, p, c, u);
  }

  /** Neither the dedup test nor the send-back test stops it; only the TTL can. */
  lemma ForwardsCloser(g: Graph, net: Network, seen: SeenKeys, u: Id, src: Id, p: Packet, c: nat)
    requires Downhill(g, net, p.dest) && OnItsWay(net, seen, u, src, p, c) && c > 0
    ensures var n, out := HopAt(net, u, p.dest), At(net, seen, u, src, p);
            && n in net && CostAt(net, n, p.dest) == c - 1 && (n in out.forwards <==> p.ttl >= 2)
            && (p.ttl >= 2 ==> out.forwards[n] == p.(ttl := p.ttl - 1))
            && !out.delivered && out.seen == seen[u] + {KeyOf(p)}
  {
    AtHand(g, net, seen, u, src, p, c);
    FreshIsForwarded(net, seen, u, src, p);
  }

  lemma FreshStays(net: Network, seen: SeenKeys, u: Id, p: Packet, c: nat)
    requires FreshBelow(net, seen, p, c) && c > 0 && p.ttl >= 1 && u in seen && CostAt(net, u, p.dest) == c
    ensures FreshBelow(net, seen[u := seen[u] + {KeyOf(p)}], p.(ttl := p.ttl - 1), c - 1)
  {
    var seen', p' := seen[u := seen[u] + {KeyOf(p)}], p.(ttl := p.ttl - 1);
    forall w | w in net
      ensures FreshAt(net, seen', p', c - 1, w)
    {
      assert FreshAt(net, seen, p, c, w);
    }
  }

  lemma StaysOnItsWay(g: Graph, net: Network, seen: SeenKeys, u: Id, src: Id, p: Packet, c: nat)
    requires Downhill(g, net, p.dest) && OnItsWay(net, seen, u, src, p, c) && c > 0 && p.ttl >= 2
    ensures var n, out := HopAt(net, u, p.dest), At(net, seen, u, src, p);
            OnItsWay(net, seen[u := out.seen], n, u, p.(ttl := p.ttl - 1), c - 1)
  {
    AtHand(g, net, seen, u, src, p, c);
    ForwardsCloser(g, net, seen, u, src, p, c);
    FreshStays(net, seen, u, p, c);
  }

  function Min(a: nat, b: nat): nat { if a <= b then a else b }

  /** The callback runs at the destination, unless the packet has never left it. */
  function DeliveredAt(p: Packet, sent: bool, c: nat): seq<Id>
  {
    if c < p.ttl && (c > 0 || sent) then [p.dest] else []
  }

  lemma JourneyEnds(g: Graph, net: Network, seen: SeenKeys, u: Id, src: Id, p: Packet, c: nat)
    requires Downhill(g, net, p.dest) && OnItsWay(net, seen, u, src, p, c) && (c == 0 || p.ttl == 1)
    ensures var trip := Journey(net, seen, u, src, p);
            trip.visited == [u] && trip.delivered == DeliveredAt(p, src != u, c)
  {
    AtHand(g, net, seen, u, src, p, c);
    if c > 0 { ForwardsCloser(g, net, seen, u, src, p, c); }
  }

  lemma JourneyUnfolds(net: Network, seen: SeenKeys, u: Id, src: Id, p: Packet, n: Id)
    requires net.Keys <= seen.Keys && u in net && p.ttl >= 2 && p.dest != BROADCAST
    requires n == HopAt(net, u, p.dest) && n in net
    requires var out := At(net, seen, u, src, p);
             !out.delivered && n in out.forwards && out.forwards[n] == p.(ttl := p.ttl - 1)
    ensures var rest := Journey(net, seen[u := At(net, seen, u, src, p).seen], n, u, p.(ttl := p.ttl - 1));
            Journey(net, seen, u, src, p) == Trip([u] + rest.visited, rest.delivered, rest.seen)
  {}

  /** Each node of the journey is one cost below the one before. */
  ghost predicate Descends(net: Network, visited: seq<Id>, d: Id, c: nat)
  {
    forall i :: 0 <= i < |visited| ==> visited[i] in net && CostAt(net, visited[i], d) == c - i
  }

  /** The trip of a packet at cost c, which somebody else has sent here or not. */
  ghost predicate GoodTrip(net: Network, trip: Trip, p: Packet, sent: bool, c: nat)
  {
    && p.ttl >= 1 && |trip.visited| == Min(c, p.ttl - 1) + 1 && Descends(net, trip.visited, p.dest, c)
    && trip.delivered == DeliveredAt(p, sent, c)
  }

  lemma OneStepMore(net: Network, u: Id, rest: Trip, p: Packet, sent: bool, c: nat)
    requires p.ttl >= 2 && c > 0 && u in net && CostAt(net, u, p.dest) == c
    requires GoodTrip(net, rest, p.(ttl := p.ttl - 1), true, c - 1)
    ensures GoodTrip(net, Trip([u] + rest.visited, rest.delivered, rest.seen), p, sent, c)
  {}

  lemma {:induction false} JourneyDescends(g: Graph, net: Network, seen: SeenKeys, u: Id, src: Id, p: Packet, c: nat)
    requires Downhill(g, net, p.dest) && OnItsWay(net, seen, u, src, p, c)
    ensures GoodTrip(net, Journey(net, seen, u, src, p), p, src != u, c)
    decreases c
  {
    if c > 0 && p.ttl >= 2 {
      var n, seen', p' := HopAt(net, u, p.dest), seen[u := At(net, seen, u, src, p).seen], p.(ttl := p.ttl - 1);
      ForwardsCloser(g, net, seen, u, src, p, c);
      assert n != u by { AtHand(g, net, seen, u, src, p, c); }
      StaysOnItsWay(g, net, seen, u, src, p, c);
      JourneyDescends(g, net, seen', n, u, p', c - 1);
      JourneyUnfolds(net, seen, u, src, p, n);
      OneStepMore(net, u, Journey(net, seen', n, u, p'), p, src != u, c);
    } else {
      JourneyEnds(g, net, seen, u, src, p, c);
    }
  }

  lemma DescentIsDistinct(g: Graph, net: Network, visited: seq<Id>, d: Id, c: nat)
    requires Downhill(g, net, d) && Descends(net, visited, d, c) && 0 < |visited| <= c + 1
    ensures forall i, j :: 0 <= i < j < |visited| ==> visited[i] != visited[j]
    ensures visited[|visited| - 1] == d <==> |visited| == c + 1
  {
    assert DownhillAt(g, net, d, visited[|visited| - 1]);
  }

  /**
   A fresh packet for a destination at table cost k visits distinct nodes, one cost lower each
   time, and reaches its destination in exactly k hops if and only if k is below the origin TTL.
   Then, and only then, the callback runs, once and at the destination; a packet to oneself has none.
   */
  lemma PacketArrivesIff(g: Graph, net: Network, seen: SeenKeys, p: Packet)
    requires Downhill(g, net, p.dest) && net.Keys <= seen.Keys && p.origin in net && p.ttl >= 1 && p.dest != BROADCAST
    requires CostAt(net, p.origin, p.dest) < INF_COST && Unseen(net, seen, p)
    ensures var trip, k := Journey(net, seen, p.origin, p.origin, p), CostAt(net, p.origin, p.dest);
            && (forall i, j :: 0 <= i < j < |trip.visited| ==> trip.visited[i] != trip.visited[j])
            && |trip.visited| == Min(k, p.ttl - 1) + 1
            && (trip.visited[|trip.visited| - 1] == p.dest <==> k <= p.ttl - 1)
            && trip.delivered == if 1 <= k <= p.ttl - 1 then [p.dest] else []
  {
    var k := CostAt(net, p.origin, p.dest);
    JourneyDescends(g, net, seen, p.origin, p.origin, p, k);
    DescentIsDistinct(g, net, Journey(net, seen, p.origin, p.origin, p).visited, p.dest, k);
  }

  // ----- request and response -----

  /** A journey leaves nothing behind but its own id and flag. */
  lemma {:induction false} JourneySeen(net: Network, seen: SeenKeys, u: Id, src: Id, p: Packet, w: Id)
    requires net.Keys <= seen.Keys && u in net && p.ttl >= 1 && w in seen
    ensures Journey(net, seen, u, src, p).seen[w] <= seen[w] + {(p.id, p.expectResponse)}
    decreases p.ttl
  {
    var out, n := At(net, seen, u, src, p), HopAt(net, u, p.dest);
    assert out.seen <= seen[u] + {(p.id, p.expectResponse)};
    if p.dest != BROADCAST && n in out.forwards && n in net {
      JourneySeen(net, seen[u := out.seen], n, u, out.forwards[n], w);
    }
  }

  lemma StaysUnseen(net: Network, seen: SeenKeys, p: Packet, q: Packet)
    requires net.Keys <= seen.Keys && p.origin in net && p.ttl >= 1 && Unseen(net, seen, q)
    requires p.id != q.id || p.expectResponse != q.expectResponse
    ensures Unseen(net, Journey(net, seen, p.origin, p.origin, p).seen, q)
  {
    forall w | w in net && w in seen
      ensures (q.id, q.expectResponse) !in Journey(net, seen, p.origin, p.origin, p).seen[w]
    {
      JourneySeen(net, seen, p.origin, p.origin, p, w);
    }
  }

  /** q answers p: from its destination to its origin, under the same id, and expecting no response. */
  predicate Answers(q: Packet, p: Packet)
  {
    p.expectResponse && q.id == p.id && q.origin == p.dest && q.dest == p.origin && !q.expectResponse
  }

  /**
   Whatever nodes the request went through, the response under the same id is not taken for a
   duplicate: it reaches the origin of the request in exactly its table cost of hops.
   */
  lemma ResponseReturns(g: Graph, net: Network, seen: SeenKeys, p: Packet, q: Packet)
    requires Downhill(g, net, p.origin) && net.Keys <= seen.Keys && Answers(q, p) && p.origin != BROADCAST
    requires p.origin in net && p.dest in net && p.ttl >= 1 && q.ttl >= 1 && Unseen(net, seen, q)
    requires CostAt(net, p.dest, p.origin) < INF_COST
    ensures var back := Journey(net, Journey(net, seen, p.origin, p.origin, p).seen, p.dest, p.dest, q);
            var k := CostAt(net, p.dest, p.origin);
            && |back.visited| == Min(k, q.ttl - 1) + 1
            && (back.visited[|back.visited| - 1] == p.origin <==> k <= q.ttl - 1)
            && back.delivered == if 1 <= k <= q.ttl - 1 then [p.origin] else []
  {
    StaysUnseen(net, seen, p, q);
    PacketArrivesIff(g, net, Journey(net, seen, p.origin, p.origin, p).seen, q);
  }

  /**
   In a converged network request and response take the same number of hops, and each is handed over
   exactly once, if and only if both TTLs are larger than that number.
   */
  lemma RoundTripIff(g: Graph, net: Network, seen: SeenKeys, p: Packet, q: Packet, k: nat)
    requires Converged(g, net) && net.Keys == g.Keys && net.Keys <= seen.Keys && Answers(q, p)
    requires p.origin != BROADCAST && p.dest != BROADCAST && p.origin in net && p.dest in net
    requires p.ttl >= 1 && q.ttl >= 1 && Unseen(net, seen, p) && Unseen(net, seen, q)
    requires 1 <= k < INF_COST && Distance(g, p.origin, p.dest, k)
    ensures var there := Journey(net, seen, p.origin, p.origin, p);
            var back := Journey(net, there.seen, p.dest, p.dest, q);
            there.delivered == [p.dest] && back.delivered == [p.origin] <==> k < p.ttl && k < q.ttl
  {
    DistanceSymmetric(g, p.origin, p.dest, k);
    ConvergedCostsAreDistances(g, net, p.origin, p.dest, k);
    ConvergedCostsAreDistances(g, net, p.dest, p.origin, k);
    ConvergedIsDownhill(g, net, p.dest);
    ConvergedIsDownhill(g, net, p.origin);
    PacketArrivesIff(g, net, seen, p);
    ResponseReturns(g, net, seen, p, q);
  }
}
