/**
 The converse of convergence: tables that hold the exact distances, with any next hops on shortest
 paths, are a state in which every view is current and every table follows from its views.
 */
module FixedPoint {
  import opened RouterModel
  import opened Convergence

  /** Close enough for a finite cost. */
  ghost predicate Near(g: Graph, u: Id, d: Id)
    requires IsGraph(g) && u in g
  {
    Within(g, u, d, INF_COST - 1)
  }

  ghost function Dist(g: Graph, u: Id, d: Id): (k: nat)
    requires IsGraph(g) && u in g && Near(g, u, d)
    ensures Distance(g, u, d, k) && k < INF_COST
  {
    DistanceUpTo(g, u, d, INF_COST - 1)
  }

  lemma DistIs(g: Graph, u: Id, d: Id, k: nat)
    requires IsGraph(g) && u in g && Distance(g, u, d, k) && k < INF_COST
    ensures Near(g, u, d) && Dist(g, u, d) == k
  {
    WithinMonotone(g, u, d, k, INF_COST - 1);
    DistanceIsUnique(g, u, d, k, Dist(g, u, d));
  }

  /** w is a neighbour of u on a shortest path to d. */
  ghost predicate OnShortestPath(g: Graph, u: Id, w: Id, d: Id)
    requires IsGraph(g) && u in g && Near(g, u, d)
  {
    w in g[u] && Dist(g, u, d) > 0 && Distance(g, w, d, Dist(g, u, d) - 1)
  }

  lemma ShortestPathExists(g: Graph, u: Id, d: Id)
    requires IsGraph(g) && u in g && Near(g, u, d) && u != d
    ensures exists w :: OnShortestPath(g, u, w, d)
  {
    var k := Dist(g, u, d);
    var w :| w in g[u] && Within(g, w, d, k - 1);
    CloserNeighbor(g, u, w, d, k);
    assert OnShortestPath(g, u, w, d);
  }

  /** Any choice of next hops on shortest paths. */
  ghost predicate GoodHops(g: Graph, hops: map<Id, map<Id, Id>>)
  {
    IsGraph(g) && forall u, d :: u in g && d in g && u != d && Near(g, u, d) ==>
      u in hops && d in hops[u] && OnShortestPath(g, u, hops[u][d], d)
  }

  ghost function ExactRoute(g: Graph, hops: map<Id, map<Id, Id>>, u: Id, d: Id): Route
    requires GoodHops(g, hops) && u in g && d in g && Near(g, u, d)
  {
    Route(if u == d then u else hops[u][d], Dist(g, u, d))
  }

  ghost function ExactTable(g: Graph, hops: map<Id, map<Id, Id>>, u: Id): Table
    requires GoodHops(g, hops) && u in g
  {
    map d | d in g && Near(g, u, d) :: RouteEntry(ExactRoute(g, hops, u, d), false, 0)
  }

  ghost function ExactViews(g: Graph, hops: map<Id, map<Id, Id>>, u: Id): Views
    requires GoodHops(g, hops) && u in g
  {
    map n | n in g[u] :: NeighborView(ApplyUpdate(map[], FullUpdate(ExactTable(g, hops, n), u)), 0)
  }

  ghost function ExactNetwork(g: Graph, hops: map<Id, map<Id, Id>>): Network
    requires GoodHops(g, hops)
  {
    map u | u in g :: Node(u, ExactTable(g, hops, u), ExactViews(g, hops, u), false, 0, 0)
  }

  // ----- offers are one more than a distance, and the one on the shortest path is made -----

  lemma OfferMeans(g: Graph, hops: map<Id, map<Id, Id>>, u: Id, n: Id, d: Id)
    requires GoodHops(g, hops) && u in g && n in g[u] && d in ExactViews(g, hops, u)[n].routes
    ensures d in g && Near(g, n, d) && ExactViews(g, hops, u)[n].routes[d] == Dist(g, n, d)
    ensures Within(g, u, d, Dist(g, n, d) + 1)
  {}

  lemma HopIsDirect(g: Graph, hops: map<Id, map<Id, Id>>, u: Id, d: Id)
    requires GoodHops(g, hops) && u in g && d in g[u]
    ensures Near(g, u, d) && Dist(g, u, d) == 1 && hops[u][d] == d
  {
    assert Within(g, d, d, 0);
    assert Distance(g, u, d, 1);
    DistIs(g, u, d, 1);
    assert OnShortestPath(g, u, hops[u][d], d);
  }

  lemma HopOffers(g: Graph, hops: map<Id, map<Id, Id>>, u: Id, d: Id)
    requires GoodHops(g, hops) && u in g && d in g && u != d && d !in g[u] && Near(g, u, d)
    ensures var w := hops[u][d];
            w in g[u] && d in ExactViews(g, hops, u)[w].routes
            && ExactViews(g, hops, u)[w].routes[d] + 1 == Dist(g, u, d)
  {
    var w, k := hops[u][d], Dist(g, u, d);
    assert OnShortestPath(g, u, w, d);
    DistIs(g, w, d, k - 1);
    assert w != d;
    assert OnShortestPath(g, w, hops[w][d], d);
    if hops[w][d] == u { DistanceIsUnique(g, u, d, k - 2, k); }
  }

  lemma OfferIsNear(g: Graph, hops: map<Id, map<Id, Id>>, u: Id, n: Id, d: Id)
    requires GoodHops(g, hops) && u in g && n in g[u] && d in ExactViews(g, hops, u)[n].routes
    requires ExactViews(g, hops, u)[n].routes[d] + 1 < INF_COST
    ensures d in g && Near(g, u, d)
  {
    OfferMeans(g, hops, u, n, d);
    WithinMonotone(g, u, d, Dist(g, n, d) + 1, INF_COST - 1);
  }

  lemma NearIsOffered(g: Graph, hops: map<Id, map<Id, Id>>, u: Id, d: Id)
    requires GoodHops(g, hops) && u in g && d in g && Near(g, u, d) && d != u && d !in g[u]
    ensures Offered(ExactViews(g, hops, u), Advertised(ExactViews(g, hops, u)), d)
  {
    var views := ExactViews(g, hops, u);
    HopOffers(g, hops, u, d);
    assert (hops[u][d], d) in Advertised(views);
  }

  lemma ExactHasRoute(g: Graph, hops: map<Id, map<Id, Id>>, u: Id, d: Id)
    requires GoodHops(g, hops) && u in g
    ensures var views := ExactViews(g, hops, u);
            HasRoute(u, views, Advertised(views), d) <==> d in g && Near(g, u, d)
  {
    var views := ExactViews(g, hops, u);
    if d in g[u] {
      HopIsDirect(g, hops, u, d);
    } else if Offered(views, Advertised(views), d) {
      var n :| n in views && d in views[n].routes && views[n].routes[d] + 1 < INF_COST;
      OfferIsNear(g, hops, u, n, d);
    } else if d in g && Near(g, u, d) && d != u {
      NearIsOffered(g, hops, u, d);
    }
  }

  lemma ExactIsBest(g: Graph, hops: map<Id, map<Id, Id>>, u: Id, d: Id)
    requires GoodHops(g, hops) && u in g && d in g && Near(g, u, d)
    ensures var views := ExactViews(g, hops, u); BestRoute(u, views, Advertised(views), d, ExactRoute(g, hops, u, d))
  {
    var views, k := ExactViews(g, hops, u), Dist(g, u, d);
    if d in g[u] {
      HopIsDirect(g, hops, u, d);
    } else if d != u {
      HopOffers(g, hops, u, d);
      assert (hops[u][d], d) in Advertised(views);
      forall n | n in views && d in views[n].routes
        ensures k <= views[n].routes[d] + 1
      {
        OfferMeans(g, hops, u, n, d);
        AtMost(g, u, d, k, Dist(g, n, d) + 1);
      }
    } else {
      AtMost(g, u, d, k, 0);
    }
  }

  lemma ExactMatches(g: Graph, hops: map<Id, map<Id, Id>>, u: Id)
    requires GoodHops(g, hops) && u in g
    ensures TableMatches(u, ExactViews(g, hops, u), ExactTable(g, hops, u))
  {
    var views, table := ExactViews(g, hops, u), ExactTable(g, hops, u);
    forall d
      ensures HasRoute(u, views, Advertised(views), d) <==> d in table && table[d].route.cost < INF_COST
    {
      ExactHasRoute(g, hops, u, d);
    }
    forall d | d in table
      ensures BestRoute(u, views, Advertised(views), d, table[d].route)
    {
      ExactIsBest(g, hops, u, d);
    }
  }

  lemma ExactNodeOk(g: Graph, hops: map<Id, map<Id, Id>>, u: Id)
    requires GoodHops(g, hops) && u in g
    ensures NodeOk(g, ExactNetwork(g, hops), u)
  {
    ExactMatches(g, hops, u);
    var node := ExactNetwork(g, hops)[u];
    assert node.views == ExactViews(g, hops, u) && node.table == ExactTable(g, hops, u) && node.views.Keys == g[u];
  }

  lemma ExactIsCurrent(g: Graph, hops: map<Id, map<Id, Id>>, u: Id, n: Id)
    requires GoodHops(g, hops) && u in g && n in g[u]
    ensures Current(ExactNetwork(g, hops), u, n)
  {
    assert n in g;
    var net := ExactNetwork(g, hops);
    assert net[u].views == ExactViews(g, hops, u) && net[n].table == ExactTable(g, hops, n);
  }

  /** For every graph and every choice of next hops on shortest paths, the exact tables are converged. */
  lemma ExactIsConverged(g: Graph, hops: map<Id, map<Id, Id>>)
    requires GoodHops(g, hops)
    ensures Converged(g, ExactNetwork(g, hops))
  {
    var net := ExactNetwork(g, hops);
    forall u | u in g
      ensures NodeOk(g, net, u)
    {
      ExactNodeOk(g, hops, u);
    }
    forall u, n | u in g && n in g[u]
      ensures Current(net, u, n)
    {
      ExactIsCurrent(g, hops, u, n);
    }
  }

  ghost function SomeHop(g: Graph, u: Id, d: Id): Id
    requires IsGraph(g) && u in g
  {
    if u != d && Near(g, u, d) then
      ShortestPathExists(g, u, d);
      var w :| OnShortestPath(g, u, w, d);
      w
    else u
  }

  /** Every graph has such next hops, so every graph has a converged network. */
  lemma ConvergedExists(g: Graph) returns (net: Network)
    requires IsGraph(g)
    ensures Converged(g, net) && net.Keys == g.Keys
  {
    var hops := map u | u in g :: map d | d in g :: SomeHop(g, u, d);
    assert GoodHops(g, hops);
    ExactIsConverged(g, hops);
    net := ExactNetwork(g, hops);
  }
}
