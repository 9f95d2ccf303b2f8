/**
 The network of routers on a static symmetric topology: which costs are right up to a given radius,
 how right views make right tables and right tables make right updates, and the states in which
 every view is current.
 */
module Convergence {
  import opened RouterModel

  /** Each node with its neighbours; links are symmetric. */
  type Graph = map<Id, set<Id>>

  ghost predicate IsGraph(g: Graph)
  {
    forall u, v :: u in g && v in g[u] ==> v != u && v in g && u in g[v]
  }

  /** d can be reached from u over at most n links. */
  ghost predicate Within(g: Graph, u: Id, d: Id, n: nat)
    requires IsGraph(g) && u in g
    decreases n
  {
    u == d || (n > 0 && exists w :: w in g[u] && Within(g, w, d, n - 1))
  }

  /** The hop distance from u to d is k. */
  ghost predicate Distance(g: Graph, u: Id, d: Id, k: nat)
    requires IsGraph(g) && u in g
  {
    Within(g, u, d, k) && (k > 0 ==> !Within(g, u, d, k - 1))
  }

  lemma {:induction false} WithinMonotone(g: Graph, u: Id, d: Id, n: nat, m: nat)
    requires IsGraph(g) && u in g && n <= m && Within(g, u, d, n)
    ensures Within(g, u, d, m)
    decreases n
  {
    if u != d {
      var w :| w in g[u] && Within(g, w, d, n - 1);
      WithinMonotone(g, w, d, n - 1, m - 1);
    }
  }

  ghost function DistanceUpTo(g: Graph, u: Id, d: Id, n: nat): (k: nat)
    requires IsGraph(g) && u in g && Within(g, u, d, n)
    ensures Distance(g, u, d, k) && k <= n
  {
    if n == 0 || !Within(g, u, d, n - 1) then n else DistanceUpTo(g, u, d, n - 1)
  }

  lemma DistanceIsUnique(g: Graph, u: Id, d: Id, k: nat, k': nat)
    requires IsGraph(g) && u in g && Distance(g, u, d, k) && Distance(g, u, d, k')
    ensures k == k'
  {
    if k < k' { WithinMonotone(g, u, d, k, k' - 1); }
    if k' < k { WithinMonotone(g, u, d, k', k - 1); }
  }

  lemma AtMost(g: Graph, u: Id, d: Id, k: nat, n: nat)
    requires IsGraph(g) && u in g && Distance(g, u, d, k) && Within(g, u, d, n)
    ensures k <= n
  {
    if n < k { WithinMonotone(g, u, d, n, k - 1); }
  }

  lemma CloserNeighbor(g: Graph, u: Id, n: Id, d: Id, k: nat)
    requires IsGraph(g) && u in g && n in g[u] && k > 0 && Distance(g, u, d, k) && Within(g, n, d, k - 1)
    ensures Distance(g, n, d, k - 1)
  {}

  /** One more link at the far end. */
  lemma {:induction false} WithinAppend(g: Graph, u: Id, w: Id, d: Id, n: nat)
    requires IsGraph(g) && u in g && w in g && d in g[w] && Within(g, u, w, n)
    ensures Within(g, u, d, n + 1)
    decreases n
  {
    if u == w {
      assert d in g[u] && Within(g, d, d, 0);
    } else {
      var v :| v in g[u] && Within(g, v, w, n - 1);
      WithinAppend(g, v, w, d, n - 1);
    }
  }

  lemma {:induction false} WithinSymmetric(g: Graph, u: Id, d: Id, n: nat)
    requires IsGraph(g) && u in g && d in g && Within(g, u, d, n)
    ensures Within(g, d, u, n)
    decreases n
  {
    if u != d {
      var w :| w in g[u] && Within(g, w, d, n - 1);
      WithinSymmetric(g, w, d, n - 1);
      WithinAppend(g, d, w, u, n - 1);
    }
  }

  lemma DistanceSymmetric(g: Graph, u: Id, d: Id, k: nat)
    requires IsGraph(g) && u in g && d in g && Distance(g, u, d, k)
    ensures Distance(g, d, u, k)
  {
    WithinSymmetric(g, u, d, k);
    if k > 0 && Within(g, d, u, k - 1) { WithinSymmetric(g, d, u, k - 1); }
  }

  // ----- the network -----

  type Network = map<Id, Node>

  /** The node knows its neighbours, and its table follows from its views. */
  ghost predicate NodeOk(g: Graph, net: Network, u: Id)
  {
    && IsGraph(g) && u in g && u in net && net[u].self == u && net[u].views.Keys == g[u]
    && TableMatches(u, net[u].views, net[u].table)
  }

  function CostAt(net: Network, u: Id, d: Id): nat
  {
    if u in net && d in net[u].table then net[u].table[d].route.cost else INF_COST
  }

  function HopAt(net: Network, u: Id, d: Id): Id
  {
    if u in net && d in net[u].table then net[u].table[d].route.hop else u
  }

  // ----- right up to a radius -----

  /** Finite costs of at most r that n advertises are lengths of real paths. */
  ghost predicate Real(g: Graph, n: Id, c: Costs, r: nat)
    requires IsGraph(g) && n in g
  {
    forall d :: d in c && c[d] <= r && c[d] < INF_COST ==> Within(g, n, d, c[d])
  }

  /** n, at distance k from d, is on a shortest path from u to d. */
  ghost predicate Needs(g: Graph, u: Id, n: Id, d: Id, k: nat)
    requires IsGraph(g) && u in g && n in g
  {
    Distance(g, n, d, k) && Distance(g, u, d, k + 1) && k + 1 < INF_COST
  }

  /** An update from n to u that is right up to radius r: it contradicts nothing that u needs. */
  ghost predicate GoodMessage(g: Graph, u: Id, n: Id, c: Costs, r: nat)
    requires IsGraph(g) && u in g && n in g
  {
    Real(g, n, c, r) && forall d, k: nat :: k <= r && Needs(g, u, n, d, k) && d in c ==> c[d] == k
  }

  /** A view that u has of n and that is right up to radius r: it holds everything that u needs. */
  ghost predicate GoodView(g: Graph, u: Id, n: Id, c: Costs, r: nat)
    requires IsGraph(g) && u in g && n in g
  {
    Real(g, n, c, r) && forall d, k: nat :: k <= r && Needs(g, u, n, d, k) ==> d in c && c[d] == k
  }

  ghost predicate ViewGoodAt(g: Graph, net: Network, u: Id, n: Id, r: nat)
    requires NodeOk(g, net, u) && n in g[u]
  {
    GoodView(g, u, n, net[u].views[n].routes, r)
  }

  /** All views of u are right below radius r. */
  ghost predicate ViewsGood(g: Graph, net: Network, u: Id, r: nat)
    requires NodeOk(g, net, u)
  {
    r > 0 ==> forall n :: n in g[u] ==> ViewGoodAt(g, net, u, n, r - 1)
  }

  lemma ApplyGood(g: Graph, u: Id, n: Id, view: Costs, update: Costs, r: nat)
    requires IsGraph(g) && u in g && n in g && GoodView(g, u, n, view, r) && GoodMessage(g, u, n, update, r)
    ensures GoodView(g, u, n, ApplyUpdate(view, update), r)
  {}

  // ----- right views make right tables -----

  /** Own and neighbouring destinations. */
  ghost predicate NearCosts(g: Graph, net: Network, u: Id, d: Id)
    requires u in g
  {
    && (d == u <==> CostAt(net, u, d) == 0)
    && (d in g[u] && d != u ==> CostAt(net, u, d) == 1 && HopAt(net, u, d) == d)
    && (d == u ==> HopAt(net, u, d) == u)
  }

  lemma NearCostsHold(g: Graph, net: Network, u: Id, d: Id)
    requires NodeOk(g, net, u)
    ensures NearCosts(g, net, u, d)
  {
    var node := net[u];
    assert d == u || d in g[u] ==> HasRoute(u, node.views, Advertised(node.views), d);
    if d in node.table && node.table[d].route.cost < INF_COST {
      assert BestRoute(u, node.views, Advertised(node.views), d, node.table[d].route);
    }
  }

  /** Any other finite cost is one more than what the next hop advertises. */
  lemma FarCost(g: Graph, net: Network, u: Id, d: Id)
    requires NodeOk(g, net, u) && d != u && d !in g[u] && CostAt(net, u, d) < INF_COST
    ensures var n := HopAt(net, u, d);
            n in g[u] && d in net[u].views[n].routes && net[u].views[n].routes[d] + 1 == CostAt(net, u, d)
  {
    assert BestRoute(u, net[u].views, Advertised(net[u].views), d, net[u].table[d].route);
  }

  lemma OfferIsTaken(g: Graph, net: Network, u: Id, n: Id, d: Id)
    requires NodeOk(g, net, u) && d != u && d !in g[u] && n in g[u] && d in net[u].views[n].routes
    requires net[u].views[n].routes[d] + 1 < INF_COST
    ensures CostAt(net, u, d) <= net[u].views[n].routes[d] + 1
  {
    var views := net[u].views;
    assert (n, d) in Advertised(views);
    assert Offered(views, Advertised(views), d);
    assert HasRoute(u, views, Advertised(views), d);
    assert BestRoute(u, views, Advertised(views), d, net[u].table[d].route);
  }

  /** A finite cost of at most r is the length of a real path. */
  lemma CostsAreReal(g: Graph, net: Network, u: Id, d: Id, r: nat)
    requires NodeOk(g, net, u) && ViewsGood(g, net, u, r) && CostAt(net, u, d) <= r && CostAt(net, u, d) < INF_COST
    ensures Within(g, u, d, CostAt(net, u, d))
  {
    NearCostsHold(g, net, u, d);
    if d in g[u] {
      assert Within(g, d, d, 0);
    } else if d != u {
      FarCost(g, net, u, d);
      assert ViewGoodAt(g, net, u, HopAt(net, u, d), r - 1);
    }
  }

  /** Every destination at most r links away is known at its distance or less. */
  lemma DistancesAreKnown(g: Graph, net: Network, u: Id, d: Id, k: nat, r: nat)
    requires NodeOk(g, net, u) && ViewsGood(g, net, u, r) && k <= r && k < INF_COST && Distance(g, u, d, k)
    ensures CostAt(net, u, d) <= k
  {
    NearCostsHold(g, net, u, d);
    if d != u && d !in g[u] {
      var n :| n in g[u] && Within(g, n, d, k - 1);
      CloserNeighbor(g, u, n, d, k);
      assert ViewGoodAt(g, net, u, n, r - 1) && Needs(g, u, n, d, k - 1);
      OfferIsTaken(g, net, u, n, d);
    }
  }

  /** Costs and distances up to r are the same. */
  lemma CostIsDistance(g: Graph, net: Network, u: Id, d: Id, k: nat, r: nat)
    requires NodeOk(g, net, u) && ViewsGood(g, net, u, r) && k <= r && k < INF_COST
    ensures CostAt(net, u, d) == k <==> Distance(g, u, d, k)
  {
    if Distance(g, u, d, k) {
      DistancesAreKnown(g, net, u, d, k, r);
      CostsAreReal(g, net, u, d, r);
      AtMost(g, u, d, k, CostAt(net, u, d));
    }
    if CostAt(net, u, d) == k {
      CostsAreReal(g, net, u, d, r);
      DistancesAreKnown(g, net, u, d, DistanceUpTo(g, u, d, k), r);
    }
  }

  /** The next hop is a neighbour one link closer. */
  lemma HopIsCloser(g: Graph, net: Network, u: Id, d: Id, k: nat, r: nat)
    requires NodeOk(g, net, u) && ViewsGood(g, net, u, r) && 0 < k <= r && CostAt(net, u, d) == k < INF_COST
    ensures HopAt(net, u, d) in g[u] && Distance(g, HopAt(net, u, d), d, k - 1)
  {
    NearCostsHold(g, net, u, d);
    var n := HopAt(net, u, d);
    if d in g[u] {
      assert Within(g, d, d, 0);
    } else {
      FarCost(g, net, u, d);
      assert ViewGoodAt(g, net, u, n, r - 1);
      CostIsDistance(g, net, u, d, k, r);
      CloserNeighbor(g, u, n, d, k);
    }
  }

  // ----- right tables make right updates -----

  /** The neighbour on a shortest path does not poison the route: its own next hop is not u. */
  lemma NotPoisoned(g: Graph, net: Network, u: Id, n: Id, d: Id, k: nat, r: nat)
    requires NodeOk(g, net, n) && ViewsGood(g, net, n, r) && u in g[n] && k <= r && Needs(g, u, n, d, k)
    ensures d in net[n].table && PoisonedCost(net[n].table[d].route, u) == k
  {
    CostIsDistance(g, net, n, d, k, r);
    NearCostsHold(g, net, n, d);
    if d != n && HopAt(net, n, d) == u {
      HopIsCloser(g, net, n, d, k, r);
      AtMost(g, u, d, k + 1, k - 1);
    }
  }

  /** An update that says nothing but what is in the table. */
  ghost predicate PartOf(update: Costs, table: Table, u: Id)
  {
    forall d :: d in update ==> d in table && update[d] == PoisonedCost(table[d].route, u)
  }

  lemma UpdateIsReal(g: Graph, net: Network, u: Id, n: Id, update: Costs, r: nat)
    requires NodeOk(g, net, n) && ViewsGood(g, net, n, r) && PartOf(update, net[n].table, u)
    ensures Real(g, n, update, r)
  {
    forall d | d in update && update[d] <= r && update[d] < INF_COST
      ensures Within(g, n, d, update[d])
    {
      CostsAreReal(g, net, n, d, r);
    }
  }

  lemma UpdateIsGood(g: Graph, net: Network, u: Id, n: Id, update: Costs, r: nat)
    requires NodeOk(g, net, n) && ViewsGood(g, net, n, r) && u in g[n] && PartOf(update, net[n].table, u)
    ensures GoodMessage(g, u, n, update, r)
  {
    UpdateIsReal(g, net, u, n, update, r);
    forall d, k: nat | k <= r && Needs(g, u, n, d, k) && d in update
      ensures update[d] == k
    {
      NotPoisoned(g, net, u, n, d, k, r);
    }
  }

  /** A full table makes the view right, if nothing else is left in it. */
  lemma FullTableIsGood(g: Graph, net: Network, u: Id, n: Id, view: Costs, r: nat)
    requires NodeOk(g, net, n) && ViewsGood(g, net, n, r) && u in g[n] && view.Keys <= net[n].table.Keys
    ensures GoodView(g, u, n, ApplyUpdate(view, FullUpdate(net[n].table, u)), r)
  {
    var view' := ApplyUpdate(view, FullUpdate(net[n].table, u));
    assert PartOf(view', net[n].table, u);
    UpdateIsReal(g, net, u, n, view', r);
    forall d, k: nat | k <= r && Needs(g, u, n, d, k)
      ensures d in view' && view'[d] == k
    {
      NotPoisoned(g, net, u, n, d, k, r);
    }
  }

  // ----- states in which every view is current -----

  /** u's view of n is exactly the finite part of what n would advertise to u now. */
  ghost predicate Current(net: Network, u: Id, n: Id)
  {
    && u in net && n in net && n in net[u].views
    && net[u].views[n].routes == ApplyUpdate(map[], FullUpdate(net[n].table, u))
  }

  ghost predicate Converged(g: Graph, net: Network)
  {
    && IsGraph(g) && (forall u :: u in g ==> NodeOk(g, net, u))
    && forall u, n :: u in g && n in g[u] ==> Current(net, u, n)
  }

  lemma {:induction false} ConvergedViewsGood(g: Graph, net: Network, u: Id, r: nat)
    requires Converged(g, net) && u in g && NodeOk(g, net, u)
    ensures ViewsGood(g, net, u, r)
    decreases r
  {
    if r > 0 {
      forall n | n in g[u]
        ensures ViewGoodAt(g, net, u, n, r - 1)
      {
        assert NodeOk(g, net, n) && Current(net, u, n);
        ConvergedViewsGood(g, net, n, r - 1);
        FullTableIsGood(g, net, u, n, map[], r - 1);
      }
    }
  }

  /** In a converged network a cost below 16 is the shortest hop count, and conversely. */
  lemma ConvergedCostsAreDistances(g: Graph, net: Network, u: Id, d: Id, k: nat)
    requires Converged(g, net) && u in g && k < INF_COST
    ensures CostAt(net, u, d) == k <==> Distance(g, u, d, k)
  {
    assert NodeOk(g, net, u);
    ConvergedViewsGood(g, net, u, k);
    CostIsDistance(g, net, u, d, k, k);
  }

  /** Following next hops strictly decreases the cost: no forwarding loop of any length. */
  lemma ConvergedHopsDecrease(g: Graph, net: Network, u: Id, d: Id)
    requires Converged(g, net) && u in g && 0 < CostAt(net, u, d) < INF_COST
    ensures HopAt(net, u, d) in g[u] && CostAt(net, HopAt(net, u, d), d) == CostAt(net, u, d) - 1
  {
    var k := CostAt(net, u, d);
    assert NodeOk(g, net, u);
    ConvergedViewsGood(g, net, u, k);
    HopIsCloser(g, net, u, d, k, k);
    ConvergedCostsAreDistances(g, net, HopAt(net, u, d), d, k - 1);
  }

  /**
   What poison reverse is for: if u's view of n is current, u does not route through n what n routes
   through u, however wrong the two tables may be otherwise.
   */
  lemma NoLoopOfTwo(g: Graph, net: Network, u: Id, n: Id, d: Id)
    requires NodeOk(g, net, u) && Current(net, u, n) && d != n && d != u
    requires CostAt(net, u, d) < INF_COST && HopAt(net, u, d) == n
    ensures HopAt(net, n, d) != u
  {
    NearCostsHold(g, net, u, d);
    FarCost(g, net, u, d);
  }
}
