/**
 How often the callback of a broadcast runs.  It runs for every copy that arrives, before the dedup
 test, so that each node processes a broadcast exactly once if and only if the network is a tree.
 */
module FloodCallbacks {
  import opened RouterModel
  import opened Convergence
  import opened DataPlane
  import opened Flooding

  // ----- one arrival -----

  /** What the arrival of c does; `relays` is what its receiver sends on. */
  ghost predicate Summary(g: Graph, p: Packet, st: Flood, c: Copy, st': Flood, relays: map<Id, Packet>)
  {
    && c in st.inFlight && GoodCopy(g, p, Reached(st, p), c) && c.dst in g
    && st'.inFlight == st.inFlight - multiset{c} + multiset(CopiesOf(c.dst, relays))
    && st'.sent == st.sent + multiset(LinksOf(c.dst, relays))
    && st'.called == st.called + (if c.dst != p.origin then multiset{c.dst} else multiset{})
    && if c.dst in Reached(st, p) then relays == map[] && Reached(st', p) == Reached(st, p)
       else
         && c.dst != p.origin && relays == Relays(g[c.dst], c.src, c.packet)
         && Reached(st', p) == Reached(st, p) + {c.dst}
  }

  lemma ArrivalSummary(g: Graph, net: Network, p: Packet, st: Flood, c: Copy, st': Flood)
    returns (relays: map<Id, Packet>)
    requires Broadcasting(g, net, p) && FloodInv(g, p, st) && Arrival(net, st, c, st')
    ensures Summary(g, p, st, c, st', relays)
  {
    assert GoodCopy(g, p, Reached(st, p), c);
    if c.dst in Reached(st, p) {
      AbsorbState(g, net, p, st, c, st');
      relays := map[];
      assert CopiesOf(c.dst, relays) == {} && LinksOf(c.dst, relays) == {};
    } else {
      RelayState(g, net, p, st, c, st');
      relays := Relays(g[c.dst], c.src, c.packet);
    }
  }

  // ----- copies that have arrived -----

  /** A copy is on its way over this link. */
  ghost predicate Flying(inFlight: multiset<Copy>, l: (Id, Id))
  {
    exists c :: c in inFlight && c.src == l.0 && c.dst == l.1
  }

  /** The links over which v has got a copy. */
  ghost function Landed(st: Flood, v: Id): set<(Id, Id)>
  {
    set l | l in st.sent && l.1 == v && !Flying(st.inFlight, l)
  }

  /** Every copy that has arrived at v has run the callback there. */
  ghost predicate Counted(st: Flood, v: Id)
  {
    |Landed(st, v)| <= st.called[v]
  }

  lemma RelaysFly(rest: multiset<Copy>, u: Id, relays: map<Id, Packet>, l: (Id, Id))
    requires l in LinksOf(u, relays)
    ensures Flying(rest + multiset(CopiesOf(u, relays)), l)
  {
    var d := Copy(u, l.1, relays[l.1]);
    assert d in CopiesOf(u, relays);
    assert d in rest + multiset(CopiesOf(u, relays));
  }

  lemma OthersFly(inFlight: multiset<Copy>, c: Copy, more: multiset<Copy>, l: (Id, Id))
    requires Flying(inFlight, l) && l != (c.src, c.dst)
    ensures Flying(inFlight - multiset{c} + more, l)
  {
    var d :| d in inFlight && d.src == l.0 && d.dst == l.1;
    assert d in inFlight - multiset{c} + more;
  }

  /** A link without a copy on its way was without one before, unless the copy has just arrived. */
  lemma JustLanded(inFlight: multiset<Copy>, c: Copy, relays: map<Id, Packet>, l: (Id, Id))
    requires !Flying(inFlight - multiset{c} + multiset(CopiesOf(c.dst, relays)), l)
    ensures l !in LinksOf(c.dst, relays) && (Flying(inFlight, l) ==> l == (c.src, c.dst))
  {
    if l in LinksOf(c.dst, relays) { RelaysFly(inFlight - multiset{c}, c.dst, relays, l); }
    if Flying(inFlight, l) && l != (c.src, c.dst) { OthersFly(inFlight, c, multiset(CopiesOf(c.dst, relays)), l); }
  }

  lemma LandedGrows(g: Graph, p: Packet, st: Flood, c: Copy, st': Flood, relays: map<Id, Packet>, v: Id)
    requires Summary(g, p, st, c, st', relays)
    ensures Landed(st', v) <= Landed(st, v) + if v == c.dst then {(c.src, v)} else {}
  {
    forall l | l in Landed(st', v)
      ensures l in Landed(st, v) || (v == c.dst && l == (c.src, v))
    {
      JustLanded(st.inFlight, c, relays, l);
    }
  }

  lemma CountedStays(g: Graph, p: Packet, st: Flood, c: Copy, st': Flood, relays: map<Id, Packet>, v: Id)
    requires Summary(g, p, st, c, st', relays) && Counted(st, v) && v != p.origin
    ensures Counted(st', v)
  {
    LandedGrows(g, p, st, c, st', relays, v);
    SubsetSize(Landed(st', v), Landed(st, v) + if v == c.dst then {(c.src, v)} else {});
  }

  // ----- links that must be used -----

  /** A reached node has sent to every neighbour that is not reached yet. */
  ghost predicate Offers(g: Graph, reached: set<Id>, sent: multiset<(Id, Id)>)
  {
    forall v, n :: v in reached && v in g && n in g[v] ==> n in reached || (v, n) in sent
  }

  ghost predicate Crossed(p: Packet, sent: multiset<(Id, Id)>, v: Id, n: Id)
  {
    ((v, n) in sent && n != p.origin) || ((n, v) in sent && v != p.origin)
  }

  /** Between two reached neighbours a copy has been sent, to one that is not the origin. */
  ghost predicate Linked(g: Graph, p: Packet, reached: set<Id>, sent: multiset<(Id, Id)>)
  {
    forall v, n :: v in reached && n in reached && v in g && n in g[v] ==> Crossed(p, sent, v, n)
  }

  lemma OffersStay(g: Graph, p: Packet, st: Flood, c: Copy, st': Flood, relays: map<Id, Packet>)
    requires IsGraph(g) && |g.Keys| <= p.ttl && Summary(g, p, st, c, st', relays) && Reached(st, p) <= g.Keys
    requires Offers(g, Reached(st, p), st.sent)
    ensures Offers(g, Reached(st', p), st'.sent)
  {
    forall v, n | v in Reached(st', p) && v in g && n in g[v] && n !in Reached(st', p)
      ensures (v, n) in st'.sent
    {
      if v !in Reached(st, p) {
        LastNode(g, p, Reached(st, p), c, n);
        assert n in relays && (v, n) in LinksOf(v, relays);
      }
    }
  }

  lemma LinkedStays(g: Graph, p: Packet, st: Flood, c: Copy, st': Flood, relays: map<Id, Packet>)
    requires IsGraph(g) && Summary(g, p, st, c, st', relays)
    requires Offers(g, Reached(st, p), st.sent) && Linked(g, p, Reached(st, p), st.sent)
    ensures Linked(g, p, Reached(st', p), st'.sent)
  {
    forall v, n | v in Reached(st', p) && n in Reached(st', p) && v in g && n in g[v]
      ensures Crossed(p, st'.sent, v, n)
    {
      if v in Reached(st, p) && n in Reached(st, p) {
        assert Crossed(p, st.sent, v, n);
      } else if v in Reached(st, p) {
        assert (v, n) in st.sent;
      } else {
        assert n != v && v in g[n] && (n, v) in st.sent;
      }
    }
  }

  // ----- links that are not used -----

  ghost function DirectionsFrom(g: Graph, s: set<Id>): set<(Id, Id)>
  {
    set u, n | u in g && u in s && n in g[u] :: (u, n)
  }

  lemma DirectionsGrow(g: Graph, s: set<Id>, w: Id)
    requires w in g && w !in s
    ensures |DirectionsFrom(g, s + {w})| == |DirectionsFrom(g, s)| + |g[w]|
  {
    OutSize(w, g[w]);
    assert DirectionsFrom(g, s + {w}) == DirectionsFrom(g, s) + Out(w, g[w]);
    assert DirectionsFrom(g, s) !! Out(w, g[w]);
  }

  /** Each reached node but the origin has one direction that it never uses: back to its sender. */
  ghost predicate OneUnused(g: Graph, p: Packet, st: Flood)
  {
    |st.sent| + |Reached(st, p)| - 1 <= |DirectionsFrom(g, Reached(st, p))|
  }

  lemma UnusedStays(g: Graph, p: Packet, st: Flood, c: Copy, st': Flood, relays: map<Id, Packet>)
    requires IsGraph(g) && Summary(g, p, st, c, st', relays) && OneUnused(g, p, st)
    ensures OneUnused(g, p, st')
  {
    OutSize(c.dst, relays.Keys);
    if c.dst !in Reached(st, p) {
      DirectionsGrow(g, Reached(st, p), c.dst);
      SubsetSize(relays.Keys, g[c.dst] - {c.src});
      assert |Reached(st', p)| == |Reached(st, p)| + 1;
    }
  }

  // ----- the invariant -----

  ghost predicate CallInv(g: Graph, p: Packet, st: Flood)
  {
    && OneUnused(g, p, st) && Offers(g, Reached(st, p), st.sent) && Linked(g, p, Reached(st, p), st.sent)
    && forall v :: v != p.origin ==> Counted(st, v)
  }

  lemma NextKeepsCallInv(g: Graph, net: Network, p: Packet, st: Flood, st': Flood)
    requires Broadcasting(g, net, p) && |g.Keys| <= p.ttl && FloodInv(g, p, st) && CallInv(g, p, st)
             && Next(net, st, st')
    ensures CallInv(g, p, st')
  {
    var c :| Arrival(net, st, c, st');
    var relays := ArrivalSummary(g, net, p, st, c, st');
    SummaryKeepsCallInv(g, p, st, c, st', relays);
  }

  lemma SummaryKeepsCallInv(g: Graph, p: Packet, st: Flood, c: Copy, st': Flood, relays: map<Id, Packet>)
    requires IsGraph(g) && |g.Keys| <= p.ttl && Reached(st, p) <= g.Keys
    requires CallInv(g, p, st) && Summary(g, p, st, c, st', relays)
    ensures CallInv(g, p, st')
  {
    UnusedStays(g, p, st, c, st', relays);
    OffersStay(g, p, st, c, st', relays);
    LinkedStays(g, p, st, c, st', relays);
    forall v | v != p.origin
      ensures Counted(st', v)
    {
      assert Counted(st, v);
      CountedStays(g, p, st, c, st', relays, v);
    }
  }

  ghost predicate IsStart(g: Graph, p: Packet, st: Flood)
  {
    && IsGraph(g) && p.origin in g && 1 <= p.ttl && Reached(st, p) == {p.origin}
    && st.inFlight == multiset(CopiesOf(p.origin, Relays(g[p.origin], p.origin, p)))
    && st.sent == multiset(LinksOf(p.origin, Relays(g[p.origin], p.origin, p)))
  }

  lemma StartUnused(g: Graph, p: Packet, st: Flood)
    requires IsStart(g, p, st)
    ensures OneUnused(g, p, st)
  {
    var o, relays := p.origin, Relays(g[p.origin], p.origin, p);
    OutSize(o, relays.Keys);
    SubsetSize(relays.Keys, g[o]);
    DirectionsGrow(g, {}, o);
    assert {} + {o} == {o};
  }

  lemma StartOffers(g: Graph, p: Packet, st: Flood)
    requires IsStart(g, p, st) && |g.Keys| <= p.ttl
    ensures Offers(g, Reached(st, p), st.sent) && Linked(g, p, Reached(st, p), st.sent)
  {
    var o, relays := p.origin, Relays(g[p.origin], p.origin, p);
    forall n | n in g[o]
      ensures (o, n) in st.sent
    {
      SubsetSize({o, n}, g.Keys);
      assert n in relays && (o, n) in LinksOf(o, relays);
    }
  }

  lemma StartCallInv(g: Graph, net: Network, keys: map<Id, set<Key>>, p: Packet)
    requires Begins(g, net, keys, p) && |g.Keys| <= p.ttl
    ensures CallInv(g, p, Start(net, keys, p))
  {
    var st := Start(net, keys, p);
    StartState(g, net, keys, p);
    StartUnused(g, p, st);
    StartOffers(g, p, st);
    forall v | v != p.origin
      ensures Counted(st, v)
    {
      StartLanded(st, p.origin, Relays(g[p.origin], p.origin, p), v);
    }
  }

  lemma StartLanded(st: Flood, o: Id, relays: map<Id, Packet>, v: Id)
    requires st.inFlight == multiset(CopiesOf(o, relays)) && st.sent == multiset(LinksOf(o, relays))
    ensures Landed(st, v) == {}
  {
    forall l | l in st.sent
      ensures Flying(st.inFlight, l)
    {
      RelaysFly(multiset{}, o, relays, l);
      assert multiset{} + st.inFlight == st.inFlight;
    }
  }

  lemma {:induction false} FloodKeepsCallInv(g: Graph, net: Network, keys: map<Id, set<Key>>, p: Packet,
                                             states: seq<Flood>, i: nat)
    requires Begins(g, net, keys, p) && |g.Keys| <= p.ttl
    requires IsFlood(net, keys, p, states) && i < |states|
    ensures CallInv(g, p, states[i])
  {
    if i == 0 {
      StartCallInv(g, net, keys, p);
    } else {
      FloodKeepsCallInv(g, net, keys, p, states, i - 1);
      FloodKeepsInv(g, net, keys, p, states, i - 1);
      NextKeepsCallInv(g, net, p, states[i - 1], states[i]);
    }
  }

  // ----- counting callbacks -----

  lemma {:induction false} CalledAtMost(net: Network, keys: map<Id, set<Key>>, p: Packet, states: seq<Flood>, i: nat)
    requires p.origin in net && p.origin in keys && net[p.origin].self == p.origin
    requires IsFlood(net, keys, p, states) && i < |states|
    ensures |states[i].called| <= i
  {
    if i > 0 {
      CalledAtMost(net, keys, p, states, i - 1);
      assert Next(net, states[i - 1], states[i]);
      var c :| Arrival(net, states[i - 1], c, states[i]);
    }
  }

  lemma {:induction false} CoverSize<T(!new)>(m: multiset<T>, s: set<T>)
    requires forall x :: x in s ==> x in m
    ensures |s| <= |m|
    decreases |s|
  {
    if s != {} {
      var x :| x in s;
      CoverSize(m - multiset{x}, s - {x});
    }
  }

  /** A multiset no larger than a set that it covers holds each element once. */
  lemma CoverOnce<T(!new)>(m: multiset<T>, s: set<T>)
    requires (forall x :: x in s ==> x in m) && |m| <= |s|
    ensures forall x :: x in s ==> m[x] == 1
  {
    forall x | x in s
      ensures m[x] == 1
    {
      if m[x] >= 2 { CoverSize(m - multiset{x}, s); }
    }
  }

  /** Links with different ends are no more than their ends. */
  lemma {:induction false} EndsSize(links: set<(Id, Id)>, ends: set<Id>)
    requires forall l :: l in links ==> l.1 in ends
    requires forall l, l' :: l in links && l' in links && l.1 == l'.1 ==> l == l'
    ensures |links| <= |ends|
    decreases |links|
  {
    if links != {} {
      var l :| l in links;
      EndsSize(links - {l}, ends - {l.1});
    }
  }

  ghost function Flip(links: set<(Id, Id)>): set<(Id, Id)>
  {
    set l | l in links :: (l.1, l.0)
  }

  lemma {:induction false} FlipSize(links: set<(Id, Id)>)
    ensures |Flip(links)| == |links|
  {
    if links != {} {
      var l :| l in links;
      FlipSize(links - {l});
      assert Flip(links) == Flip(links - {l}) + {(l.1, l.0)};
    }
  }

  // ----- the theorem -----

  /** The callback has run exactly once at every node other than the origin. */
  ghost predicate CalledOnce(g: Graph, p: Packet, st: Flood)
  {
    forall v :: v in g && v != p.origin ==> st.called[v] == 1
  }

  ghost predicate IsTree(g: Graph)
  {
    |Directions(g)| == 2 * (|g.Keys| - 1)
  }

  /** Links used towards nodes other than the origin. */
  ghost function Towards(p: Packet, st: Flood): set<(Id, Id)>
  {
    set l | l in st.sent && l.1 != p.origin
  }

  lemma AtMostOneIn(g: Graph, p: Packet, st: Flood, l: (Id, Id), l': (Id, Id))
    requires CallInv(g, p, st) && st.inFlight == multiset{} && CalledOnce(g, p, st)
    requires l in Towards(p, st) && l' in Towards(p, st) && l.1 == l'.1 && l.1 in g
    ensures l == l'
  {
    assert Counted(st, l.1);
    SubsetSize({l, l'}, Landed(st, l.1));
  }

  lemma FewTowards(g: Graph, p: Packet, st: Flood)
    requires IsGraph(g) && p.origin in g && CallInv(g, p, st)
    requires LinksOnce(g, Reached(st, p), st.sent) && st.inFlight == multiset{} && CalledOnce(g, p, st)
    ensures |Towards(p, st)| <= |g.Keys| - 1
  {
    var links := Towards(p, st);
    forall l | l in links
      ensures l.1 in g
    {
      assert l.1 in g[l.0];
    }
    forall l, l' | l in links && l' in links && l.1 == l'.1
      ensures l == l'
    {
      AtMostOneIn(g, p, st, l, l');
    }
    EndsSize(links, g.Keys - {p.origin});
  }

  lemma AllCrossed(g: Graph, p: Packet, st: Flood)
    requires IsGraph(g) && Linked(g, p, g.Keys, st.sent)
    ensures Directions(g) <= Towards(p, st) + Flip(Towards(p, st))
  {
    var links := Towards(p, st);
    forall d | d in Directions(g)
      ensures d in links + Flip(links)
    {
      assert Crossed(p, st.sent, d.0, d.1);
      if (d.1, d.0) in links { assert d in Flip(links); }
    }
  }

  /** Callbacks that run once leave no room for links beyond those of a tree. */
  lemma OnceMeansFewLinks(g: Graph, p: Packet, st: Flood)
    requires IsGraph(g) && p.origin in g && Reached(st, p) == g.Keys && CallInv(g, p, st)
    requires LinksOnce(g, Reached(st, p), st.sent) && st.inFlight == multiset{} && CalledOnce(g, p, st)
    ensures |Directions(g)| <= 2 * (|g.Keys| - 1)
  {
    var links := Towards(p, st);
    FewTowards(g, p, st);
    FlipSize(links);
    AllCrossed(g, p, st);
    SubsetSize(Directions(g), links + Flip(links));
  }

  lemma DirectionsOfAll(g: Graph)
    ensures DirectionsFrom(g, g.Keys) == Directions(g)
  {}

  /** All nodes are reached, the callbacks are no more than the copies sent, and these leave n - 1 directions unused. */
  lemma FinalCounts(g: Graph, net: Network, keys: map<Id, set<Key>>, p: Packet, states: seq<Flood>)
    requires Finished(g, net, keys, p, states)
    ensures var st := states[|states| - 1];
            Reached(st, p) == g.Keys && |st.called| + |g.Keys| - 1 <= |Directions(g)|
  {
    var i := |states| - 1;
    FloodReachesAll(g, net, keys, p, states);
    FloodKeepsCallInv(g, net, keys, p, states, i);
    FloodBalance(net, keys, p, states, i);
    CalledAtMost(net, keys, p, states, i);
    DirectionsOfAll(g);
  }

  lemma TreeCallsOnce(g: Graph, net: Network, keys: map<Id, set<Key>>, p: Packet, states: seq<Flood>)
    requires Finished(g, net, keys, p, states)
    requires IsTree(g)
    ensures CalledOnce(g, p, states[|states| - 1])
  {
    FinalCounts(g, net, keys, p, states);
    FloodCoversNetwork(g, net, keys, p, states);
    CoverOnce(states[|states| - 1].called, g.Keys - {p.origin});
  }

  lemma EnoughDirections(g: Graph, net: Network, keys: map<Id, set<Key>>, p: Packet, states: seq<Flood>)
    requires Finished(g, net, keys, p, states)
    ensures |Directions(g)| >= 2 * (|g.Keys| - 1)
  {
    FinalCounts(g, net, keys, p, states);
    FloodCoversNetwork(g, net, keys, p, states);
    CoverSize(states[|states| - 1].called, g.Keys - {p.origin});
  }

  lemma OnceMeansTree(g: Graph, net: Network, keys: map<Id, set<Key>>, p: Packet, states: seq<Flood>)
    requires Finished(g, net, keys, p, states)
    requires CalledOnce(g, p, states[|states| - 1])
    ensures IsTree(g)
  {
    EnoughDirections(g, net, keys, p, states);
    FloodReachesAll(g, net, keys, p, states);
    FloodKeepsCallInv(g, net, keys, p, states, |states| - 1);
    OnceMeansFewLinks(g, p, states[|states| - 1]);
  }

  /**
   On a connected network, with an origin TTL of at least the number of nodes and in every schedule:
   when nothing is in flight any more, each node other than the origin has had exactly one callback
   if and only if the network is a tree.
   */
  lemma CalledOnceIffTree(g: Graph, net: Network, keys: map<Id, set<Key>>, p: Packet, states: seq<Flood>)
    requires Finished(g, net, keys, p, states)
    ensures CalledOnce(g, p, states[|states| - 1]) <==> IsTree(g)
  {
    if IsTree(g) { TreeCallsOnce(g, net, keys, p, states); }
    if CalledOnce(g, p, states[|states| - 1]) { OnceMeansTree(g, net, keys, p, states); }
  }

  /** On every other connected network, every broadcast runs the callback of some node at least twice. */
  lemma CycleCallsTwice(g: Graph, net: Network, keys: map<Id, set<Key>>, p: Packet) returns (states: seq<Flood>, v: Id)
    requires Begins(g, net, keys, p) && Flooding.Connected(g) && |g.Keys| <= p.ttl && !IsTree(g)
    ensures IsFlood(net, keys, p, states) && states[|states| - 1].inFlight == multiset{}
    ensures v in g && v != p.origin && states[|states| - 1].called[v] >= 2
  {
    states := FloodFinishes(g, net, keys, p, [Start(net, keys, p)]);
    CalledOnceIffTree(g, net, keys, p, states);
    FloodCoversNetwork(g, net, keys, p, states);
    v :| v in g && v != p.origin && states[|states| - 1].called[v] != 1;
  }

  // ----- the smallest network with a cycle -----

  const TRIANGLE: Graph := map["a" := {"b", "c"}, "b" := {"a", "c"}, "c" := {"a", "b"}]

  /** Nodes that know their neighbours and nothing else. */
  function BareNetwork(g: Graph): Network
  {
    map u | u in g :: Node(u, map[], map n | n in g[u] :: NeighborView(map[], 0), false, 0, 0)
  }

  lemma AllLinkedIsConnected(g: Graph)
    requires IsGraph(g) && forall u, v :: u in g && v in g && u != v ==> v in g[u]
    ensures Flooding.Connected(g)
  {
    forall u, v | u in g && v in g
      ensures exists n: nat :: Within(g, u, v, n)
    {
      if u == v {
        assert Within(g, u, v, 0);
      } else {
        assert v in g[u] && Within(g, v, v, 0);
        assert Within(g, u, v, 1);
      }
    }
  }

  lemma TriangleIsConnected()
    ensures IsGraph(TRIANGLE) && Flooding.Connected(TRIANGLE)
  {
    AllLinkedIsConnected(TRIANGLE);
  }

  lemma TriangleIsNoTree()
    ensures |TRIANGLE.Keys| == 3 && !IsTree(TRIANGLE)
  {
    assert TRIANGLE.Keys == {"a", "b", "c"};
    SubsetSize({("a", "b"), ("a", "c"), ("b", "a"), ("b", "c"), ("c", "a")}, Directions(TRIANGLE));
  }

  function NoKeys(g: Graph): map<Id, set<Key>>
  {
    map u | u in g :: {}
  }

  lemma BareNodes(g: Graph)
    requires IsGraph(g)
    ensures Nodes(g, BareNetwork(g))
  {
    forall u | u in g
      ensures BareNetwork(g)[u].views.Keys == g[u]
    {}
  }

  lemma BareCallsTwice(g: Graph, p: Packet) returns (states: seq<Flood>, v: Id)
    requires IsGraph(g) && Flooding.Connected(g) && !IsTree(g) && BROADCAST !in g
    requires p.dest == BROADCAST && p.origin in g && 1 <= p.ttl && |g.Keys| <= p.ttl
    ensures Broadcasting(g, BareNetwork(g), p) && IsFlood(BareNetwork(g), NoKeys(g), p, states)
    ensures v in g && v != p.origin && states[|states| - 1].called[v] >= 2
  {
    BareNodes(g);
    states, v := CycleCallsTwice(g, BareNetwork(g), NoKeys(g), p);
  }

  /** A broadcast from "a" in a triangle is handed to the application of "b" or "c" more than once. */
  lemma TriangleCallsTwice() returns (p: Packet, states: seq<Flood>, v: Id)
    ensures Broadcasting(TRIANGLE, BareNetwork(TRIANGLE), p)
    ensures IsFlood(BareNetwork(TRIANGLE), NoKeys(TRIANGLE), p, states)
    ensures v in TRIANGLE && v != p.origin && states[|states| - 1].called[v] >= 2
  {
    p := Packet("id", "a", BROADCAST, 3, false);
    TriangleIsConnected();
    TriangleIsNoTree();
    states, v := BareCallsTwice(TRIANGLE, p);
  }
}
