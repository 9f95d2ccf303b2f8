/**
 Flooding of one broadcast over a static symmetric network with lossless links, in every
 asynchronous schedule: any packet in flight may arrive next.
 */
module Flooding {
  import opened RouterModel
  import opened Convergence
  import opened DataPlane

  /** A copy of the packet on its way over the link from src to dst. */
  datatype Copy = Copy(src: Id, dst: Id, packet: Packet)

  /** The keys each node has seen, where the callback ran and how often, the copies in flight, and all links used. */
  datatype Flood = Flood(keys: map<Id, set<Key>>, called: multiset<Id>, inFlight: multiset<Copy>,
                         sent: multiset<(Id, Id)>)

  ghost predicate Nodes(g: Graph, net: Network)
  {
    IsGraph(g) && net.Keys == g.Keys && forall u :: u in g ==> net[u].self == u && net[u].views.Keys == g[u]
  }

  function CopiesOf(u: Id, forwards: map<Id, Packet>): set<Copy>
  {
    set n | n in forwards :: Copy(u, n, forwards[n])
  }

  /** The directions from u to the nodes s. */
  function Out(u: Id, s: set<Id>): set<(Id, Id)>
  {
    set n | n in s :: (u, n)
  }

  function LinksOf(u: Id, forwards: map<Id, Packet>): set<(Id, Id)>
  {
    Out(u, forwards.Keys)
  }

  function CalledAt(out: Outcome, u: Id): multiset<Id> { if out.delivered then multiset{u} else multiset{} }

  function After(st: Flood, u: Id, rest: multiset<Copy>, out: Outcome): Flood
  {
    Flood(st.keys[u := out.seen], st.called + CalledAt(out, u),
          rest + multiset(CopiesOf(u, out.forwards)), st.sent + multiset(LinksOf(u, out.forwards)))
  }

  /** The origin hands the packet to its router. */
  function Start(net: Network, keys: map<Id, set<Key>>, p: Packet): Flood
    requires p.origin in net && p.origin in keys
  {
    After(Flood(keys, multiset{}, multiset{}, multiset{}), p.origin, multiset{},
          RoutePacket(net[p.origin], keys[p.origin], p.origin, p))
  }

  /** Some copy arrives and is handled. */
  ghost predicate Arrival(net: Network, st: Flood, c: Copy, st': Flood)
  {
    && c in st.inFlight && c.dst in net && c.dst in st.keys
    && st' == After(st, c.dst, st.inFlight - multiset{c}, HandlePacket(net[c.dst], st.keys[c.dst], c.src, c.packet))
  }

  ghost predicate Next(net: Network, st: Flood, st': Flood)
  {
    exists c :: Arrival(net, st, c, st')
  }

  ghost function Reached(st: Flood, p: Packet): (s: set<Id>)
  {
    set v | v in st.keys && KeyOf(p) in st.keys[v]
  }

  /** A copy keeps at least the origin TTL less the number of nodes reached. */
  ghost predicate GoodCopy(g: Graph, p: Packet, reached: set<Id>, c: Copy)
  {
    && c.src in g && c.dst in g[c.src] && c.src in reached
    && c.packet == p.(ttl := c.packet.ttl) && 1 <= c.packet.ttl && c.packet.ttl + |reached| >= p.ttl
  }

  ghost predicate GoodCopies(g: Graph, p: Packet, reached: set<Id>, inFlight: multiset<Copy>)
  {
    forall c :: c in inFlight ==> GoodCopy(g, p, reached, c)
  }

  ghost predicate Awaited(inFlight: multiset<Copy>, n: Id)
  {
    exists c :: c in inFlight && c.dst == n
  }

  /** Every neighbour of a reached node is reached or has a copy coming. */
  ghost predicate Covered(g: Graph, reached: set<Id>, inFlight: multiset<Copy>)
  {
    forall v, n :: v in reached && v in g && n in g[v] ==> n in reached || Awaited(inFlight, n)
  }

  /** No link direction has been used twice, and only by reached nodes. */
  ghost predicate LinksOnce(g: Graph, reached: set<Id>, sent: multiset<(Id, Id)>)
  {
    forall l :: l in sent ==> sent[l] == 1 && l.0 in reached && l.0 in g && l.1 in g[l.0]
  }

  ghost predicate FloodInv(g: Graph, p: Packet, st: Flood)
  {
    var reached := Reached(st, p);
    && st.keys.Keys == g.Keys && p.origin in reached
    && (forall v :: v in reached && v != p.origin ==> v in st.called)
    && GoodCopies(g, p, reached, st.inFlight) && LinksOnce(g, reached, st.sent)
    && (|g.Keys| <= p.ttl ==> Covered(g, reached, st.inFlight))
  }

  ghost predicate Broadcasting(g: Graph, net: Network, p: Packet)
  {
    Nodes(g, net) && p.dest == BROADCAST && BROADCAST !in g && p.origin in g && 1 <= p.ttl
  }

  /** No node has seen the packet before. */
  ghost predicate Begins(g: Graph, net: Network, keys: map<Id, set<Key>>, p: Packet)
  {
    Broadcasting(g, net, p) && keys.Keys == g.Keys && forall v :: v in g ==> (p.id, p.expectResponse) !in keys[v]
  }

  // ----- what handling a copy amounts to -----

  lemma HandleKnown(node: Node, seen: set<Key>, src: Id, p: Packet, q: Packet)
    requires p.dest == BROADCAST != node.self && q == p.(ttl := q.ttl) && KeyOf(p) in seen && src != node.self
    ensures HandlePacket(node, seen, src, q) == Outcome(p.origin != node.self, seen, map[])
  {}

  /** The copies that a newly reached node sends: to all neighbours but the sender, one less TTL. */
  function Relays(neighbors: set<Id>, src: Id, q: Packet): map<Id, Packet>
    requires q.ttl >= 1
  {
    map n | n in neighbors && n != src && q.ttl >= 2 :: q.(ttl := q.ttl - 1)
  }

  lemma HandleNew(node: Node, seen: set<Key>, src: Id, q: Packet)
    requires q.dest == BROADCAST != node.self && KeyOf(q) !in seen && q.ttl >= 1
    requires node.self !in node.views && src != node.self && q.origin != node.self
    ensures HandlePacket(node, seen, src, q) == Outcome(true, seen + {KeyOf(q)}, Relays(node.views.Keys, src, q))
  {
    assert NextHops(node, BROADCAST) == node.views.Keys;
    assert HandlePacket(node, seen, src, q).forwards == Relays(node.views.Keys, src, q);
  }

  lemma ReachedAfter(st: Flood, p: Packet, u: Id, rest: multiset<Copy>, out: Outcome)
    requires u in st.keys
    ensures Reached(After(st, u, rest, out), p) ==
            if KeyOf(p) in out.seen then Reached(st, p) + {u} else Reached(st, p) - {u}
  {}

  // ----- a copy for a node that has the packet already is absorbed -----

  lemma CoveredRemove(g: Graph, reached: set<Id>, inFlight: multiset<Copy>, c: Copy)
    requires Covered(g, reached, inFlight) && c.dst in reached
    ensures Covered(g, reached, inFlight - multiset{c})
  {
    forall v, n | v in reached && v in g && n in g[v] && n !in reached
      ensures Awaited(inFlight - multiset{c}, n)
    {
      var d :| d in inFlight && d.dst == n;
      assert d in inFlight - multiset{c};
    }
  }

  lemma AfterNothing(st: Flood, u: Id, rest: multiset<Copy>, out: Outcome)
    requires u in st.keys && out.forwards == map[] && out.seen == st.keys[u]
    ensures After(st, u, rest, out) == Flood(st.keys, st.called + CalledAt(out, u), rest, st.sent)
  {
    assert CopiesOf(u, out.forwards) == {} && LinksOf(u, out.forwards) == {};
    assert st.keys[u := st.keys[u]] == st.keys;
  }

  /** The state after a node that had the packet already has ignored a copy. */
  lemma AbsorbState(g: Graph, net: Network, p: Packet, st: Flood, c: Copy, st': Flood)
    requires Nodes(g, net) && p.dest == BROADCAST && BROADCAST !in g
    requires Arrival(net, st, c, st') && GoodCopy(g, p, Reached(st, p), c) && c.dst in Reached(st, p)
    ensures st'.keys == st.keys && Reached(st', p) == Reached(st, p)
    ensures st'.called == st.called + if c.dst != p.origin then multiset{c.dst} else multiset{}
    ensures st'.sent == st.sent && st'.inFlight == st.inFlight - multiset{c}
  {
    var v := c.dst;
    HandleKnown(net[v], st.keys[v], c.src, p, c.packet);
    AfterNothing(st, v, st.inFlight - multiset{c}, HandlePacket(net[v], st.keys[v], c.src, c.packet));
  }

  lemma AbsorbedArrival(g: Graph, net: Network, p: Packet, st: Flood, c: Copy, st': Flood)
    requires Broadcasting(g, net, p) && FloodInv(g, p, st) && Arrival(net, st, c, st') && c.dst in Reached(st, p)
    ensures FloodInv(g, p, st')
  {
    assert GoodCopy(g, p, Reached(st, p), c);
    AbsorbState(g, net, p, st, c, st');
    if |g.Keys| <= p.ttl { CoveredRemove(g, Reached(st, p), st.inFlight, c); }
  }

  // ----- a copy for a new node is relayed -----

  lemma CoveredExtend(g: Graph, p: Packet, reached: set<Id>, inFlight: multiset<Copy>, c: Copy)
    requires IsGraph(g) && Covered(g, reached, inFlight) && GoodCopy(g, p, reached, c) && c.dst !in reached
    requires |g.Keys| <= p.ttl && reached <= g.Keys
    ensures Covered(g, reached + {c.dst},
                    (inFlight - multiset{c}) + multiset(CopiesOf(c.dst, Relays(g[c.dst], c.src, c.packet))))
  {
    var w, relays := c.dst, Relays(g[c.dst], c.src, c.packet);
    var reached', inFlight' := reached + {w}, (inFlight - multiset{c}) + multiset(CopiesOf(w, relays));
    forall v, n | v in reached' && v in g && n in g[v] && n !in reached'
      ensures Awaited(inFlight', n)
    {
      if v == w {
        LastNode(g, p, reached, c, n);
        assert Copy(w, n, relays[n]) in CopiesOf(w, relays);
      } else {
        var d :| d in inFlight && d.dst == n;
        assert d in inFlight';
      }
    }
  }

  /** A node that is not the last to be reached has TTL left to relay with. */
  lemma LastNode(g: Graph, p: Packet, reached: set<Id>, c: Copy, n: Id)
    requires IsGraph(g) && GoodCopy(g, p, reached, c) && c.dst !in reached && |g.Keys| <= p.ttl && reached <= g.Keys
    requires n in g && n !in reached + {c.dst}
    ensures c.packet.ttl >= 2
  {
    var s := reached + {c.dst, n};
    assert |s| == |reached| + 2;
    SubsetSize(s, g.Keys);
  }

  lemma {:induction false} SubsetSize<T>(a: set<T>, b: set<T>)
    requires a <= b
    ensures |a| <= |b|
    decreases |a|
  {
    if |a| > 0 {
      var x :| x in a;
      SubsetSize(a - {x}, b - {x});
    }
  }

  lemma GoodCopiesExtend(g: Graph, p: Packet, reached: set<Id>, inFlight: multiset<Copy>, c: Copy)
    requires IsGraph(g) && GoodCopies(g, p, reached, inFlight) && c in inFlight && c.dst !in reached
    ensures GoodCopies(g, p, reached + {c.dst},
                       (inFlight - multiset{c}) + multiset(CopiesOf(c.dst, Relays(g[c.dst], c.src, c.packet))))
  {
    var w, reached' := c.dst, reached + {c.dst};
    assert GoodCopy(g, p, reached, c) && |reached'| == |reached| + 1;
    forall d | d in inFlight || d in CopiesOf(w, Relays(g[w], c.src, c.packet))
      ensures GoodCopy(g, p, reached', d)
    {
      if d in inFlight { assert GoodCopy(g, p, reached, d); }
    }
  }

  lemma LinksOnceExtend(g: Graph, reached: set<Id>, sent: multiset<(Id, Id)>, u: Id, forwards: map<Id, Packet>)
    requires LinksOnce(g, reached, sent) && u !in reached && u in g && forwards.Keys <= g[u]
    ensures LinksOnce(g, reached + {u}, sent + multiset(LinksOf(u, forwards)))
  {
    forall l | l in LinksOf(u, forwards)
      ensures l !in sent
    {
      assert l.0 == u;
    }
  }

  /** The state after a new node has relayed the packet. */
  lemma RelayState(g: Graph, net: Network, p: Packet, st: Flood, c: Copy, st': Flood)
    requires Nodes(g, net) && p.dest == BROADCAST && BROADCAST !in g && st.keys.Keys == g.Keys
    requires Arrival(net, st, c, st') && GoodCopy(g, p, Reached(st, p), c)
    requires c.dst !in Reached(st, p) && p.origin in Reached(st, p)
    ensures var relays := Relays(g[c.dst], c.src, c.packet);
            && Reached(st', p) == Reached(st, p) + {c.dst} && st'.keys.Keys == g.Keys
            && st'.called == st.called + multiset{c.dst}
            && st'.inFlight == st.inFlight - multiset{c} + multiset(CopiesOf(c.dst, relays))
            && st'.sent == st.sent + multiset(LinksOf(c.dst, relays))
  {
    var w := c.dst;
    assert w in g && net[w].views.Keys == g[w];
    HandleNew(net[w], st.keys[w], c.src, c.packet);
    ReachedAfter(st, p, w, st.inFlight - multiset{c}, HandlePacket(net[w], st.keys[w], c.src, c.packet));
  }

  lemma RelayKeepsInv(g: Graph, p: Packet, st: Flood, c: Copy, st': Flood, relays: map<Id, Packet>)
    requires IsGraph(g) && FloodInv(g, p, st) && c in st.inFlight && GoodCopy(g, p, Reached(st, p), c)
    requires c.dst !in Reached(st, p) && relays == Relays(g[c.dst], c.src, c.packet)
    requires Reached(st', p) == Reached(st, p) + {c.dst} && st'.keys.Keys == g.Keys
    requires st'.called == st.called + multiset{c.dst} && st'.sent == st.sent + multiset(LinksOf(c.dst, relays))
    requires st'.inFlight == st.inFlight - multiset{c} + multiset(CopiesOf(c.dst, relays))
    ensures FloodInv(g, p, st')
  {
    GoodCopiesExtend(g, p, Reached(st, p), st.inFlight, c);
    LinksOnceExtend(g, Reached(st, p), st.sent, c.dst, relays);
    if |g.Keys| <= p.ttl { CoveredExtend(g, p, Reached(st, p), st.inFlight, c); }
  }

  lemma RelayedArrival(g: Graph, net: Network, p: Packet, st: Flood, c: Copy, st': Flood)
    requires Broadcasting(g, net, p) && FloodInv(g, p, st) && Arrival(net, st, c, st') && c.dst !in Reached(st, p)
    ensures FloodInv(g, p, st')
  {
    assert GoodCopy(g, p, Reached(st, p), c);
    RelayState(g, net, p, st, c, st');
    RelayKeepsInv(g, p, st, c, st', Relays(g[c.dst], c.src, c.packet));
  }

  lemma ArrivalKeepsInv(g: Graph, net: Network, p: Packet, st: Flood, st': Flood)
    requires Broadcasting(g, net, p) && FloodInv(g, p, st) && Next(net, st, st')
    ensures FloodInv(g, p, st')
  {
    var c :| Arrival(net, st, c, st');
    if c.dst in Reached(st, p) {
      AbsorbedArrival(g, net, p, st, c, st');
    } else {
      RelayedArrival(g, net, p, st, c, st');
    }
  }

  // ----- the start -----

  lemma StartState(g: Graph, net: Network, keys: map<Id, set<Key>>, p: Packet)
    requires Begins(g, net, keys, p)
    ensures var st, o := Start(net, keys, p), p.origin;
            && Reached(st, p) == {o} && st.keys.Keys == g.Keys && st.called == multiset{}
            && st.inFlight == multiset(CopiesOf(o, Relays(g[o], o, p)))
            && st.sent == multiset(LinksOf(o, Relays(g[o], o, p)))
  {
    var o := p.origin;
    assert net[o].views.Keys == g[o];
    var out := RoutePacket(net[o], keys[o], o, p);
    assert NextHops(net[o], BROADCAST) == g[o];
    assert out.forwards == Relays(g[o], o, p);
    ReachedAfter(Flood(keys, multiset{}, multiset{}, multiset{}), p, o, multiset{}, out);
  }

  lemma StartInv(g: Graph, net: Network, keys: map<Id, set<Key>>, p: Packet)
    requires Begins(g, net, keys, p)
    ensures FloodInv(g, p, Start(net, keys, p))
  {
    StartState(g, net, keys, p);
    if |g.Keys| <= p.ttl { StartCovers(g, p); }
  }

  lemma StartCovers(g: Graph, p: Packet)
    requires IsGraph(g) && p.origin in g && 1 <= p.ttl && |g.Keys| <= p.ttl
    ensures Covered(g, {p.origin}, multiset(CopiesOf(p.origin, Relays(g[p.origin], p.origin, p))))
  {
    var o, relays := p.origin, Relays(g[p.origin], p.origin, p);
    forall v, n | v in {o} && v in g && n in g[v] && n !in {o}
      ensures Awaited(multiset(CopiesOf(o, relays)), n)
    {
      SubsetSize({o, n}, g.Keys);
      assert Copy(o, n, relays[n]) in CopiesOf(o, relays);
    }
  }

  // ----- whole floods -----

  ghost predicate IsFlood(net: Network, keys: map<Id, set<Key>>, p: Packet, states: seq<Flood>)
    requires p.origin in net && p.origin in keys
  {
    && |states| > 0 && states[0] == Start(net, keys, p)
    && forall i :: 0 < i < |states| ==> Next(net, states[i - 1], states[i])
  }

  lemma {:induction false} FloodKeepsInv(g: Graph, net: Network, keys: map<Id, set<Key>>, p: Packet,
                                         states: seq<Flood>, i: nat)
    requires Begins(g, net, keys, p) && IsFlood(net, keys, p, states) && i < |states|
    ensures FloodInv(g, p, states[i])
  {
    if i == 0 {
      StartInv(g, net, keys, p);
    } else {
      FloodKeepsInv(g, net, keys, p, states, i - 1);
      ArrivalKeepsInv(g, net, p, states[i - 1], states[i]);
    }
  }

  ghost predicate Connected(g: Graph)
    requires IsGraph(g)
  {
    forall u, v :: u in g && v in g ==> exists n: nat :: Within(g, u, v, n)
  }

  lemma {:induction false} ClosedUnderLinks(g: Graph, reached: set<Id>, u: Id, v: Id, n: nat)
    requires IsGraph(g) && Covered(g, reached, multiset{}) && u in g && u in reached && Within(g, u, v, n)
    ensures v in reached
    decreases n
  {
    if u != v {
      var w :| w in g[u] && Within(g, w, v, n - 1);
      assert !Awaited(multiset{}, w);
      ClosedUnderLinks(g, reached, w, v, n - 1);
    }
  }

  /** A flood over a connected network, with TTL enough, that has come to its end. */
  ghost predicate Finished(g: Graph, net: Network, keys: map<Id, set<Key>>, p: Packet, states: seq<Flood>)
  {
    && Begins(g, net, keys, p) && Connected(g) && |g.Keys| <= p.ttl
    && IsFlood(net, keys, p, states) && states[|states| - 1].inFlight == multiset{}
  }

  lemma CoveredReachesAll(g: Graph, reached: set<Id>, u: Id)
    requires IsGraph(g) && Connected(g) && Covered(g, reached, multiset{}) && u in g && u in reached
    ensures g.Keys <= reached
  {
    forall v | v in g
      ensures v in reached
    {
      var n: nat :| Within(g, u, v, n);
      ClosedUnderLinks(g, reached, u, v, n);
    }
  }

  lemma FloodReachesAll(g: Graph, net: Network, keys: map<Id, set<Key>>, p: Packet, states: seq<Flood>)
    requires Finished(g, net, keys, p, states)
    ensures Reached(states[|states| - 1], p) == g.Keys && FloodInv(g, p, states[|states| - 1])
  {
    var st := states[|states| - 1];
    FloodKeepsInv(g, net, keys, p, states, |states| - 1);
    CoveredReachesAll(g, Reached(st, p), p.origin);
  }

  /**
   When nothing is in flight any more, a broadcast whose origin TTL is at least the number of nodes
   has been handed to every node other than its origin, whatever the schedule was.
   */
  lemma FloodCoversNetwork(g: Graph, net: Network, keys: map<Id, set<Key>>, p: Packet, states: seq<Flood>)
    requires Finished(g, net, keys, p, states)
    ensures forall v :: v in g && v != p.origin ==> v in states[|states| - 1].called
  {
    FloodReachesAll(g, net, keys, p, states);
  }

  // ----- how much is sent -----

  /** All link directions. */
  ghost function Directions(g: Graph): set<(Id, Id)>
  {
    set u, n | u in g && n in g[u] :: (u, n)
  }

  lemma {:induction false} OnceEach<T(!new)>(m: multiset<T>, s: set<T>)
    requires forall x :: x in m ==> m[x] == 1 && x in s
    ensures |m| <= |s|
    decreases |m|
  {
    if |m| > 0 {
      var x :| x in m;
      OnceEach(m - multiset{x}, s - {x});
    }
  }

  lemma {:induction false} OutSize(u: Id, s: set<Id>)
    ensures |Out(u, s)| == |s|
  {
    if s != {} {
      var n :| n in s;
      OutSize(u, s - {n});
      assert Out(u, s) == Out(u, s - {n}) + {(u, n)};
    }
  }

  /** Copies of packets for the nodes s. */
  ghost function CopiesFor(u: Id, forwards: map<Id, Packet>, s: set<Id>): set<Copy>
    requires s <= forwards.Keys
  {
    set n | n in s :: Copy(u, n, forwards[n])
  }

  lemma {:induction false} CopiesSize(u: Id, forwards: map<Id, Packet>, s: set<Id>)
    requires s <= forwards.Keys
    ensures |CopiesFor(u, forwards, s)| == |s|
  {
    if s != {} {
      var n :| n in s;
      CopiesSize(u, forwards, s - {n});
      assert CopiesFor(u, forwards, s) == CopiesFor(u, forwards, s - {n}) + {Copy(u, n, forwards[n])};
    }
  }

  lemma SameSize(u: Id, forwards: map<Id, Packet>)
    ensures |CopiesOf(u, forwards)| == |forwards| == |LinksOf(u, forwards)|
  {
    CopiesSize(u, forwards, forwards.Keys);
    assert CopiesFor(u, forwards, forwards.Keys) == CopiesOf(u, forwards);
    OutSize(u, forwards.Keys);
  }

  lemma ArrivalBalance(net: Network, st: Flood, st': Flood)
    requires Next(net, st, st')
    ensures |st'.sent| - |st'.inFlight| == |st.sent| - |st.inFlight| + 1
  {
    var c :| Arrival(net, st, c, st');
    SameSize(c.dst, HandlePacket(net[c.dst], st.keys[c.dst], c.src, c.packet).forwards);
  }

  lemma {:induction false} FloodBalance(net: Network, keys: map<Id, set<Key>>, p: Packet, states: seq<Flood>, i: nat)
    requires p.origin in net && p.origin in keys && IsFlood(net, keys, p, states) && i < |states|
    ensures |states[i].sent| == |states[i].inFlight| + i
  {
    if i == 0 {
      SameSize(p.origin, RoutePacket(net[p.origin], keys[p.origin], p.origin, p).forwards);
    } else {
      FloodBalance(net, keys, p, states, i - 1);
      ArrivalBalance(net, states[i - 1], states[i]);
    }
  }

  /** A broadcast uses each link at most once in each direction, and the flood ends after as many arrivals. */
  lemma FloodIsBounded(g: Graph, net: Network, keys: map<Id, set<Key>>, p: Packet, states: seq<Flood>)
    requires Begins(g, net, keys, p) && IsFlood(net, keys, p, states)
    ensures |states[|states| - 1].sent| <= |Directions(g)| && |states| - 1 <= |Directions(g)|
  {
    var st := states[|states| - 1];
    FloodKeepsInv(g, net, keys, p, states, |states| - 1);
    FloodBalance(net, keys, p, states, |states| - 1);
    OnceEach(st.sent, Directions(g));
  }

  /** Whatever is in flight can arrive next. */
  lemma CanContinue(g: Graph, net: Network, p: Packet, st: Flood) returns (st': Flood)
    requires Broadcasting(g, net, p) && FloodInv(g, p, st) && st.inFlight != multiset{}
    ensures Next(net, st, st')
  {
    var c :| c in st.inFlight;
    assert GoodCopy(g, p, Reached(st, p), c);
    st' := After(st, c.dst, st.inFlight - multiset{c}, HandlePacket(net[c.dst], st.keys[c.dst], c.src, c.packet));
    assert Arrival(net, st, c, st');
  }

  lemma OneMore(g: Graph, net: Network, keys: map<Id, set<Key>>, p: Packet, states: seq<Flood>)
    returns (more: seq<Flood>)
    requires Begins(g, net, keys, p) && IsFlood(net, keys, p, states) && states[|states| - 1].inFlight != multiset{}
    ensures IsFlood(net, keys, p, more) && states <= more && |more| == |states| + 1
  {
    FloodKeepsInv(g, net, keys, p, states, |states| - 1);
    var st' := CanContinue(g, net, p, states[|states| - 1]);
    more := states + [st'];
    forall i | 0 < i < |more|
      ensures Next(net, more[i - 1], more[i])
    {
      if i < |states| { assert Next(net, states[i - 1], states[i]); }
    }
  }

  /** Every flood goes on until nothing is in flight, and cannot go on forever. */
  lemma {:induction false} FloodFinishes(g: Graph, net: Network, keys: map<Id, set<Key>>, p: Packet, states: seq<Flood>)
    returns (all: seq<Flood>)
    requires Begins(g, net, keys, p) && IsFlood(net, keys, p, states)
    ensures IsFlood(net, keys, p, all) && states <= all && all[|all| - 1].inFlight == multiset{}
    decreases |Directions(g)| + 1 - |states|
  {
    if states[|states| - 1].inFlight == multiset{} {
      all := states;
    } else {
      var more := OneMore(g, net, keys, p, states);
      FloodIsBounded(g, net, keys, p, more);
      all := FloodFinishes(g, net, keys, p, more);
    }
  }
}
