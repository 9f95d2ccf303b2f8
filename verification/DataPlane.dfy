/** Data packets at one node: local delivery, duplicate suppression, next hops and the TTL. */
module DataPlane {
  import opened Clock
  import opened RouterModel
  import opened DedupSet
  import opened MeshRouter

  const BROADCAST: Id := ""
  const MAX_AGE := 30_000
  const U32_MAX := 0xFFFF_FFFF

  datatype Packet = Packet(id: string, origin: Id, dest: Id, ttl: nat, expectResponse: bool)

  type Key = (string, bool)

  function KeyOf(p: Packet): Key { (p.id, p.expectResponse) }

  /** What handling a packet does: the local callback, the keys seen, and the copies sent on. */
  datatype Outcome = Outcome(delivered: bool, seen: set<Key>, forwards: map<Id, Packet>)

  /** The TTL is unsigned: decrementing zero wraps around. */
  function NextTtl(ttl: nat): nat { if ttl == 0 then U32_MAX else ttl - 1 }

  function NextHops(node: Node, dest: Id): set<Id>
  {
    if dest == BROADCAST then node.views.Keys - {node.self}
    else if dest in node.table && node.table[dest].route.cost < INF_COST then {node.table[dest].route.hop}
    else {}
  }

  /** Local delivery and the dedup test let the packet through to the forwarding section. */
  predicate PassesDedup(self: Id, seen: set<Key>, src: Id, p: Packet)
  {
    p.dest != self && (src == self || KeyOf(p) !in seen)
  }

  /** A node ignores what it sent itself. */
  predicate IsForeign(self: Id, src: Id, p: Packet)
  {
    src != self && p.origin != self
  }

  /** Routes a packet that came from `src`, or from this node itself. */
  function RoutePacket(node: Node, seen: set<Key>, src: Id, p: Packet): Outcome
  {
    var delivered := (p.dest == BROADCAST || p.dest == node.self) && p.origin != node.self;
    if !PassesDedup(node.self, seen, src, p) then Outcome(delivered, seen, map[])
    else
      Outcome(delivered, seen + {KeyOf(p)},
              map n | n in NextHops(node, p.dest) && n != src && n != node.self && NextTtl(p.ttl) > 0 ::
                p.(ttl := NextTtl(p.ttl)))
  }

  /** A packet from a neighbour. */
  function HandlePacket(node: Node, seen: set<Key>, src: Id, p: Packet): Outcome
  {
    if IsForeign(node.self, src, p) then RoutePacket(node, seen, src, p) else Outcome(false, seen, map[])
  }

  /**
   The next hop of an addressed packet is a neighbour with the least offer for the destination, and
   there is one exactly when the neighbours' advertisements give a route.
   */
  lemma NextHopsAreBest(node: Node, clock: Time, dest: Id)
    requires NodeInv(node, clock) && dest != BROADCAST && dest != node.self
    ensures NextHops(node, dest) <= node.views.Keys && |NextHops(node, dest)| <= 1
    ensures NextHops(node, dest) != {} <==> HasRoute(node.self, node.views, Advertised(node.views), dest)
    ensures forall n :: n in NextHops(node, dest) ==>
              BestRoute(node.self, node.views, Advertised(node.views), dest, Route(n, node.table[dest].route.cost))
  {
    var has := HasRoute(node.self, node.views, Advertised(node.views), dest);
    if has {
      var r := node.table[dest].route;
      assert BestRoute(node.self, node.views, Advertised(node.views), dest, r) && NextHops(node, dest) == {r.hop};
    }
  }

  /** Forwarded copies carry a smaller TTL exactly when the packet's own is not zero. */
  lemma TtlDecreases(node: Node, seen: set<Key>, src: Id, p: Packet, n: Id)
    requires p.ttl <= U32_MAX && n in HandlePacket(node, seen, src, p).forwards
    ensures 1 <= HandlePacket(node, seen, src, p).forwards[n].ttl <= U32_MAX
    ensures HandlePacket(node, seen, src, p).forwards[n].ttl < p.ttl <==> p.ttl >= 1
  {}

  /** A node with two neighbours and nothing else in its table. */
  function SmallNode(): Node
  {
    Node("a", map["a" := RouteEntry(Route("a", 0), false, 0), "b" := RouteEntry(Route("b", 1), false, 0),
                  "c" := RouteEntry(Route("c", 1), false, 0)],
         map["b" := NeighborView(map[], 0), "c" := NeighborView(map[], 0)], false, 0, 0)
  }

  lemma SmallNodeInv()
    ensures NodeInv(SmallNode(), 0)
  {}

  /** A broadcast that arrives with TTL zero is sent on with the largest TTL there is. */
  lemma ZeroTtlWrapsAround() returns (node: Node, p: Packet)
    ensures NodeInv(node, 0) && p.ttl == 0 && "b" in node.views
    ensures HandlePacket(node, {}, "b", p).forwards == map["c" := p.(ttl := U32_MAX)]
  {
    node, p := SmallNode(), Packet("id", "b", BROADCAST, 0, false);
    SmallNodeInv();
    assert NextHops(node, BROADCAST) == {"b", "c"};
  }

  // ----- which packets count as the same -----

  /**
   Once a packet p has been received for forwarding, a later packet q is forwarded as if p had not
   come, unless it has the same id and agrees in whether it expects a response; then it is not
   forwarded.  Local delivery is never affected.
   */
  lemma SamePacket(node: Node, seen: set<Key>, src: Id, p: Packet, node': Node, src': Id, q: Packet)
    requires node'.self == node.self && IsForeign(node.self, src, p) && p.dest != node.self
    ensures var before := HandlePacket(node', seen, src', q);
            var after := HandlePacket(node', HandlePacket(node, seen, src, p).seen, src', q);
            && after.delivered == before.delivered
            && after.forwards == if q.id == p.id && q.expectResponse == p.expectResponse then map[] else before.forwards
  {}

  /** The same after a packet that this node has sent. */
  lemma SameAsSent(node: Node, seen: set<Key>, p: Packet, node': Node, src': Id, q: Packet)
    requires node'.self == node.self && p.dest != node.self
    ensures var before := HandlePacket(node', seen, src', q);
            var after := HandlePacket(node', RoutePacket(node, seen, node.self, p).seen, src', q);
            && after.delivered == before.delivered
            && after.forwards == if q.id == p.id && q.expectResponse == p.expectResponse then map[] else before.forwards
  {}

  /** What a node sends itself goes out whatever it has seen. */
  lemma OwnPacketsPass(node: Node, seen: set<Key>, seen': set<Key>, q: Packet)
    ensures RoutePacket(node, seen, node.self, q).forwards == RoutePacket(node, seen', node.self, q).forwards
  {}

  // ----- what is remembered -----

  /** What concerns the keys seen: packets that arrive, packets of this node, and cleanups. */
  datatype PacketEvent = Received(src: Id, p: Packet) | Sent(p: Packet) | CleanUp

  type Queue = seq<(Time, Key)>

  /** The packet of the event reaches the forwarding section. */
  ghost predicate Passes(self: Id, q: Queue, ev: PacketEvent)
  {
    match ev
    case Received(src, p) => IsForeign(self, src, p) && PassesDedup(self, Values(q), src, p)
    case Sent(p) => PassesDedup(self, Values(q), self, p)
    case CleanUp => false
  }

  /** What the event does to the queue of seen keys. */
  ghost function QueueAfter(self: Id, q: Queue, ev: PacketEvent, now: Time): Queue
  {
    if ev.CleanUp? then Apply(q, Cleanup, now, MAX_AGE)
    else if Passes(self, q, ev) then Apply(q, Insert(KeyOf(ev.p)), now, MAX_AGE)
    else q
  }

  class Forwarder {
    const router: Router
    const seen: TimedDedupSet<Key>

    ghost predicate Valid()
      reads this, seen, router
    {
      seen.Valid() && seen.maxAge == MAX_AGE && router.Valid()
    }

    constructor (router: Router, now: Time)
      requires router.Valid()
      ensures Valid() && this.router == router && seen.queue == [] && seen.clock == now
    {
      this.router := router;
      seen := new TimedDedupSet<Key>(MAX_AGE, now);
    }

    method DetermineNextHop(dest: Id) returns (hops: set<Id>)
      ensures hops == NextHops(router.State(), dest)
    {
      if dest == BROADCAST {
        hops := router.views.Keys - {router.selfId};
      } else if dest !in router.table || router.table[dest].route.cost >= INF_COST {
        hops := {};
      } else {
        hops := {router.table[dest].route.hop};
      }
    }

    /** One copy per next hop, but not back to where the packet came from. */
    method ForwardTo(hops: set<Id>, src: Id, p: Packet) returns (forwards: map<Id, Packet>)
      ensures forwards == map n | n in hops && n != src && n != router.selfId && NextTtl(p.ttl) > 0 ::
                            p.(ttl := NextTtl(p.ttl))
    {
      forwards := map[];
      var todo := hops;
      while todo != {}
        invariant todo <= hops
        invariant forwards == map n | n in hops && n !in todo && n != src && n != router.selfId && NextTtl(p.ttl) > 0 ::
                                p.(ttl := NextTtl(p.ttl))
        decreases todo
      {
        var next :| next in todo;
        todo := todo - {next};
        if next != src && next != router.selfId {
          var copy := p.(ttl := NextTtl(p.ttl));
          if copy.ttl > 0 {
            forwards := forwards[next := copy];
          }
        }
      }
    }

    method RouteDataPacket(src: Id, p: Packet, now: Time) returns (delivered: bool, forwards: map<Id, Packet>)
      requires Valid() && seen.clock <= now
      modifies seen
      ensures Valid() && seen.clock <= now
      ensures Outcome(delivered, seen.members, forwards) == RoutePacket(router.State(), old(seen.members), src, p)
      ensures p.dest != router.selfId ==> seen.members == old(seen.members) + {(p.id, p.expectResponse)}
      ensures src != router.selfId && (p.id, p.expectResponse) in old(seen.members) ==> forwards == map[]
      ensures IsForeign(router.selfId, src, p) ==>
                seen.queue == QueueAfter(router.selfId, old(seen.queue), Received(src, p), now)
      ensures src == router.selfId ==> seen.queue == QueueAfter(router.selfId, old(seen.queue), Sent(p), now)
    {
      delivered, forwards := false, map[];
      if p.dest == BROADCAST || p.dest == router.selfId {
        delivered := p.origin != router.selfId;
        if p.dest == router.selfId { return; }
      }
      var known := seen.Contains(KeyOf(p));
      if src != router.selfId && known { return; }
      var _ := seen.Insert(KeyOf(p), now);
      var hops := DetermineNextHop(p.dest);
      forwards := ForwardTo(hops, src, p);
    }

    /** Refreshes the timer of the neighbour and routes the packet. */
    method HandleDataPacket(src: Id, p: Packet, now: Time) returns (delivered: bool, forwards: map<Id, Packet>)
      requires Valid() && seen.clock <= now && router.clock <= now
      modifies seen, router
      ensures Valid() && seen.clock <= now
      ensures if IsForeign(router.selfId, src, p)
              then Step(old(router.State()), DataReceived(src, now), now, router.State(), [])
              else router.State() == old(router.State())
      ensures Outcome(delivered, seen.members, forwards) == HandlePacket(router.State(), old(seen.members), src, p)
      ensures seen.queue == QueueAfter(router.selfId, old(seen.queue), Received(src, p), now)
    {
      if src == router.selfId || p.origin == router.selfId {
        return false, map[];
      }
      router.Heard(src, now);
      delivered, forwards := RouteDataPacket(src, p, now);
    }

    /** The part of the periodic maintenance that concerns the keys seen. */
    method CleanUpSeen(now: Time)
      requires Valid() && seen.clock <= now
      modifies seen
      ensures Valid() && seen.clock <= now
      ensures seen.queue == QueueAfter(router.selfId, old(seen.queue), CleanUp, now)
    {
      seen.Cleanup(now);
    }
  }
}
