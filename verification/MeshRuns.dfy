/**
 Runs of the whole network under asynchronous delivery.  Nodes handle their events in any
 interleaving, links are first-in first-out, and triggered updates, full tables and the collection
 of dead routes happen whenever a node's clock says so.  However stale the views and the messages
 under way are, fifteen rounds of full tables make all costs exact.
 */
module MeshRuns {
  import opened Clock
  import opened RouterModel
  import opened UpdateStream
  import opened Convergence

  /**
   The nodes and their clocks, everything that each node has sent, and how much of what n has sent
   the node u has handled, as got[u][n].
   */
  datatype Mesh = Mesh(nodes: Network, clocks: map<Id, Time>, log: map<Id, seq<Broadcast>>, got: map<Id, map<Id, nat>>)

  // ----- steps -----

  /** Links stay up; an update is handled in the order in which it was sent. */
  ghost predicate Allowed(g: Graph, s: Mesh, u: Id, ev: Event)
  {
    match ev
    case UpdateReceived(n, costs, _) =>
      && u in g && n in g[u] && n in s.log && u in s.got && n in s.got[u] && s.got[u][n] < |s.log[n]|
      && u in s.log[n][s.got[u][n]] && costs == s.log[n][s.got[u][n]][u]
    case DataReceived(peer, _) => peer != u
    case Tick(_) => true
    case _ => false
  }

  ghost function GotAfter(s: Mesh, u: Id, ev: Event): map<Id, map<Id, nat>>
  {
    if ev.UpdateReceived? && u in s.got && ev.peer in s.got[u] then
      s.got[u := s.got[u][ev.peer := s.got[u][ev.peer] + 1]]
    else s.got
  }

  /** Node u handles one event; no neighbour of u times out. */
  ghost predicate Moves(g: Graph, s: Mesh, u: Id, ev: Event, now: Time, sent: seq<Broadcast>, s': Mesh)
  {
    && u in g && u in s.nodes && u in s.clocks && u in s.log && u in s'.nodes
    && Allowed(g, s, u, ev) && s.clocks[u] <= now
    && Step(s.nodes[u], ev, now, s'.nodes[u], sent) && s'.nodes[u].views.Keys == g[u]
    && s' == Mesh(s.nodes[u := s'.nodes[u]], s.clocks[u := now], s.log[u := s.log[u] + sent], GotAfter(s, u, ev))
  }

  ghost predicate Next(g: Graph, s: Mesh, s': Mesh)
  {
    exists u, ev, now, sent :: Moves(g, s, u, ev, now, sent, s')
  }

  // ----- what every step keeps -----

  /** Nothing is in the view that the sender does not have, or has settled as unreachable. */
  ghost predicate Known(view: Costs, table: Table)
  {
    forall d :: d in view ==> d in table && (table[d].dirty || table[d].route.cost < INF_COST)
  }

  /** u's view of n once it has handled everything that is under way. */
  ghost function Ahead(s: Mesh, u: Id, n: Id): Costs
    requires u in s.nodes && n in s.nodes[u].views && n in s.log && u in s.got && n in s.got[u]
    requires s.got[u][n] <= |s.log[n]|
  {
    Receive(s.nodes[u].views[n].routes, s.log[n][s.got[u][n]..], u)
  }

  ghost predicate NodeShape(g: Graph, s: Mesh, u: Id)
  {
    && NodeOk(g, s.nodes, u) && u in s.clocks && NodeInv(s.nodes[u], s.clocks[u])
    && u in s.log && (forall i :: 0 <= i < |s.log[u]| ==> s.log[u][i].Keys == g[u])
    && u in s.got && s.got[u].Keys == g[u]
  }

  ghost predicate NodesShape(g: Graph, s: Mesh)
  {
    forall u {:trigger NodeShape(g, s, u)} :: u in g ==> NodeShape(g, s, u)
  }

  ghost predicate LinkShape(g: Graph, s: Mesh, u: Id, n: Id)
  {
    && NodeShape(g, s, u) && NodeShape(g, s, n) && n in g[u]
    && s.got[u][n] <= |s.log[n]| && Known(Ahead(s, u, n), s.nodes[n].table)
  }

  ghost predicate MeshInv(g: Graph, s: Mesh)
  {
    && IsGraph(g) && NodesShape(g, s)
    && forall u, n {:trigger LinkShape(g, s, u, n)} :: u in g && n in g[u] ==> LinkShape(g, s, u, n)
  }

  // ----- one node -----

  /** A tick without a timeout sends what is due and drops what is dead. */
  lemma TickFacts(node: Node, at: Time, now: Time, node': Node, sent: seq<Broadcast>)
    requires Step(node, Tick(at), now, node', sent) && node'.views.Keys == node.views.Keys
    ensures (node', sent) == SendAndCollect(node, at) && node'.views == node.views
  {
    var nt :| StepWith(node, Tick(at), nt, now, node', sent);
    assert ExpireViews(node.views, at).Keys == node.views.Keys;
  }

  lemma UpdateFacts(node: Node, n: Id, costs: Costs, at: Time, now: Time, node': Node, sent: seq<Broadcast>)
    requires Step(node, UpdateReceived(n, costs, at), now, node', sent) && n in node.views
    ensures sent == [] && node'.views.Keys == node.views.Keys
    ensures node'.views[n].routes == ApplyUpdate(node.views[n].routes, costs)
    ensures forall m :: m in node.views && m != n ==> node'.views[m] == node.views[m]
  {
    var nt :| StepWith(node, UpdateReceived(n, costs, at), nt, now, node', sent);
  }

  lemma DataFacts(node: Node, peer: Id, at: Time, now: Time, node': Node, sent: seq<Broadcast>)
    requires Step(node, DataReceived(peer, at), now, node', sent)
    ensures sent == [] && node'.views.Keys == node.views.Keys
    ensures forall m :: m in node.views ==> node'.views[m].routes == node.views[m].routes
  {
    var nt :| StepWith(node, DataReceived(peer, at), nt, now, node', sent);
  }

  /** Everything that is sent goes to all neighbours and is part of the table. */
  lemma SentIsPart(node: Node, at: Time, i: nat)
    requires i < |SendAndCollect(node, at).1|
    ensures var b := SendAndCollect(node, at).1[i];
            b.Keys == node.views.Keys && forall u :: u in b ==> PartOf(b[u], node.table, u)
  {
    var node' := AfterTrigger(node, at);
    assert forall d :: d in node.table ==> d in node'.table && node'.table[d].route == node.table[d].route;
  }

  lemma LastIsFull(node: Node, at: Time, u: Id)
    requires FullDue(node, at) && u in node.views
    ensures var sent := SendAndCollect(node, at).1;
            |sent| > 0 && u in sent[|sent| - 1] && sent[|sent| - 1][u] == FullUpdate(node.table, u)
  {
    var node' := AfterTrigger(node, at);
    assert node'.table.Keys == node.table.Keys;
    assert forall d :: d in node.table ==> node'.table[d].route == node.table[d].route;
    assert FullUpdate(node'.table, u) == FullUpdate(node.table, u);
  }

  // ----- what the sender does to a view that is known -----

  lemma MergeKnown(view: Costs, table: Table, nt: map<Id, Route>, now: Time)
    requires Known(view, table)
    ensures Known(view, Merge(table, nt, now))
  {}

  lemma TriggerKnown(node: Node, at: Time, view: Costs, u: Id)
    requires u in node.views && Known(view, node.table)
    ensures var view' := Receive(view, if TriggerDue(node, at) then TriggeredBroadcast(node) else [], u);
            Known(view', AfterTrigger(node, at).table)
  {
    if TriggerDue(node, at) {
      if |TriggeredBroadcast(node)| == 1 {
        ReceiveOne(view, TriggeredBroadcast(node)[0], u);
      }
    }
  }

  lemma FullKnown(node: Node, full: bool, view: Costs, u: Id)
    requires u in node.views && Known(view, node.table)
    ensures Known(Receive(view, if full then FullBroadcast(node) else [], u), node.table)
  {
    if full { ReceiveOne(view, FullBroadcast(node)[0], u); }
  }

  lemma SendKnown(node: Node, clock: Time, at: Time, view: Costs, u: Id)
    requires NodeInv(node, clock) && u in node.views && Known(view, node.table)
    ensures Known(Receive(view, SendAndCollect(node, at).1, u), SendAndCollect(node, at).0.table)
  {
    var node' := AfterTrigger(node, at);
    var triggered := if TriggerDue(node, at) then TriggeredBroadcast(node) else [];
    var full := if FullDue(node, at) then FullBroadcast(node') else [];
    TriggerKnown(node, at, view, u);
    FullKnown(node', FullDue(node, at), Receive(view, triggered, u), u);
    ReceiveConcat(view, triggered, full, u);
    forall d | d in node'.table && Dead(node'.table[d], at)
      ensures !node'.table[d].dirty
    {
      DeadRoutesAreSent(node, clock, at, d);
    }
  }

  lemma StepKnown(node: Node, ev: Event, clock: Time, now: Time, node': Node, sent: seq<Broadcast>, view: Costs, u: Id)
    requires NodeInv(node, clock) && Step(node, ev, now, node', sent) && u in node.views
    requires node'.views.Keys == node.views.Keys && Known(view, node.table)
    ensures Known(Receive(view, sent, u), node'.table)
  {
    var nt :| StepWith(node, ev, nt, now, node', sent);
    if ev.Tick? {
      TickFacts(node, ev.at, now, node', sent);
      SendKnown(node, clock, ev.at, view, u);
    } else {
      MergeKnown(view, node.table, nt, now);
    }
  }

  // ----- one step of the mesh -----

  lemma SentShape(g: Graph, s: Mesh, u: Id, ev: Event, now: Time, sent: seq<Broadcast>, s': Mesh, i: nat)
    requires NodeShape(g, s, u) && Moves(g, s, u, ev, now, sent, s') && i < |sent|
    ensures ev.Tick? && sent[i].Keys == g[u]
    ensures forall v :: v in g[u] ==> PartOf(sent[i][v], s.nodes[u].table, v)
  {
    var nt :| StepWith(s.nodes[u], ev, nt, now, s'.nodes[u], sent);
    if ev.Tick? {
      TickFacts(s.nodes[u], ev.at, now, s'.nodes[u], sent);
      SentIsPart(s.nodes[u], ev.at, i);
    }
  }

  lemma MoverLog(g: Graph, s: Mesh, u: Id, ev: Event, now: Time, sent: seq<Broadcast>, s': Mesh)
    requires NodeShape(g, s, u) && Moves(g, s, u, ev, now, sent, s')
    ensures u in s'.log && forall i :: 0 <= i < |s'.log[u]| ==> s'.log[u][i].Keys == g[u]
  {
    forall i | 0 <= i < |s'.log[u]|
      ensures s'.log[u][i].Keys == g[u]
    {
      if i >= |s.log[u]| { SentShape(g, s, u, ev, now, sent, s', i - |s.log[u]|); }
    }
  }

  lemma MoverShape(g: Graph, s: Mesh, u: Id, ev: Event, now: Time, sent: seq<Broadcast>, s': Mesh)
    requires NodeShape(g, s, u) && Moves(g, s, u, ev, now, sent, s')
    ensures NodeShape(g, s', u)
  {
    assert NodeInv(s'.nodes[u], s'.clocks[u]) && s'.nodes[u].self == u by {
      StepKeepsInv(s.nodes[u], ev, s.clocks[u], now, s'.nodes[u], sent);
    }
    MoverLog(g, s, u, ev, now, sent, s');
  }

  lemma NodesKeepShape(g: Graph, s: Mesh, u: Id, ev: Event, now: Time, sent: seq<Broadcast>, s': Mesh, v: Id)
    requires NodeShape(g, s, u) && NodeShape(g, s, v) && Moves(g, s, u, ev, now, sent, s')
    ensures NodeShape(g, s', v)
  {
    if v == u { MoverShape(g, s, u, ev, now, sent, s'); }
  }

  /** The part of the log that is under way from n to u. */
  ghost function UnderWay(s: Mesh, u: Id, n: Id): seq<Broadcast>
    requires n in s.log && u in s.got && n in s.got[u] && s.got[u][n] <= |s.log[n]|
  {
    s.log[n][s.got[u][n]..]
  }

  lemma SenderMoves(g: Graph, s: Mesh, n: Id, ev: Event, now: Time, sent: seq<Broadcast>, s': Mesh, u: Id)
    requires IsGraph(g) && u in g && n in g[u] && u in s.nodes && n in s.log && u in s.got && n in s.got[u]
    requires s.got[u][n] <= |s.log[n]| && Moves(g, s, n, ev, now, sent, s')
    ensures s'.nodes[u] == s.nodes[u] && s'.got[u] == s.got[u] && s'.log[n] == s.log[n] + sent
    ensures UnderWay(s', u, n) == UnderWay(s, u, n) + sent
  {}

  lemma SenderKeepsLink(g: Graph, s: Mesh, n: Id, ev: Event, now: Time, sent: seq<Broadcast>, s': Mesh, u: Id)
    requires LinkShape(g, s, u, n)
    requires Moves(g, s, n, ev, now, sent, s') && NodeShape(g, s', u) && NodeShape(g, s', n)
    ensures LinkShape(g, s', u, n) && Ahead(s', u, n) == Receive(Ahead(s, u, n), sent, u)
  {
    SenderMoves(g, s, n, ev, now, sent, s', u);
    ReceiveConcat(s.nodes[u].views[n].routes, UnderWay(s, u, n), sent, u);
    StepKnown(s.nodes[n], ev, s.clocks[n], now, s'.nodes[n], sent, Ahead(s, u, n), u);
  }

  /** u handles the next message from n, or its view of n stays. */
  ghost predicate Handles(s: Mesh, s': Mesh, u: Id, n: Id)
    requires u in s.nodes && n in s.nodes[u].views && n in s.log && u in s.got && n in s.got[u]
    requires u in s'.nodes && n in s'.nodes[u].views && n in s'.log && u in s'.got && n in s'.got[u]
  {
    && s.got[u][n] < |s.log[n]| && s'.got[u][n] == s.got[u][n] + 1 && u in s.log[n][s.got[u][n]]
    && s'.nodes[u].views[n].routes == ApplyUpdate(s.nodes[u].views[n].routes, s.log[n][s.got[u][n]][u])
  }

  lemma ReceiverMoves(g: Graph, s: Mesh, u: Id, ev: Event, now: Time, sent: seq<Broadcast>, s': Mesh, n: Id)
    requires NodeShape(g, s, u) && n in g[u] && n in s.nodes && n in s.log
    requires Moves(g, s, u, ev, now, sent, s') && NodeShape(g, s', u)
    ensures n in s'.nodes && s'.nodes[n] == s.nodes[n] && n in s'.log && s'.log[n] == s.log[n]
    ensures Handles(s, s', u, n)
            || (s'.got[u][n] == s.got[u][n] && s'.nodes[u].views[n].routes == s.nodes[u].views[n].routes)
  {
    assert u != n;
    match ev
    case UpdateReceived(m, costs, at) => UpdateFacts(s.nodes[u], m, costs, at, now, s'.nodes[u], sent);
    case DataReceived(m, at) => DataFacts(s.nodes[u], m, at, now, s'.nodes[u], sent);
    case Tick(at) => TickFacts(s.nodes[u], at, now, s'.nodes[u], sent);
    case _ =>
  }

  /** Handling the first message and then the others is handling them all. */
  lemma ReceiveFirst(view: Costs, sent: seq<Broadcast>, u: Id)
    requires sent != [] && u in sent[0]
    ensures Receive(ApplyUpdate(view, sent[0][u]), sent[1..], u) == Receive(view, sent, u)
  {
    assert sent == [sent[0]] + sent[1..];
    ReceiveConcat(view, [sent[0]], sent[1..], u);
    ReceiveOne(view, sent[0], u);
  }

  lemma ReceiverKeepsLink(g: Graph, s: Mesh, u: Id, ev: Event, now: Time, sent: seq<Broadcast>, s': Mesh, n: Id)
    requires LinkShape(g, s, u, n)
    requires Moves(g, s, u, ev, now, sent, s') && NodeShape(g, s', u) && NodeShape(g, s', n)
    ensures LinkShape(g, s', u, n)
  {
    ReceiverMoves(g, s, u, ev, now, sent, s', n);
    if Handles(s, s', u, n) {
      ReceiveFirst(s.nodes[u].views[n].routes, UnderWay(s, u, n), u);
      assert UnderWay(s', u, n) == UnderWay(s, u, n)[1..];
    }
  }

  lemma LinksKeepShape(g: Graph, s: Mesh, w: Id, ev: Event, now: Time, sent: seq<Broadcast>, s': Mesh, u: Id, n: Id)
    requires LinkShape(g, s, u, n)
    requires Moves(g, s, w, ev, now, sent, s') && NodeShape(g, s', u) && NodeShape(g, s', n)
    ensures LinkShape(g, s', u, n)
  {
    if w == n {
      SenderKeepsLink(g, s, n, ev, now, sent, s', u);
    } else if w == u {
      ReceiverKeepsLink(g, s, u, ev, now, sent, s', n);
    }
  }

  lemma NextKeepsNodes(g: Graph, s: Mesh, w: Id, ev: Event, now: Time, sent: seq<Broadcast>, s': Mesh)
    requires NodesShape(g, s) && Moves(g, s, w, ev, now, sent, s')
    ensures NodesShape(g, s')
  {
    forall u | u in g
      ensures NodeShape(g, s', u)
    {
      assert NodeShape(g, s, u) && NodeShape(g, s, w);
      NodesKeepShape(g, s, w, ev, now, sent, s', u);
    }
  }

  lemma NextKeepsInv(g: Graph, s: Mesh, s': Mesh)
    requires MeshInv(g, s) && Next(g, s, s')
    ensures MeshInv(g, s')
  {
    var w, ev, now, sent :| Moves(g, s, w, ev, now, sent, s');
    NextKeepsNodes(g, s, w, ev, now, sent, s');
    forall u, n | u in g && n in g[u]
      ensures LinkShape(g, s', u, n)
    {
      assert NodeShape(g, s', u) && NodeShape(g, s', n);
      assert LinkShape(g, s, u, n);
      LinksKeepShape(g, s, w, ev, now, sent, s', u, n);
    }
  }
}
