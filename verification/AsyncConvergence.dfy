/**
 Convergence of asynchronous runs.  A round is any stretch of a run in which, over every link, one
 full table has been sent and handled; in each round the radius within which everything is right
 grows by one.
 */
module AsyncConvergence {
  import opened Clock
  import opened RouterModel
  import opened UpdateStream
  import opened Convergence
  import opened MeshRuns

  ghost predicate IsLink(s: Mesh, u: Id, n: Id)
  {
    u in s.nodes && n in s.nodes[u].views && n in s.log && u in s.got && n in s.got[u]
  }

  /** u's view of n once everything before position i of n's log has been handled. */
  ghost function ViewAt(s: Mesh, u: Id, n: Id, i: nat): Costs
    requires IsLink(s, u, n) && i <= |s.log[n]|
  {
    if i <= s.got[u][n] then s.nodes[u].views[n].routes
    else Receive(s.nodes[u].views[n].routes, s.log[n][s.got[u][n]..i], u)
  }

  ghost predicate GoodAt(g: Graph, s: Mesh, u: Id, n: Id, j: nat, r: nat)
    requires IsGraph(g) && u in g && n in g && n in s.log
  {
    j < |s.log[n]| && u in s.log[n][j] && GoodMessage(g, u, n, s.log[n][j][u], r)
  }

  /** The view is right up to radius r from position i of the log on, and so is every later message. */
  ghost predicate GoodFrom(g: Graph, s: Mesh, u: Id, n: Id, i: nat, r: nat)
  {
    && IsGraph(g) && u in g && n in g && IsLink(s, u, n) && i <= |s.log[n]|
    && GoodView(g, u, n, ViewAt(s, u, n, i), r)
    && forall j :: i <= j < |s.log[n]| && s.got[u][n] <= j ==> GoodAt(g, s, u, n, j, r)
  }

  /** Node n and its views, which are right below radius r. */
  ghost predicate GoodNode(g: Graph, s: Mesh, n: Id, r: nat)
  {
    NodeShape(g, s, n) && ViewsGood(g, s.nodes, n, r)
  }

  // ----- a step keeps what is right -----

  lemma SentIsGood(g: Graph, s: Mesh, n: Id, ev: Event, now: Time, sent: seq<Broadcast>, s': Mesh, u: Id, j: nat,
                   r: nat)
    requires GoodNode(g, s, n, r) && u in g[n] && Moves(g, s, n, ev, now, sent, s') && j < |sent|
    ensures u in sent[j] && u in g && GoodMessage(g, u, n, sent[j][u], r)
  {
    assert u in sent[j] && PartOf(sent[j][u], s.nodes[n].table, u) by { SentShape(g, s, n, ev, now, sent, s', j); }
    UpdateIsGood(g, s.nodes, u, n, sent[j][u], r);
  }

  lemma SenderKeepsGood(g: Graph, s: Mesh, s': Mesh, u: Id, n: Id, sent: seq<Broadcast>, i: nat, r: nat)
    requires GoodFrom(g, s, u, n, i, r) && IsLink(s', u, n)
    requires s'.nodes[u] == s.nodes[u] && s'.got[u] == s.got[u] && s'.log[n] == s.log[n] + sent
    requires forall j :: 0 <= j < |sent| ==> u in sent[j] && GoodMessage(g, u, n, sent[j][u], r)
    ensures GoodFrom(g, s', u, n, i, r)
  {
    if s.got[u][n] < i { assert s'.log[n][s.got[u][n]..i] == s.log[n][s.got[u][n]..i]; }
    assert ViewAt(s', u, n, i) == ViewAt(s, u, n, i);
    forall j | i <= j < |s'.log[n]| && s'.got[u][n] <= j
      ensures GoodAt(g, s', u, n, j, r)
    {
      if j >= |s.log[n]| {
        assert s'.log[n][j] == sent[j - |s.log[n]|];
      } else {
        assert GoodAt(g, s, u, n, j, r);
      }
    }
  }

  lemma SenderMoveKeepsGood(g: Graph, s: Mesh, n: Id, ev: Event, now: Time, sent: seq<Broadcast>, s': Mesh, u: Id,
                            i: nat, r: nat)
    requires GoodFrom(g, s, u, n, i, r) && GoodNode(g, s, n, r) && LinkShape(g, s, u, n)
    requires Moves(g, s, n, ev, now, sent, s') && LinkShape(g, s', u, n)
    ensures GoodFrom(g, s', u, n, i, r)
  {
    SenderMoves(g, s, n, ev, now, sent, s', u);
    forall j | 0 <= j < |sent|
      ensures u in sent[j] && GoodMessage(g, u, n, sent[j][u], r)
    {
      SentIsGood(g, s, n, ev, now, sent, s', u, j, r);
    }
    SenderKeepsGood(g, s, s', u, n, sent, i, r);
  }

  lemma HandledViewAt(s: Mesh, s': Mesh, u: Id, n: Id, i: nat)
    requires IsLink(s, u, n) && IsLink(s', u, n) && s'.log[n] == s.log[n]
    requires Handles(s, s', u, n) && s.got[u][n] < i <= |s.log[n]|
    ensures ViewAt(s', u, n, i) == ViewAt(s, u, n, i)
  {
    var ahead := s.log[n][s.got[u][n]..i];
    ReceiveFirst(s.nodes[u].views[n].routes, ahead, u);
    assert ahead[1..] == s.log[n][s'.got[u][n]..i];
  }

  lemma HandlingKeepsView(g: Graph, s: Mesh, s': Mesh, u: Id, n: Id, i: nat, r: nat)
    requires GoodFrom(g, s, u, n, i, r) && IsLink(s', u, n) && s'.log[n] == s.log[n] && Handles(s, s', u, n)
    ensures GoodView(g, u, n, ViewAt(s', u, n, i), r)
  {
    var a := s.got[u][n];
    if a < i {
      HandledViewAt(s, s', u, n, i);
    } else {
      assert GoodAt(g, s, u, n, a, r);
      ApplyGood(g, u, n, s.nodes[u].views[n].routes, s.log[n][a][u], r);
    }
  }

  lemma ViewMovesOn(g: Graph, s: Mesh, s': Mesh, u: Id, n: Id, i: nat, r: nat)
    requires GoodFrom(g, s, u, n, i, r) && IsLink(s', u, n) && s'.log[n] == s.log[n]
    requires Handles(s, s', u, n)
             || (s'.got[u][n] == s.got[u][n] && s'.nodes[u].views[n].routes == s.nodes[u].views[n].routes)
    ensures GoodFrom(g, s', u, n, i, r)
  {
    if Handles(s, s', u, n) { HandlingKeepsView(g, s, s', u, n, i, r); }
    forall j | i <= j < |s'.log[n]| && s'.got[u][n] <= j
      ensures GoodAt(g, s', u, n, j, r)
    {
      assert GoodAt(g, s, u, n, j, r);
    }
  }

  lemma ReceiverKeepsGood(g: Graph, s: Mesh, u: Id, ev: Event, now: Time, sent: seq<Broadcast>, s': Mesh, n: Id,
                          i: nat, r: nat)
    requires GoodFrom(g, s, u, n, i, r) && LinkShape(g, s, u, n)
    requires Moves(g, s, u, ev, now, sent, s') && LinkShape(g, s', u, n)
    ensures GoodFrom(g, s', u, n, i, r)
  {
    ReceiverMoves(g, s, u, ev, now, sent, s', n);
    ViewMovesOn(g, s, s', u, n, i, r);
  }

  lemma OtherMoves(g: Graph, s: Mesh, w: Id, ev: Event, now: Time, sent: seq<Broadcast>, s': Mesh, u: Id, n: Id)
    requires Moves(g, s, w, ev, now, sent, s') && IsLink(s, u, n) && w != u && w != n
    ensures IsLink(s', u, n) && s'.nodes[u] == s.nodes[u] && s'.got[u] == s.got[u] && s'.log[n] == s.log[n]
  {}

  lemma NextKeepsGood(g: Graph, s: Mesh, s': Mesh, u: Id, n: Id, i: nat, r: nat)
    requires Next(g, s, s') && GoodFrom(g, s, u, n, i, r) && GoodNode(g, s, n, r)
    requires LinkShape(g, s, u, n) && LinkShape(g, s', u, n)
    ensures GoodFrom(g, s', u, n, i, r)
  {
    var w, ev, now, sent :| Moves(g, s, w, ev, now, sent, s');
    if w == n {
      SenderMoveKeepsGood(g, s, n, ev, now, sent, s', u, i, r);
    } else if w == u {
      ReceiverKeepsGood(g, s, u, ev, now, sent, s', n, i, r);
    } else {
      OtherMoves(g, s, w, ev, now, sent, s', u, n);
      ViewMovesOn(g, s, s', u, n, i, r);
    }
  }

  // ----- a full table makes a link right -----

  /** n sends its full table. */
  ghost predicate FullTick(g: Graph, s: Mesh, s': Mesh, n: Id)
  {
    exists at, now, sent :: Moves(g, s, n, Tick(at), now, sent, s') && FullDue(s.nodes[n], at)
  }

  /** Handling parts of the table adds no other destinations to the view. */
  lemma {:induction false} ReceiveKeys(view: Costs, sent: seq<Broadcast>, u: Id, table: Table)
    requires view.Keys <= table.Keys
    requires forall i :: 0 <= i < |sent| ==> u in sent[i] && PartOf(sent[i][u], table, u)
    ensures Receive(view, sent, u).Keys <= table.Keys
  {
    if sent != [] {
      ReceiveKeys(view, sent[..|sent| - 1], u, table);
      assert PartOf(sent[|sent| - 1][u], table, u);
    }
  }

  /** The last of the messages sent is the full table; applied to a view that is known it makes a right one. */
  lemma FullMakesGood(g: Graph, net: Network, u: Id, n: Id, view: Costs, sent: seq<Broadcast>, r: nat)
    requires NodeOk(g, net, n) && ViewsGood(g, net, n, r) && u in g[n] && view.Keys <= net[n].table.Keys
    requires forall i :: 0 <= i < |sent| ==> u in sent[i] && PartOf(sent[i][u], net[n].table, u)
    requires |sent| > 0 && sent[|sent| - 1][u] == FullUpdate(net[n].table, u)
    ensures GoodView(g, u, n, Receive(view, sent, u), r)
  {
    var before := Receive(view, sent[..|sent| - 1], u);
    ReceiveKeys(view, sent[..|sent| - 1], u, net[n].table);
    FullTableIsGood(g, net, u, n, before, r);
  }

  lemma FullTickSends(g: Graph, s: Mesh, n: Id, at: Time, now: Time, sent: seq<Broadcast>, s': Mesh, u: Id,
                      view: Costs, r: nat)
    requires GoodNode(g, s, n, r) && u in g[n] && Moves(g, s, n, Tick(at), now, sent, s') && FullDue(s.nodes[n], at)
    requires Known(view, s.nodes[n].table)
    ensures sent != [] && u in g && GoodView(g, u, n, Receive(view, sent, u), r)
  {
    TickFacts(s.nodes[n], at, now, s'.nodes[n], sent);
    LastIsFull(s.nodes[n], at, u);
    forall i | 0 <= i < |sent|
      ensures u in sent[i] && PartOf(sent[i][u], s.nodes[n].table, u)
    {
      SentIsPart(s.nodes[n], at, i);
    }
    FullMakesGood(g, s.nodes, u, n, view, sent, r);
  }

  lemma AheadIsGood(g: Graph, s: Mesh, u: Id, n: Id, r: nat)
    requires LinkShape(g, s, u, n) && GoodView(g, u, n, Ahead(s, u, n), r)
    ensures GoodFrom(g, s, u, n, |s.log[n]|, r)
  {
    assert s.log[n][s.got[u][n]..|s.log[n]|] == UnderWay(s, u, n);
    if s.got[u][n] == |s.log[n]| { assert UnderWay(s, u, n) == []; }
    assert ViewAt(s, u, n, |s.log[n]|) == Ahead(s, u, n);
  }

  lemma FullTickMakesGood(g: Graph, s: Mesh, s': Mesh, u: Id, n: Id, r: nat)
    requires LinkShape(g, s, u, n) && LinkShape(g, s', u, n) && FullTick(g, s, s', n) && GoodNode(g, s, n, r)
    ensures GoodFrom(g, s', u, n, |s'.log[n]|, r)
  {
    var at, now, sent :| Moves(g, s, n, Tick(at), now, sent, s') && FullDue(s.nodes[n], at);
    FullTickSends(g, s, n, at, now, sent, s', u, Ahead(s, u, n), r);
    SenderKeepsLink(g, s, n, Tick(at), now, sent, s', u);
    AheadIsGood(g, s', u, n, r);
  }

  // ----- levels -----

  /** Over every link, views and messages under way are right below radius r. */
  ghost predicate Level(g: Graph, s: Mesh, r: nat)
  {
    forall u, n {:trigger LinkGood(g, s, u, n, r)} :: u in g && n in g[u] ==> LinkGood(g, s, u, n, r)
  }

  ghost predicate LinkGood(g: Graph, s: Mesh, u: Id, n: Id, r: nat)
  {
    r > 0 ==> GoodFrom(g, s, u, n, 0, r - 1)
  }

  lemma LevelViews(g: Graph, s: Mesh, r: nat, u: Id)
    requires MeshInv(g, s) && Level(g, s, r) && u in g
    ensures GoodNode(g, s, u, r)
  {
    assert NodeShape(g, s, u);
    if r > 0 {
      forall n | n in g[u]
        ensures ViewGoodAt(g, s.nodes, u, n, r - 1)
      {
        assert LinkGood(g, s, u, n, r);
      }
    }
  }

  lemma GoodNodeBelow(g: Graph, s: Mesh, u: Id, r: nat)
    requires r > 0 && GoodNode(g, s, u, r)
    ensures GoodNode(g, s, u, r - 1)
  {
    if r > 1 {
      forall n | n in g[u]
        ensures ViewGoodAt(g, s.nodes, u, n, r - 2)
      {
        assert ViewGoodAt(g, s.nodes, u, n, r - 1);
      }
    }
  }

  lemma NextKeepsLevel(g: Graph, s: Mesh, s': Mesh, r: nat)
    requires MeshInv(g, s) && MeshInv(g, s') && Next(g, s, s') && Level(g, s, r)
    ensures Level(g, s', r)
  {
    if r > 0 {
      forall u, n | u in g && n in g[u]
        ensures LinkGood(g, s', u, n, r)
      {
        assert LinkGood(g, s, u, n, r) && LinkShape(g, s, u, n) && LinkShape(g, s', u, n);
        LevelViews(g, s, r, n);
        GoodNodeBelow(g, s, n, r);
        NextKeepsGood(g, s, s', u, n, 0, r - 1);
      }
    }
  }

  // ----- runs -----

  ghost predicate Follows(g: Graph, states: seq<Mesh>, i: nat)
  {
    i < |states| && if i == 0 then MeshInv(g, states[0]) else Next(g, states[i - 1], states[i])
  }

  ghost predicate IsRun(g: Graph, states: seq<Mesh>)
  {
    |states| > 0 && forall i: nat {:trigger Follows(g, states, i)} :: i < |states| ==> Follows(g, states, i)
  }

  lemma {:induction false} RunKeepsInv(g: Graph, states: seq<Mesh>, i: nat)
    requires IsRun(g, states) && i < |states|
    ensures MeshInv(g, states[i])
  {
    assert Follows(g, states, i);
    if i > 0 {
      RunKeepsInv(g, states, i - 1);
      NextKeepsInv(g, states[i - 1], states[i]);
    }
  }

  lemma NextLevelAt(g: Graph, states: seq<Mesh>, t: nat, r: nat)
    requires IsRun(g, states) && 0 < t < |states| && Level(g, states[t - 1], r)
    ensures Level(g, states[t], r)
  {
    RunKeepsInv(g, states, t - 1);
    RunKeepsInv(g, states, t);
    assert Follows(g, states, t);
    NextKeepsLevel(g, states[t - 1], states[t], r);
  }

  lemma {:induction false} LevelStays(g: Graph, states: seq<Mesh>, i: nat, j: nat, r: nat)
    requires IsRun(g, states) && i <= j < |states| && Level(g, states[i], r)
    ensures Level(g, states[j], r)
    decreases j
  {
    if i < j {
      LevelStays(g, states, i, j - 1, r);
      NextLevelAt(g, states, j, r);
    }
  }

  lemma NextGoodAt(g: Graph, states: seq<Mesh>, t: nat, u: Id, n: Id, i: nat, r: nat)
    requires IsRun(g, states) && 0 < t < |states| && u in g && n in g[u] && n in g
    requires Level(g, states[t - 1], r) && GoodFrom(g, states[t - 1], u, n, i, r)
    ensures GoodFrom(g, states[t], u, n, i, r)
  {
    assert GoodNode(g, states[t - 1], n, r) && LinkShape(g, states[t - 1], u, n) by {
      RunKeepsInv(g, states, t - 1);
      LevelViews(g, states[t - 1], r, n);
    }
    assert LinkShape(g, states[t], u, n) by { RunKeepsInv(g, states, t); }
    assert Follows(g, states, t);
    NextKeepsGood(g, states[t - 1], states[t], u, n, i, r);
  }

  lemma {:induction false} GoodStays(g: Graph, states: seq<Mesh>, t: nat, t': nat, u: Id, n: Id, i: nat, r: nat)
    requires IsRun(g, states) && t <= t' < |states| && u in g && n in g[u] && n in g
    requires Level(g, states[t], r) && GoodFrom(g, states[t], u, n, i, r)
    ensures GoodFrom(g, states[t'], u, n, i, r)
    decreases t'
  {
    if t < t' {
      GoodStays(g, states, t, t' - 1, u, n, i, r);
      LevelStays(g, states, t, t' - 1, r);
      NextGoodAt(g, states, t', u, n, i, r);
    }
  }

  lemma FullTickGoodAt(g: Graph, states: seq<Mesh>, t: nat, u: Id, n: Id, r: nat)
    requires IsRun(g, states) && t + 1 < |states| && u in g && n in g[u] && n in g
    requires Level(g, states[t], r) && FullTick(g, states[t], states[t + 1], n)
    ensures n in states[t + 1].log && GoodFrom(g, states[t + 1], u, n, |states[t + 1].log[n]|, r)
  {
    assert LinkShape(g, states[t], u, n) && GoodNode(g, states[t], n, r) by {
      RunKeepsInv(g, states, t);
      LevelViews(g, states[t], r, n);
    }
    assert LinkShape(g, states[t + 1], u, n) by { RunKeepsInv(g, states, t + 1); }
    FullTickMakesGood(g, states[t], states[t + 1], u, n, r);
  }

  // ----- rounds -----

  /** Between e and e', n sends a full table at step t, and by e' u has handled it. */
  ghost predicate FullTableHandled(g: Graph, states: seq<Mesh>, e: nat, t: nat, e': nat, u: Id, n: Id)
  {
    && e <= t < e' < |states| && FullTick(g, states[t], states[t + 1], n)
    && n in states[t + 1].log && u in states[e'].got && n in states[e'].got[u]
    && |states[t + 1].log[n]| <= states[e'].got[u][n]
  }

  ghost predicate LinkRound(g: Graph, states: seq<Mesh>, e: nat, e': nat, u: Id, n: Id)
  {
    exists t: nat :: FullTableHandled(g, states, e, t, e', u, n)
  }

  /** Over every link a full table is sent and handled, whatever else happens in between. */
  ghost predicate Round(g: Graph, states: seq<Mesh>, e: nat, e': nat)
  {
    && e <= e' < |states|
    && forall u, n {:trigger LinkRound(g, states, e, e', u, n)} :: u in g && n in g[u] ==>
         LinkRound(g, states, e, e', u, n)
  }

  lemma HandledIsGood(g: Graph, s: Mesh, u: Id, n: Id, i: nat, r: nat)
    requires GoodFrom(g, s, u, n, i, r) && i <= s.got[u][n]
    ensures GoodFrom(g, s, u, n, 0, r)
  {
    forall j | 0 <= j < |s.log[n]| && s.got[u][n] <= j
      ensures GoodAt(g, s, u, n, j, r)
    {
      assert i <= j;
    }
  }

  lemma TickImproves(g: Graph, states: seq<Mesh>, t: nat, t': nat, u: Id, n: Id, r: nat)
    requires IsRun(g, states) && t < t' < |states| && u in g && n in g[u] && n in g
    requires Level(g, states[t], r) && FullTick(g, states[t], states[t + 1], n)
    ensures n in states[t + 1].log && GoodFrom(g, states[t'], u, n, |states[t + 1].log[n]|, r)
  {
    LevelStays(g, states, t, t + 1, r);
    FullTickGoodAt(g, states, t, u, n, r);
    GoodStays(g, states, t + 1, t', u, n, |states[t + 1].log[n]|, r);
  }

  lemma LinkImproves(g: Graph, states: seq<Mesh>, e: nat, e': nat, u: Id, n: Id, r: nat)
    requires IsRun(g, states) && u in g && n in g[u] && n in g && LinkRound(g, states, e, e', u, n)
    requires e < |states| && e' < |states| && Level(g, states[e], r)
    ensures GoodFrom(g, states[e'], u, n, 0, r)
  {
    var t: nat :| FullTableHandled(g, states, e, t, e', u, n);
    LevelStays(g, states, e, t, r);
    TickImproves(g, states, t, e', u, n, r);
    HandledIsGood(g, states[e'], u, n, |states[t + 1].log[n]|, r);
  }

  lemma RoundRaisesLevel(g: Graph, states: seq<Mesh>, e: nat, e': nat, r: nat)
    requires IsRun(g, states) && Round(g, states, e, e') && Level(g, states[e], r)
    ensures Level(g, states[e'], r + 1)
  {
    forall u, n | u in g && n in g[u]
      ensures LinkGood(g, states[e'], u, n, r + 1)
    {
      assert LinkRound(g, states, e, e', u, n) && n in g;
      LinkImproves(g, states, e, e', u, n, r);
    }
  }

  /** Rounds one after the other, from marks[0] on. */
  ghost predicate Rounds(g: Graph, states: seq<Mesh>, marks: seq<nat>)
  {
    |marks| > 0 && marks[0] < |states| && forall i :: 0 <= i < |marks| - 1 ==> Round(g, states, marks[i], marks[i + 1])
  }

  lemma {:induction false} LevelAfterRounds(g: Graph, states: seq<Mesh>, marks: seq<nat>, r: nat)
    requires IsRun(g, states) && Rounds(g, states, marks) && r < |marks|
    ensures marks[r] < |states| && Level(g, states[marks[r]], r)
  {
    if r > 0 {
      LevelAfterRounds(g, states, marks, r - 1);
      assert Round(g, states, marks[r - 1], marks[r - 1 + 1]);
      RoundRaisesLevel(g, states, marks[r - 1], marks[r], r - 1);
    }
  }

  /** State t of the run comes after 15 rounds. */
  ghost predicate AfterFifteenRounds(g: Graph, states: seq<Mesh>, marks: seq<nat>, t: nat)
  {
    IsRun(g, states) && Rounds(g, states, marks) && |marks| == 16 && marks[15] <= t < |states|
  }

  lemma GoodAfterFifteenRounds(g: Graph, states: seq<Mesh>, marks: seq<nat>, t: nat, u: Id)
    requires AfterFifteenRounds(g, states, marks, t) && u in g
    ensures GoodNode(g, states[t], u, 15)
  {
    LevelAfterRounds(g, states, marks, 15);
    LevelStays(g, states, marks[15], t, 15);
    RunKeepsInv(g, states, t);
    LevelViews(g, states[t], 15, u);
  }

  /**
   From any state, however stale its views and the messages under way, and in every interleaving:
   at every moment after 15 rounds each table holds exactly the hop distance of every destination
   at most 15 links away, and no finite route to anything else.
   */
  lemma ConvergesInFifteenRounds(g: Graph, states: seq<Mesh>, marks: seq<nat>, t: nat, u: Id, d: Id, k: nat)
    requires AfterFifteenRounds(g, states, marks, t) && u in g && k < INF_COST
    ensures IsGraph(g) && (CostAt(states[t].nodes, u, d) == k <==> Distance(g, u, d, k))
  {
    GoodAfterFifteenRounds(g, states, marks, t, u);
    CostIsDistance(g, states[t].nodes, u, d, k, 15);
  }

  /** At every moment after 15 rounds every next hop is a neighbour one link closer to the destination. */
  lemma HopsAreCloserAfterFifteenRounds(g: Graph, states: seq<Mesh>, marks: seq<nat>, t: nat, u: Id, d: Id, k: nat)
    requires AfterFifteenRounds(g, states, marks, t) && u in g && CostAt(states[t].nodes, u, d) == k && 0 < k < INF_COST
    ensures IsGraph(g) && HopAt(states[t].nodes, u, d) in g[u] && Distance(g, HopAt(states[t].nodes, u, d), d, k - 1)
  {
    GoodAfterFifteenRounds(g, states, marks, t, u);
    HopIsCloser(g, states[t].nodes, u, d, k, 15);
  }
}
