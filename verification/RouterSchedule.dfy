/**
 What a node sends and forgets, and when, over whole runs: full tables every ten seconds, triggered
 updates not before the debounce time and with exactly the news, and dead routes for fifteen seconds.
 */
module RouterSchedule {
  import opened Clock
  import opened RouterModel
  import opened UpdateStream
  import opened RouterTiming

  // ----- full tables -----

  /** When the last full table before step i went out; a new router waits for a whole interval. */
  function LastFull(tr: Trace, i: nat): Time
    requires |tr.times| > 0 && i <= |tr.events|
    decreases i, 0
  {
    if i == 0 then tr.times[0] else if FullDueAt(tr, i - 1) then tr.events[i - 1].at else LastFull(tr, i - 1)
  }

  predicate FullDueAt(tr: Trace, i: nat)
    requires |tr.times| > 0 && i < |tr.events|
    decreases i, 1
  {
    tr.events[i].Tick? && tr.events[i].at - LastFull(tr, i) > UPDATE_INTERVAL
  }

  lemma StepPeriodic(node: Node, ev: Event, now: Time, node': Node, sent: seq<Broadcast>)
    requires Step(node, ev, now, node', sent)
    ensures node'.lastPeriodic == if ev.Tick? && FullDue(node, ev.at) then ev.at else node.lastPeriodic
  {
    var nt :| StepWith(node, ev, nt, now, node', sent);
  }

  lemma {:induction false} PeriodicIs(tr: Trace, i: nat)
    requires Begins(tr) && i <= |tr.events|
    ensures tr.nodes[i].lastPeriodic == LastFull(tr, i)
  {
    if i > 0 {
      PeriodicIs(tr, i - 1);
      assert StepAt(tr, i - 1);
      StepPeriodic(tr.nodes[i - 1], tr.events[i - 1], tr.times[i], tr.nodes[i], tr.sent[i - 1]);
    }
  }

  /** The message tells all neighbours everything in the table, and nothing else as reachable. */
  ghost predicate TellsAll(b: Broadcast, node': Node)
  {
    && b.Keys == node'.views.Keys
    && forall n, d :: n in b ==>
         (d in node'.table ==> d in b[n]) && (d in b[n] ==> b[n][d] == AdvertisedCost(node', d, n))
  }

  lemma FullTellsAll(mid: Node, clock: Time, at: Time)
    requires NodeInv(mid, clock) && FullDue(mid, at)
    ensures var (node', sent) := SendAndCollect(mid, at); sent != [] && TellsAll(sent[|sent| - 1], node')
  {
    var (node', sent) := SendAndCollect(mid, at);
    var b := sent[|sent| - 1];
    assert b == FullBroadcast(AfterTrigger(mid, at))[0];
    forall n, d | n in b
      ensures (d in node'.table ==> d in b[n]) && (d in b[n] ==> b[n][d] == AdvertisedCost(node', d, n))
    {
      if d in mid.table { AdvertisedIs(mid, clock, at, d, n); }
    }
  }

  // ----- triggered updates -----

  /** More goes out than a full table that is due. */
  predicate TriggeredAt(tr: Trace, i: nat)
    requires |tr.times| > 0 && i < |tr.events| == |tr.sent|
  {
    |tr.sent[i]| > if FullDueAt(tr, i) then 1 else 0
  }

  /** A trigger is pending only while something is unsent. */
  ghost predicate SomethingDirty(node: Node)
  {
    node.triggerPending ==> exists d :: d in node.table && node.table[d].dirty
  }

  lemma MergedKeepsDirty(node: Node, mid: Node, now: Time)
    requires Merged(node, mid, now) && SomethingDirty(node)
    ensures SomethingDirty(mid)
  {
    if node.triggerPending {
      var d :| d in node.table && node.table[d].dirty;
      assert d in mid.table && mid.table[d].dirty;
    } else if mid.triggerPending {
      var d :| Differs(node.table, mid.table, d);
      assert mid.table[d].dirty;
    }
  }

  lemma SendKeepsDirty(mid: Node, clock: Time, at: Time)
    requires NodeInv(mid, clock) && SomethingDirty(mid)
    ensures SomethingDirty(SendAndCollect(mid, at).0)
  {
    if mid.triggerPending && !TriggerDue(mid, at) {
      var d :| d in mid.table && mid.table[d].dirty;
      if Dead(mid.table[d], at) { DeadRoutesAreSent(mid, clock, at, d); }
      SendKeeps(mid, at, d);
    }
  }

  lemma {:induction false} AlwaysSomethingDirty(tr: Trace, i: nat)
    requires Begins(tr) && i <= |tr.events|
    ensures SomethingDirty(tr.nodes[i])
  {
    if i > 0 {
      AlwaysSomethingDirty(tr, i - 1);
      var mid := Middle(tr, i - 1);
      MergedKeepsDirty(tr.nodes[i - 1], mid, tr.times[i]);
      if tr.events[i - 1].Tick? { SendKeepsDirty(mid, tr.times[i], tr.events[i - 1].at); }
    }
  }

  /** The state of step i before anything is sent. */
  ghost predicate IsMiddle(tr: Trace, i: nat, mid: Node)
    requires IsTrace(tr) && i < |tr.events|
  {
    var (at, now, node') := (tr.events[i].at, tr.times[i + 1], tr.nodes[i + 1]);
    && Merged(tr.nodes[i], mid, now) && NodeInv(mid, now) && at <= now
    && if tr.events[i].Tick? then (node', tr.sent[i]) == SendAndCollect(mid, at) else node' == mid && tr.sent[i] == []
  }

  lemma Middle(tr: Trace, i: nat) returns (mid: Node)
    requires Begins(tr) && i < |tr.events|
    ensures IsMiddle(tr, i, mid)
  {
    BeginsInv(tr, i);
    assert StepAt(tr, i);
    mid := StepMerges(tr.nodes[i], tr.events[i], tr.times[i], tr.times[i + 1], tr.nodes[i + 1], tr.sent[i]);
  }

  lemma SentCount(mid: Node, at: Time)
    requires SomethingDirty(mid)
    ensures |SendAndCollect(mid, at).1| == (if TriggerDue(mid, at) then 1 else 0) + if FullDue(mid, at) then 1 else 0
  {}

  /** A triggered update goes out exactly when a trigger was pending and its time has come. */
  lemma TriggeredIff(tr: Trace, i: nat, mid: Node)
    requires Begins(tr) && i < |tr.events| && IsMiddle(tr, i, mid)
    ensures TriggeredAt(tr, i) <==> tr.events[i].Tick? && TriggerDue(mid, tr.events[i].at)
    ensures TriggeredAt(tr, i) ==> TriggerDue(tr.nodes[i], tr.events[i].at)
    ensures SomethingDirty(mid)
  {
    AlwaysSomethingDirty(tr, i);
    MergedKeepsDirty(tr.nodes[i], mid, tr.times[i + 1]);
    PeriodicIs(tr, i);
    if tr.events[i].Tick? { SentCount(mid, tr.events[i].at); }
  }

  /** A full table goes out to all neighbours at exactly the ticks more than 10 s after the last one. */
  lemma FullGoesOut(tr: Trace, i: nat)
    requires Begins(tr) && i < |tr.events|
    ensures FullDueAt(tr, i) ==> tr.sent[i] != [] && TellsAll(tr.sent[i][|tr.sent[i]| - 1], tr.nodes[i + 1])
    ensures |tr.sent[i]| == (if TriggeredAt(tr, i) then 1 else 0) + if FullDueAt(tr, i) then 1 else 0
  {
    var mid := Middle(tr, i);
    TriggeredIff(tr, i, mid);
    PeriodicIs(tr, i);
    if tr.events[i].Tick? {
      SentCount(mid, tr.events[i].at);
      if FullDueAt(tr, i) { FullTellsAll(mid, tr.times[i + 1], tr.events[i].at); }
    }
  }

  // ----- not before the debounce time -----

  /** At step j, with nothing unsent before, some route changes. */
  ghost predicate ArmedAt(tr: Trace, j: nat)
    requires IsTrace(tr) && j < |tr.events|
  {
    && (forall d :: d in tr.nodes[j].table ==> !tr.nodes[j].table[d].dirty)
    && exists d :: ChangedAt(tr, j, d)
  }

  /** No triggered update goes out from step j up to step i. */
  ghost predicate QuietFrom(tr: Trace, j: nat, i: nat)
    requires |tr.times| > 0 && i <= |tr.events| == |tr.sent|
  {
    forall s :: j <= s < i ==> !TriggeredAt(tr, s)
  }

  lemma QuietStep(tr: Trace, j: nat, i: nat)
    requires |tr.times| > 0 && j <= i < |tr.events| == |tr.sent|
    ensures QuietFrom(tr, j, i + 1) <==> QuietFrom(tr, j, i) && !TriggeredAt(tr, i)
  {}

  ghost predicate ArmedSince(tr: Trace, j: nat, i: nat)
    requires IsTrace(tr) && i <= |tr.events|
  {
    j < i && ArmedAt(tr, j) && QuietFrom(tr, j, i) && tr.nodes[i].triggerDeadline == tr.times[j + 1] + TRIGGER_DEBOUNCE
  }

  /** The trigger is armed in this step. */
  lemma Arms(tr: Trace, i: nat, mid: Node)
    requires Begins(tr) && i < |tr.events| && IsMiddle(tr, i, mid)
    requires !tr.nodes[i].triggerPending && tr.nodes[i + 1].triggerPending && NodeInv(tr.nodes[i], tr.times[i])
    ensures ArmedSince(tr, i, i + 1)
  {
    TriggeredIff(tr, i, mid);
    var d :| Differs(tr.nodes[i].table, mid.table, d);
    if tr.events[i].Tick? { SendKeeps(mid, tr.events[i].at, d); }
    assert ChangedAt(tr, i, d);
  }

  lemma StaysArmed(tr: Trace, j: nat, i: nat, mid: Node)
    requires Begins(tr) && i < |tr.events| && IsMiddle(tr, i, mid) && ArmedSince(tr, j, i)
    requires tr.nodes[i].triggerPending && tr.nodes[i + 1].triggerPending
    ensures ArmedSince(tr, j, i + 1)
  {
    TriggeredIff(tr, i, mid);
    QuietStep(tr, j, i);
    assert mid.triggerDeadline == tr.nodes[i].triggerDeadline == tr.nodes[i + 1].triggerDeadline;
  }

  lemma {:induction false} PendingIsArmed(tr: Trace, i: nat) returns (j: nat)
    requires Begins(tr) && i <= |tr.events| && tr.nodes[i].triggerPending
    ensures ArmedSince(tr, j, i)
    decreases i
  {
    var mid := Middle(tr, i - 1);
    if tr.nodes[i - 1].triggerPending {
      j := PendingIsArmed(tr, i - 1);
      StaysArmed(tr, j, i - 1, mid);
    } else {
      j := i - 1;
      BeginsInv(tr, j);
      Arms(tr, j, mid);
    }
  }

  /**
   A triggered update never goes out earlier than 100 ms after the change that armed it: the first
   one after everything before had been sent.
   */
  lemma NotBeforeDebounce(tr: Trace, i: nat) returns (j: nat)
    requires Begins(tr) && i < |tr.events| && TriggeredAt(tr, i)
    ensures j < i && ArmedAt(tr, j) && QuietFrom(tr, j, i) && tr.events[i].at >= tr.times[j + 1] + TRIGGER_DEBOUNCE
  {
    var mid := Middle(tr, i);
    TriggeredIff(tr, i, mid);
    j := PendingIsArmed(tr, i);
  }

  // ----- exactly the news -----

  /** The route to d has changed at step i or before, and no triggered update has gone out since. */
  ghost predicate News(tr: Trace, d: Id, i: nat)
    requires IsTrace(tr) && i <= |tr.events|
  {
    exists s :: 0 <= s < i && NewsFrom(tr, d, s, i)
  }

  ghost predicate NewsFrom(tr: Trace, d: Id, s: nat, i: nat)
    requires IsTrace(tr) && s < i <= |tr.events|
  {
    ChangedAt(tr, s, d) && QuietFrom(tr, s, i)
  }

  ghost predicate DirtyAt(node: Node, d: Id) { d in node.table && node.table[d].dirty }

  lemma NewsGoesOn(tr: Trace, d: Id, i: nat)
    requires IsTrace(tr) && i < |tr.events|
    ensures News(tr, d, i + 1) <==> !TriggeredAt(tr, i) && (ChangedAt(tr, i, d) || News(tr, d, i))
  {
    if News(tr, d, i + 1) {
      var s :| 0 <= s < i + 1 && NewsFrom(tr, d, s, i + 1);
      QuietStep(tr, s, i);
      assert s < i ==> NewsFrom(tr, d, s, i);
    }
    if !TriggeredAt(tr, i) {
      if ChangedAt(tr, i, d) {
        QuietStep(tr, i, i);
        assert NewsFrom(tr, d, i, i + 1);
      } else if News(tr, d, i) {
        var s :| 0 <= s < i && NewsFrom(tr, d, s, i);
        QuietStep(tr, s, i);
        assert NewsFrom(tr, d, s, i + 1);
      }
    }
  }

  /** A change that a step makes is never dropped in the same step. */
  lemma ChangeStays(tr: Trace, i: nat, mid: Node, d: Id)
    requires Begins(tr) && i < |tr.events| && IsMiddle(tr, i, mid)
    ensures ChangedAt(tr, i, d) <==> Differs(tr.nodes[i].table, mid.table, d)
  {
    if tr.events[i].Tick? { SendKeeps(mid, tr.events[i].at, d); }
  }

  lemma DirtyAfter(tr: Trace, i: nat, mid: Node, d: Id)
    requires Begins(tr) && i < |tr.events| && IsMiddle(tr, i, mid)
    ensures DirtyAt(mid, d) <==> ChangedAt(tr, i, d) || DirtyAt(tr.nodes[i], d)
    ensures DirtyAt(tr.nodes[i + 1], d) <==> DirtyAt(mid, d) && !TriggeredAt(tr, i)
  {
    ChangeStays(tr, i, mid, d);
    TriggeredIff(tr, i, mid);
    if tr.events[i].Tick? {
      var at := tr.events[i].at;
      SendKeeps(mid, at, d);
      if DirtyAt(mid, d) && Dead(mid.table[d], at) { DeadRoutesAreSent(mid, tr.times[i + 1], at, d); }
    }
  }

  lemma {:induction false} DirtyIsNews(tr: Trace, d: Id, i: nat)
    requires Begins(tr) && i <= |tr.events|
    ensures DirtyAt(tr.nodes[i], d) <==> News(tr, d, i)
  {
    if i > 0 {
      DirtyIsNews(tr, d, i - 1);
      var mid := Middle(tr, i - 1);
      DirtyAfter(tr, i - 1, mid, d);
      NewsGoesOn(tr, d, i - 1);
    }
  }

  /** d is at infinity when the messages of step i go out, or is dropped after them. */
  predicate LostAt(tr: Trace, i: nat, d: Id)
    requires i + 1 < |tr.nodes|
  {
    if d in tr.nodes[i + 1].table then tr.nodes[i + 1].table[d].route.cost == INF_COST else d in tr.nodes[i].table
  }

  lemma LostIff(tr: Trace, i: nat, mid: Node, d: Id)
    requires Begins(tr) && i < |tr.events| && IsMiddle(tr, i, mid)
    ensures LostAt(tr, i, d) <==> d in mid.table && mid.table[d].route.cost >= INF_COST
  {
    if tr.events[i].Tick? {
      SendKeeps(mid, tr.events[i].at, d);
      if d in mid.table && d !in tr.nodes[i].table { assert Differs(tr.nodes[i].table, mid.table, d); }
    }
  }

  /**
   A triggered update tells every neighbour about a destination if and only if its route has changed
   since the last triggered update or is lost, and it tells the cost, poisoned for its next hop.
   */
  lemma TriggeredTells(tr: Trace, i: nat, n: Id, d: Id)
    requires Begins(tr) && i < |tr.events| && TriggeredAt(tr, i) && n in tr.nodes[i + 1].views
    ensures tr.sent[i] != [] && n in tr.sent[i][0]
    ensures var update := tr.sent[i][0][n];
            && (d in update <==> ChangedAt(tr, i, d) || News(tr, d, i) || LostAt(tr, i, d))
            && (d in update ==> update[d] == AdvertisedCost(tr.nodes[i + 1], d, n))
  {
    var mid := Middle(tr, i);
    TriggeredIff(tr, i, mid);
    assert exists e :: e in mid.table && Due(mid.table[e]) by {
      var e :| e in mid.table && mid.table[e].dirty;
      assert Due(mid.table[e]);
    }
    TriggeredUpdateIs(mid, tr.times[i + 1], tr.events[i].at, n, d);
    DirtyAfter(tr, i, mid, d);
    DirtyIsNews(tr, d, i);
    LostIff(tr, i, mid, d);
  }

  lemma TriggeredUpdateIs(mid: Node, clock: Time, at: Time, n: Id, d: Id)
    requires NodeInv(mid, clock) && TriggerDue(mid, at) && n in mid.views
    requires exists e :: e in mid.table && Due(mid.table[e])
    ensures var (node', sent) := SendAndCollect(mid, at);
            && sent != [] && n in sent[0] && (d in sent[0][n] <==> d in mid.table && Due(mid.table[d]))
            && (d in sent[0][n] ==> sent[0][n][d] == AdvertisedCost(node', d, n))
  {
    var sent := SendAndCollect(mid, at).1;
    assert sent[0] == TriggeredBroadcast(mid)[0];
    if d in mid.table { AdvertisedIs(mid, clock, at, d, n); }
  }

  // ----- dead routes -----

  /** When the route to d last changed before step i. */
  function LastChange(tr: Trace, d: Id, i: nat): Time
    requires IsTrace(tr) && i <= |tr.events|
  {
    if i == 0 then tr.times[0] else if ChangedAt(tr, i - 1, d) then tr.times[i] else LastChange(tr, d, i - 1)
  }

  lemma {:induction false} StampIs(tr: Trace, d: Id, i: nat)
    requires Begins(tr) && i <= |tr.events| && d in tr.nodes[i].table
    ensures tr.nodes[i].table[d].lastUpdated == LastChange(tr, d, i)
  {
    if i > 0 {
      var mid := Middle(tr, i - 1);
      ChangeStays(tr, i - 1, mid, d);
      if tr.events[i - 1].Tick? { SendKeeps(mid, tr.events[i - 1].at, d); }
      if !ChangedAt(tr, i - 1, d) { StampIs(tr, d, i - 1); }
    }
  }

  /** A lost route is forgotten at exactly the ticks that come more than 15 s after its loss. */
  lemma ForgottenIff(tr: Trace, d: Id, i: nat)
    requires Begins(tr) && i < |tr.events| && d in tr.nodes[i].table
    ensures d !in tr.nodes[i + 1].table <==>
              && tr.events[i].Tick? && tr.nodes[i].table[d].route.cost == INF_COST
              && tr.events[i].at - LastChange(tr, d, i) > DEAD_ROUTE_TIME
  {
    var mid := Middle(tr, i);
    StampIs(tr, d, i);
    if tr.events[i].Tick? {
      SendKeeps(mid, tr.events[i].at, d);
      if tr.nodes[i].table[d].route.cost == INF_COST { LostStaysLost(tr, i, mid, d); }
    }
  }

  /** Dropping silent neighbours brings no route back. */
  lemma LostStaysLost(tr: Trace, i: nat, mid: Node, d: Id)
    requires Begins(tr) && i < |tr.events| && IsMiddle(tr, i, mid) && tr.events[i].Tick? && d in tr.nodes[i].table
    requires tr.nodes[i].table[d].route.cost == INF_COST
    ensures d in mid.table && mid.table[d].route.cost == INF_COST
  {
    var node := tr.nodes[i];
    BeginsInv(tr, i);
    TraceViews(tr, i);
    OnlyFewer(node, mid, d);
  }

  lemma OnlyFewer(node: Node, mid: Node, d: Id)
    requires TableMatches(node.self, node.views, node.table) && TableMatches(mid.self, mid.views, mid.table)
    requires mid.self == node.self && forall n :: n in mid.views ==> n in node.views && mid.views[n] == node.views[n]
    requires d in node.table && d in mid.table && node.table[d].route.cost == INF_COST
    ensures mid.table[d].route.cost == INF_COST
  {
    if HasRoute(node.self, mid.views, Advertised(mid.views), d) {
      FewerRoutes(node.self, node.views, mid.views, d);
    }
  }

  lemma FewerRoutes(self: Id, views: Views, views': Views, d: Id)
    requires forall n :: n in views' ==> n in views && views'[n] == views[n]
    requires HasRoute(self, views', Advertised(views'), d)
    ensures HasRoute(self, views, Advertised(views), d)
  {
    if Offered(views', Advertised(views'), d) {
      var n :| n in views' && d in views'[n].routes && views'[n].routes[d] + 1 < INF_COST;
      assert (n, d) in Advertised(views);
    }
  }
}
