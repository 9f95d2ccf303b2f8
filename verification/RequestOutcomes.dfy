/**
 What the callbacks of the request tracker are given.  The first thread that comes to complete a
 request decides; an answer whose thread completes before the timer fires is handed over; and a
 broadcast hands over every answer that is looked at while it is active.
 */
module RequestOutcomes {
  import opened RequestTracker

  /** Step i of the run performs this task. */
  ghost predicate Runs(states: seq<Tracker>, events: seq<Event>, i: nat, task: Task)
    requires IsRun(states, events)
  {
    && i < |events| && events[i].RunTask? && events[i].index < |states[i].tasks|
    && states[i].tasks[events[i].index] == task
  }

  lemma RunStep(states: seq<Tracker>, events: seq<Event>, i: nat)
    requires IsRun(states, events) && i < |events|
    ensures Enabled(states[i], events[i]) && states[i + 1] == Step(states[i], events[i]) && Inv(states[i])
  {
    RunKeepsInv(states, events, i);
  }

  // ----- what has been asked and answered -----

  lemma {:induction false} TrackedIff(states: seq<Tracker>, events: seq<Event>, i: nat, id: Id)
    requires IsRun(states, events) && i <= |events|
    ensures id in states[i].requested <==> TrackRequest(id) in events[..i]
    ensures id in states[i].announced <==> TrackBroadcast(id) in events[..i]
  {
    if i > 0 {
      TrackedIff(states, events, i - 1, id);
      RunStep(states, events, i - 1);
      assert events[..i] == events[..i - 1] + [events[i - 1]];
      StepTracks(states[i - 1], events[i - 1], id);
    }
  }

  lemma StepTracks(s: Tracker, e: Event, id: Id)
    requires Enabled(s, e)
    ensures id in Step(s, e).requested <==> id in s.requested || e == TrackRequest(id)
    ensures id in Step(s, e).announced <==> id in s.announced || e == TrackBroadcast(id)
    ensures forall a :: (id, a) in Step(s, e).answers <==> (id, a) in s.answers || e == Fulfill(id, a)
  {}

  lemma {:induction false} AnsweredIff(states: seq<Tracker>, events: seq<Event>, i: nat, id: Id, a: Answer)
    requires IsRun(states, events) && i <= |events|
    ensures (id, a) in states[i].answers <==> Fulfill(id, a) in events[..i]
  {
    if i > 0 {
      AnsweredIff(states, events, i - 1, id, a);
      RunStep(states, events, i - 1);
      assert events[..i] == events[..i - 1] + [events[i - 1]];
      StepTracks(states[i - 1], events[i - 1], id);
    }
  }

  // ----- the first completion decides -----

  /** The request has been taken out for this result, and not yet or just once called back. */
  ghost predicate Decided(s: Tracker, id: Id, r: Result)
  {
    id !in s.pending && (Invoke(id, r) in s.tasks || Callback(id, r) in s.calls)
  }

  lemma RunDecides(s: Tracker, i: nat, id: Id, r: Result)
    requires i < |s.tasks| && s.tasks[i] == Complete(id, r) && id in s.pending
    ensures Decided(Step(s, RunTask(i)), id, r)
  {
    var s' := Step(s, RunTask(i));
    assert s'.tasks[|s'.tasks| - 1] == Invoke(id, r);
  }

  lemma RunKeepsDecided(s: Tracker, i: nat, id: Id, r: Result)
    requires i < |s.tasks| && Decided(s, id, r)
    ensures Decided(Step(s, RunTask(i)), id, r)
  {
    var s', t := Step(s, RunTask(i)), Invoke(id, r);
    if t in s.tasks && s.tasks[i] != t {
      InWithout(s.tasks, i, t);
      assert t in s'.tasks;
    } else if s.tasks[i] == t {
      assert s'.calls[|s'.calls| - 1] == Callback(id, r);
    } else {
      assert s.calls <= s'.calls;
    }
  }

  lemma StepKeepsDecided(s: Tracker, e: Event, id: Id, r: Result)
    requires Enabled(s, e) && Decided(s, id, r) && id in s.requested
    ensures Decided(Step(s, e), id, r)
  {
    if e.RunTask? { RunKeepsDecided(s, e.index, id, r); }
  }

  lemma {:induction false} StaysDecided(states: seq<Tracker>, events: seq<Event>, i: nat, j: nat, id: Id, r: Result)
    requires IsRun(states, events) && i <= j <= |events| && Decided(states[i], id, r) && id in states[i].requested
    ensures Decided(states[j], id, r) && id in states[j].requested
    decreases j
  {
    if i < j {
      StaysDecided(states, events, i, j - 1, id, r);
      StepKeepsDecided(states[j - 1], events[j - 1], id, r);
      StepTracks(states[j - 1], events[j - 1], id);
    }
  }

  /** A request is no longer pending only because a completion has run. */
  lemma {:induction false} PendingUntilCompleted(states: seq<Tracker>, events: seq<Event>, i: nat, id: Id)
    requires IsRun(states, events) && i <= |events| && id in states[i].requested
    requires forall j, r :: 0 <= j < i ==> !Runs(states, events, j, Complete(id, r))
    ensures id in states[i].pending
  {
    if i > 0 {
      RunStep(states, events, i - 1);
      StepTracks(states[i - 1], events[i - 1], id);
      if id in states[i - 1].requested {
        PendingUntilCompleted(states, events, i - 1, id);
        if events[i - 1].RunTask? && states[i - 1].tasks[events[i - 1].index].Complete? {
          var task := states[i - 1].tasks[events[i - 1].index];
          assert !Runs(states, events, i - 1, Complete(id, task.result));
        }
        StaysPending(states[i - 1], events[i - 1], id);
      }
    }
  }

  lemma StaysPending(s: Tracker, e: Event, id: Id)
    requires Enabled(s, e) && id in s.pending
    requires e.RunTask? ==> !(s.tasks[e.index].Complete? && s.tasks[e.index].id == id)
    ensures id in Step(s, e).pending
  {}

  /** Step i is the first one that completes the request. */
  ghost predicate FirstCompletion(states: seq<Tracker>, events: seq<Event>, i: nat, id: Id, r: Result)
    requires IsRun(states, events)
  {
    && Runs(states, events, i, Complete(id, r))
    && forall j, r' :: 0 <= j < i ==> !Runs(states, events, j, Complete(id, r'))
  }

  /** Only tracked requests are completed. */
  ghost predicate OnlyTracked(s: Tracker)
  {
    forall t :: t in s.tasks && t.Complete? ==> t.id in s.requested
  }

  lemma StepKeepsOnlyTracked(s: Tracker, e: Event)
    requires Enabled(s, e) && Inv(s) && OnlyTracked(s)
    ensures OnlyTracked(Step(s, e))
  {
    var s' := Step(s, e);
    if e.RunTask? { assert forall t :: t in Without(s.tasks, e.index) ==> t in s.tasks; }
    forall t | t in s'.tasks && t.Complete?
      ensures t.id in s'.requested
    {
      if t in s.tasks { assert t.id in s.requested; }
    }
  }

  lemma {:induction false} CompletedAreTracked(states: seq<Tracker>, events: seq<Event>, i: nat)
    requires IsRun(states, events) && i <= |events|
    ensures OnlyTracked(states[i])
  {
    if i > 0 {
      CompletedAreTracked(states, events, i - 1);
      RunStep(states, events, i - 1);
      StepKeepsOnlyTracked(states[i - 1], events[i - 1]);
    }
  }

  /** Under every interleaving the one callback of a request is given the result of its first completion. */
  lemma FirstCompletionDecides(states: seq<Tracker>, events: seq<Event>, i: nat, id: Id, r: Result)
    requires IsRun(states, events) && Quiescent(states[|events|]) && FirstCompletion(states, events, i, id, r)
    ensures var calls := states[|events|].calls; Callbacks(calls, id) == 1 && Callback(id, r) in calls
  {
    CompletedAreTracked(states, events, i);
    assert id in states[i].requested;
    PendingUntilCompleted(states, events, i, id);
    RunStep(states, events, i);
    RunDecides(states[i], events[i].index, id, r);
    StepTracks(states[i], events[i], id);
    StaysDecided(states, events, i + 1, |events|, id, r);
    ExactlyOnce(states, events, id);
  }

  lemma {:induction false} FindFirstCompletion(states: seq<Tracker>, events: seq<Event>, j: nat, id: Id)
    returns (i: nat, r: Result)
    requires IsRun(states, events) && j <= |events| && id in states[j].requested && id !in states[j].pending
    ensures i < j && FirstCompletion(states, events, i, id, r)
    decreases j
  {
    if forall i, r :: 0 <= i < j ==> !Runs(states, events, i, Complete(id, r)) {
      PendingUntilCompleted(states, events, j, id);
      assert false;
    }
    i, r :| 0 <= i < j && Runs(states, events, i, Complete(id, r));
    if !FirstCompletion(states, events, i, id, r) {
      var k, r' :| 0 <= k < i && Runs(states, events, k, Complete(id, r'));
      CompletedAreTracked(states, events, k);
      RunStep(states, events, k);
      StepTracks(states[k], events[k], id);
      assert id !in states[k + 1].pending;
      i, r := FindFirstCompletion(states, events, k + 1, id);
    }
  }

  // ----- an answer before the timeout -----

  /** Unless the request is over, a thread with an answer is about to complete it. */
  ghost predicate AnswerUnderWay(s: Tracker, id: Id)
  {
    id in s.requested && (id in s.pending ==> exists a :: Complete(id, Answered(a)) in s.tasks)
  }

  lemma CheckLeadsOn(s: Tracker, i: nat, id: Id, a: Answer)
    requires i < |s.tasks| && s.tasks[i] == Check(id, a) && id in s.requested
    ensures AnswerUnderWay(Step(s, RunTask(i)), id)
  {
    var s' := Step(s, RunTask(i));
    if id in s.pending { assert s'.tasks[|s'.tasks| - 1] == Complete(id, Answered(a)); }
  }

  lemma StepKeepsUnderWay(s: Tracker, e: Event, id: Id)
    requires Enabled(s, e) && AnswerUnderWay(s, id)
    ensures AnswerUnderWay(Step(s, e), id)
  {
    var s' := Step(s, e);
    if id in s'.pending {
      var a :| Complete(id, Answered(a)) in s.tasks;
      if e.RunTask? { InWithout(s.tasks, e.index, Complete(id, Answered(a))); }
      assert Complete(id, Answered(a)) in s'.tasks;
    }
  }

  lemma {:induction false} StaysUnderWay(states: seq<Tracker>, events: seq<Event>, i: nat, j: nat, id: Id)
    requires IsRun(states, events) && i <= j <= |events| && AnswerUnderWay(states[i], id)
    ensures AnswerUnderWay(states[j], id)
    decreases j
  {
    if i < j {
      StaysUnderWay(states, events, i, j - 1, id);
      RunStep(states, events, j - 1);
      StepKeepsUnderWay(states[j - 1], events[j - 1], id);
    }
  }

  lemma StepTimeouts(s: Tracker, e: Event, id: Id)
    requires Enabled(s, e) && Complete(id, TimedOut) !in s.tasks && e != TimerFires(id)
    ensures Complete(id, TimedOut) !in Step(s, e).tasks
  {
    if e.RunTask? { assert forall t :: t in Without(s.tasks, e.index) ==> t in s.tasks; }
  }

  /** A timeout comes from the timer only. */
  lemma {:induction false} NoTimeoutYet(states: seq<Tracker>, events: seq<Event>, i: nat, id: Id)
    requires IsRun(states, events) && i <= |events| && TimerFires(id) !in events[..i]
    ensures Complete(id, TimedOut) !in states[i].tasks
  {
    if i > 0 {
      assert events[..i] == events[..i - 1] + [events[i - 1]];
      NoTimeoutYet(states, events, i - 1, id);
      RunStep(states, events, i - 1);
      StepTimeouts(states[i - 1], events[i - 1], id);
    }
  }

  lemma ResultWasGiven(states: seq<Tracker>, events: seq<Event>, i: nat, id: Id, a: Answer)
    requires IsRun(states, events) && Runs(states, events, i, Complete(id, Answered(a)))
    ensures Fulfill(id, a) in events[..i]
  {
    RunKeepsInv(states, events, i);
    assert GenuineTask(states[i], Complete(id, Answered(a)));
    AnsweredIff(states, events, i, id, a);
  }

  /**
   If a thread has looked at an answer for a tracked request, and by step j no such thread is about
   to complete it any more while its timer has not fired, then at the end the one callback has been
   given an answer, one that was really received for this request.
   */
  lemma AnswerBeatsTimer(states: seq<Tracker>, events: seq<Event>, i: nat, j: nat, id: Id, a: Answer)
    returns (b: Answer)
    requires IsRun(states, events) && Quiescent(states[|events|]) && i < j <= |events|
    requires id in states[i].requested && Runs(states, events, i, Check(id, a))
    requires TimerFires(id) !in events[..j] && forall x :: Complete(id, Answered(x)) !in states[j].tasks
    ensures Fulfill(id, b) in events
    ensures var calls := states[|events|].calls; Callbacks(calls, id) == 1 && Callback(id, Answered(b)) in calls
  {
    RunStep(states, events, i);
    CheckLeadsOn(states[i], events[i].index, id, a);
    StaysUnderWay(states, events, i + 1, j, id);
    var k, r := FindFirstCompletion(states, events, j, id);
    assert r.Answered? by {
      assert events[..k] <= events[..j];
      NoTimeoutYet(states, events, k, id);
    }
    b := r.answer;
    ResultWasGiven(states, events, k, id, b);
    FirstCompletionDecides(states, events, k, id, r);
  }

  // ----- an answer can always still be handed over -----

  lemma Extend(states: seq<Tracker>, events: seq<Event>, e: Event) returns (states': seq<Tracker>, events': seq<Event>)
    requires IsRun(states, events) && Enabled(states[|events|], e)
    ensures states' == states + [Step(states[|events|], e)] && events' == events + [e] && IsRun(states', events')
  {
    states', events' := states + [Step(states[|events|], e)], events + [e];
  }

  lemma RunLast(s: Tracker, task: Task)
    requires s.tasks != [] && s.tasks[|s.tasks| - 1] == task
    ensures Step(s, RunTask(|s.tasks| - 1)) == RunOne(s.(tasks := s.tasks[..|s.tasks| - 1]), task)
  {
    assert Without(s.tasks, |s.tasks| - 1) == s.tasks[..|s.tasks| - 1];
  }

  /** From every moment at which a request is pending, any answer can still become its result. */
  lemma CanBeAnswered(states: seq<Tracker>, events: seq<Event>, id: Id, a: Answer)
    returns (states': seq<Tracker>, events': seq<Event>)
    requires IsRun(states, events) && id in states[|events|].pending
    ensures IsRun(states', events') && events <= events' && Callback(id, Answered(a)) in states'[|events'|].calls
  {
    var s := states[|events|];
    var n := |s.tasks|;
    states', events' := Extend(states, events, Fulfill(id, a));
    var s1 := states'[|events'|];
    RunLast(s1, Check(id, a));
    assert s1.tasks[..n] == s.tasks;
    states', events' := Extend(states', events', RunTask(n));
    var s2 := states'[|events'|];
    RunLast(s2, Complete(id, Answered(a)));
    assert s2.tasks[..n] == s.tasks;
    states', events' := Extend(states', events', RunTask(n));
    var s3 := states'[|events'|];
    RunLast(s3, Invoke(id, Answered(a)));
    states', events' := Extend(states', events', RunTask(n));
    var s4 := states'[|events'|];
    assert s4.calls[|s4.calls| - 1] == Callback(id, Answered(a));
  }

  // ----- the timer is cancelled -----

  ghost predicate Cancelled(s: Tracker)
  {
    forall c :: c in s.calls && c.Callback? ==> c.id !in s.timers && c.id in s.requested
  }

  lemma StepKeepsCancelled(s: Tracker, e: Event)
    requires Enabled(s, e) && Inv(s) && Cancelled(s)
    ensures Cancelled(Step(s, e))
  {
    var s' := Step(s, e);
    if e.RunTask? && s.tasks[e.index].Invoke? {
      var id := s.tasks[e.index].id;
      InvokingWithout(s.tasks, e.index, id);
      assert RequestInv(s, id);
    }
    forall c | c in s'.calls && c.Callback?
      ensures c.id !in s'.timers && c.id in s'.requested
    {
      if c in s.calls { assert c.id !in s.timers; }
    }
  }

  /** Once a request has called back, its timer does not fire any more. */
  lemma {:induction false} NoTimerAfterCallback(states: seq<Tracker>, events: seq<Event>, i: nat)
    requires IsRun(states, events) && i <= |events|
    ensures Cancelled(states[i])
  {
    if i > 0 {
      NoTimerAfterCallback(states, events, i - 1);
      RunStep(states, events, i - 1);
      StepKeepsCancelled(states[i - 1], events[i - 1]);
    }
  }

  // ----- broadcasts -----

  function Responses(calls: seq<Call>, id: Id, a: Answer): nat
  {
    if calls == [] then 0
    else Responses(calls[..|calls| - 1], id, a) + if calls[|calls| - 1] == Response(id, a) then 1 else 0
  }

  lemma ResponsesAppend(calls: seq<Call>, call: Call, id: Id, a: Answer)
    ensures Responses(calls + [call], id, a) == Responses(calls, id, a) + if call == Response(id, a) then 1 else 0
  {
    assert (calls + [call])[..|calls|] == calls;
  }

  /** Step i looks at this answer between the announcement of the broadcast and its completion. */
  ghost predicate HeardAt(states: seq<Tracker>, events: seq<Event>, i: nat, id: Id, a: Answer)
    requires IsRun(states, events)
  {
    && Runs(states, events, i, Check(id, a))
    && TrackBroadcast(id) in events[..i] && Completed(id) !in states[i].calls
  }

  ghost function Heard(states: seq<Tracker>, events: seq<Event>, n: nat, id: Id, a: Answer): nat
    requires IsRun(states, events)
  {
    if n == 0 then 0 else Heard(states, events, n - 1, id, a) + if HeardAt(states, events, n - 1, id, a) then 1 else 0
  }

  lemma {:induction false} CompletionsAreCalls(calls: seq<Call>, id: Id)
    ensures Completions(calls, id) >= 1 <==> Completed(id) in calls
  {
    if calls != [] {
      CompletionsAreCalls(calls[..|calls| - 1], id);
      assert calls == calls[..|calls| - 1] + [calls[|calls| - 1]];
    }
  }

  lemma ActiveIff(s: Tracker, id: Id)
    requires Inv(s)
    ensures id in s.broadcasts <==> id in s.announced && Completed(id) !in s.calls
    ensures id in s.broadcasts ==> id !in s.pending
  {
    assert OncePerBroadcast(s, id);
    CompletionsAreCalls(s.calls, id);
  }

  lemma StepResponses(s: Tracker, e: Event, id: Id, a: Answer)
    requires Enabled(s, e) && Inv(s)
    ensures Responses(Step(s, e).calls, id, a) == Responses(s.calls, id, a)
            + if e.RunTask? && s.tasks[e.index] == Check(id, a) && id in s.broadcasts then 1 else 0
  {
    if e.RunTask? {
      var task := s.tasks[e.index];
      match task
      case Check(tid, b) =>
        ActiveIff(s, tid);
        ResponsesAppend(s.calls, Response(tid, b), id, a);
      case Complete(_, _) =>
      case Invoke(tid, r) => ResponsesAppend(s.calls, Callback(tid, r), id, a);
      case Expire(tid) => ResponsesAppend(s.calls, Completed(tid), id, a);
    }
  }

  /**
   Under every interleaving, the response callback of a broadcast has been given an answer exactly as
   often as the answer was looked at between the announcement and the completion of the broadcast.
   */
  lemma {:induction false} EveryResponseIsHeard(states: seq<Tracker>, events: seq<Event>, n: nat, id: Id, a: Answer)
    requires IsRun(states, events) && n <= |events|
    ensures Responses(states[n].calls, id, a) == Heard(states, events, n, id, a)
  {
    if n > 0 {
      EveryResponseIsHeard(states, events, n - 1, id, a);
      RunStep(states, events, n - 1);
      StepResponses(states[n - 1], events[n - 1], id, a);
      ActiveIff(states[n - 1], id);
      TrackedIff(states, events, n - 1, id);
    }
  }
}
