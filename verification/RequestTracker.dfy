/**
 The tracker of outstanding requests and broadcasts as a state machine over its lock-delimited
 steps.  Several threads may be between their locked sections at the same time, so a response and
 a timeout of the same request can race.
 */
module RequestTracker {
  type Id = string
  datatype Answer = Answer(from: string, payload: string)
  datatype Result = TimedOut | Answered(answer: Answer)

  /** What a thread still has to do for request or broadcast `id`. */
  datatype Task =
    | Check(id: Id, answer: Answer)      // fulfill_request, before its first locked section
    | Complete(id: Id, result: Result)   // complete_request, before its locked section
    | Invoke(id: Id, result: Result)     // the callback has been taken out, but has not run
    | Expire(id: Id)                     // the handler of a broadcast timer

  /** The user code that has run, in order. */
  datatype Call = Callback(id: Id, result: Result) | Response(id: Id, answer: Answer) | Completed(id: Id)

  datatype Tracker = Tracker(
    pending: set<Id>, broadcasts: set<Id>,
    timers: set<Id>, broadcastTimers: set<Id>,
    tasks: seq<Task>, calls: seq<Call>,
    requested: set<Id>, announced: set<Id>, answers: set<(Id, Answer)>)

  const EMPTY := Tracker({}, {}, {}, {}, [], [], {}, {}, {})

  // ----- steps -----

  datatype Event =
    | TrackRequest(id: Id)
    | TrackBroadcast(id: Id)
    | Fulfill(id: Id, answer: Answer)
    | TimerFires(id: Id)
    | BroadcastTimerFires(id: Id)
    | RunTask(index: nat)

  function Without(tasks: seq<Task>, i: nat): seq<Task>
    requires i < |tasks|
  {
    tasks[..i] + tasks[i + 1..]
  }

  /** Ids are never reused, timers fire only while armed, and only an existing task can run. */
  predicate Enabled(s: Tracker, e: Event)
  {
    match e
    case TrackRequest(id) => id !in s.requested && id !in s.announced
    case TrackBroadcast(id) => id !in s.requested && id !in s.announced
    case Fulfill(id, answer) => true
    case TimerFires(id) => id in s.timers
    case BroadcastTimerFires(id) => id in s.broadcastTimers
    case RunTask(i) => i < |s.tasks|
  }

  function RunOne(s: Tracker, task: Task): Tracker
  {
    match task
    case Check(id, answer) =>
      if id in s.pending then s.(tasks := s.tasks + [Complete(id, Answered(answer))])
      else if id in s.broadcasts then s.(calls := s.calls + [Response(id, answer)])
      else s
    case Complete(id, result) =>
      if id in s.pending then s.(pending := s.pending - {id}, tasks := s.tasks + [Invoke(id, result)]) else s
    case Invoke(id, result) =>
      s.(timers := s.timers - {id}, calls := s.calls + [Callback(id, result)])
    case Expire(id) =>
      if id in s.broadcasts then s.(broadcasts := s.broadcasts - {id}, calls := s.calls + [Completed(id)]) else s
  }

  function Step(s: Tracker, e: Event): Tracker
    requires Enabled(s, e)
  {
    match e
    case TrackRequest(id) => s.(pending := s.pending + {id}, timers := s.timers + {id}, requested := s.requested + {id})
    case TrackBroadcast(id) =>
      s.(broadcasts := s.broadcasts + {id}, broadcastTimers := s.broadcastTimers + {id},
         announced := s.announced + {id})
    case Fulfill(id, answer) => s.(tasks := s.tasks + [Check(id, answer)], answers := s.answers + {(id, answer)})
    case TimerFires(id) => s.(timers := s.timers - {id}, tasks := s.tasks + [Complete(id, TimedOut)])
    case BroadcastTimerFires(id) => s.(broadcastTimers := s.broadcastTimers - {id}, tasks := s.tasks + [Expire(id)])
    case RunTask(i) => RunOne(s.(tasks := Without(s.tasks, i)), s.tasks[i])
  }

  // ----- counting -----

  function Invoking(tasks: seq<Task>, id: Id): nat
  {
    if tasks == [] then 0
    else Invoking(tasks[..|tasks| - 1], id) + if tasks[|tasks| - 1].Invoke? && tasks[|tasks| - 1].id == id then 1 else 0
  }

  function Callbacks(calls: seq<Call>, id: Id): nat
  {
    if calls == [] then 0
    else
      var last := calls[|calls| - 1];
      Callbacks(calls[..|calls| - 1], id) + if last.Callback? && last.id == id then 1 else 0
  }

  function Completions(calls: seq<Call>, id: Id): nat
  {
    if calls == [] then 0
    else Completions(calls[..|calls| - 1], id) + if calls[|calls| - 1] == Completed(id) then 1 else 0
  }

  lemma InvokingAppend(tasks: seq<Task>, task: Task, id: Id)
    ensures Invoking(tasks + [task], id) == Invoking(tasks, id) + if task.Invoke? && task.id == id then 1 else 0
  {
    assert (tasks + [task])[..|tasks|] == tasks;
  }

  lemma WithoutBeforeLast(tasks: seq<Task>, i: nat)
    requires i < |tasks| - 1
    ensures Without(tasks, i) == Without(tasks[..|tasks| - 1], i) + [tasks[|tasks| - 1]]
  {}

  lemma {:induction false} InvokingWithout(tasks: seq<Task>, i: nat, id: Id)
    requires i < |tasks|
    ensures Invoking(Without(tasks, i), id) ==
            Invoking(tasks, id) - if tasks[i].Invoke? && tasks[i].id == id then 1 else 0
    decreases |tasks|
  {
    var n := |tasks| - 1;
    var front, last := tasks[..n], tasks[n];
    if i == n {
      assert Without(tasks, i) == front;
    } else {
      InvokingWithout(front, i, id);
      WithoutBeforeLast(tasks, i);
      InvokingAppend(Without(front, i), last, id);
    }
  }

  lemma CallsAppend(calls: seq<Call>, call: Call, id: Id)
    ensures Callbacks(calls + [call], id) == Callbacks(calls, id) + if call.Callback? && call.id == id then 1 else 0
    ensures Completions(calls + [call], id) == Completions(calls, id) + if call == Completed(id) then 1 else 0
  {
    assert (calls + [call])[..|calls|] == calls;
  }

  // ----- invariants -----

  /** A tracked request is pending, or about to call back, or has called back: exactly one of these. */
  ghost predicate OncePerRequest(s: Tracker, id: Id)
  {
    Places(s, id) == if id in s.requested then 1 else 0
  }

  /** As long as it is pending, its timeout is still to come. */
  ghost predicate TimeoutAhead(s: Tracker, id: Id)
  {
    id in s.pending ==> id in s.timers || Complete(id, TimedOut) in s.tasks
  }

  ghost predicate OncePerBroadcast(s: Tracker, id: Id)
  {
    && BroadcastPlaces(s, id) == (if id in s.announced then 1 else 0)
    && (id in s.broadcasts ==> id in s.broadcastTimers || Expire(id) in s.tasks)
  }

  ghost predicate RequestInv(s: Tracker, id: Id)
  {
    OncePerRequest(s, id) && TimeoutAhead(s, id)
  }

  lemma InWithout(tasks: seq<Task>, i: nat, task: Task)
    requires i < |tasks| && task in tasks && task != tasks[i]
    ensures task in Without(tasks, i)
  {
    var j :| 0 <= j < |tasks| && tasks[j] == task;
    if j < i { assert Without(tasks, i)[j] == task; } else { assert Without(tasks, i)[j - 1] == task; }
  }

  /** The three places a request can be in, plus the task just taken off the list. */
  ghost function Places(s: Tracker, id: Id): nat
  {
    (if id in s.pending then 1 else 0) + Invoking(s.tasks, id) + Callbacks(s.calls, id)
  }

  lemma CheckPlaces(s: Tracker, task: Task, id: Id)
    requires task.Check?
    ensures Places(RunOne(s, task), id) == Places(s, id)
  {
    InvokingAppend(s.tasks, Complete(task.id, Answered(task.answer)), id);
    CallsAppend(s.calls, Response(task.id, task.answer), id);
  }

  lemma CompletePlaces(s: Tracker, task: Task, id: Id)
    requires task.Complete?
    ensures Places(RunOne(s, task), id) == Places(s, id)
  {
    InvokingAppend(s.tasks, Invoke(task.id, task.result), id);
  }

  lemma CallPlaces(s: Tracker, task: Task, id: Id)
    requires task.Invoke? || task.Expire?
    ensures Places(RunOne(s, task), id) == Places(s, id) + if task.Invoke? && task.id == id then 1 else 0
  {
    CallsAppend(s.calls, if task.Invoke? then Callback(task.id, task.result) else Completed(task.id), id);
  }

  lemma RunPlaces(s: Tracker, task: Task, id: Id)
    ensures Places(RunOne(s, task), id) == Places(s, id) + if task.Invoke? && task.id == id then 1 else 0
  {
    match task
    case Check(_, _) => CheckPlaces(s, task, id);
    case Complete(_, _) => CompletePlaces(s, task, id);
    case Invoke(_, _) => CallPlaces(s, task, id);
    case Expire(_) => CallPlaces(s, task, id);
  }

  lemma RunKeepsTimeout(s: Tracker, i: nat, id: Id)
    requires i < |s.tasks| && RequestInv(s, id)
    ensures TimeoutAhead(Step(s, RunTask(i)), id)
  {
    var task, s' := s.tasks[i], Step(s, RunTask(i));
    if id in s'.pending {
      assert !(task.Invoke? && task.id == id) by { InvokingWithout(s.tasks, i, id); }
      if id !in s.timers { InWithout(s.tasks, i, Complete(id, TimedOut)); }
    }
  }

  lemma RunKeepsRequest(s: Tracker, i: nat, id: Id)
    requires i < |s.tasks| && RequestInv(s, id)
    ensures RequestInv(Step(s, RunTask(i)), id)
  {
    InvokingWithout(s.tasks, i, id);
    RunPlaces(s.(tasks := Without(s.tasks, i)), s.tasks[i], id);
    RunKeepsTimeout(s, i, id);
  }

  lemma StepKeepsRequest(s: Tracker, e: Event, id: Id)
    requires Enabled(s, e) && RequestInv(s, id)
    requires id in s.pending || id in s.timers ==> id in s.requested
    ensures RequestInv(Step(s, e), id)
  {
    match e
    case TrackRequest(_) =>
    case TrackBroadcast(_) =>
    case Fulfill(tid, answer) => InvokingAppend(s.tasks, Check(tid, answer), id);
    case TimerFires(tid) => InvokingAppend(s.tasks, Complete(tid, TimedOut), id);
    case BroadcastTimerFires(tid) => InvokingAppend(s.tasks, Expire(tid), id);
    case RunTask(i) => RunKeepsRequest(s, i, id);
  }

  // ----- broadcasts -----

  ghost function BroadcastPlaces(s: Tracker, id: Id): nat
  {
    (if id in s.broadcasts then 1 else 0) + Completions(s.calls, id)
  }

  lemma RunBroadcastPlaces(s: Tracker, task: Task, id: Id)
    ensures BroadcastPlaces(RunOne(s, task), id) == BroadcastPlaces(s, id)
  {
    var s' := RunOne(s, task);
    if task.Check? {
      assert s'.broadcasts == s.broadcasts;
      CallsAppend(s.calls, Response(task.id, task.answer), id);
    } else if task.Invoke? {
      assert s'.broadcasts == s.broadcasts;
      CallsAppend(s.calls, Callback(task.id, task.result), id);
    } else if task.Expire? {
      CallsAppend(s.calls, Completed(task.id), id);
    }
  }

  lemma RunKeepsBroadcast(s: Tracker, i: nat, id: Id)
    requires i < |s.tasks| && OncePerBroadcast(s, id)
    ensures OncePerBroadcast(Step(s, RunTask(i)), id)
  {
    RunBroadcastPlaces(s.(tasks := Without(s.tasks, i)), s.tasks[i], id);
    if id in Step(s, RunTask(i)).broadcasts && id !in s.broadcastTimers { InWithout(s.tasks, i, Expire(id)); }
  }

  lemma StepKeepsBroadcast(s: Tracker, e: Event, id: Id)
    requires Enabled(s, e) && OncePerBroadcast(s, id)
    ensures OncePerBroadcast(Step(s, e), id)
  {
    if e.RunTask? { RunKeepsBroadcast(s, e.index, id); }
  }

  /** A response callback never runs after the completion of its broadcast. */
  ghost predicate NoneAfterCompletion(calls: seq<Call>)
  {
    forall i, j :: 0 <= i < j < |calls| && calls[i].Completed? && calls[j].Response? ==> calls[i].id != calls[j].id
  }

  lemma {:induction false} CompletedCounts(calls: seq<Call>, id: Id)
    ensures Completed(id) in calls ==> Completions(calls, id) >= 1
  {
    if calls != [] {
      CompletedCounts(calls[..|calls| - 1], id);
      assert calls == calls[..|calls| - 1] + [calls[|calls| - 1]];
    }
  }

  lemma StepKeepsOrder(s: Tracker, e: Event)
    requires Enabled(s, e) && NoneAfterCompletion(s.calls) && forall id :: OncePerBroadcast(s, id)
    ensures NoneAfterCompletion(Step(s, e).calls)
  {
    if e.RunTask? && s.tasks[e.index].Check? {
      var id := s.tasks[e.index].id;
      assert OncePerBroadcast(s, id);
      CompletedCounts(s.calls, id);
    }
  }

  // ----- where results come from -----

  ghost predicate Genuine(s: Tracker, id: Id, result: Result)
  {
    result.Answered? ==> (id, result.answer) in s.answers
  }

  ghost predicate GenuineTask(s: Tracker, task: Task)
  {
    match task
    case Check(id, answer) => (id, answer) in s.answers
    case Complete(id, result) => Genuine(s, id, result)
    case Invoke(id, result) => Genuine(s, id, result)
    case Expire(id) => true
  }

  ghost predicate GenuineCall(s: Tracker, call: Call)
  {
    match call
    case Callback(id, result) => Genuine(s, id, result)
    case Response(id, answer) => (id, answer) in s.answers
    case Completed(id) => true
  }

  ghost predicate AllGenuine(s: Tracker)
  {
    (forall t :: t in s.tasks ==> GenuineTask(s, t)) && forall c :: c in s.calls ==> GenuineCall(s, c)
  }

  lemma StepKeepsGenuine(s: Tracker, e: Event)
    requires Enabled(s, e) && AllGenuine(s)
    ensures AllGenuine(Step(s, e))
  {
    var s' := Step(s, e);
    assert s.answers <= s'.answers;
    if e.RunTask? {
      assert GenuineTask(s, s.tasks[e.index]);
      assert forall t :: t in Without(s.tasks, e.index) ==> t in s.tasks;
    }
    forall t | t in s'.tasks
      ensures GenuineTask(s', t)
    {
      if t in s.tasks { assert GenuineTask(s, t); }
    }
    forall c | c in s'.calls
      ensures GenuineCall(s', c)
    {
      if c in s.calls { assert GenuineCall(s, c); }
    }
  }

  // ----- runs -----

  ghost predicate Tracked(s: Tracker)
  {
    s.pending <= s.requested && s.timers <= s.requested && s.broadcasts <= s.announced && s.requested !! s.announced
  }

  ghost predicate Inv(s: Tracker)
  {
    && Tracked(s) && AllGenuine(s) && NoneAfterCompletion(s.calls)
    && (forall id :: RequestInv(s, id)) && forall id :: OncePerBroadcast(s, id)
  }

  lemma StepKeepsInv(s: Tracker, e: Event)
    requires Enabled(s, e) && Inv(s)
    ensures Inv(Step(s, e))
  {
    StepKeepsGenuine(s, e);
    StepKeepsOrder(s, e);
    forall id
      ensures RequestInv(Step(s, e), id) && OncePerBroadcast(Step(s, e), id)
    {
      assert RequestInv(s, id) && OncePerBroadcast(s, id);
      StepKeepsRequest(s, e, id);
      StepKeepsBroadcast(s, e, id);
    }
  }

  ghost predicate IsRun(states: seq<Tracker>, events: seq<Event>)
  {
    && |states| == |events| + 1 && states[0] == EMPTY
    && forall i :: 0 <= i < |events| ==> Enabled(states[i], events[i]) && states[i + 1] == Step(states[i], events[i])
  }

  lemma {:induction false} RunKeepsInv(states: seq<Tracker>, events: seq<Event>, i: nat)
    requires IsRun(states, events) && i <= |events|
    ensures Inv(states[i])
  {
    if i > 0 {
      RunKeepsInv(states, events, i - 1);
      StepKeepsInv(states[i - 1], events[i - 1]);
    }
  }

  /** No timer is armed and no thread is under way. */
  ghost predicate Quiescent(s: Tracker)
  {
    s.tasks == [] && s.timers == {} && s.broadcastTimers == {}
  }

  /**
   Under every interleaving: once nothing is left to happen, the callback of each tracked request
   has run exactly once and each broadcast has completed exactly once.
   */
  lemma ExactlyOnce(states: seq<Tracker>, events: seq<Event>, id: Id)
    requires IsRun(states, events) && Quiescent(states[|events|])
    ensures var s := states[|events|];
            && (id in s.requested ==> Callbacks(s.calls, id) == 1)
            && (id in s.announced ==> Completions(s.calls, id) == 1)
            && NoneAfterCompletion(s.calls)
  {
    RunKeepsInv(states, events, |events|);
    var s := states[|events|];
    assert RequestInv(s, id) && OncePerBroadcast(s, id);
  }

  /** At any moment, a callback has run at most once, and what it was given was really sent. */
  lemma AtMostOnceAndGenuine(states: seq<Tracker>, events: seq<Event>, id: Id)
    requires IsRun(states, events)
    ensures var s := states[|events|];
            Callbacks(s.calls, id) <= 1 && Completions(s.calls, id) <= 1
            && forall c :: c in s.calls ==> GenuineCall(s, c)
  {
    RunKeepsInv(states, events, |events|);
    var s := states[|events|];
    assert RequestInv(s, id) && OncePerBroadcast(s, id);
  }

  // ----- every run can be finished -----

  /** How many steps a task can still cause. */
  function Weight(task: Task): nat
  {
    match task
    case Check(_, _) => 3
    case Complete(_, _) => 2
    case Invoke(_, _) => 1
    case Expire(_) => 1
  }

  function TotalWeight(tasks: seq<Task>): nat
  {
    if tasks == [] then 0 else TotalWeight(tasks[..|tasks| - 1]) + Weight(tasks[|tasks| - 1])
  }

  /** A bound on the steps that are still to come without new requests, broadcasts and responses. */
  function Ahead(s: Tracker): nat
  {
    3 * |s.timers| + 2 * |s.broadcastTimers| + TotalWeight(s.tasks)
  }

  lemma WeightAppend(tasks: seq<Task>, task: Task)
    ensures TotalWeight(tasks + [task]) == TotalWeight(tasks) + Weight(task)
  {
    assert (tasks + [task])[..|tasks|] == tasks;
  }

  lemma RunOneWeight(s: Tracker, task: Task)
    ensures Ahead(RunOne(s, task)) < Ahead(s) + Weight(task)
  {
    match task
    case Check(id, answer) => WeightAppend(s.tasks, Complete(id, Answered(answer)));
    case Complete(id, result) => WeightAppend(s.tasks, Invoke(id, result));
    case Invoke(id, result) =>
      if id in s.timers { assert |s.timers - {id}| == |s.timers| - 1; } else { assert s.timers - {id} == s.timers; }
    case Expire(_) =>
  }

  lemma LastTaskRuns(s: Tracker)
    requires s.tasks != []
    ensures var e := RunTask(|s.tasks| - 1); Enabled(s, e) && Ahead(Step(s, e)) < Ahead(s)
  {
    var n := |s.tasks| - 1;
    assert Without(s.tasks, n) == s.tasks[..n];
    RunOneWeight(s.(tasks := s.tasks[..n]), s.tasks[n]);
  }

  lemma TimerRuns(s: Tracker, id: Id)
    requires id in s.timers
    ensures Ahead(Step(s, TimerFires(id))) < Ahead(s)
  {
    WeightAppend(s.tasks, Complete(id, TimedOut));
    assert |s.timers - {id}| == |s.timers| - 1;
  }

  lemma BroadcastTimerRuns(s: Tracker, id: Id)
    requires id in s.broadcastTimers
    ensures Ahead(Step(s, BroadcastTimerFires(id))) < Ahead(s)
  {
    WeightAppend(s.tasks, Expire(id));
    assert |s.broadcastTimers - {id}| == |s.broadcastTimers| - 1;
  }

  /** Something can happen that brings the end closer. */
  lemma CanProceed(s: Tracker) returns (e: Event)
    requires !Quiescent(s)
    ensures Enabled(s, e) && Ahead(Step(s, e)) < Ahead(s)
  {
    if s.tasks != [] {
      e := RunTask(|s.tasks| - 1);
      LastTaskRuns(s);
    } else if s.timers != {} {
      var id :| id in s.timers;
      e := TimerFires(id);
      TimerRuns(s, id);
    } else {
      var id :| id in s.broadcastTimers;
      e := BroadcastTimerFires(id);
      BroadcastTimerRuns(s, id);
    }
  }

  /** Every run can be continued to one in which nothing is left to happen. */
  lemma {:induction false} EveryRunFinishes(states: seq<Tracker>, events: seq<Event>)
    returns (states': seq<Tracker>, events': seq<Event>)
    requires IsRun(states, events)
    ensures IsRun(states', events') && states <= states' && events <= events' && Quiescent(states'[|events'|])
    decreases Ahead(states[|events|])
  {
    var s := states[|events|];
    if Quiescent(s) {
      states', events' := states, events;
    } else {
      var e := CanProceed(s);
      states', events' := EveryRunFinishes(states + [Step(s, e)], events + [e]);
    }
  }
}
