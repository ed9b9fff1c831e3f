/**
 nixlMetadataWorker: one background thread, any number of client threads, interleaved step by step.

 A step takes `mutex_`, runs one critical section of it and gives it back, or takes or gives back
 `taskMutex_`. Other threads step in between.
 */
module MetadataWorker {
  type Task = nat
  type Thread = nat

  datatype WorkerState = Idle | Running | Stopping

  // Where the worker thread is. `last` marks the drain after the loop.
  datatype LoopPc =
    | NoThread
    | Waiting                             // in wait_for
    | Draining(last: bool)                // about to take the next task
    | HasTask(task: Task, last: bool)     // has taken it off the queue
    | InTask(task: Task, last: bool)      // runs it, holding taskMutex_
    | BeforePoll
    | InPoll                              // runs the poll, holding taskMutex_
    | Exited

  // Where a client thread is.
  datatype ClientPc =
    | Out
    | Joining                             // owns the shutdown, in join
    | Joined                              // has joined, about to publish IDLE
    | AwaitIdle                           // a stop that does not own the join
    | Inline(task: Task)                  // in submit, waiting for taskMutex_
    | InlineTask(task: Task)              // runs its own task, holding taskMutex_

  datatype Owner = Nobody | Worker | Client(c: Thread)

  datatype State = State(
    state: WorkerState, tasks: seq<Task>, loop: LoopPc, clients: map<Thread, ClientPc>, mutex: Owner, taskMutex: Owner,
    stopper: Thread,                      // while Stopping: the client that owns the shutdown
    // history: every task ever submitted, the enqueued ones in order, those the worker has run in
    // order, those run inline, and those in the hands of a client inside submit
    submitted: set<Task>, enqueued: seq<Task>, ran: seq<Task>, ranInline: seq<Task>, inlineBy: map<Task, Thread>)
  {
    function Pc(c: Thread): ClientPc {
      if c in clients then clients[c] else Out
    }

    function At(c: Thread, pc: ClientPc): State {
      this.(clients := clients[c := pc])
    }

    function Enqueue(t: Task): State {
      this.(tasks := tasks + [t], enqueued := enqueued + [t], submitted := submitted + {t})
    }
  }

  const INITIAL := State(Idle, [], NoThread, map[], Nobody, Nobody, 0, {}, [], [], [], map[])

  datatype Step =
    | Lock(who: Owner)                    // takes mutex_
    | Start(c: Thread)
    | CallStop(c: Thread)
    | Join(c: Thread)
    | PublishIdle(c: Thread)
    | WakeIdle(c: Thread)
    | Sleep(c: Thread)                    // finds the worker not idle and waits on, without mutex_
    | Submit(c: Thread, t: Task)
    | TakeInline(c: Thread)
    | FinishInline(c: Thread)
    | Wake                                // wait_for returns: woken, or timed out
    | Next                                // take a task off the queue, or find it empty
    | TakeTask
    | FinishTask(expired: bool)           // the time budget may have run out
    | SkipPoll                            // no poll callback
    | TakePoll
    | FinishPoll
    | WorkerSubmit(t: Task)               // a task or the poll adds work

  // The places where a thread's next critical section is ahead.
  predicate Locks(s: State, who: Owner) {
    match who
    case Nobody => false
    case Worker => s.loop == Waiting || s.loop.Draining? || s.loop.InTask? || s.loop == InPoll
    case Client(c) => s.Pc(c) == Out || s.Pc(c) == Joined || s.Pc(c) == AwaitIdle
  }

  // Steps that are a critical section of mutex_, and whose it is.
  predicate Critical(step: Step) {
    || step.Start? || step.CallStop? || step.PublishIdle? || step.WakeIdle? || step.Sleep? || step.Submit?
    || step.Wake? || step.Next? || step.WorkerSubmit?
  }

  function Holder(step: Step): Owner
    requires Critical(step)
  {
    if step.Wake? || step.Next? || step.WorkerSubmit? then Worker else Client(step.c)
  }

  // The step is next for its thread.
  predicate Ready(s: State, step: Step) {
    match step
    case Lock(who) => s.mutex == Nobody && Locks(s, who)
    case Start(c) => s.Pc(c) == Out
    case CallStop(c) => s.Pc(c) == Out
    case Join(c) => s.Pc(c) == Joining && s.loop == Exited
    case PublishIdle(c) => s.Pc(c) == Joined
    case WakeIdle(c) => s.Pc(c) == AwaitIdle && s.state == Idle
    case Sleep(c) => s.Pc(c) == AwaitIdle && s.state != Idle
    case Submit(c, t) => s.Pc(c) == Out && t !in s.submitted
    case TakeInline(c) => s.Pc(c).Inline? && s.taskMutex == Nobody
    case FinishInline(c) => s.Pc(c).InlineTask?
    case Wake => s.loop == Waiting
    case Next => s.loop.Draining?
    case TakeTask => s.loop.HasTask? && s.taskMutex == Nobody
    case FinishTask(_) => s.loop.InTask? && s.mutex != Worker
    case SkipPoll => s.loop == BeforePoll
    case TakePoll => s.loop == BeforePoll && s.taskMutex == Nobody
    case FinishPoll => s.loop == InPoll && s.mutex != Worker
    case WorkerSubmit(t) => (s.loop.InTask? || s.loop == InPoll) && t !in s.submitted
  }

  predicate Enabled(s: State, step: Step) {
    Ready(s, step) && (Critical(step) ==> s.mutex == Holder(step))
  }

  // What a step does, apart from mutex_.
  function Effect(s: State, step: Step): State
    requires Ready(s, step)
  {
    match step
    case Lock(_) => s
    case Start(c) => if s.state == Idle then s.(state := Running, loop := Waiting) else s
    case CallStop(c) =>
      if s.state == Idle then s
      else if s.state == Stopping then s.At(c, AwaitIdle)
      else s.At(c, Joining).(state := Stopping, stopper := c)
    case Join(c) => s.At(c, Joined).(loop := NoThread)
    case PublishIdle(c) => s.At(c, Out).(state := Idle)
    case WakeIdle(c) => s.At(c, Out)
    case Sleep(_) => s
    case Submit(c, t) =>
      if s.state == Running then s.Enqueue(t)
      else s.At(c, Inline(t)).(submitted := s.submitted + {t}, inlineBy := s.inlineBy[t := c])
    case TakeInline(c) => s.At(c, InlineTask(s.Pc(c).task)).(taskMutex := Client(c))
    case FinishInline(c) =>
      var t := s.Pc(c).task;
      s.At(c, Out).(taskMutex := Nobody, ranInline := s.ranInline + [t], inlineBy := s.inlineBy - {t})
    case Wake => s.(loop := Draining(s.state == Stopping))
    case Next =>
      if s.tasks == [] then s.(loop := if s.loop.last then Exited else BeforePoll)
      else s.(loop := HasTask(s.tasks[0], s.loop.last), tasks := s.tasks[1..])
    case TakeTask => s.(loop := InTask(s.loop.task, s.loop.last), taskMutex := Worker)
    case FinishTask(expired) =>
      s.(loop := if expired && !s.loop.last then BeforePoll else Draining(s.loop.last),
         taskMutex := Nobody, ran := s.ran + [s.loop.task])
    case SkipPoll => s.(loop := Waiting)
    case TakePoll => s.(loop := InPoll, taskMutex := Worker)
    case FinishPoll => s.(loop := Waiting, taskMutex := Nobody)
    case WorkerSubmit(t) => s.Enqueue(t)
  }

  function Apply(s: State, step: Step): State
    requires Enabled(s, step)
  {
    if step.Lock? then s.(mutex := step.who)
    else if Critical(step) then Effect(s, step).(mutex := Nobody)
    else Effect(s, step)
  }

  // ---- Invariants ----

  predicate Owns(pc: ClientPc) {
    pc == Joining || pc == Joined
  }

  // State, thread and shutdown owner agree.
  ghost predicate Phases(s: State) {
    && (s.state == Idle ==> s.loop == NoThread)
    && (s.state == Running ==> s.loop != NoThread && s.loop != Exited && !LastDrain(s.loop))
    && (forall c :: Owns(s.Pc(c)) ==> s.state == Stopping && c == s.stopper)
    && (s.state == Stopping ==> Owns(s.Pc(s.stopper)) && (s.loop == NoThread <==> s.Pc(s.stopper) == Joined))
    && (s.loop == NoThread || s.loop == Exited ==> s.tasks == [])
  }

  predicate LastDrain(pc: LoopPc) {
    (pc.Draining? || pc.HasTask? || pc.InTask?) && pc.last
  }

  function InHand(pc: LoopPc): seq<Task> {
    if pc.HasTask? || pc.InTask? then [pc.task] else []
  }

  // Executed, in-hand and queued tasks concatenate to the enqueue history.
  ghost predicate History(s: State) {
    s.ran + InHand(s.loop) + s.tasks == s.enqueued
  }

  // Whoever runs a task or the poll owns taskMutex_.
  ghost predicate Exclusive(s: State) {
    && (s.taskMutex == Worker <==> s.loop.InTask? || s.loop == InPoll)
    && (forall c :: s.taskMutex == Client(c) <==> s.Pc(c).InlineTask?)
  }

  ghost predicate NoRepeats(ts: seq<Task>) {
    forall i, j :: 0 <= i < j < |ts| ==> ts[i] != ts[j]
  }

  // Every submitted task is in exactly one place: enqueued once, or run inline once, or in the hands
  // of the one client inside its submit.
  ghost predicate Accounts(s: State) {
    && NoRepeats(s.enqueued) && NoRepeats(s.ranInline)
    && (forall t :: t in s.submitted <==> t in s.enqueued || t in s.ranInline || t in s.inlineBy)
    && (forall t :: t in s.enqueued ==> t !in s.ranInline && t !in s.inlineBy)
    && (forall t :: t in s.ranInline ==> t !in s.inlineBy)
    && (forall t :: t in s.inlineBy ==> Holds(s.Pc(s.inlineBy[t]), t))
    && (forall c :: s.Pc(c).Inline? || s.Pc(c).InlineTask? ==>
                      s.Pc(c).task in s.inlineBy && s.inlineBy[s.Pc(c).task] == c)
  }

  predicate Holds(pc: ClientPc, t: Task) {
    (pc.Inline? || pc.InlineTask?) && pc.task == t
  }

  // Whoever holds mutex_ is at a place with a critical section ahead, so it does not wait for taskMutex_.
  ghost predicate LockPlaces(s: State) {
    s.mutex != Nobody ==> Locks(s, s.mutex)
  }

  ghost predicate Inv(s: State) {
    Phases(s) && History(s) && Exclusive(s) && Accounts(s) && LockPlaces(s)
  }

  lemma InitialInv()
    ensures Inv(INITIAL)
  {
  }

  lemma PhasesKept(s: State, step: Step)
    requires Phases(s) && Enabled(s, step)
    ensures Phases(Apply(s, step))
  {
    var s' := Apply(s, step);
    forall c | Owns(s'.Pc(c)) ensures s'.state == Stopping && c == s'.stopper {
      assert Owns(s.Pc(c)) || step == CallStop(c);
    }
  }

  lemma HistoryKept(s: State, step: Step)
    requires Phases(s) && History(s) && Enabled(s, step)
    ensures History(Apply(s, step))
  {
    var s' := Apply(s, step);
    if step.Next? && s.tasks != [] {
      assert s.tasks == [s.tasks[0]] + s.tasks[1..];
    }
  }

  lemma ExclusiveKept(s: State, step: Step)
    requires Phases(s) && Exclusive(s) && Enabled(s, step)
    ensures Exclusive(Apply(s, step))
  {
  }

  lemma LockPlacesKept(s: State, step: Step)
    requires LockPlaces(s) && Enabled(s, step)
    ensures LockPlaces(Apply(s, step))
  {
  }

  // ---- Every submitted task is accounted for ----

  lemma EnqueueKeeps(s: State, t: Task)
    requires Accounts(s) && t !in s.submitted
    ensures Accounts(s.Enqueue(t))
  {
    var s' := s.Enqueue(t);
    assert forall u :: u in s'.enqueued <==> u in s.enqueued || u == t;
    assert forall c :: s'.Pc(c) == s.Pc(c);
  }

  lemma GoInlineKeeps(s: State, c: Thread, t: Task)
    requires Accounts(s) && t !in s.submitted && s.Pc(c) == Out
    ensures Accounts(s.At(c, Inline(t)).(submitted := s.submitted + {t}, inlineBy := s.inlineBy[t := c]))
  {
    var s' := s.At(c, Inline(t)).(submitted := s.submitted + {t}, inlineBy := s.inlineBy[t := c]);
    forall u | u in s'.inlineBy ensures Holds(s'.Pc(s'.inlineBy[u]), u) {
      if u != t { assert Holds(s.Pc(s.inlineBy[u]), u); }
    }
    forall d | s'.Pc(d).Inline? || s'.Pc(d).InlineTask?
      ensures s'.Pc(d).task in s'.inlineBy && s'.inlineBy[s'.Pc(d).task] == d
    {
      if d != c { assert s'.Pc(d) == s.Pc(d) && s.Pc(d).task in s.inlineBy; }
    }
  }

  lemma FinishInlineKeeps(s: State, c: Thread)
    requires Accounts(s) && s.Pc(c).InlineTask?
    ensures Accounts(Apply(s, FinishInline(c)))
  {
    var t := s.Pc(c).task;
    var s' := Apply(s, FinishInline(c));
    assert forall u :: u in s'.ranInline <==> u in s.ranInline || u == t;
    forall u | u in s'.inlineBy ensures Holds(s'.Pc(s'.inlineBy[u]), u) {
      assert u in s.inlineBy && u != t && Holds(s.Pc(s.inlineBy[u]), u);
    }
    forall d | s'.Pc(d).Inline? || s'.Pc(d).InlineTask?
      ensures s'.Pc(d).task in s'.inlineBy && s'.inlineBy[s'.Pc(d).task] == d
    {
      assert d != c && s'.Pc(d) == s.Pc(d) && s.Pc(d).task in s.inlineBy;
    }
  }

  // Steps that move a client without touching any task.
  lemma MoveKeeps(s: State, s': State)
    requires Accounts(s)
    requires s'.submitted == s.submitted && s'.enqueued == s.enqueued && s'.ranInline == s.ranInline
             && s'.inlineBy == s.inlineBy
    requires forall c, t :: Holds(s'.Pc(c), t) <==> Holds(s.Pc(c), t)
    ensures Accounts(s')
  {
    forall c | s'.Pc(c).Inline? || s'.Pc(c).InlineTask?
      ensures s'.Pc(c).task in s'.inlineBy && s'.inlineBy[s'.Pc(c).task] == c
    {
      assert Holds(s'.Pc(c), s'.Pc(c).task);
      assert Holds(s.Pc(c), s'.Pc(c).task);
    }
  }

  lemma AccountsKept(s: State, step: Step)
    requires Phases(s) && Accounts(s) && Enabled(s, step)
    ensures Accounts(Apply(s, step))
  {
    hide Accounts, Phases;
    var s' := Apply(s, step);
    if (step.Submit? && s.state == Running) || step.WorkerSubmit? {
      EnqueueKeeps(s, step.t);
      MoveKeeps(s.Enqueue(step.t), s');
    } else if step.Submit? {
      GoInlineKeeps(s, step.c, step.t);
      MoveKeeps(Effect(s, step), s');
    } else if step.FinishInline? {
      FinishInlineKeeps(s, step.c);
    } else {
      MoveKeeps(s, s');
    }
  }

  lemma InvKept(s: State, step: Step)
    requires Inv(s) && Enabled(s, step)
    ensures Inv(Apply(s, step))
  {
    hide Phases, History, Exclusive, Accounts, LockPlaces;
    PhasesKept(s, step);
    HistoryKept(s, step);
    ExclusiveKept(s, step);
    AccountsKept(s, step);
    LockPlacesKept(s, step);
  }

  // ---- Whole runs ----

  // s is where the steps lead from the initial state, each of them enabled in turn.
  ghost predicate Reachable(s: State, steps: seq<Step>)
    decreases |steps|
  {
    if steps == [] then s == INITIAL
    else exists r :: ReachedBefore(r, steps) && Enabled(r, steps[|steps| - 1]) && Apply(r, steps[|steps| - 1]) == s
  }

  ghost predicate ReachedBefore(r: State, steps: seq<Step>)
    requires steps != []
    decreases |steps|, 0
  {
    Reachable(r, steps[..|steps| - 1])
  }

  /** The invariant holds in every interleaving of submitters, stoppers, starters and the loop. */
  lemma {:induction false} ReachableInv(s: State, steps: seq<Step>)
    requires Reachable(s, steps)
    ensures Inv(s)
    decreases |steps|
  {
    hide Inv;
    if steps == [] {
      InitialInv();
    } else {
      var n := |steps| - 1;
      var r :| ReachedBefore(r, steps) && Enabled(r, steps[n]) && Apply(r, steps[n]) == s;
      ReachableInv(r, steps[..n]);
      InvKept(r, steps[n]);
    }
  }

  lemma {:induction false} NoRepeatsCount(ts: seq<Task>, t: Task)
    requires NoRepeats(ts)
    ensures multiset(ts)[t] == if t in ts then 1 else 0
  {
    if ts != [] {
      var n := |ts| - 1;
      assert ts == ts[..n] + [ts[n]];
      NoRepeatsCount(ts[..n], t);
      assert ts[n] !in ts[..n];
    }
  }

  // A stop call of c returns in this step.
  predicate StopReturns(s: State, step: Step) {
    || step.PublishIdle? || step.WakeIdle?
    || (step.CallStop? && s.state == Idle)
  }

  /**
   Exactly once: whenever a call of stop returns, whoever owned the join, the worker is idle with no
   thread and an empty queue, every task ever enqueued has run, in submission order, and every task
   ever submitted has run exactly once, except one that a client is just running in its own submit.
   */
  lemma StopMeansDone(s: State, steps: seq<Step>, step: Step)
    requires Reachable(s, steps) && Enabled(s, step) && StopReturns(s, step)
    ensures var s' := Apply(s, step);
            && s'.state == Idle && s'.loop == NoThread && s'.tasks == []
            && s'.ran == s'.enqueued
            && forall t :: t in s'.submitted && t !in s'.inlineBy ==>
                             multiset(s'.ran)[t] + multiset(s'.ranInline)[t] == 1
  {
    hide Inv;
    ReachableInv(s, steps);
    InvKept(s, step);
    StopLeavesIdle(s, step);
    IdleMeansDone(Apply(s, step));
  }

  lemma StopLeavesIdle(s: State, step: Step)
    requires Enabled(s, step) && StopReturns(s, step)
    ensures Apply(s, step).state == Idle
  {
  }

  lemma IdleMeansDone(s: State)
    requires Inv(s) && s.state == Idle
    ensures s.loop == NoThread && s.tasks == [] && s.ran == s.enqueued
    ensures forall t :: t in s.submitted && t !in s.inlineBy ==> multiset(s.ran)[t] + multiset(s.ranInline)[t] == 1
  {
    assert s.ran + [] + [] == s.ran;
    forall t | t in s.submitted && t !in s.inlineBy ensures multiset(s.ran)[t] + multiset(s.ranInline)[t] == 1 {
      NoRepeatsCount(s.enqueued, t);
      NoRepeatsCount(s.ranInline, t);
    }
  }

  /** Never twice: in every reachable state no task has run more than once or run without being submitted. */
  lemma NeverTwice(s: State, steps: seq<Step>, t: Task)
    requires Reachable(s, steps)
    ensures multiset(s.ran)[t] + multiset(s.ranInline)[t] <= 1
    ensures multiset(s.ran)[t] + multiset(s.ranInline)[t] == 1 ==> t in s.submitted
  {
    ReachableInv(s, steps);
    RanPrefix(s);
    NoRepeatsCount(s.ran, t);
    NoRepeatsCount(s.ranInline, t);
    if t in s.ran { assert t in s.enqueued; }
  }

  lemma RanPrefix(s: State)
    requires History(s) && NoRepeats(s.enqueued)
    ensures s.ran <= s.enqueued && NoRepeats(s.ran)
  {
    assert s.ran <= s.ran + InHand(s.loop) + s.tasks;
    assert forall i :: 0 <= i < |s.ran| ==> s.ran[i] == s.enqueued[i];
  }

  // ---- Who runs a submitted task ----

  /**
   A client that submits while the worker is RUNNING leaves at once and its task is the last in the
   queue; otherwise the queue stays as it is and the client has the task in hand.
   */
  lemma SubmitGoes(s: State, c: Thread, t: Task)
    requires Enabled(s, Submit(c, t))
    ensures var s' := Apply(s, Submit(c, t));
            if s.state == Running then
              && s'.Pc(c) == Out && s'.tasks == s.tasks + [t] && s'.enqueued == s.enqueued + [t]
              && s'.inlineBy == s.inlineBy
            else
              && s'.Pc(c) == Inline(t) && s'.tasks == s.tasks && s'.enqueued == s.enqueued
              && t in s'.inlineBy && s'.inlineBy[t] == c
  {
  }

  // All states of a run.
  ghost predicate Trace(states: seq<State>, steps: seq<Step>) {
    && |states| == |steps| + 1 && states[0] == INITIAL
    && forall i :: 0 <= i < |steps| ==> Enabled(states[i], steps[i]) && Apply(states[i], steps[i]) == states[i + 1]
  }

  lemma {:induction false} ReachableTrace(s: State, steps: seq<Step>) returns (states: seq<State>)
    requires Reachable(s, steps)
    ensures Trace(states, steps) && states[|steps|] == s
    decreases |steps|
  {
    hide Apply, Enabled;
    if steps == [] {
      states := [s];
    } else {
      var n := |steps| - 1;
      var r :| ReachedBefore(r, steps) && Enabled(r, steps[n]) && Apply(r, steps[n]) == s;
      var before := ReachableTrace(r, steps[..n]);
      states := before + [s];
      assert forall i :: 0 <= i < n ==> steps[..n][i] == steps[i];
    }
  }

  // The tasks of the steps that submit to a RUNNING worker or from the worker itself, in order.
  ghost function ForWorker(states: seq<State>, steps: seq<Step>, n: nat): seq<Task>
    requires n <= |steps| < |states|
  {
    if n == 0 then []
    else
      var step := steps[n - 1];
      ForWorker(states, steps, n - 1)
      + if step.WorkerSubmit? || (step.Submit? && states[n - 1].state == Running) then [step.t] else []
  }

  // The tasks that clients submitted to a worker that was not RUNNING.
  ghost function ForCaller(states: seq<State>, steps: seq<Step>, n: nat): set<Task>
    requires n <= |steps| < |states|
  {
    if n == 0 then {}
    else
      var step := steps[n - 1];
      ForCaller(states, steps, n - 1) + if step.Submit? && states[n - 1].state != Running then {step.t} else {}
  }

  lemma {:induction false} SubmissionsKept(states: seq<State>, steps: seq<Step>, n: nat)
    requires Trace(states, steps) && n <= |steps|
    ensures states[n].enqueued == ForWorker(states, steps, n)
    ensures forall t :: t in states[n].ranInline || t in states[n].inlineBy <==> t in ForCaller(states, steps, n)
  {
    if n > 0 {
      SubmissionsKept(states, steps, n - 1);
      TraceInv(states, steps, n - 1);
      var s, s' := states[n - 1], states[n];
      assert Enabled(s, steps[n - 1]) && Apply(s, steps[n - 1]) == s';
      InlineTasksOf(s, steps[n - 1]);
    }
  }

  // The tasks that are run by their callers, or are about to be.
  lemma InlineTasksOf(s: State, step: Step)
    requires Enabled(s, step) && (step.FinishInline? ==> s.Pc(step.c).task in s.inlineBy)
    ensures var s' := Apply(s, step);
            forall t :: t in s'.ranInline || t in s'.inlineBy <==>
                          t in s.ranInline || t in s.inlineBy || (step.Submit? && s.state != Running && t == step.t)
  {
  }

  /**
   Who runs what, over every run: the worker runs exactly the tasks submitted while it was RUNNING, or by
   its own tasks, in the order in which they were submitted; callers run exactly the others.
   */
  lemma SubmissionOrder(states: seq<State>, steps: seq<Step>, n: nat)
    requires Trace(states, steps) && n <= |steps|
    ensures var s := states[n];
            && s.ran + InHand(s.loop) + s.tasks == ForWorker(states, steps, n)
            && (forall t :: t in s.ranInline || t in s.inlineBy <==> t in ForCaller(states, steps, n))
  {
    SubmissionsKept(states, steps, n);
    TraceInv(states, steps, n);
  }

  lemma {:induction false} TraceInv(states: seq<State>, steps: seq<Step>, n: nat)
    requires Trace(states, steps) && n <= |steps|
    ensures Inv(states[n])
  {
    hide Inv;
    if n == 0 {
      InitialInv();
    } else {
      TraceInv(states, steps, n - 1);
      InvKept(states[n - 1], steps[n - 1]);
    }
  }

  // The pass is over: the loop polls, or skips it, before anything else.
  predicate Polling(pc: LoopPc) {
    pc == BeforePoll || pc == InPoll
  }

  lemma PollingStays(s: State, step: Step)
    requires Phases(s) && Enabled(s, step) && Polling(s.loop) && !step.SkipPoll? && !step.FinishPoll?
    ensures Polling(Apply(s, step).loop)
  {
  }

  /** A pass whose time budget ran out polls, or finds nothing to poll, before the worker takes another task. */
  lemma {:induction false} PollBetween(states: seq<State>, steps: seq<Step>, i: nat, j: nat)
    requires Trace(states, steps) && i < j < |steps|
    requires steps[i] == FinishTask(true) && !states[i].loop.last && steps[j].Next?
    ensures exists k :: i < k < j && (steps[k].SkipPoll? || steps[k].FinishPoll?)
  {
    hide Effect, History, Exclusive, Accounts, LockPlaces;
    var k := i + 1;
    BudgetEnds(states[i], steps[i]);
    while !(steps[k].SkipPoll? || steps[k].FinishPoll?)
      invariant i < k <= j && Polling(states[k].loop)
      decreases j - k
    {
      TraceInv(states, steps, k);
      PollingStays(states[k], steps[k]);
      k := k + 1;
    }
    assert Enabled(states[k], steps[k]);
  }

  lemma BudgetEnds(s: State, step: Step)
    requires Enabled(s, step) && step == FinishTask(true) && !s.loop.last
    ensures Polling(Apply(s, step).loop)
  {
  }

  // Who is running a task or the poll.
  ghost predicate Runs(s: State, who: Owner) {
    match who
    case Nobody => false
    case Worker => s.loop.InTask? || s.loop == InPoll
    case Client(c) => s.Pc(c).InlineTask?
  }

  /** One at a time: at most one thread runs a task or the poll, whichever thread it is. */
  lemma OneAtATime(s: State, steps: seq<Step>, a: Owner, b: Owner)
    requires Reachable(s, steps) && Runs(s, a) && Runs(s, b)
    ensures a == b
  {
    ReachableInv(s, steps);
  }

  /**
   Lock order: a worker that is about to run a task or the poll, and a client that is about to run its own
   task, wait for taskMutex_ with neither lock in hand.
   */
  lemma LockOrder(s: State, steps: seq<Step>, c: Thread)
    requires Reachable(s, steps)
    ensures s.loop.HasTask? || s.loop == BeforePoll ==> s.mutex != Worker && s.taskMutex != Worker
    ensures s.Pc(c).Inline? ==> s.mutex != Client(c) && s.taskMutex != Client(c)
  {
    ReachableInv(s, steps);
  }

  /** mutex_ stays with the thread that took it until that thread's critical section is done, and is free then. */
  lemma MutexHeld(s: State, step: Step)
    requires Enabled(s, step) && s.mutex != Nobody
    ensures Apply(s, step).mutex == if Critical(step) then Nobody else s.mutex
    ensures Critical(step) ==> s.mutex == Holder(step)
  {
  }

  // ---- Shutdown ends ----

  function Rank(pc: LoopPc): nat {
    match pc
    case NoThread => 0
    case Exited => 1
    case Draining(last) => if last then 2 else 8
    case InTask(_, last) => if last then 3 else 9
    case HasTask(_, last) => if last then 4 else 10
    case Waiting => 5
    case InPoll => 6
    case BeforePoll => 7
  }

  // What is left to do before the thread is gone.
  function Left(s: State): nat {
    16 * |s.tasks| + Rank(s.loop)
  }

  predicate ByWorker(step: Step) {
    || step.Wake? || step.Next? || step.TakeTask? || step.FinishTask?
    || step.SkipPoll? || step.TakePoll? || step.FinishPoll?
  }

  /**
   Shutdown keeps up with submitters: once it has begun, no step of a client, submitting or not, adds
   to what is left, every step of the worker takes from it, and only work the worker's own tasks add
   counts on top.
   */
  lemma ShutdownShrinks(s: State, step: Step)
    requires Phases(s) && s.state == Stopping && Enabled(s, step)
    ensures ByWorker(step) || step.Join? ==> Left(Apply(s, step)) < Left(s)
    ensures !step.WorkerSubmit? ==> Left(Apply(s, step)) <= Left(s)
    ensures step.WorkerSubmit? ==> Left(Apply(s, step)) == Left(s) + 16
  {
  }

  lemma Extend(s: State, steps: seq<Step>, step: Step)
    requires Reachable(s, steps) && Enabled(s, step)
    ensures Reachable(Apply(s, step), steps + [step])
  {
    assert (steps + [step])[..|steps|] == steps;
    assert ReachedBefore(s, steps + [step]);
  }

  lemma AtRest()
    ensures Reachable(INITIAL, [])
  {
  }

  // Taking mutex_ and running a critical section, with nobody in between.
  lemma ExtendLocked(s: State, steps: seq<Step>, step: Step) returns (s': State, steps': seq<Step>)
    requires Reachable(s, steps) && s.mutex == Nobody && Critical(step) && Ready(s, step)
    ensures Reachable(s', steps') && s' == Effect(s, step) && s'.mutex == Nobody
  {
    hide Reachable, ReachedBefore;
    var locked := Apply(s, Lock(Holder(step)));
    Extend(s, steps, Lock(Holder(step)));
    Extend(locked, steps + [Lock(Holder(step))], step);
    s', steps' := Apply(locked, step), steps + [Lock(Holder(step))] + [step];
  }

  // Two threads inside stop, the first of them joining.
  lemma TwoStops() returns (s: State, steps: seq<Step>)
    ensures Reachable(s, steps) && s.mutex == Nobody
    ensures s.state == Stopping && s.loop == Waiting && s.tasks == [] && s.Pc(1) == Joining && s.Pc(2) == AwaitIdle
            && s.Pc(0) == Out
  {
    hide Reachable, ReachedBefore;
    AtRest();
    s, steps := ExtendLocked(INITIAL, [], Start(0));
    s, steps := ExtendLocked(s, steps, CallStop(1));
    s, steps := ExtendLocked(s, steps, CallStop(2));
  }

  /** A start right after the owner published IDLE lets a second stop miss it: it waits on in RUNNING. */
  lemma StopCanMissIdle() returns (s: State, steps: seq<Step>)
    ensures Reachable(s, steps) && s.Pc(2) == AwaitIdle && s.state == Running
  {
    hide Reachable, ReachedBefore;
    s, steps := TwoStops();
    s, steps := ExtendLocked(s, steps, Wake);
    s, steps := ExtendLocked(s, steps, Next);
    Extend(s, steps, Join(1));
    s, steps := Apply(s, Join(1)), steps + [Join(1)];
    s, steps := ExtendLocked(s, steps, PublishIdle(1));
    s, steps := ExtendLocked(s, steps, Start(0));
  }

  // RUNNING ends only by a call of stop, and until then no waiting stop wakes up.
  lemma RunningLasts(s: State, step: Step)
    requires Phases(s) && Enabled(s, step) && s.state == Running && !step.CallStop?
    ensures Apply(s, step).state == Running
    ensures forall c :: s.Pc(c) == AwaitIdle ==> Apply(s, step).Pc(c) == AwaitIdle
  {
  }

  // ---- Which calls return ----

  // The steps lead from s to s', and none of them is a call of stop.
  ghost predicate Leads(s: State, steps: seq<Step>, s': State)
    decreases |steps|
  {
    if steps == [] then s' == s
    else Enabled(s, steps[0]) && !steps[0].CallStop? && Leads(Apply(s, steps[0]), steps[1..], s')
  }

  lemma {:induction false} LeadsOn(s: State, a: seq<Step>, m: State, b: seq<Step>, s': State)
    requires Leads(s, a, m) && Leads(m, b, s')
    ensures Leads(s, a + b, s')
    decreases |a|
  {
    if a == [] {
      assert a + b == b;
    } else {
      assert (a + b)[1..] == a[1..] + b;
      LeadsOn(Apply(s, a[0]), a[1..], m, b, s');
    }
  }

  lemma LeadsStep(s: State, step: Step)
    requires Enabled(s, step) && !step.CallStop?
    ensures Leads(s, [step], Apply(s, step))
  {
    assert Leads(Apply(s, step), [step][1..], Apply(s, step));
  }

  // A number above all members of a set.
  lemma {:induction false} FreshTask(ts: set<Task>) returns (t: Task)
    ensures forall u :: u in ts ==> u < t
    decreases |ts|
  {
    if ts == {} {
      t := 0;
    } else {
      var u :| u in ts;
      var rest := ts - {u};
      t := FreshTask(rest);
      assert forall v :: v in ts ==> v in rest || v == u;
      t := if u < t then t else u + 1;
    }
  }

  // One step of some thread that finds mutex_ free, with the lock taken for it where it needs it.
  lemma Move(s: State, step: Step) returns (steps: seq<Step>, s': State)
    requires Inv(s) && s.mutex == Nobody && Ready(s, step) && !step.Lock? && !step.CallStop?
    ensures Leads(s, steps, s') && Inv(s') && s' == Effect(s, step) && s'.mutex == Nobody
    ensures s.state == Stopping && (ByWorker(step) || step.Join?) ==> Left(s') < Left(s)
  {
    hide Inv, Leads;
    var from := s;
    steps := [];
    if Critical(step) {
      from := Apply(s, Lock(Holder(step)));
      LockForCritical(s, step);
      InvKept(s, Lock(Holder(step)));
      LeadsStep(s, Lock(Holder(step)));
      steps := [Lock(Holder(step))];
    }
    s' := Apply(from, step);
    InvKept(from, step);
    LeadsStep(from, step);
    if Critical(step) {
      LeadsOn(s, steps, from, [step], s');
    } else {
      assert steps + [step] == [step];
    }
    steps := steps + [step];
    if s.state == Stopping { ShrinksFrom(from, step); }
  }

  lemma LockForCritical(s: State, step: Step)
    requires s.mutex == Nobody && Critical(step) && Ready(s, step)
    ensures Enabled(s, Lock(Holder(step))) && Enabled(Apply(s, Lock(Holder(step))), step)
  {
  }

  lemma ShrinksFrom(s: State, step: Step)
    requires Inv(s) && s.state == Stopping && Enabled(s, step)
    ensures ByWorker(step) || step.Join? ==> Left(Apply(s, step)) < Left(s)
  {
    ShutdownShrinks(s, step);
  }

  // The holder of mutex_ can always give it back, and it sets no one back who is inside a call.
  lemma FreeMutex(s: State) returns (steps: seq<Step>, s': State)
    requires Inv(s)
    ensures Leads(s, steps, s') && Inv(s') && s'.mutex == Nobody
    ensures s.state != Running ==> s'.state != Running
    ensures forall c :: s.Pc(c) != Out ==> s'.Pc(c) == s.Pc(c) || s'.Pc(c) == Out
  {
    hide Inv, Leads;
    if s.mutex == Nobody {
      LeadsNowhere(s);
      return [], s;
    }
    var t := FreshTask(s.submitted);
    assert LockPlaces(s) by { InvParts(s); }
    GiveBackFrees(s, t);
    InvKept(s, GiveBack(s, t));
    LeadsStep(s, GiveBack(s, t));
    steps, s' := [GiveBack(s, t)], Apply(s, GiveBack(s, t));
  }

  lemma InvParts(s: State)
    requires Inv(s)
    ensures LockPlaces(s)
  {
  }

  // A step with which the holder of mutex_ gives it back.
  function GiveBack(s: State, t: Task): Step
    requires s.mutex != Nobody
  {
    match s.mutex
    case Worker => if s.loop == Waiting then Wake else if s.loop.Draining? then Next else WorkerSubmit(t)
    case Client(c) =>
      if s.Pc(c) == Joined then PublishIdle(c)
      else if s.Pc(c) == AwaitIdle then if s.state == Idle then WakeIdle(c) else Sleep(c)
      else if s.state == Idle then Submit(c, t) else Start(c)
  }

  lemma GiveBackFrees(s: State, t: Task)
    requires LockPlaces(s) && s.mutex != Nobody && t !in s.submitted
    ensures var step := GiveBack(s, t);
            && Enabled(s, step) && !step.CallStop? && Apply(s, step).mutex == Nobody
            && (s.state != Running ==> Apply(s, step).state != Running)
            && forall c :: s.Pc(c) != Out ==> Apply(s, step).Pc(c) == s.Pc(c) || Apply(s, step).Pc(c) == Out
  {
  }

  // The step that brings a shutdown nearer its end.
  function Drive(s: State): Step {
    if s.taskMutex.Client? then FinishInline(s.taskMutex.c)
    else
      match s.loop
      case NoThread => PublishIdle(s.stopper)
      case Waiting => Wake
      case Draining(_) => Next
      case HasTask(_, _) => TakeTask
      case InTask(_, _) => FinishTask(false)
      case BeforePoll => SkipPoll
      case InPoll => FinishPoll
      case Exited => Join(s.stopper)
  }

  lemma DriveReady(s: State)
    requires Inv(s) && s.state == Stopping && s.mutex == Nobody
    ensures Ready(s, Drive(s))
    ensures forall c :: s.Pc(c) == AwaitIdle ==> Effect(s, Drive(s)).Pc(c) == AwaitIdle
    ensures Effect(s, Drive(s)).state == (if Drive(s).PublishIdle? then Idle else Stopping)
    ensures Effect(s, Drive(s)).stopper == s.stopper
    ensures Drive(s).PublishIdle? ==> Effect(s, Drive(s)).Pc(s.stopper) == Out
    ensures Drive(s).FinishInline? ==>
              s.taskMutex.Client? && Left(Effect(s, Drive(s))) == Left(s) && !Effect(s, Drive(s)).taskMutex.Client?
    ensures ByWorker(Drive(s)) || Drive(s).Join? || Drive(s).PublishIdle? || Drive(s).FinishInline?
  {
  }

  /**
   A shutdown can always be completed, whatever the clients hold: by the worker, the clients that run
   their own tasks and the owner of the join.
   */
  lemma {:induction false} ShutdownEnds(s: State) returns (steps: seq<Step>, s': State)
    requires Inv(s) && s.state == Stopping && s.mutex == Nobody
    ensures Leads(s, steps, s') && Inv(s') && s'.mutex == Nobody && s'.state == Idle && s'.Pc(s.stopper) == Out
    ensures forall c :: s.Pc(c) == AwaitIdle ==> s'.Pc(c) == AwaitIdle
    decreases Left(s), s.taskMutex.Client?
  {
    hide Inv, Leads, Ready, Effect, Drive, Left;
    DriveReady(s);
    steps, s' := Move(s, Drive(s));
    if !Drive(s).PublishIdle? {
      var more, last := ShutdownEnds(s');
      LeadsOn(s, steps, s', more, last);
      steps, s' := steps + more, last;
    }
  }

  // A client that waits for taskMutex_ gets it, runs its task and returns.
  lemma InlineReturns(s: State, c: Thread) returns (steps: seq<Step>, s': State)
    requires Inv(s) && s.mutex == Nobody && (s.Pc(c).Inline? || s.Pc(c).InlineTask?)
    ensures Leads(s, steps, s') && s'.Pc(c) == Out
    decreases s.Pc(c).Inline?, s.taskMutex != Nobody
  {
    hide Leads, Accounts, Phases, History;
    var step := if s.taskMutex == Nobody then TakeInline(c)
                else if s.taskMutex.Client? then FinishInline(s.taskMutex.c)
                else if s.loop.InTask? then FinishTask(false) else FinishPoll;
    steps, s' := Move(s, step);
    if s'.Pc(c) != Out {
      var more, last := InlineReturns(s', c);
      LeadsOn(s, steps, s', more, last);
      steps, s' := steps + more, last;
    }
  }

  // From a free mutex_, the call of c can be brought to its end.
  lemma ReturnFrom(s: State, c: Thread) returns (steps: seq<Step>, s': State)
    requires Inv(s) && s.mutex == Nobody && s.Pc(c) != Out && (s.Pc(c) == AwaitIdle ==> s.state != Running)
    ensures Leads(s, steps, s') && s'.Pc(c) == Out
  {
    hide Leads, Accounts, History, Exclusive;
    if s.Pc(c).Inline? || s.Pc(c).InlineTask? {
      steps, s' := InlineReturns(s, c);
    } else {
      steps, s' := [], s;
      LeadsNowhere(s);
      if s.state == Stopping { steps, s' := ShutdownEnds(s); }
      if s'.Pc(c) == AwaitIdle {
        var more, last := Move(s', WakeIdle(c));
        LeadsOn(s, steps, s', more, last);
        steps, s' := steps + more, last;
      }
    }
  }

  lemma LeadsNowhere(s: State)
    ensures Leads(s, [], s)
  {
  }

  lemma CallReturns(s: State, c: Thread) returns (steps: seq<Step>, s': State)
    requires Inv(s) && s.Pc(c) != Out && (s.Pc(c) == AwaitIdle ==> s.state != Running)
    ensures Leads(s, steps, s') && s'.Pc(c) == Out
  {
    hide Inv, Leads;
    steps, s' := FreeMutex(s);
    if s'.Pc(c) != Out {
      var more, last := ReturnFrom(s', c);
      LeadsOn(s, steps, s', more, last);
      steps, s' := steps + more, last;
    }
  }

  // In RUNNING nothing but a call of stop frees a waiting stop.
  lemma {:induction false} RunningWaits(s: State, steps: seq<Step>, s': State, c: Thread)
    requires Phases(s) && s.state == Running && s.Pc(c) == AwaitIdle && Leads(s, steps, s')
    ensures s'.Pc(c) == AwaitIdle
    decreases |steps|
  {
    if steps != [] {
      PhasesKept(s, steps[0]);
      RunningLasts(s, steps[0]);
      RunningWaits(Apply(s, steps[0]), steps[1..], s', c);
    }
  }

  /**
   Exactly which calls can still return when no further stop is called: all of them, except a stop that
   waits for IDLE while the worker is RUNNING again.
   */
  lemma CallReturnsIff(s: State, past: seq<Step>, c: Thread)
    requires Reachable(s, past) && s.Pc(c) != Out
    ensures (s.Pc(c) == AwaitIdle ==> s.state != Running) <==> exists more, s' :: Leads(s, more, s') && s'.Pc(c) == Out
  {
    ReachableInv(s, past);
    if s.Pc(c) == AwaitIdle ==> s.state != Running {
      var more, s' := CallReturns(s, c);
    } else {
      forall more, s' | Leads(s, more, s') ensures s'.Pc(c) != Out {
        RunningWaits(s, more, s', c);
      }
    }
  }
}
