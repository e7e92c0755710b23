/**
 * The queue of database tasks as the threads around it see it: callers that add, callers that flush or shut down,
 * and one worker. What a thread does while it holds the lock is one step.
 */
module TaskQueue {

  type Task = nat

  datatype ThreadState = Running | Closing | Terminated

  /** Where the worker is in its loop. */
  datatype Worker =
    | Top                 // about to look at the thread state
    | Locking             // has seen that it may go on, about to take the lock
    | Waiting             // asleep, the lock released
    | Woken               // about to take the lock again
    | Busy(task: Task)
    | Done

  /** Where a call from another thread is. The flush of a shutdown is the last one. */
  datatype Caller =
    | Adding(task: Task)
    | Notifying
    | ShuttingDown
    | Flushing(last: bool)
    | FlushBusy(task: Task, last: bool)
    | Closer              // about to send the last notification
    | Gone

  /** `accepted`, `popped` and `ran` are the history; `drained` says that a shutdown has found the queue empty. */
  datatype State = State(
    thread: ThreadState, queue: seq<Task>, worker: Worker, callers: seq<Caller>,
    accepted: seq<Task>, popped: seq<Task>, ran: seq<Task>, drained: bool)

  const INIT := State(Running, [], Top, [], [], [], [], false)

  datatype Step =
    | Call(caller: Caller)
    | Act(i: nat)
    | Work
    | Spurious
    | Stop

  predicate Enabled(s: State, step: Step) {
    match step
    case Call(c) => c.Adding? || c.ShuttingDown? || c == Flushing(false)
    case Act(i) => i < |s.callers| && !s.callers[i].Gone?
    case Work => !s.worker.Waiting? && !s.worker.Done?
    case Spurious => s.worker.Waiting?
    case Stop => s.thread.Running?
  }

  /** Adding a task: refused unless the worker is meant to run; whoever finds the queue empty has to notify. */
  function Add(s: State, i: nat, t: Task): State
    requires i < |s.callers|
  {
    if s.thread.Running? then
      s.(queue := s.queue + [t], accepted := s.accepted + [t],
         callers := s.callers[i := if s.queue == [] then Notifying else Gone])
    else s.(callers := s.callers[i := Gone])
  }

  /** Taking the first task off the queue. */
  function Pop(s: State): State
    requires s.queue != []
  {
    s.(queue := s.queue[1..], popped := s.popped + [s.queue[0]])
  }

  /** A notification wakes the worker if it sleeps and is lost otherwise. */
  function Notify(s: State, i: nat): State
    requires i < |s.callers|
  {
    s.(worker := if s.worker.Waiting? then Woken else s.worker, callers := s.callers[i := Gone])
  }

  function FlushTurn(s: State, i: nat, last: bool): State
    requires i < |s.callers|
  {
    if s.queue != [] then Pop(s).(callers := s.callers[i := FlushBusy(s.queue[0], last)])
    else if last then s.(callers := s.callers[i := Closer], drained := true)
    else s.(callers := s.callers[i := Gone])
  }

  function CallerTurn(s: State, i: nat): State
    requires i < |s.callers| && !s.callers[i].Gone?
  {
    match s.callers[i]
    case Adding(t) => Add(s, i, t)
    case Notifying => Notify(s, i)
    case Closer => Notify(s, i)
    case ShuttingDown => s.(thread := Terminated, callers := s.callers[i := Flushing(true)])
    case Flushing(last) => FlushTurn(s, i, last)
    case FlushBusy(t, last) => s.(ran := s.ran + [t], callers := s.callers[i := Flushing(last)])
  }

  function WorkerTurn(s: State): State
    requires !s.worker.Waiting? && !s.worker.Done?
  {
    match s.worker
    case Top => s.(worker := if s.thread.Terminated? then Done else Locking)
    case Locking => if s.queue == [] then s.(worker := Waiting) else Pop(s).(worker := Busy(s.queue[0]))
    case Woken => if s.queue == [] then s.(worker := Top) else Pop(s).(worker := Busy(s.queue[0]))
    case Busy(t) => s.(ran := s.ran + [t], worker := Top)
  }

  function Next(s: State, step: Step): State
    requires Enabled(s, step)
  {
    match step
    case Call(c) => s.(callers := s.callers + [c])
    case Act(i) => CallerTurn(s, i)
    case Work => WorkerTurn(s)
    case Spurious => s.(worker := Woken)
    case Stop => s.(thread := Closing)
  }

  /** Whether a sequence of steps can be taken one after the other. */
  ghost predicate Possible(s: State, run: seq<Step>)
    decreases |run|
  {
    run == [] || (Enabled(s, run[0]) && Possible(Next(s, run[0]), run[1..]))
  }

  function After(s: State, run: seq<Step>): State
    requires Possible(s, run)
    decreases |run|
  {
    if run == [] then s else After(Next(s, run[0]), run[1..])
  }

  // ---------------------------------------------------------------------
  // Safety
  // ---------------------------------------------------------------------

  /** The tasks being run by callers that flush. */
  function InHand(callers: seq<Caller>): multiset<Task> {
    if callers == [] then multiset{}
    else Mine(callers[0]) + InHand(callers[1..])
  }

  function Mine(c: Caller): multiset<Task> {
    if c.FlushBusy? then multiset{c.task} else multiset{}
  }

  lemma {:induction false} InHandUpdate(callers: seq<Caller>, i: nat, c: Caller)
    requires i < |callers|
    ensures InHand(callers[i := c]) + Mine(callers[i]) == InHand(callers) + Mine(c)
  {
    hide Mine;
    if i == 0 {
      assert callers[i := c][1..] == callers[1..];
      Exchange(Mine(c), InHand(callers[1..]), Mine(callers[0]));
    } else {
      assert callers[i := c][1..] == callers[1..][i - 1 := c];
      InHandUpdate(callers[1..], i - 1, c);
      Regroup(Mine(callers[0]), InHand(callers[1..][i - 1 := c]), Mine(callers[i]), InHand(callers[1..]), Mine(c));
    }
  }

  lemma Exchange<T>(a: multiset<T>, b: multiset<T>, c: multiset<T>)
    ensures (a + b) + c == (c + b) + a
  {
  }

  lemma Regroup<T>(m: multiset<T>, a: multiset<T>, b: multiset<T>, c: multiset<T>, d: multiset<T>)
    requires a + b == c + d
    ensures (m + a) + b == (m + c) + d
  {
    assert (m + a) + b == m + (a + b);
    assert (m + c) + d == m + (c + d);
  }

  lemma {:induction false} InHandNew(callers: seq<Caller>, c: Caller)
    ensures InHand(callers + [c]) == InHand(callers) + Mine(c)
  {
    if callers == [] {
      assert callers + [c] == [c] && [c][1..] == [];
    } else {
      assert (callers + [c])[1..] == callers[1..] + [c];
      InHandNew(callers[1..], c);
    }
  }

  function WorkerHas(w: Worker): multiset<Task> {
    if w.Busy? then multiset{w.task} else multiset{}
  }

  ghost predicate SomeoneNotifies(s: State) {
    exists i :: 0 <= i < |s.callers| && s.callers[i].Notifying?
  }

  /** First in, first out, nothing lost and nothing twice. */
  ghost predicate Fifo(s: State) {
    s.accepted == s.popped + s.queue &&
    multiset(s.popped) == multiset(s.ran) + InHand(s.callers) + WorkerHas(s.worker)
  }

  /** The worker never sleeps on a task that nobody will tell it about. */
  ghost predicate Awake(s: State) {
    s.worker.Waiting? && s.queue != [] ==> SomeoneNotifies(s)
  }

  /** Once a shutdown has set the state, nothing is accepted; once it has drained the queue, the queue stays empty. */
  ghost predicate Shut(s: State) {
    (forall i | 0 <= i < |s.callers| :: LastFlush(s.callers[i]) ==> s.thread.Terminated?) &&
    (forall i | 0 <= i < |s.callers| :: s.callers[i].Closer? ==> s.drained) &&
    (s.drained ==> s.thread.Terminated? && s.queue == [])
  }

  predicate LastFlush(c: Caller) {
    c.Closer? || ((c.Flushing? || c.FlushBusy?) && c.last)
  }

  ghost predicate Safe(s: State) {
    Fifo(s) && Awake(s) && Shut(s)
  }

  lemma PopKeepsOrder(s: State)
    requires s.queue != [] && s.accepted == s.popped + s.queue
    ensures Pop(s).accepted == Pop(s).popped + Pop(s).queue
    ensures multiset(Pop(s).popped) == multiset(s.popped) + multiset{s.queue[0]}
  {
    assert s.queue == [s.queue[0]] + s.queue[1..];
    assert s.popped + ([s.queue[0]] + s.queue[1..]) == (s.popped + [s.queue[0]]) + s.queue[1..];
  }

  /** Popped into a hand, or run out of a hand: the tasks in hand make up the difference. */
  lemma HandOver<T>(popped: multiset<T>, ran: multiset<T>, hands: multiset<T>, worker: multiset<T>,
                    popped': multiset<T>, ran': multiset<T>, hands': multiset<T>, before: multiset<T>, now: multiset<T>)
    requires popped == ran + hands + worker && hands' + before == hands + now
    requires popped' + (ran + before) == popped + (ran' + now)
    ensures popped' == ran' + hands' + worker
  {
    forall x ensures popped'[x] == (ran' + hands' + worker)[x] {
      assert (popped' + (ran + before))[x] == (popped + (ran' + now))[x];
      assert (hands' + before)[x] == (hands + now)[x];
    }
  }

  lemma CallerKeepsOrder(s: State, i: nat)
    requires i < |s.callers| && !s.callers[i].Gone? && s.accepted == s.popped + s.queue
    ensures var r := CallerTurn(s, i); r.accepted == r.popped + r.queue
  {
    if s.queue != [] { PopKeepsOrder(s); }
    if s.callers[i].Adding? {
      var t := s.callers[i].task;
      assert (s.popped + s.queue) + [t] == s.popped + (s.queue + [t]);
    }
  }

  lemma CallerBalance(s: State, i: nat)
    requires i < |s.callers| && !s.callers[i].Gone? && s.accepted == s.popped + s.queue
    ensures var r, c := CallerTurn(s, i), s.callers[i];
            && r.callers == s.callers[i := r.callers[i]] && WorkerHas(r.worker) == WorkerHas(s.worker)
            && multiset(r.popped) + (multiset(s.ran) + Mine(c)) == multiset(s.popped) + (multiset(r.ran) + Mine(r.callers[i]))
  {
    match s.callers[i]
    case Flushing(last) => if s.queue != [] { PopKeepsOrder(s); }
    case Adding(_) =>
    case Notifying =>
    case Closer =>
    case ShuttingDown =>
    case FlushBusy(_, _) =>
  }

  lemma CallerKeepsFifo(s: State, i: nat)
    requires i < |s.callers| && !s.callers[i].Gone? && Fifo(s)
    ensures Fifo(CallerTurn(s, i))
  {
    hide InHand, CallerTurn, Mine, WorkerHas;
    var r := CallerTurn(s, i);
    CallerKeepsOrder(s, i);
    CallerBalance(s, i);
    InHandUpdate(s.callers, i, r.callers[i]);
    HandOver(multiset(s.popped), multiset(s.ran), InHand(s.callers), WorkerHas(s.worker),
             multiset(r.popped), multiset(r.ran), InHand(r.callers), Mine(s.callers[i]), Mine(r.callers[i]));
  }

  lemma WorkerKeepsFifo(s: State)
    requires !s.worker.Waiting? && !s.worker.Done? && Fifo(s)
    ensures Fifo(WorkerTurn(s))
  {
    hide InHand;
    if s.queue != [] { PopKeepsOrder(s); }
  }

  lemma StepKeepsFifo(s: State, step: Step)
    requires Fifo(s) && Enabled(s, step)
    ensures Fifo(Next(s, step))
  {
    hide CallerTurn, WorkerTurn;
    match step
    case Call(c) => InHandNew(s.callers, c);
    case Act(i) => CallerKeepsFifo(s, i);
    case Work => WorkerKeepsFifo(s);
    case Spurious =>
    case Stop =>
  }

  lemma StepKeepsAwake(s: State, step: Step)
    requires Awake(s) && Enabled(s, step)
    ensures Awake(Next(s, step))
  {
    var r := Next(s, step);
    if r.worker.Waiting? && r.queue != [] {
      if step.Act? && s.callers[step.i].Adding? && s.queue == [] {
        assert r.callers[step.i].Notifying?;
      } else {
        var i :| 0 <= i < |s.callers| && s.callers[i].Notifying?;
        assert r.callers[i].Notifying?;
      }
    }
  }

  lemma StepKeepsShut(s: State, step: Step)
    requires Shut(s) && Enabled(s, step)
    ensures Shut(Next(s, step))
  {
  }

  /** Under every interleaving: first in first out without loss, no sleeping on work, nothing after the shutdown. */
  lemma {:induction false} RunsAreSafe(s: State, run: seq<Step>)
    requires Safe(s) && Possible(s, run)
    ensures Safe(After(s, run))
    decreases |run|
  {
    hide Fifo, Awake, Shut;
    if run != [] {
      StepKeepsFifo(s, run[0]);
      StepKeepsAwake(s, run[0]);
      StepKeepsShut(s, run[0]);
      RunsAreSafe(Next(s, run[0]), run[1..]);
    }
  }

  lemma Start(run: seq<Step>)
    requires Possible(INIT, run)
    ensures Safe(After(INIT, run))
  {
    RunsAreSafe(INIT, run);
  }

  /** After the flush of a shutdown the queue is empty for good, and no call is accepted any more. */
  lemma {:induction false} DrainedForGood(s: State, run: seq<Step>)
    requires Shut(s) && s.drained && Possible(s, run)
    ensures After(s, run).queue == [] && After(s, run).accepted == s.accepted
    decreases |run|
  {
    if run != [] {
      StepKeepsShut(s, run[0]);
      DrainedForGood(Next(s, run[0]), run[1..]);
    }
  }

  // ---------------------------------------------------------------------
  // Does the worker come to an end?
  // ---------------------------------------------------------------------

  /** The worker goes on by itself for up to n steps. */
  function Alone(s: State, n: nat): State
    decreases n
  {
    if n == 0 || s.worker.Waiting? || s.worker.Done? then s else Alone(WorkerTurn(s), n - 1)
  }

  ghost predicate ComesToAnEnd(s: State) {
    exists n: nat :: Alone(s, n).worker.Done?
  }

  lemma {:induction false} SleepsOn(s: State, n: nat)
    requires s.queue == [] && (s.worker.Waiting? || s.worker.Locking?)
    ensures !Alone(s, n).worker.Done?
    decreases n
  {
    if n > 0 && s.worker.Locking? { SleepsOn(WorkerTurn(s), n - 1); }
  }

  /**
   * The last notification of a shutdown ends the worker unless it finds it between its look at the thread state
   * and the lock: then the notification is lost.
   */
  lemma LastNotification(s: State, i: nat)
    requires Safe(s) && i < |s.callers| && s.callers[i].Closer?
    ensures ComesToAnEnd(Next(s, Act(i))) <==> !s.worker.Locking?
  {
    var r := Next(s, Act(i));
    if s.worker.Locking? {
      forall n: nat ensures !Alone(r, n).worker.Done? { SleepsOn(r, n); }
    } else {
      match r.worker
      case Done => assert Alone(r, 0).worker.Done?;
      case Top => assert Alone(WorkerTurn(r), 0).worker.Done? && Alone(r, 1).worker.Done?;
      case Woken => EndsInTwo(r);
      case Busy(_) => EndsInTwo(r);
    }
  }

  lemma EndsInTwo(r: State)
    requires r.thread.Terminated? && r.queue == [] && (r.worker.Woken? || r.worker.Busy?)
    ensures Alone(r, 2).worker.Done?
  {
    var t := WorkerTurn(r);
    assert t.worker.Top? && WorkerTurn(t).worker.Done?;
    assert Alone(WorkerTurn(t), 0) == WorkerTurn(t);
    assert Alone(t, 1) == WorkerTurn(t);
  }

  /** Nobody who is still about will notify once the queue is drained. */
  ghost predicate NobodyNotifies(s: State) {
    forall i | 0 <= i < |s.callers| :: var c := s.callers[i]; c.Gone? || c.Adding? || c == Flushing(false) || (c.FlushBusy? && !c.last)
  }

  /** A step that neither wakes the worker for no reason nor starts another shutdown. */
  predicate Ordinary(step: Step) {
    !step.Spurious? && step != Call(ShuttingDown)
  }

  lemma AsleepOnce(s: State, step: Step)
    requires Shut(s) && s.drained && s.worker.Waiting? && NobodyNotifies(s) && Enabled(s, step) && Ordinary(step)
    ensures var r := Next(s, step); r.drained && r.worker.Waiting? && NobodyNotifies(r)
  {
    var r := Next(s, step);
    forall i | 0 <= i < |r.callers|
      ensures var c := r.callers[i]; c.Gone? || c.Adding? || c == Flushing(false) || (c.FlushBusy? && !c.last)
    {
      if i < |s.callers| {
        var c := s.callers[i];
        assert c.Gone? || c.Adding? || c == Flushing(false) || (c.FlushBusy? && !c.last);
      }
    }
  }

  /** A worker asleep after the shutdown stays asleep, and joining its thread never returns. */
  lemma {:induction false} AsleepForGood(s: State, run: seq<Step>)
    requires Shut(s) && s.drained && s.worker.Waiting? && NobodyNotifies(s)
    requires Possible(s, run) && forall step <- run :: Ordinary(step)
    ensures After(s, run).worker.Waiting?
    decreases |run|
  {
    if run != [] {
      StepKeepsShut(s, run[0]);
      assert Ordinary(run[0]);
      AsleepOnce(s, run[0]);
      AsleepForGood(Next(s, run[0]), run[1..]);
    }
  }

  lemma {:induction false} OneMore(s: State, run: seq<Step>, step: Step)
    requires Possible(s, run) && Enabled(After(s, run), step)
    ensures Possible(s, run + [step]) && After(s, run + [step]) == Next(After(s, run), step)
    decreases |run|
  {
    if run == [] {
      assert [step][1..] == [];
      assert Possible(Next(s, step), []);
    } else {
      assert (run + [step])[1..] == run[1..] + [step];
      OneMore(Next(s, run[0]), run[1..], step);
    }
  }

  predicate Asleep(s: State) {
    s.worker.Waiting? && s.drained && s.callers == [Gone]
  }

  /** It does happen: the worker looks, the whole shutdown goes by, the worker falls asleep. */
  lemma LostWakeup()
    ensures exists run :: Possible(INIT, run) && Asleep(After(INIT, run))
  {
    hide Possible, After;
    var run: seq<Step> := [];
    NoSteps(INIT);
    OneMore(INIT, run, Call(ShuttingDown));
    run := run + [Call(ShuttingDown)];
    OneMore(INIT, run, Work);
    run := run + [Work];
    OneMore(INIT, run, Act(0));
    run := run + [Act(0)];
    OneMore(INIT, run, Act(0));
    run := run + [Act(0)];
    OneMore(INIT, run, Act(0));
    run := run + [Act(0)];
    OneMore(INIT, run, Work);
    run := run + [Work];
  }

  lemma NoSteps(s: State)
    ensures Possible(s, []) && After(s, []) == s
  {
  }

  /** Tasks leave the queue in order, but a flush beside the worker may finish them out of order. */
  lemma FinishedOutOfOrder()
    ensures exists run :: Possible(INIT, run) && After(INIT, run).accepted == [1, 2] && After(INIT, run).ran == [2, 1]
  {
    hide Possible, After;
    NoSteps(INIT);
    var run: seq<Step> := [];
    OneMore(INIT, run, Call(Adding(1)));
    run := run + [Call(Adding(1))];
    OneMore(INIT, run, Act(0));
    run := run + [Act(0)];
    OneMore(INIT, run, Call(Adding(2)));
    run := run + [Call(Adding(2))];
    OneMore(INIT, run, Act(1));
    run := run + [Act(1)];
    OneMore(INIT, run, Call(Flushing(false)));
    run := run + [Call(Flushing(false))];
    OneMore(INIT, run, Act(2));
    run := run + [Act(2)];
    OneMore(INIT, run, Work);
    run := run + [Work];
    OneMore(INIT, run, Work);
    run := run + [Work];
    OneMore(INIT, run, Work);
    run := run + [Work];
    OneMore(INIT, run, Act(2));
    run := run + [Act(2)];
  }

  // ---------------------------------------------------------------------
  // The object the threads share
  // ---------------------------------------------------------------------

  class DatabaseTasks {
    var threadState: ThreadState
    var tasks: seq<Task>

    /** What the object is in a state of the protocol. */
    ghost predicate Shows(s: State)
      reads this
    {
      s.thread == threadState && s.queue == tasks
    }

    constructor ()
      ensures Shows(INIT)
    {
      threadState, tasks := Running, [];
    }

    /** The part of addTask under the lock; the caller notifies afterwards if told so. */
    method AddTask(task: Task) returns (signal: bool)
      modifies this
      ensures forall s: State, i: nat | i < |s.callers| && old(Shows(s)) ::
        Shows(Add(s, i, task)) && (signal <==> Add(s, i, task).callers[i] == Notifying)
    {
      signal := false;
      if threadState == Running {
        signal := tasks == [];
        tasks := tasks + [task];
      }
    }

    /** The part of the worker's turn under the lock; without a task it is to wait, or, woken, to go round again. */
    method TakeTask(woken: bool) returns (worker: Worker)
      modifies this
      ensures forall s: State | s.worker == (if woken then Woken else Locking) && old(Shows(s)) ::
        Shows(WorkerTurn(s)) && worker == WorkerTurn(s).worker
    {
      if tasks == [] {
        return if woken then Top else Waiting;
      }
      worker := Busy(tasks[0]);
      tasks := tasks[1..];
    }

    /** The part of a shutdown under the lock. */
    method Terminate()
      modifies this
      ensures forall s: State, i: nat | i < |s.callers| && s.callers[i].ShuttingDown? && old(Shows(s)) :: Shows(CallerTurn(s, i))
    {
      threadState := Terminated;
    }

    /** A flush that nobody interferes with runs everything that is queued, in order. */
    method Flush() returns (ran: seq<Task>)
      modifies this
      ensures tasks == [] && ran == old(tasks) && threadState == old(threadState)
    {
      ran := [];
      while tasks != []
        invariant ran + tasks == old(tasks) && threadState == old(threadState)
        decreases |tasks|
      {
        var task := tasks[0];
        assert tasks == [task] + tasks[1..];
        tasks := tasks[1..];
        ran := ran + [task];
      }
    }
  }
}
