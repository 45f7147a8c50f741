/** CellTaskServer on its CellThread: callers add tasks and close the server while the
    worker swaps, runs and drains, one atomic step at a time. */
module TaskServer {
  import Bytes
  import Sem = Semaphore

  type Task = int
  type Tid = Sem.Tid

  // ---- the two lists ----

  datatype Queue = Queue(
    tasksBuf: seq<Task>, tasks: seq<Task>,
    ran: nat,             // position of the loop over _tasks
    drained: nat,         // position of the final loop over _tasksBuf
    executed: seq<Task>, added: seq<Task>)
  {
    predicate Valid() { ran <= |tasks| && drained <= |tasksBuf| }

    /** Conservation: run tasks, then the rest of `_tasks`, then the rest of `_tasksBuf`. */
    predicate Conserved() {
      Valid() && executed + tasks[ran..] + tasksBuf[drained..] == added
    }
  }

  const EMPTY: Queue := Queue([], [], 0, 0, [], [])

  function AddTask(q: Queue, t: Task): Queue {
    q.(tasksBuf := q.tasksBuf + [t], added := q.added + [t])
  }

  function SwapIn(q: Queue): Queue {
    q.(tasks := q.tasks + q.tasksBuf, tasksBuf := [])
  }

  function RunNext(q: Queue): Queue
    requires q.ran < |q.tasks|
  {
    q.(executed := q.executed + [q.tasks[q.ran]], ran := q.ran + 1)
  }

  function Clear(q: Queue): Queue {
    q.(tasks := [], ran := 0)
  }

  function DrainNext(q: Queue): Queue
    requires q.drained < |q.tasksBuf|
  {
    q.(executed := q.executed + [q.tasksBuf[q.drained]], drained := q.drained + 1)
  }

  lemma AddConserves(q: Queue, t: Task)
    requires q.Conserved()
    ensures AddTask(q, t).Conserved()
  {
    assert (q.tasksBuf + [t])[q.drained..] == q.tasksBuf[q.drained..] + [t];
  }

  lemma SwapConserves(q: Queue)
    requires q.Conserved() && q.drained == 0 && q.ran == 0
    ensures SwapIn(q).Conserved()
  {
    assert q.tasks[0..] == q.tasks && q.tasksBuf[0..] == q.tasksBuf;
    assert SwapIn(q).tasks[0..] == q.tasks + q.tasksBuf;
    assert q.executed + (q.tasks + q.tasksBuf) + [] == q.executed + q.tasks + q.tasksBuf;
  }

  lemma RunConserves(q: Queue)
    requires q.Conserved() && q.ran < |q.tasks|
    ensures RunNext(q).Conserved()
  {
    assert q.tasks[q.ran..] == [q.tasks[q.ran]] + q.tasks[q.ran + 1..];
  }

  lemma DrainedAll(q: Queue)
    requires q.Conserved() && q.tasks == [] && q.drained == |q.tasksBuf|
    ensures q.executed == q.added
  {
    assert q.executed + [] + [] == q.executed;
  }

  lemma DrainConserves(q: Queue)
    requires q.Conserved() && q.drained < |q.tasksBuf| && q.tasks == []
    ensures DrainNext(q).Conserved()
  {
    assert q.tasksBuf[q.drained..] == [q.tasksBuf[q.drained]] + q.tasksBuf[q.drained + 1..];
    assert q.tasks[q.ran..] == [];
    var x := [q.tasksBuf[q.drained]];
    assert q.executed + [] + (x + q.tasksBuf[q.drained + 1..]) == q.executed + x + [] + q.tasksBuf[q.drained + 1..];
  }

  // ---- the whole system ----

  /** Where the worker thread is. */
  datatype Pc =
    | NotStarted
    | Head        // while (pThread->isRun())
    | TestBuf     // if (!_tasksBuf.empty())
    | Swap        // under the lock
    | TestTasks   // if (_tasks.empty())
    | Running     // for (auto pTask : _tasks)
    | Draining    // for (auto pTask : _tasksBuf), unlocked
    | Destroying  // _onDestory
    | Signalling  // _sem.wakeup()
    | Finishing   // _isRun = false
    | Ended

  /** Where the caller of Close that holds CellThread::_mutex is. */
  datatype Closer = Free | Closing(t: Tid) | Blocked(t: Tid) | Leaving(t: Tid)

  datatype State = State(
    q: Queue, pc: Pc, isRun: bool, sem: Sem.State, closer: Closer,
    mark: nat,           // how many tasks had been added when Close cleared _isRun
    returned: set<Tid>)  // callers whose Close returned after Start

  predicate Initial(s: State) {
    s.q == EMPTY && s.pc == NotStarted && !s.isRun && Sem.Initial(s.sem) && s.closer == Free &&
    s.mark == 0 && |s.returned| == 0
  }

  datatype Event =
    | Add(task: Task)
    | Start
    | Worker            // the worker's next step
    | CloseEnter(t: Tid)
    | CloseWait         // _sem.wait()
    | CloseWoken        // the waiter tests the predicate
    | SpuriousWake
    | CloseReturn

  function WorkerStep(s: State): State
    requires s.q.Valid()
  {
    match s.pc
    case NotStarted => s
    case Head => s.(pc := if s.isRun then TestBuf else Draining)
    case TestBuf => s.(pc := if s.q.tasksBuf == [] then TestTasks else Swap)
    case Swap => s.(q := SwapIn(s.q), pc := TestTasks)
    case TestTasks => s.(pc := if s.q.tasks == [] then Head else Running)
    case Running =>
      if s.q.ran < |s.q.tasks| then s.(q := RunNext(s.q)) else s.(q := Clear(s.q), pc := Head)
    case Draining =>
      if s.q.drained < |s.q.tasksBuf| then s.(q := DrainNext(s.q)) else s.(pc := Destroying)
    case Destroying => s.(pc := Signalling)
    case Signalling =>
      var pick := if s.closer.Blocked? then s.closer.t else 0;
      s.(sem := Sem.Step(s.sem, Sem.Wakeup(pick)), pc := Finishing)
    case Finishing => s.(isRun := false, pc := Ended)
    case Ended => s
  }

  function Step(s: State, e: Event): State
    requires s.q.Valid()
  {
    match e
    case Add(t) => s.(q := AddTask(s.q, t))
    case Start => // one Start per object
      if s.closer.Free? && s.pc.NotStarted? then s.(isRun := true, pc := Head) else s
    case Worker => WorkerStep(s)
    case CloseEnter(t) =>
      if !s.closer.Free? then s
      else if s.isRun then s.(isRun := false, closer := Closing(t), mark := |s.q.added|)
      else if s.pc.NotStarted? then s
      else s.(returned := s.returned + {t})
    case CloseWait =>
      if !s.closer.Closing? then s
      else
        var sem := Sem.Step(s.sem, Sem.Wait(s.closer.t));
        s.(sem := sem, closer := if s.closer.t in sem.asleep then Blocked(s.closer.t) else Leaving(s.closer.t))
    case CloseWoken =>
      if s.closer.Blocked? && s.closer.t in s.sem.awake then
        var sem := Sem.Step(s.sem, Sem.Recheck(s.closer.t));
        s.(sem := sem, closer := if s.closer.t in sem.asleep then s.closer else Leaving(s.closer.t))
      else s
    case SpuriousWake =>
      if s.closer.Blocked? then s.(sem := Sem.Step(s.sem, Sem.Spurious(s.closer.t))) else s
    case CloseReturn =>
      if s.closer.Leaving? then s.(closer := Free, returned := s.returned + {s.closer.t}) else s
  }

  predicate Signalled(pc: Pc) { pc.Finishing? || pc.Ended? }

  /** Past the final drain. */
  predicate Drained(pc: Pc) { pc.Destroying? || pc.Signalling? || Signalled(pc) }

  ghost predicate QueueInv(s: State) {
    && s.q.Conserved()
    && (!s.pc.TestTasks? && !s.pc.Running? ==> s.q.tasks == [])
    && (!s.pc.Running? ==> s.q.ran == 0)
    && (!s.pc.Draining? && !Drained(s.pc) ==> s.q.drained == 0)
    && (s.pc.Draining? || Drained(s.pc) ==> !s.isRun)
    && (s.pc.NotStarted? ==> !s.isRun)
    && s.mark <= |s.q.added|
    && (Drained(s.pc) ==> s.mark <= |s.q.executed|)
  }

  ghost predicate CloseInv(s: State) {
    && Sem.Inv(s.sem)
    && s.sem.signals == (if Signalled(s.pc) then 1 else 0)
    && (forall t :: t in s.sem.asleep || t in s.sem.awake ==> s.closer == Blocked(t))
    && (s.closer.Blocked? ==> s.closer.t in s.sem.asleep || s.closer.t in s.sem.awake)
    && (!s.closer.Free? ==> !s.isRun && !s.pc.NotStarted?)
    && (s.isRun || s.pc.NotStarted? || s.closer.Closing? ==> s.sem.started == 0)
    && s.sem.started <= 1 && (s.closer.Blocked? || s.closer.Leaving? ==> s.sem.started == 1)
    && (s.closer.Leaving? ==> s.sem.completed == 1)
    && (s.sem.started > 0 && s.closer.Free? ==> s.sem.completed > 0)
    && (!s.isRun && s.closer.Free? && !s.pc.NotStarted? ==> Signalled(s.pc))
    && (forall t :: t in s.returned ==> Signalled(s.pc))
  }

  ghost predicate Inv(s: State) { QueueInv(s) && CloseInv(s) }

  lemma WorkerKeepsQueue(s: State)
    requires QueueInv(s)
    ensures QueueInv(WorkerStep(s))
  {
    match s.pc
    case Swap => SwapConserves(s.q);
    case Running =>
      if s.q.ran < |s.q.tasks| { RunConserves(s.q); }
    case Draining =>
      if s.q.drained < |s.q.tasksBuf| {
        DrainConserves(s.q);
      } else {
        assert s.q.executed + [] + [] == s.q.executed;
      }
    case _ =>
  }

  lemma StepKeepsQueue(s: State, e: Event)
    requires QueueInv(s) && CloseInv(s)
    ensures QueueInv(Step(s, e))
  {
    match e
    case Worker => WorkerKeepsQueue(s);
    case Add(t) => AddConserves(s.q, t);
    case _ =>
  }

  lemma SignalKeepsClose(s: State)
    requires CloseInv(s) && s.q.Valid() && s.pc.Signalling? && !s.isRun
    ensures CloseInv(WorkerStep(s))
  {
    var pick := if s.closer.Blocked? then s.closer.t else 0;
    Sem.StepKeepsInv(s.sem, Sem.Wakeup(pick));
    var r := Sem.Step(s.sem, Sem.Wakeup(pick));
    var t := WorkerStep(s);
    assert r.signals == 1 && r.started == s.sem.started && r.completed == s.sem.completed;
    assert !s.closer.Leaving? && !s.closer.Free?;
    assert t == s.(sem := r, pc := Finishing);
  }

  lemma WorkerKeepsClose(s: State)
    requires CloseInv(s) && s.q.Valid() && (s.pc.Draining? || Drained(s.pc) ==> !s.isRun)
    ensures CloseInv(WorkerStep(s))
  {
    if s.pc.Signalling? {
      SignalKeepsClose(s);
    } else {
      assert WorkerStep(s).sem == s.sem;
    }
  }

  lemma WaitKeepsClose(s: State)
    requires CloseInv(s) && s.q.Valid() && s.closer.Closing?
    ensures CloseInv(Step(s, CloseWait))
    ensures Signalled(s.pc) ==> Step(s, CloseWait).closer == Leaving(s.closer.t)
  {
    var w := Sem.Wait(s.closer.t);
    Sem.StepKeepsInv(s.sem, w);
    var r := Sem.Step(s.sem, w);
    assert s.closer.t !in s.sem.asleep && s.closer.t !in s.sem.awake;
    NoBlocked(s);
    assert r.started == 1 && r.signals == s.sem.signals && r.awake == {};
  }

  lemma NoBlocked(s: State)
    requires CloseInv(s) && !s.closer.Blocked?
    ensures s.sem.asleep == {} && s.sem.awake == {} && s.sem.wakeup == 0
  {
    forall t ensures t !in s.sem.asleep && t !in s.sem.awake {}
  }

  /** The waiter in Close, once the worker has signalled, is awake and finds its wakeup. */
  lemma OneWaiter(s: State)
    requires CloseInv(s) && s.closer.Blocked? && Signalled(s.pc)
    ensures s.sem.wakeup > 0 && s.closer.t in s.sem.awake
  {
    assert s.sem.Blocked() > 0 by {
      assert s.sem.asleep != {} || s.sem.awake != {};
    }
    assert s.sem.wakeup > 0;
    var t :| t in s.sem.awake;
  }

  lemma WokenKeepsClose(s: State)
    requires CloseInv(s) && s.q.Valid() && s.closer.Blocked? && s.closer.t in s.sem.awake
    ensures CloseInv(Step(s, CloseWoken))
    ensures Signalled(s.pc) ==> Step(s, CloseWoken).closer == Leaving(s.closer.t)
  {
    if Signalled(s.pc) {
      OneWaiter(s);
    }
    var w := Sem.Recheck(s.closer.t);
    Sem.StepKeepsInv(s.sem, w);
    var r := Sem.Step(s.sem, w);
    assert r.started == s.sem.started && r.signals == s.sem.signals;
  }

  lemma SpuriousKeepsClose(s: State)
    requires CloseInv(s) && s.q.Valid() && s.closer.Blocked?
    ensures CloseInv(Step(s, SpuriousWake))
  {
    var w := Sem.Spurious(s.closer.t);
    Sem.StepKeepsInv(s.sem, w);
  }

  lemma StepKeepsClose(s: State, e: Event)
    requires CloseInv(s) && QueueInv(s)
    ensures CloseInv(Step(s, e))
  {
    match e
    case Worker => WorkerKeepsClose(s);
    case CloseWait => if s.closer.Closing? { WaitKeepsClose(s); }
    case CloseWoken => if s.closer.Blocked? && s.closer.t in s.sem.awake { WokenKeepsClose(s); }
    case SpuriousWake => if s.closer.Blocked? { SpuriousKeepsClose(s); }
    case _ => assert Step(s, e).sem == s.sem;
  }

  lemma InitInv(s: State)
    requires Initial(s)
    ensures Inv(s)
  {
    Sem.InitInv(s.sem);
  }

  ghost function Run(s: State, es: seq<Event>): (t: State)
    requires Inv(s)
    ensures Inv(t)
    decreases |es|
  {
    if es == [] then s
    else
      StepKeepsQueue(s, es[0]);
      StepKeepsClose(s, es[0]);
      Run(Step(s, es[0]), es[1..])
  }

  ghost function Reached(init: State, es: seq<Event>): (s: State)
    requires Initial(init)
    ensures Inv(s)
  {
    InitInv(init);
    Run(init, es)
  }

  /** No task is lost, repeated or reordered, at any moment of any interleaving. */
  lemma TasksConserved(init: State, es: seq<Event>)
    requires Initial(init)
    ensures var q := Reached(init, es).q;
            && q.Valid() && q.executed + q.tasks[q.ran..] + q.tasksBuf[q.drained..] == q.added
            && q.executed <= q.added
  {
    ExecutedFirst(Reached(init, es).q);
  }

  lemma ExecutedFirst(q: Queue)
    requires q.Conserved()
    ensures q.executed <= q.added
  {
  }

  /** When a Close of a started server has returned, the worker has left its callbacks and
      every task added before `_isRun` was cleared has run, once, in the order added. */
  lemma CloseMeansDone(init: State, es: seq<Event>, t: Tid)
    requires Initial(init) && t in Reached(init, es).returned
    ensures var s := Reached(init, es);
            && Signalled(s.pc)
            && s.mark <= |s.q.executed| && s.q.executed <= s.q.added
            && s.q.added[..s.mark] == s.q.executed[..s.mark]
  {
    TasksConserved(init, es);
  }

  // ---- Close always returns ----

  function Rank(pc: Pc): nat {
    match pc
    case Ended => 0 case Finishing => 1 case Signalling => 2 case Destroying => 3
    case Draining => 4 case Head => 5 case Running => 6 case TestTasks => 7
    case Swap => 8 case TestBuf => 9 case NotStarted => 10
  }

  function Left(q: Queue): nat
    requires q.Valid()
  {
    |q.tasks| - q.ran + |q.tasksBuf| - q.drained
  }

  predicate Internal(e: Event) {
    e.Worker? || e.CloseWait? || e.CloseWoken? || e.CloseReturn?
  }

  predicate AllInternal(es: seq<Event>) {
    forall i :: 0 <= i < |es| ==> Internal(es[i])
  }

  lemma WorkerAdvances(s: State)
    requires Inv(s) && !s.closer.Free? && !Signalled(s.pc)
    ensures var t := Step(s, Worker);
            Inv(t) && t.closer == s.closer &&
            (Rank(t.pc) < Rank(s.pc) || (t.pc == s.pc && Left(t.q) < Left(s.q)))
  {
    WorkerKeepsQueue(s);
    WorkerKeepsClose(s);
  }

  lemma RunCons(s: State, e: Event, es: seq<Event>)
    requires Inv(s) && Inv(Step(s, e))
    ensures Run(s, [e] + es) == Run(Step(s, e), es)
  {
    assert ([e] + es)[1..] == es;
  }

  lemma {:induction false} WorkerSignals(s: State) returns (es: seq<Event>)
    requires Inv(s) && !s.closer.Free?
    ensures AllInternal(es)
    ensures Signalled(Run(s, es).pc) && Run(s, es).closer == s.closer
    decreases Rank(s.pc), Left(s.q)
  {
    es := [];
    if !Signalled(s.pc) {
      WorkerAdvances(s);
      var fs := WorkerSignals(Step(s, Worker));
      RunCons(s, Worker, fs);
      es := [Worker] + fs;
    }
  }

  lemma {:induction false} RunRun(s: State, es: seq<Event>, fs: seq<Event>)
    requires Inv(s)
    ensures Run(s, es + fs) == Run(Run(s, es), fs)
    decreases |es|
  {
    if es == [] {
      assert es + fs == fs;
    } else {
      StepKeepsQueue(s, es[0]);
      StepKeepsClose(s, es[0]);
      assert (es + fs)[1..] == es[1..] + fs;
      RunRun(Step(s, es[0]), es[1..], fs);
    }
  }

  lemma CloserLeaves(s: State) returns (es: seq<Event>)
    requires Inv(s) && !s.closer.Free? && Signalled(s.pc)
    ensures AllInternal(es)
    ensures s.closer.t in Run(s, es).returned
    decreases !s.closer.Leaving?
  {
    if s.closer.Closing? {
      WaitKeepsClose(s);
    } else if s.closer.Blocked? {
      OneWaiter(s);
      WokenKeepsClose(s);
    }
    var e := if s.closer.Closing? then CloseWait else if s.closer.Blocked? then CloseWoken else CloseReturn;
    StepKeepsQueue(s, e);
    StepKeepsClose(s, e);
    var t := Step(s, e);
    var fs := [];
    if !s.closer.Leaving? {
      fs := CloserLeaves(t);
    }
    RunCons(s, e, fs);
    es := [e] + fs;
  }

  lemma Finish(s: State) returns (es: seq<Event>)
    requires Inv(s) && !s.closer.Free?
    ensures AllInternal(es) && s.closer.t in Run(s, es).returned
  {
    var xs := WorkerSignals(s);
    var ys := CloserLeaves(Run(s, xs));
    RunRun(s, xs, ys);
    es := xs + ys;
  }

  /** Close cannot be stuck: from every reachable state in which a caller is inside Close,
      the worker and the caller alone can bring it to return. */
  lemma CloseCanReturn(init: State, es: seq<Event>)
    requires Initial(init) && !Reached(init, es).closer.Free?
    ensures var s := Reached(init, es);
            exists fs: seq<Event> | AllInternal(fs) :: s.closer.t in Run(s, fs).returned
  {
    var fs := Finish(Reached(init, es));
  }

  // ---- an open server runs what it is given ----

  predicate OnlyWorker(es: seq<Event>) {
    forall i :: 0 <= i < |es| ==> es[i].Worker?
  }

  /** Start starts, and a Close of a running server begins by stopping it, noting what has
      been added. */
  lemma StartAndClose(s: State, t: Tid)
    requires s.q.Valid() && s.closer.Free?
    ensures s.pc.NotStarted? ==> Step(s, Start) == s.(isRun := true, pc := Head)
    ensures s.isRun ==> Step(s, CloseEnter(t)) == s.(isRun := false, closer := Closing(t), mark := |s.q.added|)
    ensures !s.isRun && !s.pc.NotStarted? ==> Step(s, CloseEnter(t)) == s.(returned := s.returned + {t})
  {
  }

  /** A task is buffered behind the others the moment it is added. */
  lemma Added(s: State, t: Task)
    requires s.q.Valid()
    ensures Step(s, Add(t)) == s.(q := s.q.(tasksBuf := s.q.tasksBuf + [t], added := s.q.added + [t]))
  {
  }

  /** A running worker that finds tasks buffered swaps all of them in. */
  lemma SwapsIn(s: State)
    requires Inv(s) && s.isRun && s.pc.TestBuf? && s.q.tasksBuf != []
    ensures var t := Step(Step(s, Worker), Worker);
            t.q.tasks == s.q.tasks + s.q.tasksBuf && t.q.tasksBuf == [] && t.pc.TestTasks?
  {
  }

  function Around(pc: Pc): nat {
    match pc
    case TestTasks => 5 case Running => 4 case Head => 3 case TestBuf => 2 case Swap => 1 case _ => 0
  }

  /** While something is not executed, a running worker's step brings it nearer. */
  lemma WorkerNears(s: State)
    requires Inv(s) && s.isRun && s.q.executed != s.q.added
    ensures var t := Step(s, Worker);
            && Inv(t) && t.isRun && t.q.added == s.q.added
            && ((s.q.tasksBuf != [] && t.q.tasksBuf == []) ||
                (t.q.tasksBuf == s.q.tasksBuf &&
                 (Around(t.pc) < Around(s.pc) || (t.pc == s.pc && Left(t.q) < Left(s.q)))))
  {
    WorkerKeepsQueue(s);
    WorkerKeepsClose(s);
    if s.q.tasksBuf == [] && s.q.ran == |s.q.tasks| {
      NothingLeft(s);
    }
  }

  lemma NothingLeft(s: State)
    requires Inv(s) && s.isRun && s.q.tasksBuf == [] && s.q.ran == |s.q.tasks|
    ensures s.q.executed == s.q.added
  {
    assert s.q.executed + [] + [] == s.q.executed;
  }

  /** A running worker alone executes everything that has been added, from any state. */
  lemma {:induction false} WorkerCatchesUp(s: State) returns (es: seq<Event>)
    requires Inv(s) && s.isRun
    ensures OnlyWorker(es)
    ensures var t := Run(s, es); t.isRun && t.q.executed == t.q.added == s.q.added
    decreases s.q.tasksBuf != [], Around(s.pc), Left(s.q)
  {
    es := [];
    if s.q.executed != s.q.added {
      WorkerNears(s);
      var fs := WorkerCatchesUp(Step(s, Worker));
      RunCons(s, Worker, fs);
      es := [Worker] + fs;
    }
  }

  /** So nothing has to be closed for tasks to run: in every reachable state of a server that
      is running, the worker's steps alone can execute every task added. */
  lemma TasksRunWhileOpen(init: State, es: seq<Event>)
    requires Initial(init) && Reached(init, es).isRun
    ensures var s := Reached(init, es);
            exists fs: seq<Event> | OnlyWorker(fs) :: Run(s, fs).q.executed == s.q.added
  {
    var fs := WorkerCatchesUp(Reached(init, es));
  }

  /** What happens to the mark and to a caller that has not returned. */
  lemma {:induction false} MarkStays(s: State, es: seq<Event>, mark: nat)
    requires Inv(s) && !s.isRun && !s.pc.NotStarted? && s.mark == mark
    ensures var t := Run(s, es); !t.isRun && !t.pc.NotStarted? && t.mark == mark && s.q.added <= t.q.added
    decreases |es|
  {
    if es != [] {
      StepKeepsQueue(s, es[0]);
      StepKeepsClose(s, es[0]);
      StepKeepsMark(s, es[0]);
      MarkStays(Step(s, es[0]), es[1..], mark);
    }
  }

  lemma StepKeepsMark(s: State, e: Event)
    requires s.q.Valid() && !s.isRun && !s.pc.NotStarted?
    ensures var t := Step(s, e); !t.isRun && !t.pc.NotStarted? && t.mark == s.mark && s.q.added <= t.q.added
  {
  }

  /** Close from the caller's side: from every reachable running state, whatever happens
      after the call, once it has returned every task added before it has been executed. */
  lemma CloseRunsEarlierTasks(init: State, es: seq<Event>, t: Tid, fs: seq<Event>)
    requires Initial(init) && Reached(init, es).isRun
    ensures var s := Reached(init, es); var u := Run(s, [CloseEnter(t)] + fs);
            t in u.returned ==> s.q.added <= u.q.executed
  {
    var s := Reached(init, es);
    var c := Step(s, CloseEnter(t));
    StartAndClose(s, t);
    StepKeepsQueue(s, CloseEnter(t));
    StepKeepsClose(s, CloseEnter(t));
    RunCons(s, CloseEnter(t), fs);
    MarkStays(c, fs, |s.q.added|);
    var u := Run(c, fs);
    if t in u.returned {
      ExecutedFirst(u.q);
      assert u.q.added[..|s.q.added|] == s.q.added;
    }
  }

  /** And the call can always be brought to return. */
  lemma CloseCallCanReturn(init: State, es: seq<Event>, t: Tid)
    requires Initial(init) && Reached(init, es).isRun
    ensures var s := Reached(init, es);
            exists fs: seq<Event> | AllInternal(fs) :: t in Run(s, [CloseEnter(t)] + fs).returned
  {
    var s := Reached(init, es);
    StartAndClose(s, t);
    StepKeepsQueue(s, CloseEnter(t));
    StepKeepsClose(s, CloseEnter(t));
    var fs := Finish(Step(s, CloseEnter(t)));
    RunCons(s, CloseEnter(t), fs);
    assert t in Run(s, [CloseEnter(t)] + fs).returned;
  }

  // ---- the objects ----

  function Concat(xs: seq<seq<Task>>): seq<Task> {
    if xs == [] then [] else Concat(xs[..|xs| - 1]) + xs[|xs| - 1]
  }

  class CellTaskServer {
    var tasksBuf: seq<Task>
    var tasks: seq<Task>
    var ran: nat
    var drained: nat
    ghost var executed: seq<Task>
    ghost var added: seq<Task>

    ghost function Abs(): Queue
      reads this
    {
      Queue(tasksBuf, tasks, ran, drained, executed, added)
    }

    constructor ()
      ensures Abs() == EMPTY
    {
      tasksBuf, tasks, ran, drained := [], [], 0, 0;
      executed, added := [], [];
    }

    method Add(t: Task)
      modifies this
      ensures Abs() == AddTask(old(Abs()), t)
      ensures tasksBuf == old(tasksBuf) + [t] && added == old(added) + [t]
      ensures old(Abs()).Conserved() ==> Abs().Conserved()
    {
      if Abs().Conserved() { AddConserves(Abs(), t); }
      tasksBuf := tasksBuf + [t];
      added := added + [t];
    }

    method AddAll(ts: seq<Task>)
      requires Abs().Conserved()
      modifies this
      ensures Abs().Conserved()
      ensures Abs() == old(Abs()).(tasksBuf := old(tasksBuf) + ts, added := old(added) + ts)
    {
      var i := 0;
      while i < |ts|
        invariant i <= |ts| && Abs().Conserved()
        invariant Abs() == old(Abs()).(tasksBuf := old(tasksBuf) + ts[..i], added := old(added) + ts[..i])
      {
        Add(ts[i]);
        i := i + 1;
      }
    }

    /** The worker's critical section. */
    method TakeBuffered()
      modifies this
      ensures Abs() == SwapIn(old(Abs()))
      ensures tasks == old(tasks) + old(tasksBuf) && tasksBuf == []
    {
      var i := 0;
      while i < |tasksBuf|
        invariant i <= |tasksBuf| && tasksBuf == old(tasksBuf)
        invariant tasks == old(tasks) + tasksBuf[..i]
        invariant Abs() == old(Abs()).(tasks := tasks)
      {
        tasks := tasks + [tasksBuf[i]];
        i := i + 1;
      }
      tasksBuf := [];
    }

    method RunOne()
      requires ran < |tasks|
      modifies this
      ensures Abs() == RunNext(old(Abs()))
    {
      executed := executed + [tasks[ran]];
      ran := ran + 1;
    }

    method ClearTasks()
      modifies this
      ensures Abs() == Clear(old(Abs()))
    {
      tasks, ran := [], 0;
    }

    method DrainOne()
      requires drained < |tasksBuf|
      modifies this
      ensures Abs() == DrainNext(old(Abs()))
      ensures old(Abs()).Conserved() && |old(tasks)| == 0 ==> Abs().Conserved()
    {
      if Abs().Conserved() && |tasks| == 0 { DrainConserves(Abs()); }
      executed := executed + [tasksBuf[drained]];
      drained := drained + 1;
    }

    /** The loop over `_tasks`, and the clear after it, while callers add `arrivals[i]`
        before task `i`: exactly the tasks swapped in run, and no arrival is lost. */
    method RunTasks(arrivals: seq<seq<Task>>)
      requires Abs().Conserved() && ran == 0 && |arrivals| == |tasks|
      modifies this
      ensures tasks == [] && ran == 0 && drained == old(drained) && Abs().Conserved()
      ensures executed == old(executed) + old(tasks)
      ensures tasksBuf == old(tasksBuf) + Concat(arrivals) && added == old(added) + Concat(arrivals)
    {
      while ran < |tasks|
        invariant ran <= |tasks| && Abs().Conserved()
        invariant executed == old(executed) + tasks[..ran] && tasks == old(tasks) && drained == old(drained)
        invariant tasksBuf == old(tasksBuf) + Concat(arrivals[..ran]) && added == old(added) + Concat(arrivals[..ran])
        decreases |tasks| - ran
      {
        assert arrivals[..ran + 1][..ran] == arrivals[..ran];
        AddAll(arrivals[ran]);
        RunConserves(Abs());
        RunOne();
      }
      assert arrivals[..ran] == arrivals && tasks[ran..] == [];
      ClearTasks();
    }

    /** The final loop over `_tasksBuf`, while callers go on adding before each of its tests:
        when it ends, after `used` of the arrivals, everything added until then has run. */
    method DrainBuffered(arrivals: seq<seq<Task>>) returns (used: nat)
      requires |tasks| == 0 && Abs().Conserved()
      modifies this
      ensures Abs().Conserved() && drained == |tasksBuf| && used <= |arrivals|
      ensures executed == added == old(added) + Concat(arrivals[..used])
    {
      ghost var base := added;
      used := 0;
      assert arrivals[..0] == [] && added + [] == added;
      used := Arrive(arrivals, used, base);
      while drained < |tasksBuf|
        invariant |tasks| == 0 && Abs().Conserved() && used <= |arrivals|
        invariant added == base + Concat(arrivals[..used])
        decreases |arrivals| - used, |tasksBuf| - drained
      {
        DrainOne();
        used := Arrive(arrivals, used, base);
      }
      DrainedAll(Abs());
    }

    /** What callers add between two tests, if there is more to come. */
    method Arrive(arrivals: seq<seq<Task>>, used: nat, ghost base: seq<Task>) returns (more: nat)
      requires |tasks| == 0 && Abs().Conserved() && used <= |arrivals| && added == base + Concat(arrivals[..used])
      modifies this
      ensures |tasks| == 0 && Abs().Conserved() && drained == old(drained)
      ensures more == if used < |arrivals| then used + 1 else used
      ensures more == used ==> tasksBuf == old(tasksBuf)
      ensures added == base + Concat(arrivals[..more])
    {
      more := used;
      if used < |arrivals| {
        AddAll(arrivals[used]);
        more := used + 1;
        assert arrivals[..more][..used] == arrivals[..used];
        Bytes.Assoc(base, Concat(arrivals[..used]), arrivals[used]);
      }
    }
  }

  /** The task server, its thread and the thread's semaphore, driven one step at a time by
      the worker and any number of callers. */
  class RunningServer {
    const server: CellTaskServer
    const sem: Sem.CellSemaphore
    var pc: Pc
    var isRun: bool
    var closer: Closer
    ghost var mark: nat
    ghost var returned: set<Tid>

    ghost function Abs(): State
      reads this, server, sem
    {
      State(server.Abs(), pc, isRun, sem.Abs(), closer, mark, returned)
    }

    ghost predicate Valid()
      reads this, server, sem
    {
      Inv(Abs())
    }

    constructor ()
      ensures Initial(Abs()) && Valid() && fresh(server) && fresh(sem)
    {
      server := new CellTaskServer();
      var m := new Sem.CellSemaphore();
      sem := m;
      pc, isRun, closer, mark, returned := NotStarted, false, Free, 0, m.asleep;
      new;
      InitInv(Abs());
    }

    /** The worker's next step. */
    method Work()
      requires Valid()
      modifies this, server, sem
      ensures Abs() == WorkerStep(old(Abs()))
    {
      match pc {
        case NotStarted =>
        case Head => pc := if isRun then TestBuf else Draining;
        case TestBuf => pc := if server.tasksBuf == [] then TestTasks else Swap;
        case Swap => server.TakeBuffered(); pc := TestTasks;
        case TestTasks => pc := if server.tasks == [] then Head else Running;
        case Running =>
          if server.ran < |server.tasks| { server.RunOne(); } else { server.ClearTasks(); pc := Head; }
        case Draining =>
          if server.drained < |server.tasksBuf| { server.DrainOne(); } else { pc := Destroying; }
        case Destroying => pc := Signalling;
        case Signalling => SignalEnd();
        case Finishing => isRun := false; pc := Ended;
        case Ended =>
      }
    }

    method SignalEnd()
      requires Valid() && pc.Signalling?
      modifies this, sem
      ensures Abs() == WorkerStep(old(Abs()))
    {
      var pick := if closer.Blocked? then closer.t else 0;
      SleeperIsCloser(Abs());
      sem.WakeupSection(pick);
      pc := Finishing;
    }

    method WaitNow()
      requires Valid() && closer.Closing?
      modifies this, sem
      ensures Abs() == Step(old(Abs()), CloseWait)
    {
      NoBlocked(Abs());
      var blocked := sem.WaitSection(closer.t);
      closer := if blocked then Blocked(closer.t) else Leaving(closer.t);
    }

    method RecheckNow()
      requires Valid() && closer.Blocked? && closer.t in sem.awake
      modifies this, sem
      ensures Abs() == Step(old(Abs()), CloseWoken)
    {
      assert closer.t !in sem.asleep;
      var done := sem.RecheckSection(closer.t);
      if done {
        closer := Leaving(closer.t);
      }
    }

    method SpuriousNow()
      requires Valid() && closer.Blocked?
      modifies this, sem
      ensures Abs() == Step(old(Abs()), SpuriousWake)
    {
      if closer.t in sem.asleep {
        sem.SpuriousWakeup(closer.t);
      }
    }

    method Enter(t: Tid)
      requires Valid() && closer.Free?
      modifies this
      ensures Abs() == Step(old(Abs()), CloseEnter(t))
    {
      if isRun {
        isRun, closer, mark := false, Closing(t), |server.added|;
      } else if !pc.NotStarted? {
        returned := returned + {t};
      }
    }

    method Perform(e: Event)
      requires Valid()
      modifies this, server, sem
      ensures Abs() == Step(old(Abs()), e)
    {
      match e {
        case Add(t) => server.Add(t);
        case Start => if closer.Free? && pc.NotStarted? { isRun, pc := true, Head; }
        case Worker => Work();
        case CloseEnter(t) => if closer.Free? { Enter(t); }
        case CloseWait => if closer.Closing? { WaitNow(); }
        case CloseWoken => if closer.Blocked? && closer.t in sem.awake { RecheckNow(); }
        case SpuriousWake => if closer.Blocked? { SpuriousNow(); }
        case CloseReturn => if closer.Leaving? { returned := returned + {closer.t}; closer := Free; }
      }
    }

    /** Every interleaving on the lists and the semaphore is a run of the machine, so the
        theorems above hold of the objects. */
    method Play(es: seq<Event>)
      requires Valid()
      modifies this, server, sem
      ensures Valid() && Abs() == Run(old(Abs()), es)
    {
      var i := 0;
      assert es[0..] == es;
      while i < |es|
        invariant i <= |es| && Valid()
        invariant Run(Abs(), es[i..]) == Run(old(Abs()), es)
      {
        assert es[i..][1..] == es[i + 1..];
        StepKeepsQueue(Abs(), es[i]);
        StepKeepsClose(Abs(), es[i]);
        Perform(es[i]);
        i := i + 1;
      }
    }
  }

  lemma SleeperIsCloser(s: State)
    requires CloseInv(s)
    ensures var pick := if s.closer.Blocked? then s.closer.t else 0;
            |s.sem.asleep| == 0 || pick in s.sem.asleep
  {
    if |s.sem.asleep| > 0 {
      var t :| t in s.sem.asleep;
    }
  }
}
