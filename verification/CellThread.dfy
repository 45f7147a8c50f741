/** CellThread's Start, Close, Exit and OnWork, for a worker that may call Exit itself, as
    CellServer::OnRun does when DoNetEvent fails.  The machine knows the semaphore by its
    number of permits; the class has the semaphore itself. */
module CellThreads {
  import opened Bytes
  import Sem = Semaphore

  datatype Worker =
    | Idle       // no thread
    | InBody     // _onRun, past its last test of isRun()
    | WantsExit  // in Exit, before it has the mutex
    | Leaving    // _onRun has returned
    | Clearing   // after _sem.wakeup(), before _isRun = false

  datatype State = State(isRun: bool, worker: Worker, closing: bool, permits: nat)

  const INIT: State := State(false, Idle, false, 0)

  datatype Event =
    | Start
    | Loop         // the worker tests isRun()
    | Fail         // the worker decides to call Exit
    | ExitSection  // Exit under the mutex
    | Signal       // _sem.wakeup()
    | Clear        // _isRun = false
    | CloseEnter   // Close takes the mutex
    | CloseReturn  // _sem.wait() completes and the mutex is released

  predicate Enabled(s: State, e: Event) {
    match e
    case Start => !s.closing && s.worker.Idle?
    case Loop => s.worker.InBody?
    case Fail => s.worker.InBody?
    case ExitSection => s.worker.WantsExit? && !s.closing
    case Signal => s.worker.Leaving?
    case Clear => s.worker.Clearing?
    case CloseEnter => !s.closing
    case CloseReturn => s.closing && s.permits > 0
  }

  function Step(s: State, e: Event): State {
    if !Enabled(s, e) then s
    else match e
      case Start => if !s.isRun then s.(isRun := true, worker := InBody) else s
      case Loop => if s.isRun then s else s.(worker := Leaving)
      case Fail => s.(worker := WantsExit)
      case ExitSection => s.(isRun := false, worker := Leaving)
      case Signal => s.(permits := s.permits + 1, worker := Clearing)
      case Clear => s.(isRun := false, worker := Idle)
      case CloseEnter => if s.isRun then s.(isRun := false, closing := true) else s
      case CloseReturn => s.(closing := false, permits := s.permits - 1)
  }

  function Run(s: State, es: seq<Event>): State
    decreases |es|
  {
    if es == [] then s else Run(Step(s, es[0]), es[1..])
  }

  predicate Finished(s: State) { s.worker.Idle? || s.worker.Clearing? }

  ghost predicate Inv(s: State) {
    && (s.isRun ==> (s.worker.InBody? || s.worker.WantsExit?) && !s.closing)
    && (s.closing && Finished(s) ==> s.permits > 0)
  }

  lemma {:induction false} RunKeepsInv(s: State, es: seq<Event>)
    requires Inv(s)
    ensures Inv(Run(s, es))
    decreases |es|
  {
    if es != [] {
      RunKeepsInv(Step(s, es[0]), es[1..]);
    }
  }

  /** Close holds the mutex that Exit needs, and waits for the worker that is in Exit. */
  predicate Deadlocked(s: State) {
    s.closing && s.worker.WantsExit? && s.permits == 0
  }

  lemma {:induction false} DeadlockIsForever(s: State, es: seq<Event>)
    requires Deadlocked(s)
    ensures Run(s, es) == s
    decreases |es|
  {
    if es != [] {
      DeadlockIsForever(Step(s, es[0]), es[1..]);
    }
  }

  /** What brings a Close that is not deadlocked to return. */
  function Finish(s: State): seq<Event> {
    if s.permits > 0 then [CloseReturn]
    else match s.worker
      case InBody => [Loop, Signal, CloseReturn]
      case Leaving => [Signal, CloseReturn]
      case _ => []
  }

  /** At this moment some continuation lets the waiting Close return, exactly when it is not
      deadlocked with Exit. */
  lemma CanReturnIff(s: State)
    requires Inv(s) && s.closing
    ensures (exists fs :: !Run(s, fs).closing) <==> !Deadlocked(s)
  {
    if Deadlocked(s) {
      forall fs ensures Run(s, fs).closing { DeadlockIsForever(s, fs); }
    } else {
      FinishWorks(s);
    }
  }

  lemma FinishWorks(s: State)
    requires Inv(s) && s.closing && !Deadlocked(s)
    ensures !Run(s, Finish(s)).closing
  {
    if s.permits == 0 {
      if s.worker.InBody? {
        RunThree(s, Loop, Signal, CloseReturn);
      } else {
        RunTwo(s, Signal, CloseReturn);
      }
    } else {
      RunOne(s, CloseReturn);
    }
  }

  lemma RunTwo(s: State, a: Event, b: Event)
    ensures Run(s, [a, b]) == Step(Step(s, a), b)
  {
    var es := [a, b];
    assert es[0] == a && es[1..] == [b];
    RunOne(Step(s, a), b);
  }

  lemma RunOne(s: State, a: Event)
    ensures Run(s, [a]) == Step(s, a)
  {
    assert [a][1..] == [];
  }

  lemma RunThree(s: State, a: Event, b: Event, c: Event)
    ensures Run(s, [a, b, c]) == Step(Step(Step(s, a), b), c)
  {
    assert [a, b, c][1..] == [b, c];
    RunTwo(Step(s, a), b, c);
  }

  /** This Close never gets stuck along `es`: until it returns, it always can. */
  predicate StaysFree(s: State, es: seq<Event>)
    decreases |es|
  {
    !s.closing || (!Deadlocked(s) && (es == [] || StaysFree(Step(s, es[0]), es[1..])))
  }

  predicate Free(s: State, es: seq<Event>) {
    StaysFree(s, es)
  }

  /** The worker can no longer ask for the mutex, or a permit is there. */
  predicate Secure(s: State) {
    s.permits > 0 || !(s.worker.InBody? || s.worker.WantsExit?)
  }

  lemma {:induction false} SecureStaysFree(s: State, es: seq<Event>)
    requires s.closing && !s.isRun && Secure(s)
    ensures StaysFree(s, es)
    decreases |es|
  {
    if es != [] && Step(s, es[0]).closing {
      SecureStaysFree(Step(s, es[0]), es[1..]);
    }
  }

  lemma ExitBlocks(s: State)
    requires Inv(s) && s.closing && !Secure(s)
    ensures exists es: seq<Event> :: !Free(s, es)
  {
    if s.worker.InBody? {
      var es := [Fail];
      var t := Step(s, es[0]);
      assert Deadlocked(t) && t.closing;
      assert !StaysFree(t, es[1..]);
      assert !Free(s, es);
    } else {
      assert !Free(s, []);
    }
  }

  /** A waiting Close is safe in every continuation exactly when a permit is there already
      or the worker has left its work function; otherwise the worker may still enter Exit,
      and the Close never returns. */
  lemma CloseReturnsIff(s: State)
    requires Inv(s) && s.closing
    ensures (forall es: seq<Event> :: Free(s, es)) <==> Secure(s)
  {
    if Secure(s) {
      forall es: seq<Event> ensures Free(s, es) { SecureStaysFree(s, es); }
    } else {
      ExitBlocks(s);
    }
  }

  /** The same for the caller of Close, before the call: over every history, it is sure to
      return exactly when no worker is marked running or a permit is left from before. */
  lemma SafeToCloseIff(es: seq<Event>)
    requires !Run(INIT, es).closing
    ensures var s := Run(INIT, es);
            (forall fs: seq<Event> :: Free(Step(s, CloseEnter), fs)) <==> (!s.isRun || s.permits > 0)
  {
    var s := Run(INIT, es);
    RunKeepsInv(INIT, es);
    var t := Step(s, CloseEnter);
    if t.closing {
      CloseReturnsIff(t);
    } else {
      forall fs: seq<Event> ensures Free(t, fs) {}
    }
  }

  predicate NoExit(es: seq<Event>) {
    forall i :: 0 <= i < |es| ==> !es[i].Fail?
  }

  lemma {:induction false} NoExitNoWish(s: State, es: seq<Event>)
    requires NoExit(es) && !s.worker.WantsExit?
    ensures !Run(s, es).worker.WantsExit?
    decreases |es|
  {
    if es != [] {
      NoExitNoWish(Step(s, es[0]), es[1..]);
    }
  }

  /** With a worker that never calls Exit, a waiting Close can return in every history. */
  lemma CloseReturnsWithoutExit(es: seq<Event>)
    requires NoExit(es) && Run(INIT, es).closing
    ensures var s := Run(INIT, es); exists fs :: !Run(s, fs).closing
  {
    NoExitNoWish(INIT, es);
    RunKeepsInv(INIT, es);
    CanReturnIff(Run(INIT, es));
  }

  /** The deadlock is reached by Start, a failing DoNetEvent, and Close. */
  lemma ExitRacesClose()
    ensures Deadlocked(Run(INIT, [Start, Fail, CloseEnter]))
  {
    RunThree(INIT, Start, Fail, CloseEnter);
  }

  /** A permit left over from an earlier run is what lets Close return too soon: counting
      from the moment Close starts to wait, every return finds the worker finished exactly
      when no permit was there beforehand. */
  lemma NoStalePermitIff(s: State)
    requires Inv(s) && s.closing && !Finished(s)
    ensures s.permits == 0 <==>
            forall es: seq<Event> :: Sound(s, es)
  {
    if s.permits == 0 {
      forall es: seq<Event> ensures Sound(s, es) { ReturnsAfterSignal(s, es); }
    } else {
      var es := [CloseReturn];
      assert es[0] == CloseReturn;
      assert !Sound(s, es);
    }
  }

  /** If this Close returns during `es`, the worker has finished by then. */
  predicate FirstReturnSound(s: State, es: seq<Event>)
    decreases |es|
  {
    !s.closing || es == [] ||
    (if es[0].CloseReturn? && Enabled(s, CloseReturn) then Finished(s)
     else FirstReturnSound(Step(s, es[0]), es[1..]))
  }

  predicate Sound(s: State, es: seq<Event>) {
    FirstReturnSound(s, es)
  }

  lemma {:induction false} ReturnsAfterSignal(s: State, es: seq<Event>)
    requires s.closing && !s.isRun && (Finished(s) || s.permits == 0)
    ensures FirstReturnSound(s, es)
    decreases |es|
  {
    if es != [] && !(es[0].CloseReturn? && Enabled(s, CloseReturn)) {
      ReturnsAfterSignal(Step(s, es[0]), es[1..]);
    }
  }

  /** Such a permit exists after a run that ended by itself and a restart. */
  lemma SelfExitLeavesPermit()
    ensures var s := Run(INIT, [Start, Fail, ExitSection, Signal, Clear, Start, CloseEnter]);
            s.closing && s.permits == 1 && s.worker.InBody?
  {
    var es := [Signal, Clear, Start, CloseEnter];
    RunThree(INIT, Start, Fail, ExitSection);
    var all := [Start, Fail, ExitSection] + es;
    RunRun(INIT, [Start, Fail, ExitSection], es);
    var s := State(false, Leaving, false, 0);
    assert es == [Signal, Clear, Start] + [CloseEnter];
    RunRun(s, [Signal, Clear, Start], [CloseEnter]);
    RunThree(s, Signal, Clear, Start);
    RunOne(Run(s, [Signal, Clear, Start]), CloseEnter);
    assert all == [Start, Fail, ExitSection, Signal, Clear, Start, CloseEnter];
  }

  lemma {:induction false} RunRun(s: State, es: seq<Event>, fs: seq<Event>)
    ensures Run(s, es + fs) == Run(Run(s, es), fs)
    decreases |es|
  {
    if es == [] {
      assert es + fs == fs;
    } else {
      assert (es + fs)[1..] == es[1..] + fs;
      RunRun(Step(s, es[0]), es[1..], fs);
    }
  }

  // ---- the object, on a real semaphore ----

  /** What the threads do, at the granularity of the semaphore's sections. */
  datatype Act =
    | Do(e: Event)       // Start, Loop, Fail, ExitSection, Clear
    | Wakeup             // _sem.wakeup()
    | Enter(t: Sem.Tid)  // Close up to _sem.wait()
    | Wait               // _sem.wait() up to its return or first sleep
    | Recheck
    | SpuriousWake

  predicate Plain(e: Event) { e.Start? || e.Loop? || e.Fail? || e.ExitSection? || e.Clear? }

  /** CellThread with its CellSemaphore.  The number of permits is not a field: it is what
      the semaphore's two counters amount to. */
  class CellThread {
    var isRun: bool
    var worker: Worker
    var closer: Option<Sem.Tid>  // who holds the mutex in Close
    var asked: bool              // and has begun to wait
    const sem: Sem.CellSemaphore

    ghost predicate Valid()
      reads this, sem
    {
      && sem.Valid()
      && sem.asleep + sem.awake == if closer.Some? && asked then {closer.value} else {}
    }

    ghost function Abs(): State
      reads this, sem
      requires Valid()
    {
      State(isRun, worker, closer.Some?, sem.Permits())
    }

    constructor ()
      ensures Valid() && Abs() == INIT && fresh(sem)
    {
      isRun, worker, closer, asked := false, Idle, None, false;
      sem := new Sem.CellSemaphore();
    }

    method DoPlain(e: Event)
      requires Valid() && Plain(e)
      modifies this
      ensures Valid() && Abs() == Step(old(Abs()), e)
    {
      match e {
        case Start => if closer.None? && worker.Idle? && !isRun { isRun, worker := true, InBody; }
        case Loop => if worker.InBody? && !isRun { worker := Leaving; }
        case Fail => if worker.InBody? { worker := WantsExit; }
        case ExitSection => if worker.WantsExit? && closer.None? { isRun, worker := false, Leaving; }
        case Clear => if worker.Clearing? { isRun, worker := false, Idle; }
        case _ =>
      }
    }

    method SignalEnd()
      requires Valid()
      modifies this, sem
      ensures Valid() && Abs() == Step(old(Abs()), Signal)
    {
      if worker.Leaving? {
        sem.WakeupSection(if closer.Some? then closer.value else 0);
        worker := Clearing;
      }
    }

    method EnterClose(t: Sem.Tid)
      requires Valid()
      modifies this
      ensures Valid() && Abs() == Step(old(Abs()), CloseEnter)
      ensures old(closer.None? && isRun) ==> !isRun && closer == Some(t) && worker == old(worker)
    {
      if closer.None? && isRun {
        isRun, closer, asked := false, Some(t), false;
      }
    }

    /** `_sem.wait()` in Close: it returns at once, releasing the mutex, exactly when the
        machine's CloseReturn is possible. */
    method WaitInClose() returns (returned: bool)
      requires Valid() && closer.Some? && !asked
      modifies this, sem
      ensures Valid() && returned == Enabled(old(Abs()), CloseReturn)
      ensures Abs() == if returned then Step(old(Abs()), CloseReturn) else old(Abs())
    {
      assert closer.value !in sem.asleep + sem.awake;
      var blocked := sem.WaitSection(closer.value);
      returned := !blocked;
      if blocked {
        asked := true;
      } else {
        closer := None;
      }
    }

    /** And so does a waiter that has been woken. */
    method RecheckInClose() returns (returned: bool)
      requires Valid() && closer.Some? && asked && closer.value in sem.awake
      modifies this, sem
      ensures Valid() && returned == Enabled(old(Abs()), CloseReturn)
      ensures Abs() == if returned then Step(old(Abs()), CloseReturn) else old(Abs())
    {
      assert sem.asleep <= {closer.value} && sem.awake <= {closer.value};
      assert closer.value !in sem.asleep;
      returned := sem.RecheckSection(closer.value);
      if returned {
        closer := None;
      }
    }

    /** A Close whose permit has come is not left asleep. */
    lemma WaiterReady()
      requires Valid() && closer.Some? && asked && sem.Permits() > 0
      ensures closer.value in sem.awake
    {
      assert closer.value in sem.asleep + sem.awake;
      Sem.SomeoneBlocked(sem.Abs(), closer.value);
      Sem.PermitFindsWaiter(sem.Abs());
      var t :| t in sem.awake;
      assert t in sem.asleep + sem.awake;
    }

    /** The wait and the recheck are a CloseReturn exactly when one is due and possible. */
    method WaitAct() returns (es: seq<Event>)
      requires Valid()
      modifies this, sem
      ensures Valid() && Abs() == Run(old(Abs()), es)
      ensures es == if old(closer.Some? && !asked && Enabled(Abs(), CloseReturn)) then [CloseReturn] else []
    {
      es := [];
      if closer.Some? && !asked {
        var returned := WaitInClose();
        if returned {
          es := [CloseReturn];
          RunOne(old(Abs()), CloseReturn);
        }
      }
    }

    method RecheckAct() returns (es: seq<Event>)
      requires Valid()
      modifies this, sem
      ensures Valid() && Abs() == Run(old(Abs()), es)
      ensures es == if old(closer.Some? && asked && closer.value in sem.awake && Enabled(Abs(), CloseReturn))
                    then [CloseReturn] else []
    {
      es := [];
      if closer.Some? && asked && closer.value in sem.awake {
        var returned := RecheckInClose();
        if returned {
          es := [CloseReturn];
          RunOne(old(Abs()), CloseReturn);
        }
      }
    }

    method StepAct(a: Act) returns (es: seq<Event>)
      requires Valid() && (a.Do? || a.Wakeup? || a.Enter?)
      modifies this, sem
      ensures Valid() && Abs() == Run(old(Abs()), es) && Means(a, es)
    {
      es := [];
      match a {
        case Do(e) => if Plain(e) { DoPlain(e); es := [e]; }
        case Wakeup => SignalEnd(); es := [Signal];
        case Enter(t) => EnterClose(t); es := [CloseEnter];
      }
      if es != [] {
        RunOne(old(Abs()), es[0]);
      }
    }

    method Perform(a: Act) returns (es: seq<Event>)
      requires Valid()
      modifies this, sem
      ensures Valid() && Abs() == Run(old(Abs()), es) && Means(a, es)
    {
      es := [];
      match a {
        case Wait => es := WaitAct();
        case Recheck => es := RecheckAct();
        case SpuriousWake =>
          if closer.Some? && closer.value in sem.asleep {
            sem.SpuriousWakeup(closer.value);
          }
        case _ => es := StepAct(a);
      }
    }

    /** Every interleaving on the real semaphore is a run of the machine above, act by act,
        so a number of permits is all its theorems need to know. */
    method Play(acts: seq<Act>) returns (pieces: seq<seq<Event>>)
      requires Valid()
      modifies this, sem
      ensures Valid() && Abs() == Run(old(Abs()), Concat(pieces))
      ensures |pieces| == |acts| && forall i :: 0 <= i < |acts| ==> Means(acts[i], pieces[i])
    {
      pieces := [];
      while |pieces| < |acts|
        invariant |pieces| <= |acts| && Valid() && Abs() == Run(old(Abs()), Concat(pieces))
        invariant forall i :: 0 <= i < |pieces| ==> Means(acts[i], pieces[i])
      {
        var more := Perform(acts[|pieces|]);
        RunMore(old(Abs()), pieces, more);
        pieces := pieces + [more];
      }
    }
  }

  function Concat(pieces: seq<seq<Event>>): seq<Event> {
    if pieces == [] then [] else Concat(pieces[..|pieces| - 1]) + pieces[|pieces| - 1]
  }

  lemma RunMore(s: State, pieces: seq<seq<Event>>, more: seq<Event>)
    ensures Run(s, Concat(pieces + [more])) == Run(Run(s, Concat(pieces)), more)
  {
    assert (pieces + [more])[..|pieces|] == pieces;
    RunRun(s, Concat(pieces), more);
  }

  /** The machine's events for an act: waiting and rechecking are a CloseReturn or nothing,
      a spurious wakeup is nothing. */
  predicate Means(a: Act, es: seq<Event>) {
    match a
    case Do(e) => es == if Plain(e) then [e] else []
    case Wakeup => es == [Signal]
    case Enter(_) => es == [CloseEnter]
    case Wait => es == [] || es == [CloseReturn]
    case Recheck => es == [] || es == [CloseReturn]
    case SpuriousWake => es == []
  }
}
