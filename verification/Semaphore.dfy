/** CellSemaphore at the granularity of its critical sections, with any number of threads,
    `notify_one`, spurious wakeups, and waiters that barge past the ones already asleep. */
module Semaphore {
  import opened Basics

  type Tid = nat

  datatype State = State(
    wait: int, wakeup: int,     // _wait and _wakeup
    asleep: set<Tid>,           // inside _cv.wait, not notified
    awake: set<Tid>,            // inside _cv.wait, about to test the predicate
    started: nat, signals: nat, completed: nat)
  {
    function Blocked(): nat { |asleep| + |awake| }

    /** Signals no wait has used yet. */
    function Permits(): int { signals - completed }
  }

  predicate Initial(s: State) {
    s.wait == s.wakeup == 0 && |s.asleep| == |s.awake| == 0 && s.started == s.signals == s.completed == 0
  }

  datatype Event =
    | Wait(t: Tid)      // wait() up to its return or its first sleep
    | Wakeup(pick: Tid) // wakeup(); `pick` is whom notify_one wakes if it sleeps
    | Spurious(t: Tid)
    | Recheck(t: Tid)   // an awake waiter tests `_wakeup > 0`

  predicate Enabled(s: State, e: Event) {
    match e
    case Wait(t) => t !in s.asleep && t !in s.awake
    case Wakeup(pick) => |s.asleep| == 0 || pick in s.asleep
    case Spurious(t) => t in s.asleep
    case Recheck(t) => t in s.awake
  }

  function Step(s: State, e: Event): State {
    if !Enabled(s, e) then s
    else match e
      case Wait(t) =>
        var r := s.(wait := s.wait - 1, started := s.started + 1);
        if r.wait < 0 then
          if r.wakeup > 0 then r.(wakeup := r.wakeup - 1, completed := r.completed + 1)
          else r.(asleep := r.asleep + {t})
        else r.(completed := r.completed + 1)
      case Wakeup(pick) =>
        var r := s.(wait := s.wait + 1, signals := s.signals + 1);
        if r.wait <= 0 then
          var n := r.(wakeup := r.wakeup + 1);
          if pick in n.asleep then n.(asleep := n.asleep - {pick}, awake := n.awake + {pick}) else n
        else r
      case Spurious(t) => s.(asleep := s.asleep - {t}, awake := s.awake + {t})
      case Recheck(t) =>
        if s.wakeup > 0 then
          s.(wakeup := s.wakeup - 1, awake := s.awake - {t}, completed := s.completed + 1)
        else s.(awake := s.awake - {t}, asleep := s.asleep + {t})
  }

  function Run(s: State, es: seq<Event>): State
    decreases |es|
  {
    if es == [] then s else Run(Step(s, es[0]), es[1..])
  }

  function Max(a: int, b: int): int { if a < b then b else a }
  function Min(a: int, b: int): int { if a < b then a else b }

  ghost predicate Inv(s: State) {
    && 0 <= s.wakeup <= |s.awake|
    && s.asleep !! s.awake
    && s.wait == s.signals - s.started
    && s.Blocked() == Max(0, -s.wait) + s.wakeup
    && s.completed == Min(s.started, s.signals) - s.wakeup
  }

  lemma InitInv(s: State)
    requires Initial(s)
    ensures Inv(s)
  {
  }

  lemma WaitKeepsInv(s: State, t: Tid)
    requires Inv(s) && Enabled(s, Wait(t))
    ensures Inv(Step(s, Wait(t)))
  {
    OneMore(s.asleep, t);
  }

  lemma WakeupKeepsInv(s: State, pick: Tid)
    requires Inv(s) && Enabled(s, Wakeup(pick))
    ensures Inv(Step(s, Wakeup(pick)))
  {
    if pick in s.asleep {
      OneLess(s.asleep, pick);
      OneMore(s.awake, pick);
    }
  }

  lemma SpuriousKeepsInv(s: State, t: Tid)
    requires Inv(s) && Enabled(s, Spurious(t))
    ensures Inv(Step(s, Spurious(t)))
  {
    OneLess(s.asleep, t);
    OneMore(s.awake, t);
  }

  lemma RecheckKeepsInv(s: State, t: Tid)
    requires Inv(s) && Enabled(s, Recheck(t))
    ensures Inv(Step(s, Recheck(t)))
  {
    OneLess(s.awake, t);
    OneMore(s.asleep, t);
  }

  lemma StepKeepsInv(s: State, e: Event)
    requires Inv(s)
    ensures Inv(Step(s, e))
  {
    if Enabled(s, e) {
      match e
      case Wait(t) => WaitKeepsInv(s, t);
      case Wakeup(pick) => WakeupKeepsInv(s, pick);
      case Spurious(t) => SpuriousKeepsInv(s, t);
      case Recheck(t) => RecheckKeepsInv(s, t);
    }
  }

  lemma {:induction false} RunKeepsInv(s: State, es: seq<Event>)
    requires Inv(s)
    ensures Inv(Run(s, es))
    decreases |es|
  {
    if es != [] {
      StepKeepsInv(s, es[0]);
      RunKeepsInv(Step(s, es[0]), es[1..]);
    }
  }

  /** The accounting holds under every interleaving: how many threads block, how many waits
      completed, that no wait overtakes the signals, and that a pending wakeup always has
      an awake waiter to take it. */
  lemma Counts(init: State, es: seq<Event>)
    requires Initial(init)
    ensures var s := Run(init, es);
            && s.Blocked() == Max(0, s.started - s.signals) + s.wakeup
            && s.completed == Min(s.started, s.signals) - s.wakeup
            && s.completed + s.Blocked() == s.started
            && s.completed <= s.signals
            && 0 <= s.wakeup <= |s.awake|
  {
    InitInv(init);
    RunKeepsInv(init, es);
  }

  predicate OnlyRechecks(es: seq<Event>) {
    forall i :: 0 <= i < |es| ==> es[i].Recheck?
  }

  lemma {:induction false} UsePending(s: State) returns (es: seq<Event>)
    requires Inv(s)
    ensures OnlyRechecks(es)
    ensures var t := Run(s, es);
            t.wakeup == 0 && t.started == s.started && t.signals == s.signals && Inv(t)
    decreases s.wakeup
  {
    es := [];
    if s.wakeup > 0 {
      var t :| t in s.awake;
      StepKeepsInv(s, Recheck(t));
      var fs := UsePending(Step(s, Recheck(t)));
      es := [Recheck(t)] + fs;
      assert es[1..] == fs;
    }
  }

  /** No wakeup is lost: from every reachable state the waiters already awake can complete
      as many waits as there are signals for, with no further call. */
  lemma NoWakeupLost(init: State, es: seq<Event>)
    requires Initial(init)
    ensures var s := Run(init, es);
            exists fs: seq<Event> | OnlyRechecks(fs) ::
              Run(s, fs).completed == Min(s.started, s.signals)
  {
    InitInv(init);
    RunKeepsInv(init, es);
    var fs := UsePending(Run(init, es));
  }

  // ---- two counters are a number of permits ----

  /** A wait returns at once exactly when a signal is left for it, and uses one up. */
  lemma WaitTakesPermit(s: State, t: Tid)
    requires Inv(s) && Enabled(s, Wait(t))
    ensures var r := Step(s, Wait(t));
            && (t in r.asleep <==> s.Permits() == 0)
            && r.Permits() == (if s.Permits() == 0 then 0 else s.Permits() - 1)
  {
  }

  /** A woken waiter returns exactly when a signal is left for it. */
  lemma RecheckTakesPermit(s: State, t: Tid)
    requires Inv(s) && Enabled(s, Recheck(t))
    ensures var r := Step(s, Recheck(t));
            && (t in r.asleep <==> s.Permits() == 0)
            && r.Permits() == (if s.Permits() == 0 then 0 else s.Permits() - 1)
  {
    SomeoneBlocked(s, t);
  }

  lemma SomeoneBlocked(s: State, t: Tid)
    requires Inv(s) && (t in s.awake || t in s.asleep)
    ensures s.Blocked() > 0
  {
    assert s.awake != {} || s.asleep != {};
  }

  /** While anybody is blocked and a signal is left, some waiter is awake to take it. */
  lemma PermitFindsWaiter(s: State)
    requires Inv(s) && s.Blocked() > 0 && s.Permits() > 0
    ensures |s.awake| > 0
  {
  }

  /** A signal adds a permit, and never leaves every blocked thread asleep. */
  lemma WakeupAddsPermit(s: State, pick: Tid)
    requires Inv(s) && Enabled(s, Wakeup(pick))
    ensures var r := Step(s, Wakeup(pick));
            && Inv(r) && r.Permits() == s.Permits() + 1
            && r.asleep + r.awake == s.asleep + s.awake
            && (r.Blocked() > 0 ==> |r.awake| > 0)
  {
    WakeupKeepsInv(s, pick);
    var r := Step(s, Wakeup(pick));
    if r.Blocked() > 0 {
      PermitFindsWaiter(r);
    }
  }

  method Nobody() returns (s: set<Tid>)
    ensures |s| == 0
  {
    s := {};
  }

  class CellSemaphore {
    var waitCount: int
    var wakeupCount: int
    var asleep: set<Tid>
    var awake: set<Tid>
    ghost var started: nat
    ghost var signals: nat
    ghost var completed: nat

    ghost predicate Valid()
      reads this
    {
      Inv(Abs())
    }

    ghost function Abs(): State
      reads this
    {
      State(waitCount, wakeupCount, asleep, awake, started, signals, completed)
    }

    ghost function Permits(): (p: nat)
      reads this
      requires Valid()
    {
      Abs().Permits()
    }

    constructor ()
      ensures Initial(Abs()) && Valid() && Permits() == 0
    {
      var nobody := Nobody();
      waitCount, wakeupCount, asleep, awake := 0, 0, nobody, nobody;
      started, signals, completed := 0, 0, 0;
      new;
      InitInv(Abs());
    }

    /** wait() while it holds the mutex: it returns, using a permit, exactly when there is
        one, and otherwise leaves the caller asleep. */
    method WaitSection(t: Tid) returns (blocked: bool)
      requires Valid() && t !in asleep && t !in awake
      modifies this
      ensures Valid() && Abs() == Step(old(Abs()), Wait(t))
      ensures blocked <==> old(Permits()) == 0
      ensures Permits() == if blocked then 0 else old(Permits()) - 1
      ensures asleep == (if blocked then old(asleep) + {t} else old(asleep)) && awake == old(awake)
    {
      WaitTakesPermit(Abs(), t);
      StepKeepsInv(Abs(), Wait(t));
      blocked := false;
      waitCount := waitCount - 1;
      started := started + 1;
      if waitCount < 0 {
        if wakeupCount > 0 {
          wakeupCount := wakeupCount - 1;
        } else {
          asleep := asleep + {t};
          return true;
        }
      }
      completed := completed + 1;
    }

    /** The loop of `_cv.wait(lock, pred)` for a waiter that has been woken. */
    method RecheckSection(t: Tid) returns (done: bool)
      requires Valid() && t in awake
      modifies this
      ensures Valid() && Abs() == Step(old(Abs()), Recheck(t))
      ensures done <==> old(Permits()) > 0
      ensures Permits() == if done then old(Permits()) - 1 else 0
      ensures awake == old(awake) - {t} && asleep == if done then old(asleep) else old(asleep) + {t}
    {
      RecheckTakesPermit(Abs(), t);
      StepKeepsInv(Abs(), Recheck(t));
      awake := awake - {t};
      done := wakeupCount > 0;
      if done {
        wakeupCount := wakeupCount - 1;
        completed := completed + 1;
      } else {
        asleep := asleep + {t};
      }
    }

    /** A signal adds a permit, and never leaves every blocked thread asleep. */
    method WakeupSection(pick: Tid)
      requires Valid() && (|asleep| == 0 || pick in asleep)
      modifies this
      ensures Valid() && Abs() == Step(old(Abs()), Wakeup(pick))
      ensures Permits() == old(Permits()) + 1
      ensures asleep + awake == old(asleep + awake)
      ensures |asleep| > 0 ==> |awake| > 0
    {
      ghost var r := Step(Abs(), Wakeup(pick));
      WakeupAddsPermit(Abs(), pick);
      signals := signals + 1;
      waitCount := waitCount + 1;
      if waitCount <= 0 {
        wakeupCount := wakeupCount + 1;
        if pick in asleep {
          asleep, awake := asleep - {pick}, awake + {pick};
        }
      }
      assert Abs() == r;
    }

    method SpuriousWakeup(t: Tid)
      requires Valid() && t in asleep
      modifies this
      ensures Valid() && Abs() == Step(old(Abs()), Spurious(t)) && Permits() == old(Permits())
      ensures asleep + awake == old(asleep + awake)
    {
      StepKeepsInv(Abs(), Spurious(t));
      asleep, awake := asleep - {t}, awake + {t};
    }

    /** Any interleaving of the sections is a run of the machine. */
    method Play(es: seq<Event>)
      requires Valid()
      modifies this
      ensures Valid() && Abs() == Run(old(Abs()), es)
    {
      var i := 0;
      assert es[0..] == es;
      while i < |es|
        invariant i <= |es| && Valid()
        invariant Run(Abs(), es[i..]) == Run(old(Abs()), es)
      {
        assert es[i..][1..] == es[i + 1..];
        match es[i] {
          case Wait(t) => if t !in asleep && t !in awake { var _ := WaitSection(t); }
          case Wakeup(pick) => if |asleep| == 0 || pick in asleep { WakeupSection(pick); }
          case Spurious(t) => if t in asleep { SpuriousWakeup(t); }
          case Recheck(t) => if t in awake { var _ := RecheckSection(t); }
        }
        i := i + 1;
      }
    }
  }
}
