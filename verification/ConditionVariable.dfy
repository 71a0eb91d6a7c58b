/** The condition variable built from a semaphore, a waiter count and an event, as a state machine over any number of
    threads that wait, time out and notify in any interleaving. Each atomic access of the program is one step. */
module ConditionVariable {

  import opened Collections

  type Thread = nat

  const MAX_COUNT := 0xFFFF

  /** Where a thread is. The loop places carry the target of notify_one and the number of semaphore tokens that had
      been taken when it released its own. */
  datatype Pc =
    | Idle
    // wait_impl
    | Guarded | Counted | Waiting | Woken | TimedOut | Uncounted
    // notify_one
    | OneHeld | OneChecked | OneReady(target: int) | OneLoop(target: int, base: nat)
    | OneLeaving(target: int, base: nat)
    // notify_all
    | AllHeld | AllChecked | AllReady(count: int) | AllLoop(released: bool) | AllDraining | AllLeaving
    // either, when it found no waiter
    | NoneWaiting

  datatype Lock = Free | HeldBy(thread: Thread)

  datatype State = State(pcs: map<Thread, Pc>, mutex: Lock, numWaiters: int, semaphore: nat, event: bool, taken: nat)

  /** Which operations take part: untimed waits with both notifiers, timed waits with notify_all only, or everything. */
  datatype Regime = Untimed | BroadcastOnly | Mixed

  predicate Initial(s: State)
  {
    && (forall t | t in s.pcs :: s.pcs[t] == Idle)
    && s.mutex == Free && s.numWaiters == 0 && s.semaphore == 0 && !s.event && s.taken == 0
  }

  datatype Move =
    | LockToWait | Increment | Unlock | TakeToken | TimeOut | Decrement | SetEvent
    | LockToNotifyOne | CheckOne | LoadTarget | ReleaseOne | PollOne | LeaveOne | ReturnOne
    | LockToNotifyAll | CheckAll | LoadAll | ReleaseAll | PollAll | LeaveAll | Drain | Drained | ReturnAll
    | ReturnEarly

  predicate Can(s: State, t: Thread, m: Move, regime: Regime)
  {
    && t in s.pcs
    && var pc := s.pcs[t];
       match m
       case LockToWait => pc == Idle && s.mutex == Free
       case Increment => pc == Guarded
       case Unlock => pc == Counted
       case TakeToken => pc == Waiting && s.semaphore > 0
       case TimeOut => pc == Waiting && regime != Untimed
       case Decrement => pc == Woken || pc == TimedOut
       case SetEvent => pc == Uncounted
       case LockToNotifyOne => pc == Idle && s.mutex == Free && regime != BroadcastOnly
       case CheckOne => pc == OneHeld
       case LoadTarget => pc == OneChecked
       case ReleaseOne => pc.OneReady?
       case PollOne => pc.OneLoop? && s.numWaiters > pc.target
       case LeaveOne => pc.OneLoop? && s.numWaiters <= pc.target
       case ReturnOne => pc.OneLeaving?
       case LockToNotifyAll => pc == Idle && s.mutex == Free
       case CheckAll => pc == AllHeld
       case LoadAll => pc == AllChecked
       case ReleaseAll => pc.AllReady?
       case PollAll => pc.AllLoop? && s.numWaiters > 0
       case LeaveAll => pc.AllLoop? && s.numWaiters <= 0
       case Drain => pc == AllDraining && s.semaphore > 0
       case Drained => pc == AllDraining && s.semaphore == 0
       case ReturnAll => pc == AllLeaving
       case ReturnEarly => pc == NoneWaiting
  }

  /** ReleaseSemaphore changes nothing when the count is not positive or the maximum would be passed. */
  predicate Releases(s: State, n: int) { n > 0 && s.semaphore + n <= MAX_COUNT }

  function At(s: State, t: Thread, pc: Pc): State { s.(pcs := s.pcs[t := pc]) }

  function Step(s: State, t: Thread, m: Move, regime: Regime): State
    requires Can(s, t, m, regime)
  {
    var pc := s.pcs[t];
    match m
    case LockToWait => At(s, t, Guarded).(mutex := HeldBy(t))
    case Increment => At(s, t, Counted).(numWaiters := s.numWaiters + 1)
    case Unlock => At(s, t, Waiting).(mutex := Free)
    case TakeToken => At(s, t, Woken).(semaphore := s.semaphore - 1, taken := s.taken + 1)
    case TimeOut => At(s, t, TimedOut)
    case Decrement => At(s, t, Uncounted).(numWaiters := s.numWaiters - 1)
    case SetEvent => At(s, t, Idle).(event := true)
    case LockToNotifyOne => At(s, t, OneHeld).(mutex := HeldBy(t))
    case CheckOne => At(s, t, if s.numWaiters == 0 then NoneWaiting else OneChecked)
    case LoadTarget => At(s, t, OneReady(s.numWaiters - 1))
    case ReleaseOne =>
      At(s, t, OneLoop(pc.target, s.taken)).(semaphore := if Releases(s, 1) then s.semaphore + 1 else s.semaphore)
    case PollOne => s.(event := false)
    case LeaveOne => At(s, t, OneLeaving(pc.target, pc.base))
    case ReturnOne => At(s, t, Idle).(mutex := Free)
    case LockToNotifyAll => At(s, t, AllHeld).(mutex := HeldBy(t))
    case CheckAll => At(s, t, if s.numWaiters <= 0 then NoneWaiting else AllChecked)
    case LoadAll => At(s, t, AllReady(s.numWaiters))
    case ReleaseAll =>
      var n := pc.count;
      At(s, t, AllLoop(Releases(s, n))).(semaphore := if Releases(s, n) then s.semaphore + n else s.semaphore)
    case PollAll => s.(event := false)
    case LeaveAll => At(s, t, AllDraining)
    case Drain => s.(semaphore := s.semaphore - 1)
    case Drained => At(s, t, AllLeaving)
    case ReturnAll => At(s, t, Idle).(mutex := Free)
    case ReturnEarly => At(s, t, Idle).(mutex := Free)
  }

  datatype Event = Event(thread: Thread, move: Move)

  ghost predicate Runs(s: State, events: seq<Event>, s': State, regime: Regime)
    decreases |events|
  {
    if events == [] then s' == s
    else
      var e := events[0];
      Can(s, e.thread, e.move, regime) && Runs(Step(s, e.thread, e.move, regime), events[1..], s', regime)
  }

  ghost predicate Reachable(s: State, regime: Regime)
  {
    exists start, events :: Initial(start) && Runs(start, events, s, regime)
  }

  // What every step keeps

  predicate IsCounted(pc: Pc) { pc == Counted || pc == Waiting || pc == Woken || pc == TimedOut }

  predicate HoldsMutex(pc: Pc)
  {
    pc == Guarded || pc == Counted || pc == OneHeld || pc == OneChecked || pc.OneReady? || pc.OneLoop? ||
    pc.OneLeaving? || pc == AllHeld || pc == AllChecked || pc.AllReady? || pc.AllLoop? || pc == AllDraining ||
    pc == AllLeaving ||
    pc == NoneWaiting
  }

  function CountedSet(pcs: map<Thread, Pc>): set<Thread> { set t | t in pcs && IsCounted(pcs[t]) }

  function WokenSet(pcs: map<Thread, Pc>): set<Thread> { set t | t in pcs && pcs[t] == Woken }

  /** The count is the number of threads that have been counted in and not yet out. */
  ghost predicate CountIsRight(s: State) { s.numWaiters == |CountedSet(s.pcs)| }

  ghost predicate MutexIsRight(s: State)
  {
    forall t | t in s.pcs :: HoldsMutex(s.pcs[t]) <==> s.mutex == HeldBy(t)
  }

  ghost predicate MutexThreadKnown(s: State) { s.mutex.HeldBy? ==> s.mutex.thread in s.pcs }

  /** Tokens outstanding: in the semaphore, or taken by a thread that has not counted itself out yet. */
  function Outstanding(s: State): nat { s.semaphore + |WokenSet(s.pcs)| }

  /** What the holder of the mutex, or its absence, says about the tokens. */
  ghost predicate TokensAre(s: State, regime: Regime)
  {
    if s.mutex.Free? || s.mutex.thread !in s.pcs then Outstanding(s) == 0
    else
      match s.pcs[s.mutex.thread]
      case OneReady(target) => Outstanding(s) == 0 && (regime == Untimed ==> s.numWaiters == target + 1 > 0)
      case OneChecked => Outstanding(s) == 0 && (regime == Untimed ==> s.numWaiters > 0)
      case OneLoop(target, base) =>
        && Outstanding(s) == s.numWaiters - target <= 1 && target >= 0
        && s.taken + s.semaphore == base + 1
      case OneLeaving(target, base) =>
        Outstanding(s) == 0 && s.numWaiters == target && s.taken == base + 1
      case AllLoop(released) =>
        if released then regime == Untimed ==> Outstanding(s) == s.numWaiters
        else Outstanding(s) == 0 && (regime == Untimed ==> s.numWaiters > MAX_COUNT)
      case AllReady(n) => Outstanding(s) == 0 && (regime == Untimed ==> n == s.numWaiters > 0)
      case AllChecked => Outstanding(s) == 0 && (regime == Untimed ==> s.numWaiters > 0)
      case AllDraining => s.numWaiters == 0 && (regime == Untimed ==> Outstanding(s) == 0)
      case AllLeaving => s.numWaiters == 0 && Outstanding(s) == 0
      case _ => Outstanding(s) == 0
  }

  predicate NotifyingOne(pc: Pc) { pc.OneHeld? || pc.OneChecked? || pc.OneReady? || pc.OneLoop? || pc.OneLeaving? }

  ghost predicate RegimeKept(s: State, regime: Regime)
  {
    && (regime == Untimed ==> forall t | t in s.pcs :: s.pcs[t] != TimedOut)
    && (regime == BroadcastOnly ==>
          forall t | t in s.pcs :: !NotifyingOne(s.pcs[t]))
  }

  ghost predicate Inv(s: State, regime: Regime)
  {
    && MutexIsRight(s) && MutexThreadKnown(s) && CountIsRight(s) && RegimeKept(s, regime)
    && TokensAre(s, regime)
  }

  lemma InitialInv(s: State, regime: Regime)
    requires Initial(s)
    ensures Inv(s, regime)
  {
    assert CountedSet(s.pcs) == {} && WokenSet(s.pcs) == {};
  }

  lemma MoveCounted(pcs: map<Thread, Pc>, t: Thread, pc: Pc)
    requires t in pcs
    ensures |CountedSet(pcs[t := pc])| == |CountedSet(pcs)| - (if IsCounted(pcs[t]) then 1 else 0) +
                                          (if IsCounted(pc) then 1 else 0)
  {
    hide IsCounted;
    var before, after := CountedSet(pcs), CountedSet(pcs[t := pc]);
    if IsCounted(pc) {
      assert after == before + {t};
    } else {
      assert after == before - {t};
    }
  }

  lemma MoveWoken(pcs: map<Thread, Pc>, t: Thread, pc: Pc)
    requires t in pcs
    ensures |WokenSet(pcs[t := pc])| == |WokenSet(pcs)| - (if pcs[t] == Woken then 1 else 0) +
                                        (if pc == Woken then 1 else 0)
  {
    var before, after := WokenSet(pcs), WokenSet(pcs[t := pc]);
    if pc == Woken {
      assert after == before + {t};
    } else {
      assert after == before - {t};
    }
  }

  /** Moving one thread changes the two sets by that thread at most. */
  lemma MoveThread(pcs: map<Thread, Pc>, t: Thread, pc: Pc)
    requires t in pcs
    ensures |CountedSet(pcs[t := pc])| == |CountedSet(pcs)| - (if IsCounted(pcs[t]) then 1 else 0) +
                                          (if IsCounted(pc) then 1 else 0)
    ensures |WokenSet(pcs[t := pc])| == |WokenSet(pcs)| - (if pcs[t] == Woken then 1 else 0) +
                                        (if pc == Woken then 1 else 0)
  {
    hide IsCounted, CountedSet, WokenSet;
    MoveCounted(pcs, t, pc);
    MoveWoken(pcs, t, pc);
  }

  /** A step moves its own thread only, and the mutex changes hands only by that thread's doing. */
  lemma StepIsLocal(s: State, t: Thread, m: Move, regime: Regime)
    requires Can(s, t, m, regime) && (HoldsMutex(s.pcs[t]) <==> s.mutex == HeldBy(t))
    ensures
      var s' := Step(s, t, m, regime);
      && s'.pcs == s.pcs[t := s'.pcs[t]]
      && (HoldsMutex(s'.pcs[t]) <==> s'.mutex == HeldBy(t))
      && (s'.mutex != s.mutex ==> s.mutex == Free || s.mutex == HeldBy(t))
      && (s'.mutex == s.mutex || s'.mutex == Free || s'.mutex == HeldBy(t))
  {}

  lemma StepKeepsMutex(s: State, t: Thread, m: Move, regime: Regime)
    requires MutexIsRight(s) && MutexThreadKnown(s) && Can(s, t, m, regime)
    ensures MutexIsRight(Step(s, t, m, regime)) && MutexThreadKnown(Step(s, t, m, regime))
  {
    hide Step, HoldsMutex;
    StepIsLocal(s, t, m, regime);
  }

  lemma StepStaysInRegime(s: State, t: Thread, m: Move, regime: Regime)
    requires Can(s, t, m, regime)
    ensures
      var pc := Step(s, t, m, regime).pcs[t];
      && (regime == Untimed ==> pc != TimedOut)
      && (regime == BroadcastOnly && !NotifyingOne(s.pcs[t]) ==> !NotifyingOne(pc))
  {}

  lemma StepKeepsRegime(s: State, t: Thread, m: Move, regime: Regime)
    requires MutexIsRight(s) && RegimeKept(s, regime) && Can(s, t, m, regime)
    ensures RegimeKept(Step(s, t, m, regime), regime)
  {
    hide Step, HoldsMutex;
    StepIsLocal(s, t, m, regime);
    StepStaysInRegime(s, t, m, regime);
  }

  lemma StepKeepsCount(s: State, t: Thread, m: Move, regime: Regime)
    requires CountIsRight(s) && Can(s, t, m, regime)
    ensures CountIsRight(Step(s, t, m, regime))
  {
    hide CountedSet, WokenSet;
    var s' := Step(s, t, m, regime);
    MoveThread(s.pcs, t, s'.pcs[t]);
    assert s'.pcs == s.pcs[t := s'.pcs[t]];
  }

  /** Waiter steps: locking, counting in and out, taking a token, timing out. */
  lemma WaiterKeepsTokens(s: State, t: Thread, m: Move, regime: Regime)
    requires Inv(s, regime) && Can(s, t, m, regime) && !HoldsMutex(s.pcs[t])
    requires regime != Mixed
    ensures TokensAre(Step(s, t, m, regime), regime)
  {
    hide CountedSet, WokenSet;
    StepIsLocal(s, t, m, regime);
    MoveThread(s.pcs, t, Step(s, t, m, regime).pcs[t]);
  }

  lemma WokenAreCounted(pcs: map<Thread, Pc>)
    ensures |WokenSet(pcs)| <= |CountedSet(pcs)|
  {
    SubsetSize(WokenSet(pcs), CountedSet(pcs));
  }

  predicate NotifyingAll(pc: Pc)
  {
    pc.AllHeld? || pc.AllChecked? || pc.AllReady? || pc.AllLoop? || pc.AllDraining? || pc.AllLeaving?
  }

  lemma MutexOf(s: State, t: Thread)
    requires MutexIsRight(s) && t in s.pcs
    ensures HoldsMutex(s.pcs[t]) <==> s.mutex == HeldBy(t)
  {}

  lemma OneKeepsTokens(s: State, t: Thread, m: Move, regime: Regime)
    requires Inv(s, regime) && Can(s, t, m, regime) && NotifyingOne(s.pcs[t])
    requires regime != Mixed
    ensures TokensAre(Step(s, t, m, regime), regime)
  {
    hide CountedSet, WokenSet, MutexIsRight;
    assert HoldsMutex(s.pcs[t]) <==> s.mutex == HeldBy(t) by { hide HoldsMutex; assert MutexIsRight(s); MutexOf(s, t); }
    MoveThread(s.pcs, t, Step(s, t, m, regime).pcs[t]);
  }

  lemma AllKeepsTokens(s: State, t: Thread, m: Move, regime: Regime)
    requires Inv(s, regime) && Can(s, t, m, regime) && NotifyingAll(s.pcs[t])
    requires regime != Mixed
    ensures TokensAre(Step(s, t, m, regime), regime)
  {
    hide CountedSet, WokenSet, MutexIsRight;
    assert HoldsMutex(s.pcs[t]) <==> s.mutex == HeldBy(t) by { hide HoldsMutex; assert MutexIsRight(s); MutexOf(s, t); }
    WokenAreCounted(s.pcs);
    MoveThread(s.pcs, t, Step(s, t, m, regime).pcs[t]);
  }

  lemma OtherHolderKeepsTokens(s: State, t: Thread, m: Move, regime: Regime)
    requires Inv(s, regime) && Can(s, t, m, regime)
    requires s.pcs[t] == Guarded || s.pcs[t] == Counted || s.pcs[t] == NoneWaiting
    requires regime != Mixed
    ensures TokensAre(Step(s, t, m, regime), regime)
  {
    hide CountedSet, WokenSet, MutexIsRight;
    MutexOf(s, t);
    MoveThread(s.pcs, t, Step(s, t, m, regime).pcs[t]);
  }

  lemma StepKeepsInv(s: State, t: Thread, m: Move, regime: Regime)
    requires Inv(s, regime) && Can(s, t, m, regime) && regime != Mixed
    ensures Inv(Step(s, t, m, regime), regime)
  {
    hide Step, TokensAre, MutexIsRight, CountIsRight, RegimeKept;
    StepKeepsMutex(s, t, m, regime);
    StepKeepsCount(s, t, m, regime);
    StepKeepsRegime(s, t, m, regime);
    if !HoldsMutex(s.pcs[t]) { WaiterKeepsTokens(s, t, m, regime); }
    else if NotifyingOne(s.pcs[t]) { OneKeepsTokens(s, t, m, regime); }
    else if NotifyingAll(s.pcs[t]) { AllKeepsTokens(s, t, m, regime); }
    else { OtherHolderKeepsTokens(s, t, m, regime); }
  }

  lemma {:induction false} RunKeepsInv(s: State, events: seq<Event>, s': State, regime: Regime)
    requires Inv(s, regime) && Runs(s, events, s', regime) && regime != Mixed
    ensures Inv(s', regime)
    decreases |events|
  {
    hide Inv, Can, Step;
    if events != [] {
      var e := events[0];
      StepKeepsInv(s, e.thread, e.move, regime);
      RunKeepsInv(Step(s, e.thread, e.move, regime), events[1..], s', regime);
    }
  }

  lemma ReachableInv(s: State, regime: Regime)
    requires Reachable(s, regime) && regime != Mixed
    ensures Inv(s, regime)
  {
    hide Inv;
    var start, events :| Initial(start) && Runs(start, events, s, regime);
    InitialInv(start, regime);
    RunKeepsInv(start, events, s, regime);
  }

  // What the invariant means

  predicate NoSurplus(s: State) { s.semaphore == 0 && forall t | t in s.pcs :: s.pcs[t] != Woken }

  /** Whenever the mutex is free no token is left over: the semaphore is 0 and no thread has taken a token without
      having counted itself out. */
  lemma NothingLeftOver(s: State, regime: Regime)
    requires Reachable(s, regime) && regime != Mixed && s.mutex == Free
    ensures NoSurplus(s)
  {
    ReachableInv(s, regime);
    assert WokenSet(s.pcs) == {};
    assert forall t | t in s.pcs && s.pcs[t] == Woken :: t in WokenSet(s.pcs);
  }

  /** notify_one that found a waiter returns with its assertion true, after exactly one token has been taken since it
      released its own, and with none left. */
  lemma NotifyOneReleasesOne(s: State, t: Thread)
    requires Reachable(s, Untimed) && t in s.pcs && s.pcs[t].OneLeaving?
    ensures s.numWaiters == s.pcs[t].target && s.taken == s.pcs[t].base + 1 && s.semaphore == 0
  {
    ReachableInv(s, Untimed);
    MutexOf(s, t);
  }

  /** notify_all leaves its wait loop with its assertion true, and returns with no waiter and no token, with or without
      timed waits. */
  lemma NotifyAllReleasesAll(s: State, regime: Regime, t: Thread)
    requires Reachable(s, regime) && regime != Mixed && t in s.pcs
    ensures s.pcs[t] == AllDraining ==> s.numWaiters == 0
    ensures s.pcs[t] == AllLeaving ==> s.numWaiters == 0 && s.semaphore == 0
  {
    ReachableInv(s, regime);
    MutexOf(s, t);
  }

  lemma TokensForWaiters(s: State, t: Thread)
    requires Inv(s, Untimed) && |s.pcs.Keys| <= 0x1_0000 && t in s.pcs
    requires (s.pcs[t].OneLoop? && s.numWaiters > s.pcs[t].target) || (s.pcs[t].AllLoop? && s.numWaiters > 0)
    ensures Outstanding(s) > 0 && s.mutex == HeldBy(t) && CountedSet(s.pcs) != {}
  {
    hide MutexIsRight, WokenSet;
    MutexOf(s, t);
    SubsetSize(CountedSet(s.pcs), s.pcs.Keys - {t});
  }

  /** With untimed waits and at most 65536 threads a notifier in its wait loop is never left waiting for nobody: some
      woken thread can count itself out, or some waiting thread can take a token. */
  lemma NotifierIsNeverAlone(s: State, t: Thread) returns (u: Thread)
    requires Reachable(s, Untimed) && |s.pcs.Keys| <= 0x1_0000 && t in s.pcs
    requires (s.pcs[t].OneLoop? && s.numWaiters > s.pcs[t].target) || (s.pcs[t].AllLoop? && s.numWaiters > 0)
    ensures Can(s, u, Decrement, Untimed) || Can(s, u, TakeToken, Untimed)
  {
    ReachableInv(s, Untimed);
    TokensForWaiters(s, t);
    hide Reachable, TokensAre, CountIsRight;
    if WokenSet(s.pcs) != {} {
      u :| u in WokenSet(s.pcs);
    } else {
      u :| u in CountedSet(s.pcs);
      MutexOf(s, u);
    }
  }

  // What holds in every regime

  /** Places that a notifier reaches only when nobody is waiting, and leaves before anybody else can. */
  predicate FoundNone(pc: Pc) { pc == NoneWaiting || pc == AllDraining || pc == AllLeaving }

  ghost predicate NoneMeansNone(s: State)
  {
    forall t | t in s.pcs && FoundNone(s.pcs[t]) :: s.numWaiters == 0
  }

  ghost predicate Basics(s: State)
  {
    MutexIsRight(s) && MutexThreadKnown(s) && CountIsRight(s) && NoneMeansNone(s)
  }

  lemma StepMovesOne(s: State, t: Thread, m: Move, regime: Regime)
    requires Can(s, t, m, regime)
    ensures var s' := Step(s, t, m, regime); t in s'.pcs && s'.pcs == s.pcs[t := s'.pcs[t]]
  {}

  lemma StepKeepsNone(s: State, t: Thread, m: Move, regime: Regime)
    requires Basics(s) && Can(s, t, m, regime)
    ensures NoneMeansNone(Step(s, t, m, regime))
  {
    StepKeepsCount(s, t, m, regime);
    StepMovesOne(s, t, m, regime);
    MutexOf(s, t);
    hide CountedSet, MutexIsRight;
    var s' := Step(s, t, m, regime);
    forall u | u in s'.pcs && FoundNone(s'.pcs[u]) ensures s'.numWaiters == 0 {
      if u != t { assert MutexIsRight(s); MutexOf(s, u); }
    }
  }

  lemma StepKeepsBasics(s: State, t: Thread, m: Move, regime: Regime)
    requires Basics(s) && Can(s, t, m, regime)
    ensures Basics(Step(s, t, m, regime))
  {
    hide Step, MutexIsRight, CountIsRight, NoneMeansNone;
    StepKeepsMutex(s, t, m, regime);
    StepKeepsCount(s, t, m, regime);
    StepKeepsNone(s, t, m, regime);
  }

  lemma {:induction false} RunKeepsBasics(s: State, events: seq<Event>, s': State, regime: Regime)
    requires Basics(s) && Runs(s, events, s', regime)
    ensures Basics(s')
    decreases |events|
  {
    hide Basics, Can, Step;
    if events != [] {
      var e := events[0];
      StepKeepsBasics(s, e.thread, e.move, regime);
      RunKeepsBasics(Step(s, e.thread, e.move, regime), events[1..], s', regime);
    }
  }

  lemma ReachableBasics(s: State, regime: Regime)
    requires Reachable(s, regime)
    ensures Basics(s)
  {
    var start, events :| Initial(start) && Runs(start, events, s, regime);
    assert CountedSet(start.pcs) == {};
    hide Runs;
    RunKeepsBasics(start, events, s, regime);
  }

  /** A notifier gives up early, and notify_all goes on to drain and return, only when nobody is waiting, with whatever
      mixture of operations. */
  lemma NoneWaitingIsTrue(s: State, regime: Regime, t: Thread)
    requires Reachable(s, regime) && t in s.pcs && FoundNone(s.pcs[t])
    ensures s.numWaiters == 0
  {
    ReachableBasics(s, regime);
  }

  lemma StillCounted(s: State, e: Event, regime: Regime, u: Thread)
    requires Can(s, e.thread, e.move, regime) && u in s.pcs && IsCounted(s.pcs[u]) && e != Event(u, Decrement)
    ensures u in Step(s, e.thread, e.move, regime).pcs && IsCounted(Step(s, e.thread, e.move, regime).pcs[u])
  {}

  lemma CanOnlyKnown(s: State, t: Thread, m: Move, regime: Regime)
    requires Can(s, t, m, regime)
    ensures t in s.pcs
  {}

  lemma {:induction false} KeepsThreads(s: State, events: seq<Event>, s': State, regime: Regime)
    requires Runs(s, events, s', regime)
    ensures s'.pcs.Keys == s.pcs.Keys
    decreases |events|
  {
    hide Can, Step;
    if events != [] {
      var e := events[0];
      StepMovesOne(s, e.thread, e.move, regime);
      KeepsThreads(Step(s, e.thread, e.move, regime), events[1..], s', regime);
      assert e.thread in s.pcs by { CanOnlyKnown(s, e.thread, e.move, regime); }
    }
  }

  /** A thread that was counted and is so no longer has counted itself out. */
  lemma {:induction false} CountedOut(s: State, events: seq<Event>, s': State, regime: Regime, u: Thread)
    requires Runs(s, events, s', regime) && u in s.pcs && IsCounted(s.pcs[u]) && Event(u, Decrement) !in events
    ensures u in s'.pcs && IsCounted(s'.pcs[u])
    decreases |events|
  {
    hide Can, Step, IsCounted;
    if events != [] {
      var e := events[0];
      assert e in events && forall x | x in events[1..] :: x in events;
      StillCounted(s, e, regime, u);
      CountedOut(Step(s, e.thread, e.move, regime), events[1..], s', regime, u);
    }
  }

  /** Between the moment notify_all has taken the mutex and the moment it returns, early or not, every thread that was
      waiting has counted itself out, in every regime. */
  lemma NotifyAllWakesAll(s: State, events: seq<Event>, s': State, regime: Regime, t: Thread, u: Thread)
    requires Reachable(s, regime) && t in s.pcs && s.pcs[t] == AllHeld && u in s.pcs && s.pcs[u] == Waiting
    requires Runs(s, events, s', regime) && t in s'.pcs && (s'.pcs[t] == AllLeaving || s'.pcs[t] == NoneWaiting)
    ensures Event(u, Decrement) in events
  {
    ReachableBasics(s, regime);
    hide Runs;
    RunKeepsBasics(s, events, s', regime);
    assert CountedSet(s'.pcs) == {};
    assert u in s'.pcs && IsCounted(s'.pcs[u]) <==> u in CountedSet(s'.pcs);
    if Event(u, Decrement) !in events {
      CountedOut(s, events, s', regime, u);
    }
  }

  // Notifiers return

  /** How far a notifier still is from returning. */
  function Rank(pc: Pc): nat
  {
    match pc
    case OneHeld => 5 case OneChecked => 4 case OneReady(_) => 3 case OneLoop(_, _) => 2 case OneLeaving(_, _) => 1
    case AllHeld => 6 case AllChecked => 5 case AllReady(_) => 4 case AllLoop(_) => 3 case AllDraining => 2
    case AllLeaving => 1 case NoneWaiting => 1 case _ => 0
  }

  /** What the waiters still have to do. */
  function Left(s: State): nat
  {
    var n := 2 * s.numWaiters - |WokenSet(s.pcs)|;
    if n < 0 then 0 else n
  }

  predicate WaitsForOthers(s: State, t: Thread)
    requires t in s.pcs
  {
    (s.pcs[t].OneLoop? && s.numWaiters > s.pcs[t].target) || (s.pcs[t].AllLoop? && s.numWaiters > 0)
  }

  lemma Helper(s: State, t: Thread) returns (u: Thread, m: Move)
    requires Reachable(s, Untimed) && |s.pcs.Keys| <= 0x1_0000 && t in s.pcs && WaitsForOthers(s, t)
    ensures u != t && (m == Decrement || m == TakeToken) && Can(s, u, m, Untimed)
    ensures Step(s, u, m, Untimed).pcs[t] == s.pcs[t]
  {
    u := NotifierIsNeverAlone(s, t);
    m := if s.pcs[u] == Waiting then TakeToken else Decrement;
  }

  /** What a notifier does next of its own. */
  function OwnMove(pc: Pc): Move
  {
    match pc
    case OneHeld => CheckOne case OneChecked => LoadTarget case OneReady(_) => ReleaseOne
    case OneLoop(_, _) => LeaveOne case OneLeaving(_, _) => ReturnOne
    case AllHeld => CheckAll case AllChecked => LoadAll case AllReady(_) => ReleaseAll
    case AllLoop(_) => LeaveAll case AllDraining => Drained case AllLeaving => ReturnAll case _ => ReturnEarly
  }

  lemma OwnStep(s: State, t: Thread)
    requires t in s.pcs && Rank(s.pcs[t]) > 0 && !WaitsForOthers(s, t)
    requires s.pcs[t] == AllDraining ==> s.semaphore == 0
    ensures Can(s, t, OwnMove(s.pcs[t]), Untimed)
    ensures Rank(Step(s, t, OwnMove(s.pcs[t]), Untimed).pcs[t]) < Rank(s.pcs[t])
  {}

  lemma DrainedAlready(s: State, t: Thread)
    requires Reachable(s, Untimed) && t in s.pcs && s.pcs[t] == AllDraining
    ensures s.semaphore == 0
  {
    ReachableInv(s, Untimed);
    MutexOf(s, t);
  }

  /** A step of the notifier itself, or of a thread it waits for. */
  lemma NextStep(s: State, t: Thread) returns (u: Thread, m: Move)
    requires Reachable(s, Untimed) && |s.pcs.Keys| <= 0x1_0000 && t in s.pcs && Rank(s.pcs[t]) > 0
    ensures Can(s, u, m, Untimed)
    ensures u == t ==> Rank(Step(s, u, m, Untimed).pcs[t]) < Rank(s.pcs[t])
    ensures u != t ==> (m == Decrement || m == TakeToken) && Step(s, u, m, Untimed).pcs[t] == s.pcs[t]
  {
    hide Reachable, Can, Step, Rank, OwnMove;
    if WaitsForOthers(s, t) {
      u, m := Helper(s, t);
    } else {
      u, m := t, OwnMove(s.pcs[t]);
      if s.pcs[t] == AllDraining { DrainedAlready(s, t); }
      OwnStep(s, t);
    }
  }

  lemma WaitersGoOn(s: State, u: Thread, m: Move)
    requires CountIsRight(s) && Can(s, u, m, Untimed) && (m == Decrement || m == TakeToken) && s.pcs[u] != TimedOut
    ensures Left(Step(s, u, m, Untimed)) < Left(s)
  {
    hide CountedSet, WokenSet;
    WokenAreCounted(s.pcs);
    MoveThread(s.pcs, u, Step(s, u, m, Untimed).pcs[u]);
    WokenAreCounted(Step(s, u, m, Untimed).pcs);
  }

  lemma ReturnsIdle(s: State, t: Thread, m: Move)
    requires Can(s, t, m, Untimed) && Rank(s.pcs[t]) > 0 && Rank(Step(s, t, m, Untimed).pcs[t]) == 0
    ensures Step(s, t, m, Untimed).pcs[t] == Idle
  {}

  lemma {:induction false} RunsThenStep(s: State, events: seq<Event>, s': State, t: Thread, m: Move, regime: Regime)
    requires Runs(s, events, s', regime) && Can(s', t, m, regime)
    ensures Runs(s, events + [Event(t, m)], Step(s', t, m, regime), regime)
    decreases |events|
  {
    hide Can, Step;
    var all := events + [Event(t, m)];
    if events == [] {
      assert all[0] == Event(t, m) && all[1..] == [];
      assert Runs(Step(s', t, m, regime), [], Step(s', t, m, regime), regime);
    } else {
      var e := events[0];
      RunsThenStep(Step(s, e.thread, e.move, regime), events[1..], s', t, m, regime);
      assert all[0] == e && all[1..] == events[1..] + [Event(t, m)];
    }
  }

  lemma ReachableStep(s: State, t: Thread, m: Move, regime: Regime)
    requires Reachable(s, regime) && Can(s, t, m, regime)
    ensures Reachable(Step(s, t, m, regime), regime)
  {
    hide Can, Step, Initial;
    var start, events :| Initial(start) && Runs(start, events, s, regime);
    RunsThenStep(start, events, s, t, m, regime);
    assert Initial(start) && Runs(start, events + [Event(t, m)], Step(s, t, m, regime), regime);
  }

  lemma HelperGoesOn(s: State, u: Thread, m: Move)
    requires Reachable(s, Untimed) && Can(s, u, m, Untimed) && (m == Decrement || m == TakeToken)
    ensures Left(Step(s, u, m, Untimed)) < Left(s)
  {
    ReachableInv(s, Untimed);
    hide Reachable;
    WaitersGoOn(s, u, m);
  }

  /** With untimed waits and at most 65536 threads, a notifier can return from wherever it is, and it takes no more
      than its own steps and those of the threads it waits for. */
  lemma {:induction false} NotifierReturns(s: State, t: Thread) returns (events: seq<Event>, s': State)
    requires Reachable(s, Untimed) && |s.pcs.Keys| <= 0x1_0000 && t in s.pcs && Rank(s.pcs[t]) > 0
    ensures Runs(s, events, s', Untimed) && t in s'.pcs && s'.pcs[t] == Idle
    decreases Rank(s.pcs[t]), Left(s)
  {
    var u, m := NextStep(s, t);
    var next := Step(s, u, m, Untimed);
    if u != t { HelperGoesOn(s, u, m); }
    hide Can, Step, Reachable, Left, CountedSet, WokenSet, Rank;
    StepMovesOne(s, u, m, Untimed);
    ReachableStep(s, u, m, Untimed);
    assert next.pcs.Keys == s.pcs.Keys by { CanOnlyKnown(s, u, m, Untimed); }
    if Rank(next.pcs[t]) == 0 {
      assert Runs(next, [], next, Untimed);
      events, s' := [Event(u, m)], next;
      assert events[1..] == [];
      ReturnsIdle(s, t, m);
    } else {
      var rest;
      rest, s' := NotifierReturns(next, t);
      events := [Event(u, m)] + rest;
      assert events[1..] == rest;
    }
  }

  // More waiters than the semaphore can count

  function Threads(n: nat): (r: set<Thread>)
    ensures |r| == n && forall t: Thread :: t in r <==> t < n
  {
    if n == 0 then {} else Threads(n - 1) + {n - 1}
  }

  /** The first k of n threads are waiting and the others are idle. */
  function Row(n: nat, k: nat): State
  {
    State(map t | t in Threads(n) :: if t < k then Waiting else Idle, Free, k, 0, false, 0)
  }

  lemma GoesToWait(s: State, t: Thread)
    requires Reachable(s, Untimed) && t in s.pcs && s.pcs[t] == Idle && s.mutex == Free
    ensures Reachable(s.(pcs := s.pcs[t := Waiting], numWaiters := s.numWaiters + 1), Untimed)
  {
    hide Reachable;
    ReachableStep(s, t, LockToWait, Untimed);
    var guarded := Step(s, t, LockToWait, Untimed);
    ReachableStep(guarded, t, Increment, Untimed);
    var counted := Step(guarded, t, Increment, Untimed);
    ReachableStep(counted, t, Unlock, Untimed);
    assert s.pcs[t := Guarded][t := Counted][t := Waiting] == s.pcs[t := Waiting];
  }

  lemma {:induction false} RowReachable(n: nat, k: nat)
    requires k <= n
    ensures Reachable(Row(n, k), Untimed)
  {
    hide Can, Step, Threads;
    if k == 0 {
      assert Initial(Row(n, 0)) && Runs(Row(n, 0), [], Row(n, 0), Untimed);
    } else {
      RowReachable(n, k - 1);
      hide Reachable;
      GoesToWait(Row(n, k - 1), k - 1);
      assert Row(n, k).pcs == Row(n, k - 1).pcs[k - 1 := Waiting];
    }
  }

  lemma NothingReleased(s: State, t: Thread) returns (s': State)
    requires Reachable(s, Untimed) && t in s.pcs && s.pcs[t] == Idle && s.mutex == Free && s.numWaiters > 0xFFFF
    ensures Reachable(s', Untimed) && s'.pcs == s.pcs[t := AllLoop(false)]
  {
    hide Reachable;
    ReachableStep(s, t, LockToNotifyAll, Untimed);
    var held := Step(s, t, LockToNotifyAll, Untimed);
    ReachableStep(held, t, CheckAll, Untimed);
    var checked := Step(held, t, CheckAll, Untimed);
    ReachableStep(checked, t, LoadAll, Untimed);
    var ready := Step(checked, t, LoadAll, Untimed);
    ReachableStep(ready, t, ReleaseAll, Untimed);
    s' := Step(ready, t, ReleaseAll, Untimed);
  }

  /** With one thread more, notify_all releases nothing and enters its loop all the same. */
  lemma TooManyWaiters(n: nat) returns (s: State, t: Thread)
    requires n > 0x1_0000
    ensures Reachable(s, Untimed) && |s.pcs.Keys| == n && t in s.pcs && s.pcs[t] == AllLoop(false)
  {
    RowReachable(n, n - 1);
    hide Reachable;
    t := n - 1;
    s := NothingReleased(Row(n, n - 1), t);
    assert s.pcs.Keys == Threads(n);
  }

  lemma UnreleasedStep(s: State, u: Thread, m: Move, t: Thread)
    requires Reachable(s, Untimed) && t in s.pcs && s.pcs[t] == AllLoop(false) && Can(s, u, m, Untimed)
    ensures t in Step(s, u, m, Untimed).pcs && Step(s, u, m, Untimed).pcs[t] == AllLoop(false)
  {
    ReachableInv(s, Untimed);
    MutexOf(s, t);
    hide Reachable;
  }

  /** That loop has no end. */
  lemma {:induction false} UnreleasedForever(s: State, events: seq<Event>, s': State, t: Thread)
    requires Reachable(s, Untimed) && t in s.pcs && s.pcs[t] == AllLoop(false) && Runs(s, events, s', Untimed)
    ensures t in s'.pcs && s'.pcs[t] == AllLoop(false)
    decreases |events|
  {
    hide Can, Step, Reachable;
    if events != [] {
      var e := events[0];
      UnreleasedStep(s, e.thread, e.move, t);
      ReachableStep(s, e.thread, e.move, Untimed);
      UnreleasedForever(Step(s, e.thread, e.move, Untimed), events[1..], s', t);
    }
  }

  ghost predicate CanReturn(s: State, t: Thread)
  {
    exists events, s' :: Runs(s, events, s', Untimed) && t in s'.pcs && s'.pcs[t] == Idle
  }

  ghost predicate AllCanReturn(s: State)
  {
    forall t | t in s.pcs && Rank(s.pcs[t]) > 0 :: CanReturn(s, t)
  }

  /** With untimed waits, every notifier can return from wherever it is if and only if there are at most 65536 threads:
      the semaphore counts to 65535. */
  lemma ReturnsIffFewThreads(n: nat)
    ensures (forall s | Reachable(s, Untimed) && |s.pcs.Keys| == n :: AllCanReturn(s)) <==> n <= 0x1_0000
  {
    hide Reachable, Runs;
    if n <= 0x1_0000 {
      forall s | Reachable(s, Untimed) && |s.pcs.Keys| == n ensures AllCanReturn(s) {
        forall t | t in s.pcs && Rank(s.pcs[t]) > 0 ensures CanReturn(s, t) {
          var events, s' := NotifierReturns(s, t);
        }
      }
    } else {
      var s, t := TooManyWaiters(n);
      if CanReturn(s, t) {
        var events, s' :| Runs(s, events, s', Untimed) && t in s'.pcs && s'.pcs[t] == Idle;
        UnreleasedForever(s, events, s', t);
      }
      assert !AllCanReturn(s);
    }
  }

  // The wake event

  predicate Polls(e: Event) { e.move == PollOne || e.move == PollAll }

  /** A signal is in the run, and no notifier has looked since. */
  ghost predicate Signalled(events: seq<Event>)
  {
    exists i | 0 <= i < |events| :: events[i].move == SetEvent && forall j | i < j < |events| :: !Polls(events[j])
  }

  ghost predicate Unseen(events: seq<Event>) { forall i | 0 <= i < |events| :: !Polls(events[i]) }

  lemma SignalledLater(events: seq<Event>)
    requires events != []
    ensures Signalled(events) <==> Signalled(events[1..]) || (events[0].move == SetEvent && Unseen(events[1..]))
    ensures Unseen(events) <==> !Polls(events[0]) && Unseen(events[1..])
  {
    hide Polls;
    var rest := events[1..];
    assert forall i | 0 <= i < |rest| :: rest[i] == events[i + 1];
    if Signalled(rest) {
      var i :| 0 <= i < |rest| && rest[i].move == SetEvent && forall j | i < j < |rest| :: !Polls(rest[j]);
      assert events[i + 1].move == SetEvent;
      assert forall j | i + 1 < j < |events| :: events[j] == rest[j - 1];
    }
    if events[0].move == SetEvent && Unseen(rest) {
      assert forall j | 0 < j < |events| :: events[j] == rest[j - 1];
    }
    if Signalled(events) {
      var i :| 0 <= i < |events| && events[i].move == SetEvent && forall j | i < j < |events| :: !Polls(events[j]);
      if i > 0 { assert rest[i - 1].move == SetEvent; }
    }
    if !Polls(events[0]) && Unseen(rest) {
      assert forall j | 0 < j < |events| :: events[j] == rest[j - 1];
    }
  }

  lemma StepSignals(s: State, e: Event, regime: Regime)
    requires Can(s, e.thread, e.move, regime)
    ensures Step(s, e.thread, e.move, regime).event <==> e.move == SetEvent || (s.event && !Polls(e))
  {}

  /** No wake-up is lost: the event is set if and only if a thread that left has set it since a notifier last looked. */
  lemma {:induction false} EventIsUnseenSignal(s: State, events: seq<Event>, s': State, regime: Regime)
    requires Runs(s, events, s', regime)
    ensures s'.event <==> Signalled(events) || (s.event && Unseen(events))
    decreases |events|
  {
    hide Can, Step;
    if events != [] {
      hide Signalled, Unseen;
      var e := events[0];
      StepSignals(s, e, regime);
      SignalledLater(events);
      EventIsUnseenSignal(Step(s, e.thread, e.move, regime), events[1..], s', regime);
    }
  }

  // notify_one together with timed waits leaves a surplus token.

  /** Two threads in the middle of something. */
  function Two(a: Pc, b: Pc, mutex: Lock, numWaiters: int, semaphore: nat, taken: nat): State
  {
    State(map[0 := a, 1 := b], mutex, numWaiters, semaphore, false, taken)
  }

  lemma Go(s: State, t: Thread, m: Move, s': State)
    requires Reachable(s, Mixed) && Can(s, t, m, Mixed) && Step(s, t, m, Mixed) == s'
    ensures Reachable(s', Mixed)
  {
    hide *;
    ReachableStep(s, t, m, Mixed);
  }

  lemma StartReachable()
    ensures Reachable(Two(Idle, Idle, Free, 0, 0, 0), Mixed)
  {
    hide Can, Step;
    var s := Two(Idle, Idle, Free, 0, 0, 0);
    assert Initial(s) && Runs(s, [], s, Mixed);
  }

  lemma OneWaiter()
    ensures Reachable(Two(Waiting, Idle, Free, 1, 0, 0), Mixed)
  {
    StartReachable();
    hide Reachable;
    Go(Two(Idle, Idle, Free, 0, 0, 0), 0, LockToWait, Two(Guarded, Idle, HeldBy(0), 0, 0, 0));
    Go(Two(Guarded, Idle, HeldBy(0), 0, 0, 0), 0, Increment, Two(Counted, Idle, HeldBy(0), 1, 0, 0));
    Go(Two(Counted, Idle, HeldBy(0), 1, 0, 0), 0, Unlock, Two(Waiting, Idle, Free, 1, 0, 0));
  }

  lemma NotifierReady()
    ensures Reachable(Two(Waiting, OneReady(0), HeldBy(1), 1, 0, 0), Mixed)
  {
    OneWaiter();
    hide Reachable;
    Go(Two(Waiting, Idle, Free, 1, 0, 0), 1, LockToNotifyOne, Two(Waiting, OneHeld, HeldBy(1), 1, 0, 0));
    Go(Two(Waiting, OneHeld, HeldBy(1), 1, 0, 0), 1, CheckOne, Two(Waiting, OneChecked, HeldBy(1), 1, 0, 0));
    Go(Two(Waiting, OneChecked, HeldBy(1), 1, 0, 0), 1, LoadTarget, Two(Waiting, OneReady(0), HeldBy(1), 1, 0, 0));
  }

  lemma WaiterGone()
    ensures Reachable(Two(Uncounted, OneLoop(0, 0), HeldBy(1), 0, 1, 0), Mixed)
  {
    NotifierReady();
    hide Reachable;
    Go(Two(Waiting, OneReady(0), HeldBy(1), 1, 0, 0), 0, TimeOut, Two(TimedOut, OneReady(0), HeldBy(1), 1, 0, 0));
    Go(Two(TimedOut, OneReady(0), HeldBy(1), 1, 0, 0), 1, ReleaseOne, Two(TimedOut, OneLoop(0, 0), HeldBy(1), 1, 1, 0));
    Go(Two(TimedOut, OneLoop(0, 0), HeldBy(1), 1, 1, 0), 0, Decrement,
       Two(Uncounted, OneLoop(0, 0), HeldBy(1), 0, 1, 0));
  }

  /** The only waiter times out while notify_one is releasing its token: the mutex is free again, nobody waits, and a
      token remains that will wake some later waiter for nothing. */
  lemma SurplusTokenWhenMixed() returns (s: State)
    ensures Reachable(s, Mixed) && s.mutex == Free && s.numWaiters == 0 && s.semaphore == 1
  {
    WaiterGone();
    hide Reachable;
    Go(Two(Uncounted, OneLoop(0, 0), HeldBy(1), 0, 1, 0), 1, LeaveOne,
       Two(Uncounted, OneLeaving(0, 0), HeldBy(1), 0, 1, 0));
    s := Two(Uncounted, Idle, Free, 0, 1, 0);
    Go(Two(Uncounted, OneLeaving(0, 0), HeldBy(1), 0, 1, 0), 1, ReturnOne, s);
  }

  /** Tokens never outlive the mutex if and only if notify_one and timed waits are not used together. */
  lemma CleanUnlessMixed(regime: Regime)
    ensures (forall s | Reachable(s, regime) && s.mutex == Free :: NoSurplus(s)) <==> regime != Mixed
  {
    hide Reachable;
    if regime == Mixed {
      var s := SurplusTokenWhenMixed();
      assert !NoSurplus(s);
    } else {
      forall s | Reachable(s, regime) && s.mutex == Free ensures NoSurplus(s) { NothingLeftOver(s, regime); }
    }
  }

  // Together they can also make notify_one wait for ever.

  /** The target of a notify_one in its wait loop is below zero: a count that will never be reached. */
  predicate Hopeless(s: State, t: Thread) { t in s.pcs && s.pcs[t].OneLoop? && s.pcs[t].target < 0 }

  lemma HopelessStep(s: State, u: Thread, m: Move, regime: Regime, t: Thread)
    requires CountIsRight(s) && Hopeless(s, t) && Can(s, u, m, regime)
    ensures Hopeless(Step(s, u, m, regime), t)
  {}

  /** Such a notifier never returns, and holds the mutex for ever. */
  lemma {:induction false} HopelessForever(s: State, events: seq<Event>, s': State, regime: Regime, t: Thread)
    requires CountIsRight(s) && Hopeless(s, t) && Runs(s, events, s', regime)
    ensures Hopeless(s', t)
    decreases |events|
  {
    hide Can, Step, CountIsRight, Hopeless;
    if events != [] {
      var e := events[0];
      StepKeepsCount(s, e.thread, e.move, regime);
      HopelessStep(s, e.thread, e.move, regime, t);
      HopelessForever(Step(s, e.thread, e.move, regime), events[1..], s', regime, t);
    }
  }

  lemma LateWaiter()
    requires Reachable(Two(Waiting, OneChecked, HeldBy(1), 1, 0, 0), Mixed)
    ensures Reachable(Two(Uncounted, OneReady(-1), HeldBy(1), 0, 0, 0), Mixed)
  {
    hide Reachable;
    Go(Two(Waiting, OneChecked, HeldBy(1), 1, 0, 0), 0, TimeOut, Two(TimedOut, OneChecked, HeldBy(1), 1, 0, 0));
    Go(Two(TimedOut, OneChecked, HeldBy(1), 1, 0, 0), 0, Decrement, Two(Uncounted, OneChecked, HeldBy(1), 0, 0, 0));
    Go(Two(Uncounted, OneChecked, HeldBy(1), 0, 0, 0), 1, LoadTarget, Two(Uncounted, OneReady(-1), HeldBy(1), 0, 0, 0));
  }

  /** The only waiter times out between the check of notify_one and its load of the count. */
  lemma NotifyOneCanHang() returns (s: State)
    ensures Reachable(s, Mixed) && Hopeless(s, 1)
  {
    OneWaiter();
    hide Reachable;
    Go(Two(Waiting, Idle, Free, 1, 0, 0), 1, LockToNotifyOne, Two(Waiting, OneHeld, HeldBy(1), 1, 0, 0));
    Go(Two(Waiting, OneHeld, HeldBy(1), 1, 0, 0), 1, CheckOne, Two(Waiting, OneChecked, HeldBy(1), 1, 0, 0));
    LateWaiter();
    s := Two(Uncounted, OneLoop(-1, 0), HeldBy(1), 0, 1, 0);
    Go(Two(Uncounted, OneReady(-1), HeldBy(1), 0, 0, 0), 1, ReleaseOne, s);
  }

  lemma HopeIn(s: State, regime: Regime, t: Thread)
    requires Reachable(s, regime) && regime != Mixed
    ensures !Hopeless(s, t)
  {
    ReachableInv(s, regime);
    hide Reachable;
    if t in s.pcs { MutexOf(s, t); }
  }

  /** No notifier is ever without hope if and only if notify_one and timed waits are not used together. */
  lemma HopeUnlessMixed(regime: Regime)
    ensures (forall s, t | Reachable(s, regime) :: !Hopeless(s, t)) <==> regime != Mixed
  {
    hide Reachable, Hopeless;
    if regime == Mixed {
      var s := NotifyOneCanHang();
    } else {
      forall s, t | Reachable(s, regime) ensures !Hopeless(s, t) { HopeIn(s, regime, t); }
    }
  }
}
