/**
 A mutex over a futex word, with its three types.  A thread makes one shared access per
 step, so the owner and the recursion depth are read and written apart from the
 compare-and-exchange; the kernel's wait set is part of the state.

 The word is 1 when the mutex is free and 0 when it is taken.  Thread `t` carries the
 thread id `t + 1`, so that an owner of 0 means nobody.
 */
module FutexMutex {

  type Tid = nat

  datatype Option<+T> = None | Some(value: T)

  datatype MutexType = Normal | Recursive | ErrorCheck

  /** Program counters, named after the access that comes next.  `L` is inside lock, `U`
      inside unlock. */
  datatype Pc =
    | Idle
    | LReadWord | LReadOwner | LRelock | LRelockWrite
    | LCas | LSetOwner | LSetDepth | LWait | LAsleep
    | UReadOwner | UReadDepth | UWriteDepth | UClearOwner | UClearDepth | UStore | UWake

  /** One thread.  `tmp` is the value that `++` and `--` read before they write; `acquired`
      and `released` are history: how many lock calls took the mutex, and how many unlock
      calls gave it back, one level each. */
  datatype Thread = Thread(pc: Pc, tmp: int, acquired: nat, released: nat)

  /** `holder` is history: who won the last exchange and has not stored 1 since. */
  datatype State = State(kind: MutexType, word: int, owner: nat, recursion: int,
                         sleepers: set<Tid>, threads: seq<Thread>, aborted: bool,
                         holder: Option<Tid>)

  datatype Event =
    | CallLock(t: Tid)
    | CallUnlock(t: Tid)
    | Run(t: Tid, pick: Tid)  // `pick` is the sleeper that a wake-up chooses

  function Init(kind: MutexType, n: nat): State {
    State(kind, 1, 0, 0, {}, seq(n, i => Thread(Idle, 0, 0, 0)), false, None)
  }

  function Depth(th: Thread): int {
    th.acquired - th.released
  }

  function Goto(s: State, t: Tid, pc: Pc): State
    requires t < |s.threads|
  {
    s.(threads := s.threads[t := s.threads[t].(pc := pc)])
  }

  /** The call returns and has taken the mutex once more. */
  function ReturnAcquired(s: State, t: Tid): State
    requires t < |s.threads|
  {
    var th := s.threads[t];
    s.(threads := s.threads[t := th.(pc := Idle, acquired := th.acquired + 1)])
  }

  /** The mutex is given back by one level, and the thread goes on at `pc`. */
  function Released(s: State, t: Tid, pc: Pc): State
    requires t < |s.threads|
  {
    var th := s.threads[t];
    s.(threads := s.threads[t := th.(pc := pc, released := th.released + 1)])
  }

  function LockStep(s: State, t: Tid): State
    requires t < |s.threads|
  {
    var th := s.threads[t];
    match th.pc
    case LReadWord => Goto(s, t, if s.word == 0 then LReadOwner else LCas)
    case LReadOwner => Goto(s, t, if s.owner == t + 1 then LRelock else LCas)
    case LRelock =>
      (match s.kind
       case Recursive => s.(threads := s.threads[t := th.(pc := LRelockWrite, tmp := s.recursion)])
       case ErrorCheck => Goto(s, t, Idle)  // reports a deadlock and returns
       case Normal => s.(aborted := true))
    case LRelockWrite => ReturnAcquired(s, t).(recursion := th.tmp + 1)
    case LCas =>
      if s.word == 1 then Goto(s, t, LSetOwner).(word := 0, holder := Some(t)) else Goto(s, t, LWait)
    case LSetOwner => Goto(s, t, LSetDepth).(owner := t + 1)
    case LSetDepth => ReturnAcquired(s, t).(recursion := 1)
    case LWait =>
      // the kernel compares the word and puts the thread to sleep in one go
      if s.word == 0 then Goto(s, t, LAsleep).(sleepers := s.sleepers + {t}) else Goto(s, t, LCas)
    case _ => s
  }

  function UnlockStep(s: State, t: Tid, pick: Tid): State
    requires t < |s.threads|
  {
    var th := s.threads[t];
    match th.pc
    case UReadOwner =>
      if s.owner != t + 1 then
        if s.kind.ErrorCheck? then s.(aborted := true) else Goto(s, t, Idle)
      else Goto(s, t, if s.kind.Recursive? then UReadDepth else UClearOwner)
    case UReadDepth => s.(threads := s.threads[t := th.(pc := UWriteDepth, tmp := s.recursion)])
    case UWriteDepth =>
      (if th.tmp - 1 > 0 then Released(s, t, Idle) else Goto(s, t, UClearOwner)).(recursion := th.tmp - 1)
    case UClearOwner => Goto(s, t, UClearDepth).(owner := 0)
    case UClearDepth => Goto(s, t, UStore).(recursion := 0)
    case UStore => Released(s, t, UWake).(word := 1, holder := None)
    case UWake =>
      if pick in s.sleepers && pick < |s.threads| && pick != t then
        Goto(Goto(s, t, Idle), pick, LCas).(sleepers := s.sleepers - {pick})
      else Goto(s, t, Idle)
    case _ => s
  }

  predicate InUnlock(pc: Pc) {
    pc in {UReadOwner, UReadDepth, UWriteDepth, UClearOwner, UClearDepth, UStore, UWake}
  }

  /** A thread runs unless it is between calls or asleep, or the process has aborted.  A wake-up
      must choose a sleeper if there is one. */
  predicate Enabled(s: State, e: Event) {
    && e.t < |s.threads| && !s.aborted
    && match e
       case CallLock(t) => s.threads[t].pc.Idle?
       case CallUnlock(t) => s.threads[t].pc.Idle?
       case Run(t, pick) =>
         && s.threads[t].pc != Idle && s.threads[t].pc != LAsleep
         && (s.threads[t].pc.UWake? ==> s.sleepers == {} || pick in s.sleepers)
  }

  function Apply(s: State, e: Event): State {
    if !Enabled(s, e) then s
    else
      match e
      case CallLock(t) => Goto(s, t, LReadWord)
      case CallUnlock(t) => Goto(s, t, UReadOwner)
      case Run(t, pick) => if InUnlock(s.threads[t].pc) then UnlockStep(s, t, pick) else LockStep(s, t)
  }

  function Exec(s: State, schedule: seq<Event>): State
    decreases |schedule|
  {
    if schedule == [] then s else Exec(Apply(s, schedule[0]), schedule[1..])
  }

  // ------------------------------------------------------------ the invariant

  /** The thread won the exchange and has not stored 1 since. */
  predicate Holds(th: Thread) {
    match th.pc
    case Idle | LReadWord | LReadOwner | UReadOwner => Depth(th) > 0
    case LRelock | LRelockWrite | LSetOwner | LSetDepth => true
    case UReadDepth | UWriteDepth | UClearOwner | UClearDepth | UStore => true
    case LCas | LWait | LAsleep | UWake => false
  }

  /** The thread's id is in the owner field. */
  predicate Owns(th: Thread) {
    Holds(th) && th.pc !in {LSetOwner, UClearDepth, UStore}
  }

  /** The depth that the mutex field records while this thread holds it. */
  predicate DepthRecorded(kind: MutexType, recursion: int, th: Thread) {
    match th.pc
    case LSetOwner | LSetDepth => recursion == 0 && Depth(th) == 0
    case LRelockWrite | UWriteDepth => kind.Recursive? && recursion == th.tmp == Depth(th) && Depth(th) > 0
    case UReadDepth => kind.Recursive? && recursion == Depth(th) && Depth(th) > 0
    case UClearOwner | UClearDepth => Depth(th) == 1 && recursion == (if kind.Recursive? then 0 else 1)
    case UStore => Depth(th) == 1 && recursion == 0
    case _ => recursion == Depth(th) > 0 && (kind.Recursive? || Depth(th) == 1)
  }

  /** A thread that will try the exchange again, or will wake one that does. */
  predicate Awake(th: Thread) {
    th.pc in {LCas, LWait, UWake}
  }

  ghost predicate SomeoneAwake(threads: seq<Thread>) {
    exists t :: 0 <= t < |threads| && Awake(threads[t])
  }

  ghost predicate ThreadInv(s: State, t: Tid)
    requires t < |s.threads|
  {
    var th := s.threads[t];
    && (Holds(th) <==> s.holder == Some(t))
    && (Owns(th) <==> s.owner == t + 1)
    && (t in s.sleepers <==> th.pc.LAsleep?)
    && (if Holds(th) then DepthRecorded(s.kind, s.recursion, th) else Depth(th) == 0)
  }

  ghost predicate SharedInv(s: State) {
    && s.word == (if s.holder.Some? then 0 else 1)
    && (s.holder.Some? ==> s.holder.value < |s.threads|)
    && (s.holder.None? ==> s.owner == 0 && s.recursion == 0)
    && s.owner <= |s.threads|
    && (forall t :: t in s.sleepers ==> t < |s.threads|)
  }

  ghost predicate Inv(s: State) {
    && SharedInv(s)
    && (forall t :: 0 <= t < |s.threads| ==> ThreadInv(s, t))
    && (s.sleepers != {} && s.word == 1 ==> SomeoneAwake(s.threads))
  }

  lemma InitInv(kind: MutexType, n: nat)
    ensures Inv(Init(kind, n))
  {
  }

  lemma LockActorInv(s: State, t: Tid)
    requires SharedInv(s) && t < |s.threads| && ThreadInv(s, t)
    ensures ThreadInv(LockStep(s, t), t)
  {
  }

  lemma LockOthersInv(s: State, t: Tid, u: Tid)
    requires SharedInv(s) && t < |s.threads| && u < |s.threads| && u != t && ThreadInv(s, t) && ThreadInv(s, u)
    ensures ThreadInv(LockStep(s, t), u)
  {
  }

  lemma LockStepInv(s: State, t: Tid)
    requires Inv(s) && Enabled(s, Run(t, 0)) && !InUnlock(s.threads[t].pc)
    ensures forall u :: 0 <= u < |s.threads| ==> ThreadInv(LockStep(s, t), u)
  {
    hide ThreadInv;
    assert ThreadInv(s, t);
    LockActorInv(s, t);
    forall u | 0 <= u < |s.threads|
      ensures ThreadInv(LockStep(s, t), u)
    {
      assert ThreadInv(s, u);
      if u != t {
        LockOthersInv(s, t, u);
      }
    }
  }

  lemma StepKeepsShared(s: State, e: Event)
    requires Inv(s) && Enabled(s, e)
    ensures SharedInv(Apply(s, e))
  {
    assert ThreadInv(s, e.t);
    assert s.owner != 0 ==> ThreadInv(s, s.owner - 1);
  }

  lemma UnlockTestsInv(s: State, t: Tid, pick: Tid)
    requires SharedInv(s) && t < |s.threads| && ThreadInv(s, t)
    requires s.threads[t].pc in {UReadOwner, UReadDepth, UWriteDepth}
    ensures ThreadInv(UnlockStep(s, t, pick), t)
  {
  }

  lemma UnlockClearsInv(s: State, t: Tid, pick: Tid)
    requires SharedInv(s) && t < |s.threads| && ThreadInv(s, t)
    requires !(s.threads[t].pc in {UReadOwner, UReadDepth, UWriteDepth})
    ensures ThreadInv(UnlockStep(s, t, pick), t)
  {
  }

  lemma UnlockActorInv(s: State, t: Tid, pick: Tid)
    requires SharedInv(s) && t < |s.threads| && ThreadInv(s, t)
    ensures ThreadInv(UnlockStep(s, t, pick), t)
  {
    if s.threads[t].pc in {UReadOwner, UReadDepth, UWriteDepth} {
      UnlockTestsInv(s, t, pick);
    } else {
      UnlockClearsInv(s, t, pick);
    }
  }

  lemma UnlockOthersInv(s: State, t: Tid, pick: Tid, u: Tid)
    requires SharedInv(s) && t < |s.threads| && u < |s.threads| && u != t && ThreadInv(s, t) && ThreadInv(s, u)
    ensures ThreadInv(UnlockStep(s, t, pick), u)
  {
    if u == pick {
      assert pick in s.sleepers ==> s.threads[pick].pc.LAsleep?;
    }
  }

  lemma UnlockStepInv(s: State, t: Tid, pick: Tid)
    requires Inv(s) && Enabled(s, Run(t, pick)) && InUnlock(s.threads[t].pc)
    ensures forall u :: 0 <= u < |s.threads| ==> ThreadInv(UnlockStep(s, t, pick), u)
  {
    hide ThreadInv;
    assert ThreadInv(s, t);
    UnlockActorInv(s, t, pick);
    forall u | 0 <= u < |s.threads|
      ensures ThreadInv(UnlockStep(s, t, pick), u)
    {
      assert ThreadInv(s, u);
      if u != t {
        UnlockOthersInv(s, t, pick, u);
      }
    }
  }

  lemma CallInv(s: State, e: Event)
    requires Inv(s) && Enabled(s, e) && !e.Run?
    ensures forall u :: 0 <= u < |s.threads| ==> ThreadInv(Apply(s, e), u)
  {
    forall u | 0 <= u < |s.threads|
      ensures ThreadInv(Apply(s, e), u)
    {
      assert ThreadInv(s, u);
    }
  }

  /** No step leaves sleepers behind a free mutex without somebody who is awake. */
  lemma StepKeepsSomeoneAwake(s: State, e: Event)
    requires Inv(s) && Enabled(s, e)
    ensures var s' := Apply(s, e);
      s'.sleepers != {} && s'.word == 1 ==> SomeoneAwake(s'.threads)
  {
    var s' := Apply(s, e);
    var t := e.t;
    assert ThreadInv(s, t);
    if s'.sleepers != {} && s'.word == 1 {
      if e.Run? && s.threads[t].pc.UWake? && s.sleepers != {} {
        assert ThreadInv(s, e.pick);
        assert Awake(s'.threads[e.pick]);
      } else if Awake(s'.threads[t]) {
      } else {
        assert s.sleepers != {} && s.word == 1;
        var w :| 0 <= w < |s.threads| && Awake(s.threads[w]);
        assert w != t && s'.threads[w] == s.threads[w];
      }
    }
  }

  lemma ApplyKeepsInv(s: State, e: Event)
    requires Inv(s)
    ensures Inv(Apply(s, e))
  {
    if Enabled(s, e) {
      assert ThreadInv(s, e.t);
      StepKeepsSomeoneAwake(s, e);
      StepKeepsShared(s, e);
      if e.CallLock? || e.CallUnlock? {
        CallInv(s, e);
      } else if InUnlock(s.threads[e.t].pc) {
        UnlockStepInv(s, e.t, e.pick);
      } else {
        LockStepInv(s, e.t);
      }
    }
  }

  lemma {:induction false} ExecKeepsInv(s: State, schedule: seq<Event>)
    requires Inv(s)
    ensures Inv(Exec(s, schedule))
    decreases |schedule|
  {
    if schedule != [] {
      ApplyKeepsInv(s, schedule[0]);
      ExecKeepsInv(Apply(s, schedule[0]), schedule[1..]);
    }
  }

  ghost predicate Reachable(s: State) {
    exists n: nat, schedule :: s == Exec(Init(s.kind, n), schedule)
  }

  lemma ReachableInv(s: State)
    requires Reachable(s)
    ensures Inv(s)
  {
    var n: nat, schedule :| s == Exec(Init(s.kind, n), schedule);
    InitInv(s.kind, n);
    ExecKeepsInv(Init(s.kind, n), schedule);
  }

  // ------------------------------------------------------------ theorems

  /** At most one thread is between a successful exchange and its store of 1, and the word is 1
      exactly when there is none.  The owner field never names a thread that does not hold the
      mutex, and is 0 whenever the word is 1. */
  lemma MutualExclusion(s: State, t: Tid, u: Tid)
    requires Reachable(s) && t < |s.threads| && u < |s.threads|
    ensures Holds(s.threads[t]) && Holds(s.threads[u]) ==> t == u
    ensures s.word == 1 <==> forall v :: 0 <= v < |s.threads| ==> !Holds(s.threads[v])
    ensures s.word == 1 ==> s.owner == 0
    ensures s.owner == t + 1 ==> Holds(s.threads[t])
  {
    ReachableInv(s);
    assert ThreadInv(s, t) && ThreadInv(s, u);
    if s.word == 0 {
      assert ThreadInv(s, s.holder.value);
    } else {
      forall v | 0 <= v < |s.threads|
        ensures !Holds(s.threads[v])
      {
        assert ThreadInv(s, v);
      }
    }
  }

  /** The unprotected tests of the owner field give the right answer in every interleaving: the
      calling thread finds its own id there exactly when it has the mutex, and the fast path of
      lock is left for the exchange only by a thread that does not have it. */
  lemma OwnerTestsAreRight(s: State, t: Tid)
    requires Reachable(s) && t < |s.threads|
    ensures s.threads[t].pc in {LReadOwner, UReadOwner} ==>
      (s.owner == t + 1 <==> s.threads[t].acquired > s.threads[t].released)
    ensures s.threads[t].pc == LReadWord && s.word == 1 ==> s.threads[t].acquired == s.threads[t].released
    ensures s.threads[t].pc == LRelock ==> s.threads[t].acquired > s.threads[t].released
    ensures s.threads[t].pc in {LCas, LWait, LAsleep} ==> s.threads[t].acquired == s.threads[t].released
  {
    ReachableInv(s);
    assert ThreadInv(s, t);
  }

  /** No lost wakeup: with a sleeper about, the mutex is taken, or some thread is about to wake a
      sleeper or is awake in the acquire loop. */
  lemma NoLostWakeup(s: State)
    requires Reachable(s) && s.sleepers != {}
    ensures s.word == 0 || exists t :: 0 <= t < |s.threads| && Awake(s.threads[t])
  {
    ReachableInv(s);
  }

  /** And that thread delivers: from any reachable state in which the mutex is free while somebody
      sleeps, at most two steps of a thread that is awake, or is woken on the way, take the mutex. */
  lemma FreeMutexGetsTaken(s: State) returns (schedule: seq<Event>)
    requires Reachable(s) && s.sleepers != {} && s.word == 1 && !s.aborted
    ensures |schedule| <= 2 && Exec(s, schedule).word == 0
  {
    ReachableInv(s);
    var t :| 0 <= t < |s.threads| && Awake(s.threads[t]);
    assert ThreadInv(s, t);
    if s.threads[t].pc.LCas? {
      schedule := [Run(t, 0)];
      assert Exec(Apply(s, schedule[0]), schedule[1..]) == Apply(s, schedule[0]);
    } else {
      var pick :| pick in s.sleepers;
      assert ThreadInv(s, pick);
      var next := if s.threads[t].pc.LWait? then t else pick;
      var first := Run(t, pick);
      var s1 := Apply(s, first);
      assert s1.threads[next].pc.LCas? && s1.word == 1 && !s1.aborted;
      schedule := [first, Run(next, 0)];
      assert schedule[1..] == [Run(next, 0)] && schedule[1..][1..] == [];
      assert Exec(s, schedule) == Exec(s1, [Run(next, 0)]) == Apply(s1, Run(next, 0));
    }
  }

  /** Of a recursive mutex between calls: `recursion` is the owner's acquisitions less its
      releases, and nobody else has acquired more often than released. */
  lemma RecursionCountsDepth(s: State, t: Tid)
    requires Reachable(s) && t < |s.threads| && s.threads[t].pc.Idle?
    ensures s.threads[t].acquired >= s.threads[t].released
    ensures s.threads[t].acquired > s.threads[t].released ==>
      s.owner == t + 1 && s.recursion == s.threads[t].acquired - s.threads[t].released
    ensures s.owner != t + 1 ==> s.threads[t].acquired == s.threads[t].released
    ensures !s.kind.Recursive? ==> s.threads[t].acquired <= s.threads[t].released + 1
  {
    ReachableInv(s);
    assert ThreadInv(s, t);
  }

  /** The word goes back to 1 exactly at the unlock that matches the outermost lock. */
  lemma WordRisesAtOutermostUnlock(s: State, e: Event)
    requires Reachable(s) && s.word == 0
    ensures Apply(s, e).word == 1 <==>
      && e.Run? && e.t < |s.threads| && !s.aborted && s.threads[e.t].pc.UStore?
    ensures Apply(s, e).word == 1 ==>
      && s.threads[e.t].acquired == s.threads[e.t].released + 1
      && Apply(s, e).threads[e.t].acquired == Apply(s, e).threads[e.t].released
  {
    ReachableInv(s);
    if e.t < |s.threads| {
      assert ThreadInv(s, e.t);
    }
  }

  /** A thread that does not have the mutex and calls unlock changes nothing for the others: it
      returns, or aborts the process when the type checks for errors. */
  lemma ForeignUnlockChangesNothing(s: State, t: Tid, pick: Tid)
    requires Reachable(s) && t < |s.threads| && !s.aborted
    requires s.threads[t].pc.UReadOwner? && s.threads[t].acquired == s.threads[t].released
    ensures var s' := Apply(s, Run(t, pick));
      if s.kind.ErrorCheck? then s' == s.(aborted := true)
      else s' == s.(threads := s.threads[t := s.threads[t].(pc := Idle)])
  {
    ReachableInv(s);
    assert ThreadInv(s, t);
  }

  /** The process aborts only on misuse: relocking a normal mutex one already has, or unlocking an
      error-checking one that one does not have. */
  lemma AbortsExactlyOnMisuse(s: State, e: Event)
    requires Reachable(s) && !s.aborted && e.t < |s.threads|
    ensures var th := s.threads[e.t]; var has := th.acquired > th.released;
      Apply(s, e).aborted <==>
        && e.Run?
        && ((s.kind.Normal? && th.pc.LRelock? && has) || (s.kind.ErrorCheck? && th.pc.UReadOwner? && !has))
  {
    ReachableInv(s);
    assert ThreadInv(s, e.t);
  }

  lemma {:induction false} AbortedStays(s: State, schedule: seq<Event>)
    requires s.aborted
    ensures Exec(s, schedule) == s
    decreases |schedule|
  {
    if schedule != [] {
      AbortedStays(Apply(s, schedule[0]), schedule[1..]);
    }
  }

  /** How often thread `t` is given the processor. */
  function OwnRuns(t: Tid, schedule: seq<Event>): nat {
    if schedule == [] then 0
    else (if schedule[0].Run? && schedule[0].t == t then 1 else 0) + OwnRuns(t, schedule[1..])
  }

  /** The owner of a normal mutex is in lock, so many steps before it finds out. */
  ghost predicate Relocking(s: State, t: Tid, left: nat) {
    && Inv(s) && s.kind.Normal? && t < |s.threads| && Depth(s.threads[t]) > 0
    && ((s.threads[t].pc.LReadWord? && left == 3) || (s.threads[t].pc.LReadOwner? && left == 2)
        || (s.threads[t].pc.LRelock? && left == 1))
  }

  lemma RelockingStep(s: State, t: Tid, left: nat, e: Event)
    requires Relocking(s, t, left) && !s.aborted
    ensures var s' := Apply(s, e);
      if e.Run? && e.t == t then s'.aborted || (left > 1 && Relocking(s', t, left - 1))
      else s'.aborted || Relocking(s', t, left)
  {
    assert ThreadInv(s, t);
    ApplyKeepsInv(s, e);
    if e.t != t && Enabled(s, e) {
      assert ThreadInv(s, e.t);
      assert Apply(s, e).threads[t] == s.threads[t];
    }
  }

  lemma {:induction false} RelockingAborts(s: State, t: Tid, left: nat, schedule: seq<Event>)
    requires Relocking(s, t, left) && OwnRuns(t, schedule) >= left
    ensures Exec(s, schedule).aborted
    decreases |schedule|
  {
    if s.aborted {
      AbortedStays(s, schedule);
    } else if schedule != [] {
      var e, rest := schedule[0], schedule[1..];
      RelockingStep(s, t, left, e);
      var s' := Apply(s, e);
      hide Relocking, Apply;
      if s'.aborted {
        AbortedStays(s', rest);
      } else {
        RelockingAborts(s', t, if e.Run? && e.t == t then left - 1 else left, rest);
      }
    }
  }

  /** If the owner of a normal mutex calls lock, the process aborts as soon as that thread has made
      three more steps, whatever the others do in between. */
  lemma OwnerRelockAborts(s: State, t: Tid, schedule: seq<Event>)
    requires Reachable(s) && s.kind.Normal? && t < |s.threads|
    requires s.threads[t].pc.Idle? && s.threads[t].acquired > s.threads[t].released
    requires OwnRuns(t, schedule) >= 3
    ensures Exec(Apply(s, CallLock(t)), schedule).aborted
  {
    ReachableInv(s);
    var s' := Apply(s, CallLock(t));
    ApplyKeepsInv(s, CallLock(t));
    if s.aborted {
      AbortedStays(s', schedule);
    } else {
      RelockingAborts(s', t, 3, schedule);
    }
  }

  // ------------------------------------------------------------ refinement

  /** The mutex that clients have in mind: free, or held by a thread to some depth. */
  datatype Abstract = Free | Held(t: Tid, depth: nat)

  ghost function Abs(s: State): Abstract
    requires Inv(s)
  {
    match s.holder
    case None => Free
    case Some(t) =>
      assert ThreadInv(s, t);
      if s.threads[t].pc in {LSetOwner, LSetDepth} then Held(t, 1) else Held(t, Depth(s.threads[t]))
  }

  /** One atomic action of thread `t` on the abstract mutex. */
  predicate AbstractStep(kind: MutexType, a: Abstract, b: Abstract, t: Tid) {
    || (a == Free && b == Held(t, 1))
    || (kind.Recursive? && a.Held? && a.t == t && b == Held(t, a.depth + 1))
    || (kind.Recursive? && a.Held? && a.t == t && a.depth > 1 && b == Held(t, a.depth - 1))
    || (a == Held(t, 1) && b == Free)
  }

  /** The step of thread `t` from `s` to `s'` is invisible to clients, or one atomic action. */
  ghost predicate Simulates(s: State, s': State, t: Tid) {
    Inv(s) && Inv(s') && (Abs(s') == Abs(s) || AbstractStep(s.kind, Abs(s), Abs(s'), t))
  }

  /** Another thread's step leaves the holder's level alone. */
  lemma HolderUntouched(s: State, e: Event)
    requires Inv(s) && Enabled(s, e) && s.holder.Some? && s.holder.value != e.t
    ensures Apply(s, e).threads[s.holder.value] == s.threads[s.holder.value]
    ensures Apply(s, e).holder == s.holder
  {
    assert ThreadInv(s, s.holder.value) && ThreadInv(s, e.t);
  }

  lemma LockSimulates(s: State, t: Tid)
    requires Inv(s) && Enabled(s, Run(t, 0)) && !InUnlock(s.threads[t].pc) && Inv(LockStep(s, t))
    requires s.holder.None? || s.holder == Some(t)
    ensures Simulates(s, LockStep(s, t), t)
  {
    assert ThreadInv(s, t);
  }

  lemma UnlockSimulates(s: State, t: Tid, pick: Tid)
    requires Inv(s) && Enabled(s, Run(t, pick)) && InUnlock(s.threads[t].pc) && Inv(UnlockStep(s, t, pick))
    requires s.holder.None? || s.holder == Some(t)
    ensures Simulates(s, UnlockStep(s, t, pick), t)
  {
    assert ThreadInv(s, t);
  }

  /** The micro-steps refine the atomic reentrant mutex: each one changes nothing that clients can
      tell, or is one atomic acquire, re-enter, leave or release of the thread that made it. */
  lemma RefinesAtomicMutex(s: State, e: Event)
    requires Reachable(s) && Inv(s)
    ensures Inv(Apply(s, e))
    ensures Abs(Apply(s, e)) == Abs(s) || AbstractStep(s.kind, Abs(s), Abs(Apply(s, e)), e.t)
  {
    ApplyKeepsInv(s, e);
    if Enabled(s, e) {
      if s.holder.Some? && s.holder.value != e.t {
        HolderUntouched(s, e);
      } else if e.CallLock? || e.CallUnlock? {
        assert ThreadInv(s, e.t);
      } else if InUnlock(s.threads[e.t].pc) {
        UnlockSimulates(s, e.t, e.pick);
      } else {
        LockSimulates(s, e.t);
      }
    }
  }
}
