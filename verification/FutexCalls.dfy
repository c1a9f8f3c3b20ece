/**
 What calls of lock and unlock do, from call to return, with the steps of the other threads in
 between.
 */
module FutexCalls {
  import opened FutexMutex

  /** Thread `t` calls nothing in this schedule. */
  predicate NoCalls(t: Tid, schedule: seq<Event>) {
    forall i :: 0 <= i < |schedule| ==> schedule[i].Run? || schedule[i].t != t
  }

  /** What a thread that has the mutex calls. */
  datatype Call = Lock | Unlock

  /** The way of such a call through the code, for an owner who has the mutex to depth `d`; the call to
      lock a normal mutex aborts. */
  function Path(kind: MutexType, call: Call, d: int): seq<Pc> {
    match call
    case Lock =>
      if kind.Recursive? then [LReadWord, LReadOwner, LRelock, LRelockWrite, Idle]
      else [LReadWord, LReadOwner, LRelock, Idle]
    case Unlock =>
      if !kind.Recursive? then [UReadOwner, UClearOwner, UClearDepth, UStore, UWake]
      else if d > 1 then [UReadOwner, UReadDepth, UWriteDepth, Idle]
      else [UReadOwner, UReadDepth, UWriteDepth, UClearOwner, UClearDepth, UStore, UWake]
  }

  /** The depth at the end of the call. */
  function DepthAfter(kind: MutexType, call: Call, d: int): int {
    match call
    case Lock => if kind.Recursive? then d + 1 else d
    case Unlock => d - 1
  }

  /** The owner, `k` runs into a call that it made at depth `d`. */
  ghost predicate OnPath(s: State, t: Tid, call: Call, d: int, k: nat) {
    && Inv(s) && !s.aborted && t < |s.threads| && d > 0 && (call.Lock? ==> !s.kind.Normal?)
    && var path := Path(s.kind, call, d);
       && k < |path| && s.threads[t].pc == path[k]
       && Depth(s.threads[t]) == if k + 1 == |path| then DepthAfter(s.kind, call, d) else d
  }

  lemma CallEntersPath(s: State, t: Tid, call: Call)
    requires Inv(s) && !s.aborted && t < |s.threads| && s.threads[t].pc.Idle? && Depth(s.threads[t]) > 0
    requires call.Lock? ==> !s.kind.Normal?
    ensures var e := if call.Lock? then CallLock(t) else CallUnlock(t);
      OnPath(Apply(s, e), t, call, Depth(s.threads[t]), 0) && Apply(s, e).recursion == s.recursion
  {
    ApplyKeepsInv(s, if call.Lock? then CallLock(t) else CallUnlock(t));
  }

  lemma LockPathMove(s: State, t: Tid, d: int, k: nat, pick: Tid)
    requires OnPath(s, t, Lock, d, k) && k + 1 < |Path(s.kind, Lock, d)|
    ensures OnPath(Apply(s, Run(t, pick)), t, Lock, d, k + 1)
  {
    assert ThreadInv(s, t);
    ApplyKeepsInv(s, Run(t, pick));
  }

  lemma UnlockPathMove(s: State, t: Tid, d: int, k: nat, pick: Tid)
    requires OnPath(s, t, Unlock, d, k) && k + 1 < |Path(s.kind, Unlock, d)|
    ensures OnPath(Apply(s, Run(t, pick)), t, Unlock, d, k + 1)
  {
    assert ThreadInv(s, t);
    ApplyKeepsInv(s, Run(t, pick));
  }

  lemma OthersLeaveAwake(s: State, t: Tid, e: Event)
    requires Inv(s) && t < |s.threads| && e.t != t && !s.threads[t].pc.LAsleep?
    ensures var s' := Apply(s, e);
      && |s'.threads| == |s.threads| && s'.threads[t] == s.threads[t] && s'.kind == s.kind
      && (s.kind.Recursive? ==> s'.aborted == s.aborted)
  {
    assert ThreadInv(s, t);
    hide Inv;
  }

  /** The others leave the owner where it is, unless one of them aborts the process. */
  lemma PathWaits(s: State, t: Tid, call: Call, d: int, k: nat, e: Event)
    requires OnPath(s, t, call, d, k) && e.t != t
    ensures Apply(s, e).aborted || OnPath(Apply(s, e), t, call, d, k)
    ensures Apply(s, e).kind == s.kind && (s.kind.Recursive? ==> !Apply(s, e).aborted)
  {
    ApplyKeepsInv(s, e);
    assert !s.threads[t].pc.LAsleep?;
    OthersLeaveAwake(s, t, e);
    hide Apply, Inv;
  }

  lemma PathMoves(s: State, t: Tid, call: Call, d: int, k: nat, pick: Tid)
    requires OnPath(s, t, call, d, k) && k + 1 < |Path(s.kind, call, d)|
    ensures OnPath(Apply(s, Run(t, pick)), t, call, d, k + 1) && Apply(s, Run(t, pick)).kind == s.kind
  {
    if call.Lock? {
      LockPathMove(s, t, d, k, pick);
    } else {
      UnlockPathMove(s, t, d, k, pick);
    }
  }

  lemma {:induction false} PathIsFollowed(s: State, t: Tid, call: Call, d: int, k: nat, j: nat, schedule: seq<Event>)
    requires OnPath(s, t, call, d, k) && k <= j < |Path(s.kind, call, d)|
    requires NoCalls(t, schedule) && OwnRuns(t, schedule) == j - k
    ensures Exec(s, schedule).aborted || OnPath(Exec(s, schedule), t, call, d, j)
    ensures Exec(s, schedule).kind == s.kind && (s.kind.Recursive? ==> !Exec(s, schedule).aborted)
    decreases |schedule|
  {
    if schedule != [] {
      var e, rest := schedule[0], schedule[1..];
      assert e.Run? || e.t != t;
      assert NoCalls(t, rest);
      if e.t == t {
        PathMoves(s, t, call, d, k, e.pick);
        PathIsFollowed(Apply(s, e), t, call, d, k + 1, j, rest);
      } else {
        PathWaits(s, t, call, d, k, e);
        hide OnPath, Apply, Path;
        if Apply(s, e).aborted {
          AbortedStays(Apply(s, e), rest);
        } else {
          PathIsFollowed(Apply(s, e), t, call, d, k, j, rest);
        }
      }
    }
  }

  // ------------------------------------------------------------ the owner's calls

  /** The owner of a recursive mutex locks it again: after four runs, whatever the others do in
      between, the call has returned and the recorded depth is one higher. */
  lemma OwnerRelocks(s: State, t: Tid, schedule: seq<Event>)
    requires Reachable(s) && s.kind.Recursive? && !s.aborted && t < |s.threads|
    requires s.threads[t].pc.Idle? && s.owner == t + 1
    requires NoCalls(t, schedule) && OwnRuns(t, schedule) == 4
    ensures var s' := Exec(Apply(s, CallLock(t)), schedule);
      && !s'.aborted && t < |s'.threads| && s'.threads[t].pc.Idle?
      && s'.recursion == s.recursion + 1 && s'.word == 0 && s'.owner == t + 1
  {
    ReachableInv(s);
    assert ThreadInv(s, t);
    CallEntersPath(s, t, Lock);
    var s0, d := Apply(s, CallLock(t)), Depth(s.threads[t]);
    PathIsFollowed(s0, t, Lock, d, 0, 4, schedule);
    assert ThreadInv(Exec(s0, schedule), t);
    hide Exec;
  }

  /** The owner of an error-checking mutex locks it again: after three runs the call has returned, and
      nothing has changed. */
  lemma OwnerRelockIsRefused(s: State, t: Tid, schedule: seq<Event>)
    requires Reachable(s) && s.kind.ErrorCheck? && !s.aborted && t < |s.threads|
    requires s.threads[t].pc.Idle? && s.owner == t + 1
    requires NoCalls(t, schedule) && OwnRuns(t, schedule) == 3
    ensures var s' := Exec(Apply(s, CallLock(t)), schedule);
      s'.aborted || (&& t < |s'.threads| && s'.threads[t].pc.Idle?
                     && s'.recursion == s.recursion == 1 && s'.word == 0 && s'.owner == t + 1)
  {
    ReachableInv(s);
    assert ThreadInv(s, t);
    CallEntersPath(s, t, Lock);
    var s0, d := Apply(s, CallLock(t)), Depth(s.threads[t]);
    PathIsFollowed(s0, t, Lock, d, 0, 3, schedule);
    assert !Exec(s0, schedule).aborted ==> ThreadInv(Exec(s0, schedule), t);
    hide Exec;
  }

  /** The owner of a recursive mutex unlocks an inner level: after three runs the call has returned, the
      recorded depth is one lower, and the mutex is still its own. */
  lemma OwnerLeavesLevel(s: State, t: Tid, schedule: seq<Event>)
    requires Reachable(s) && s.kind.Recursive? && !s.aborted && t < |s.threads|
    requires s.threads[t].pc.Idle? && s.owner == t + 1 && s.recursion > 1
    requires NoCalls(t, schedule) && OwnRuns(t, schedule) == 3
    ensures var s' := Exec(Apply(s, CallUnlock(t)), schedule);
      && !s'.aborted && t < |s'.threads| && s'.threads[t].pc.Idle?
      && s'.recursion == s.recursion - 1 && s'.word == 0 && s'.owner == t + 1
  {
    ReachableInv(s);
    assert ThreadInv(s, t);
    CallEntersPath(s, t, Unlock);
    var s0, d := Apply(s, CallUnlock(t)), Depth(s.threads[t]);
    PathIsFollowed(s0, t, Unlock, d, 0, 3, schedule);
    assert ThreadInv(Exec(s0, schedule), t);
    hide Exec;
  }

  lemma StoreFrees(s: State, t: Tid, d: int, pick: Tid)
    requires OnPath(s, t, Unlock, d, |Path(s.kind, Unlock, d)| - 2)
    requires Path(s.kind, Unlock, d)[|Path(s.kind, Unlock, d)| - 1] == UWake
    ensures var s' := Apply(s, Run(t, pick));
      s'.word == 1 && s'.owner == 0 && s'.recursion == 0 && |s'.threads| == |s.threads| && s'.threads[t].pc.UWake?
  {
    assert ThreadInv(s, t);
    PathMoves(s, t, Unlock, d, |Path(s.kind, Unlock, d)| - 2, pick);
    assert ThreadInv(Apply(s, Run(t, pick)), t);
  }

  /** The owner unlocks the outermost level: with its sixth run, or the fourth for a mutex that is not
      recursive, the mutex is free, and the call is about to wake a sleeper. */
  lemma OwnerGivesAway(s: State, t: Tid, before: seq<Event>, pick: Tid)
    requires Reachable(s) && !s.aborted && t < |s.threads|
    requires s.threads[t].pc.Idle? && s.owner == t + 1 && s.recursion == 1
    requires NoCalls(t, before) && OwnRuns(t, before) == if s.kind.Recursive? then 5 else 3
    ensures var s0 := Exec(Apply(s, CallUnlock(t)), before); var s' := Apply(s0, Run(t, pick));
      s0.aborted || (&& s'.word == 1 && s'.owner == 0 && s'.recursion == 0
                     && t < |s'.threads| && s'.threads[t].pc.UWake?)
  {
    ReachableInv(s);
    assert ThreadInv(s, t);
    CallEntersPath(s, t, Unlock);
    var s1, d := Apply(s, CallUnlock(t)), Depth(s.threads[t]);
    PathIsFollowed(s1, t, Unlock, d, 0, if s.kind.Recursive? then 5 else 3, before);
    var s0 := Exec(s1, before);
    hide Exec, Apply;
    if !s0.aborted {
      StoreFrees(s0, t, d, pick);
    }
  }

  // ------------------------------------------------------------ the calls of the others

  /** A thread in lock that does not have the mutex, or has just got it and returned. */
  ghost predicate Acquiring(s: State, t: Tid) {
    && Inv(s) && t < |s.threads|
    && s.threads[t].pc in {Idle, LReadWord, LReadOwner, LCas, LSetOwner, LSetDepth, LWait, LAsleep}
    && Depth(s.threads[t]) == if s.threads[t].pc.Idle? then 1 else 0
  }

  lemma AcquiringMove(s: State, t: Tid, e: Event)
    requires Acquiring(s, t) && (e.Run? || e.t != t)
    ensures var s' := Apply(s, e);
      && t < |s'.threads|
      && s'.threads[t].pc in {Idle, LReadWord, LReadOwner, LCas, LSetOwner, LSetDepth, LWait, LAsleep}
      && Depth(s'.threads[t]) == if s'.threads[t].pc.Idle? then 1 else 0
  {
    assert ThreadInv(s, t);
  }

  lemma AcquiringGoesOn(s: State, t: Tid, e: Event)
    requires Acquiring(s, t) && (e.Run? || e.t != t)
    ensures Acquiring(Apply(s, e), t)
  {
    ApplyKeepsInv(s, e);
    AcquiringMove(s, t, e);
    hide Inv, Apply;
  }

  lemma {:induction false} AcquiringStays(s: State, t: Tid, schedule: seq<Event>)
    requires Acquiring(s, t) && NoCalls(t, schedule)
    ensures Acquiring(Exec(s, schedule), t)
    decreases |schedule|
  {
    if schedule != [] {
      assert schedule[0].Run? || schedule[0].t != t;
      assert NoCalls(t, schedule[1..]);
      AcquiringGoesOn(s, t, schedule[0]);
      AcquiringStays(Apply(s, schedule[0]), t, schedule[1..]);
    }
  }

  /** A thread that does not have the mutex and calls lock has it, once, if the call has returned. */
  lemma LockReturnsWithMutex(s: State, t: Tid, schedule: seq<Event>)
    requires Reachable(s) && !s.aborted && t < |s.threads| && s.threads[t].pc.Idle? && s.owner != t + 1
    requires NoCalls(t, schedule)
    ensures var s' := Exec(Apply(s, CallLock(t)), schedule);
      t < |s'.threads| && (s'.threads[t].pc.Idle? ==> s'.owner == t + 1 && s'.recursion == 1 && s'.word == 0)
  {
    ReachableInv(s);
    assert ThreadInv(s, t);
    ApplyKeepsInv(s, CallLock(t));
    AcquiringStays(Apply(s, CallLock(t)), t, schedule);
    assert ThreadInv(Exec(Apply(s, CallLock(t)), schedule), t);
    hide Exec, Apply;
  }

  lemma FiveEvents(s: State, e: Event, r: Event)
    ensures Exec(s, [e, r, r, r, r]) == Apply(Apply(Apply(Apply(Apply(s, e), r), r), r), r)
  {
    hide Apply;
    var s1 := Apply(s, e);
    var s2 := Apply(s1, r);
    var s3 := Apply(s2, r);
    var s4 := Apply(s3, r);
    assert Exec(s, [e, r, r, r, r]) == Exec(s1, [r, r, r, r]) by { assert [e, r, r, r, r][1..] == [r, r, r, r]; }
    assert Exec(s1, [r, r, r, r]) == Exec(s2, [r, r, r]) by { assert [r, r, r, r][1..] == [r, r, r]; }
    assert Exec(s2, [r, r, r]) == Exec(s3, [r, r]) by { assert [r, r, r][1..] == [r, r]; }
    assert Exec(s3, [r, r]) == Exec(s4, [r]) by { assert [r, r][1..] == [r]; }
    assert Exec(s4, [r]) == Apply(s4, r) by { assert [r][1..] == []; }
  }

  /** Of a free mutex, the call returns after four runs of its own if nobody gets in between. */
  lemma FreeMutexIsLocked(s: State, t: Tid)
    requires Reachable(s) && !s.aborted && t < |s.threads| && s.threads[t].pc.Idle? && s.word == 1
    ensures var s' := Exec(s, [CallLock(t), Run(t, 0), Run(t, 0), Run(t, 0), Run(t, 0)]);
      && |s'.threads| == |s.threads| && s'.threads[t].pc.Idle?
      && s'.word == 0 && s'.owner == t + 1 && s'.recursion == 1
      && s'.sleepers == s.sleepers && !s'.aborted
      && forall u :: 0 <= u < |s.threads| && u != t ==> s'.threads[u] == s.threads[u]
  {
    var s1 := Apply(s, CallLock(t));
    var s2 := Apply(s1, Run(t, 0));
    var s3 := Apply(s2, Run(t, 0));
    var s4 := Apply(s3, Run(t, 0));
    var s5 := Apply(s4, Run(t, 0));
    assert s2.threads[t].pc.LCas? && s3.threads[t].pc.LSetOwner? && s4.threads[t].pc.LSetDepth?;
    FiveEvents(s, CallLock(t), Run(t, 0));
  }

  /** Of a mutex that another thread has, the caller is asleep after four runs of its own if nobody gets
      in between, and all else is as it was. */
  lemma TakenMutexPutsCallerToSleep(s: State, t: Tid)
    requires Reachable(s) && !s.aborted && t < |s.threads| && s.threads[t].pc.Idle? && s.word == 0 && s.owner != t + 1
    ensures Exec(s, [CallLock(t), Run(t, 0), Run(t, 0), Run(t, 0), Run(t, 0)]) ==
      s.(threads := s.threads[t := s.threads[t].(pc := LAsleep)], sleepers := s.sleepers + {t})
  {
    ReachableInv(s);
    assert ThreadInv(s, t);
    hide Inv;
    var s1 := Apply(s, CallLock(t));
    var s2 := Apply(s1, Run(t, 0));
    var s3 := Apply(s2, Run(t, 0));
    var s4 := Apply(s3, Run(t, 0));
    var s5 := Apply(s4, Run(t, 0));
    assert s2.threads[t].pc.LReadOwner? && s3.threads[t].pc.LCas? && s4.threads[t].pc.LWait?;
    FiveEvents(s, CallLock(t), Run(t, 0));
  }

  /** The kernel's part: the wait puts the thread to sleep exactly if the word is still 0, and the wake
      sends exactly one sleeper, if there is one, back to try the exchange. */
  lemma WaitAndWake(s: State, t: Tid, pick: Tid)
    requires Reachable(s) && Enabled(s, Run(t, pick))
    ensures var s' := Apply(s, Run(t, pick));
      && |s'.threads| == |s.threads|
      && (s.threads[t].pc.LWait? ==>
            if s.word == 0 then s'.threads[t].pc.LAsleep? && s'.sleepers == s.sleepers + {t}
            else s'.threads[t].pc.LCas? && s'.sleepers == s.sleepers)
      && (s.threads[t].pc.UWake? ==>
            && s'.threads[t].pc.Idle?
            && if s.sleepers == {} then s'.sleepers == {}
               else pick in s.sleepers && pick < |s.threads| && s'.sleepers == s.sleepers - {pick}
                    && s'.threads[pick].pc.LCas?)
  {
    ReachableInv(s);
    assert ThreadInv(s, t);
    if s.threads[t].pc.UWake? && s.sleepers != {} {
      assert ThreadInv(s, pick);
    }
  }
}
