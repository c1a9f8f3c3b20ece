/**
 What callers of the condition-variable queue give and get: the values of their own calls, and what a
 call does that nobody interrupts.
 */
module MonitorCalls {
  import opened MonitorQueue

  predicate Changed(pc: Pc) {
    pc in {Counting, Tallying, Notifying, Leaving}
  }

  /** A caller that has made its change carries the value that it is about. */
  predicate Carries(s: State, t: Tid)
    requires t < |s.threads|
  {
    var th := s.threads[t];
    Changed(th.pc) ==>
      if th.role.Consumer? then s.taken != [] && th.val == s.taken[|s.taken| - 1]
      else s.added != [] && th.val == s.added[|s.added| - 1]
  }

  ghost predicate CallInv(s: State) {
    Inv(s) && forall t :: 0 <= t < |s.threads| ==> Carries(s, t)
  }

  lemma LinkingCarries(s: State, e: Event)
    requires Inv(s) && Enabled(s, e) && e.Run? && s.threads[e.t].pc.Linking?
    ensures var s' := Apply(s, e); var val := s'.threads[e.t].val;
      && |s'.threads| == |s.threads| && s'.threads[e.t].role == s.threads[e.t].role && s'.threads[e.t].pc.Counting?
      && (if s.threads[e.t].role.Consumer? then s'.taken == s.taken + [val] && s'.added == s.added
          else s'.added == s.added + [val] && s'.taken == s.taken)
      && s'.lockedBy == s.lockedBy
  {
    assert ThreadInv(s, e.t);
  }

  /** The other steps leave the histories alone, and a caller within its call its value. */
  lemma OtherwiseLogsStay(s: State, e: Event)
    requires Enabled(s, e) && !(e.Run? && s.threads[e.t].pc.Linking?)
    ensures var s' := Apply(s, e);
      && s'.taken == s.taken && s'.added == s.added && |s'.threads| == |s.threads|
      && s'.threads[e.t].role == s.threads[e.t].role
      && (e.Spurious? || !s.threads[e.t].pc.Outside? ==> s'.threads[e.t].val == s.threads[e.t].val)
      && (Changed(s'.threads[e.t].pc) ==> Changed(s.threads[e.t].pc))
  {
  }

  lemma OwnStepCarries(s: State, e: Event)
    requires CallInv(s) && Enabled(s, e)
    ensures |Apply(s, e).threads| == |s.threads| && Carries(Apply(s, e), e.t)
  {
    assert Carries(s, e.t);
    if e.Run? && s.threads[e.t].pc.Linking? {
      LinkingCarries(s, e);
    } else {
      OtherwiseLogsStay(s, e);
    }
    hide Apply, Inv;
  }

  lemma OtherThreadStays(s: State, e: Event, u: Tid)
    requires Enabled(s, e) && u < |s.threads| && u != e.t
    ensures var s' := Apply(s, e);
      && |s'.threads| == |s.threads|
      && (s'.threads[u] == s.threads[u] ||
          (s.threads[u].pc.Asleep? && s'.threads[u] == s.threads[u].(pc := Woken)))
  {
  }

  lemma OtherStepCarries(s: State, e: Event, u: Tid)
    requires CallInv(s) && Enabled(s, e) && u < |s.threads| && u != e.t
    ensures |Apply(s, e).threads| == |s.threads| && Carries(Apply(s, e), u)
  {
    assert Carries(s, u) && ThreadInv(s, u) && ThreadInv(s, e.t);
    OtherThreadStays(s, e, u);
    if Changed(s.threads[u].pc) {
      OtherwiseLogsStay(s, e);
    }
    hide Inv, Apply;
  }

  lemma ApplyKeepsCallInv(s: State, e: Event)
    requires CallInv(s)
    ensures CallInv(Apply(s, e))
  {
    ApplyKeepsInv(s, e);
    if Enabled(s, e) {
      OwnStepCarries(s, e);
      forall u | 0 <= u < |s.threads| && u != e.t
        ensures |Apply(s, e).threads| == |s.threads| && Carries(Apply(s, e), u)
      {
        OtherStepCarries(s, e, u);
      }
      hide Apply, Inv, Carries;
    }
  }

  // ------------------------------------------------------------ values in the order of the calls

  /** The value of the call of this role that returns with this step. */
  function ReturnedBy(s: State, role: Role, e: Event): seq<int> {
    if Enabled(s, e) && e.Run? && s.threads[e.t].pc.Leaving? && s.threads[e.t].role == role
    then [s.threads[e.t].val] else []
  }

  /** The values that calls of this role bring along when they return, in that order. */
  function Returned(s: State, role: Role, schedule: seq<Event>): seq<int>
    decreases |schedule|
  {
    if schedule == [] then []
    else ReturnedBy(s, role, schedule[0]) + Returned(Apply(s, schedule[0]), role, schedule[1..])
  }

  /** The value of the call of this role that has made its change and not yet returned. */
  function Returning(s: State, role: Role): seq<int> {
    if && s.lockedBy.Some? && s.lockedBy.value < |s.threads| && s.threads[s.lockedBy.value].role == role
       && Changed(s.threads[s.lockedBy.value].pc)
    then [s.threads[s.lockedBy.value].val] else []
  }

  function Log(s: State, role: Role): seq<int> {
    if role.Producer? then s.added else s.taken
  }

  /** The history without that call. */
  function Settled(s: State, role: Role): seq<int> {
    var log := Log(s, role);
    if Returning(s, role) != [] && log != [] then log[..|log| - 1] else log
  }

  lemma LogIsSettledAndReturning(s: State, role: Role)
    requires CallInv(s)
    ensures Log(s, role) == Settled(s, role) + Returning(s, role)
  {
    if Returning(s, role) != [] {
      assert Carries(s, s.lockedBy.value);
    }
  }

  lemma LinkingSettles(s: State, role: Role, e: Event)
    requires CallInv(s) && Enabled(s, e) && e.Run? && s.threads[e.t].pc.Linking?
    ensures Settled(Apply(s, e), role) == Settled(s, role) + ReturnedBy(s, role, e)
  {
    assert ThreadInv(s, e.t);
    LinkingCarries(s, e);
    hide Apply, Inv, Carries;
  }

  lemma LeavingSettles(s: State, role: Role, e: Event)
    requires CallInv(s) && Enabled(s, e) && e.Run? && s.threads[e.t].pc.Leaving?
    ensures Settled(Apply(s, e), role) == Settled(s, role) + ReturnedBy(s, role, e)
  {
    assert ThreadInv(s, e.t);
    LogIsSettledAndReturning(s, role);
    OtherwiseLogsStay(s, e);
    assert Apply(s, e).lockedBy.None?;
    hide Apply, Inv, Carries;
  }

  lemma ChangedSettles(s: State, role: Role, e: Event)
    requires CallInv(s) && Enabled(s, e) && e.Run? && s.threads[e.t].pc in {Counting, Tallying, Notifying}
    ensures Settled(Apply(s, e), role) == Settled(s, role) + ReturnedBy(s, role, e)
  {
    assert ThreadInv(s, e.t);
    OtherwiseLogsStay(s, e);
    assert Apply(s, e).lockedBy == s.lockedBy && Changed(Apply(s, e).threads[e.t].pc);
    hide Apply, Inv, Carries;
  }

  lemma OtherwiseSettles(s: State, role: Role, e: Event)
    requires CallInv(s) && Enabled(s, e)
    requires e.Run? ==> s.threads[e.t].pc in {Outside, Entering, Arriving, Testing, Woken}
    ensures Settled(Apply(s, e), role) == Settled(s, role) + ReturnedBy(s, role, e)
  {
    assert ThreadInv(s, e.t);
    OtherwiseLogsStay(s, e);
    hide Inv, Carries;
    assert Returning(Apply(s, e), role) == Returning(s, role);
    hide Apply;
  }

  lemma StepSettles(s: State, role: Role, e: Event)
    requires CallInv(s)
    ensures Settled(Apply(s, e), role) == Settled(s, role) + ReturnedBy(s, role, e)
  {
    if Enabled(s, e) {
      if e.Run? && s.threads[e.t].pc.Linking? {
        LinkingSettles(s, role, e);
      } else if e.Run? && s.threads[e.t].pc.Leaving? {
        LeavingSettles(s, role, e);
      } else if e.Run? && s.threads[e.t].pc in {Counting, Tallying, Notifying} {
        ChangedSettles(s, role, e);
      } else {
        OtherwiseSettles(s, role, e);
      }
      hide Settled, CallInv, Apply, ReturnedBy;
    }
  }

  lemma {:induction false} ReturnsAreSettled(s: State, role: Role, schedule: seq<Event>)
    requires CallInv(s)
    ensures CallInv(Exec(s, schedule))
    ensures Settled(Exec(s, schedule), role) == Settled(s, role) + Returned(s, role, schedule)
    decreases |schedule|
  {
    hide Settled, CallInv, Apply, ReturnedBy;
    if schedule != [] {
      var e := schedule[0];
      ApplyKeepsCallInv(s, e);
      StepSettles(s, role, e);
      ReturnsAreSettled(Apply(s, e), role, schedule[1..]);
      assert Settled(s, role) + (ReturnedBy(s, role, e) + Returned(Apply(s, e), role, schedule[1..])) ==
        (Settled(s, role) + ReturnedBy(s, role, e)) + Returned(Apply(s, e), role, schedule[1..]);
    }
  }

  /** The values that gets return are, in the order of the returns, those that adds brought along in the
      order of theirs: over every run, the values that gets have returned, followed by those still queued,
      are the values of the adds that have returned, but for the one call that has made its change and
      not yet returned. */
  lemma GetsReturnWhatAddsBring(s0: State, schedule: seq<Event>)
    requires Starts(s0)
    ensures var s := Exec(s0, schedule);
      Returned(s0, Consumer, schedule) + Returning(s, Consumer) + s.items ==
        Returned(s0, Producer, schedule) + Returning(s, Producer)
  {
    assert CallInv(s0);
    ReturnsAreSettled(s0, Consumer, schedule);
    ReturnsAreSettled(s0, Producer, schedule);
    var s := Exec(s0, schedule);
    LogIsSettledAndReturning(s, Consumer);
    LogIsSettledAndReturning(s, Producer);
    assert s.added == s.taken + s.items;
    assert [] + Returned(s0, Consumer, schedule) == Returned(s0, Consumer, schedule);
    assert [] + Returned(s0, Producer, schedule) == Returned(s0, Producer, schedule);
    hide Inv, Exec, CallInv, Returned, Returning;
  }

  /** The value that the caller gave to its latest call. */
  function LastGiven(s: State, t: Tid, schedule: seq<Event>, given: int): int
    decreases |schedule|
  {
    if schedule == [] then given
    else
      var e := schedule[0];
      LastGiven(Apply(s, e), t, schedule[1..],
        if Enabled(s, e) && e.Run? && e.t == t && s.threads[t].pc.Outside? then e.val else given)
  }

  lemma ProducerKeepsValue(s: State, t: Tid, e: Event)
    requires t < |s.threads| && s.threads[t].role.Producer?
    ensures var s' := Apply(s, e);
      && |s'.threads| == |s.threads| && s'.threads[t].role.Producer?
      && s'.threads[t].val ==
           if Enabled(s, e) && e.Run? && e.t == t && s.threads[t].pc.Outside? then e.val else s.threads[t].val
  {
  }

  /** What an add brings along is what its caller gave to it. */
  lemma {:induction false} AddBringsGivenValue(s: State, t: Tid, schedule: seq<Event>)
    requires t < |s.threads| && s.threads[t].role.Producer?
    ensures var s' := Exec(s, schedule);
      && |s'.threads| == |s.threads| && s'.threads[t].role.Producer?
      && s'.threads[t].val == LastGiven(s, t, schedule, s.threads[t].val)
    decreases |schedule|
  {
    if schedule != [] {
      ProducerKeepsValue(s, t, schedule[0]);
      AddBringsGivenValue(Apply(s, schedule[0]), t, schedule[1..]);
    }
  }

  // ------------------------------------------------------------ a call alone

  /** After `n` moves of one thread. */
  function Alone(s: State, t: Tid, val: int, n: nat): State {
    if n == 0 then s else Apply(Alone(s, t, val, n - 1), Run(t, val))
  }

  lemma CallComesToTest(s: State, t: Tid, val: int)
    requires Inv(s) && s.lockedBy.None? && t < |s.threads| && s.threads[t].pc.Outside?
    ensures var s1 := s.(threads := s.threads[t := s.threads[t].(pc := Testing, val := val)], lockedBy := Some(t));
      Alone(s, t, val, 3) ==
        if s.threads[t].role.Producer? then s1.(addAttempts := s.addAttempts + 1)
        else s1.(getAttempts := s.getAttempts + 1)
  {
    assert Alone(s, t, val, 0) == s;
    var s1 := Alone(s, t, val, 1);
    assert s1 == Apply(s, Run(t, val));
    assert s1.threads == s.threads[t := s.threads[t].(pc := Entering, val := val)];
    var s2 := Alone(s, t, val, 2);
    assert s2 == Apply(s1, Run(t, val));
    assert s2.threads == s.threads[t := s.threads[t].(pc := Arriving, val := val)];
    var s3 := Alone(s, t, val, 3);
    assert s3 == Apply(s2, Run(t, val));
    assert s3.threads == s.threads[t := s.threads[t].(pc := Testing, val := val)];
  }

  /** Alone on an empty queue, a get goes to sleep and leaves the lock free; on a full one, an add. */
  lemma CallSleepsAlone(s: State, t: Tid, val: int)
    requires Reachable(s) && s.lockedBy.None? && t < |s.threads| && s.threads[t].pc.Outside?
    requires if s.threads[t].role.Producer? then |s.items| == s.maxCount else s.items == []
    ensures var s' := Alone(s, t, val, 4);
      && s'.threads == s.threads[t := s.threads[t].(pc := Asleep, val := val)]
      && s'.lockedBy.None? && s'.items == s.items && s'.count == s.count
  {
    ReachableInv(s);
    CallComesToTest(s, t, val);
    var s3 := Alone(s, t, val, 3);
    assert Alone(s, t, val, 4) == Apply(s3, Run(t, val));
    hide Alone, Inv;
    assert s3.threads[t := s3.threads[t].(pc := Asleep)] == s.threads[t := s.threads[t].(pc := Asleep, val := val)];
  }

  lemma ChangeAlone(s: State, t: Tid, val: int)
    requires Inv(s) && s.lockedBy == Some(t) && t < |s.threads| && s.threads[t].pc.Testing?
    requires !MustWait(s, s.threads[t].role)
    ensures var s' := Alone(s, t, val, 4); var th := s.threads[t];
      && s.count == |s.items| && (th.role.Consumer? ==> s.items != [])
      && (if th.role.Producer? then
            s' == s.(items := s.items + [th.val], added := s.added + [th.val], count := s.count + 1,
                     addCount := s.addCount + 1, threads := s.threads[t := th.(pc := Notifying)])
          else
            s' == s.(items := s.items[1..], taken := s.taken + [s.items[0]], count := s.count - 1,
                     getCount := s.getCount + 1, threads := s.threads[t := th.(pc := Notifying, val := s.items[0])]))
  {
    assert ThreadInv(s, t);
    hide Inv, ThreadInv;
    assert Alone(s, t, val, 0) == s;
    var s1 := Alone(s, t, val, 1);
    assert s1 == Apply(s, Run(t, val)) == Goto(s, t, Linking);
    var s2 := Alone(s, t, val, 2);
    assert s2 == Apply(s1, Run(t, val));
    var s3 := Alone(s, t, val, 3);
    assert s3 == Apply(s2, Run(t, val));
    var s4 := Alone(s, t, val, 4);
    assert s4 == Apply(s3, Run(t, val));
    assert s2.threads == s.threads[t := s2.threads[t]] && s3.threads == s.threads[t := s3.threads[t]];
    assert s4.threads == s.threads[t := s4.threads[t]];
  }

  /** Threads of the other role that were asleep go for the lock; the rest stay where they were. */
  ghost predicate SleepersWoken(before: seq<Thread>, after: seq<Thread>, t: Tid)
    requires t < |before|
  {
    && |after| == |before|
    && forall u :: 0 <= u < |before| && u != t ==>
         after[u] == if before[u].pc.Asleep? && before[u].role != before[t].role then before[u].(pc := Woken)
                     else before[u]
  }

  lemma ReturnAlone(s: State, t: Tid, val: int)
    requires !s.failed && t < |s.threads| && s.threads[t].pc.Notifying?
    ensures var s' := Alone(s, t, val, 2);
      && SleepersWoken(s.threads, s'.threads, t) && s'.threads[t] == s.threads[t].(pc := Outside)
      && s'.lockedBy.None? && s'.items == s.items && s'.count == s.count
      && s'.addCount == s.addCount && s'.getCount == s.getCount
  {
    assert Alone(s, t, val, 0) == s;
    var s1 := Alone(s, t, val, 1);
    assert s1 == Apply(s, Run(t, val));
    assert s1.threads[t] == s.threads[t].(pc := Leaving);
    var s2 := Alone(s, t, val, 2);
    assert s2 == Apply(s1, Run(t, val));
    hide Alone;
  }

  lemma {:induction false} AloneAfter(s: State, t: Tid, val: int, m: nat, n: nat)
    ensures Alone(s, t, val, m + n) == Alone(Alone(s, t, val, m), t, val, n)
    decreases n
  {
    hide Apply;
    if n > 0 {
      AloneAfter(s, t, val, m, n - 1);
    }
  }

  /** The state at the broadcast of a call that found what it needs. */
  lemma CallComesToNotify(s: State, t: Tid, val: int) returns (s7: State)
    requires Reachable(s) && s.lockedBy.None? && t < |s.threads| && s.threads[t].pc.Outside?
    requires if s.threads[t].role.Producer? then |s.items| < s.maxCount else s.items != []
    ensures s7 == Alone(s, t, val, 7) && |s7.threads| == |s.threads| && s7.threads[t].pc.Notifying? && !s7.failed
    ensures s7.threads == s.threads[t := s7.threads[t]] && s7.threads[t].role == s.threads[t].role
    ensures if s.threads[t].role.Producer? then
        s7.items == s.items + [val] && s7.count == s.count + 1 && s7.addCount == s.addCount + 1
      else
        [s7.threads[t].val] + s7.items == s.items && s7.count == s.count - 1 && s7.getCount == s.getCount + 1
  {
    hide Inv, Alone, Apply, Reachable;
    ReachableInv(s);
    FreeCountIsLength(s);
    var s3 := TestedAlone(s, t, val);
    s7 := ChangedAlone(s3, t, val);
    AloneAfter(s, t, val, 3, 4);
    UpdatedTwice(s.threads, t, s3.threads[t], s7.threads[t]);
  }

  lemma TestedAlone(s: State, t: Tid, val: int) returns (s3: State)
    requires Inv(s) && s.lockedBy.None? && t < |s.threads| && s.threads[t].pc.Outside?
    ensures s3 == Alone(s, t, val, 3) && Inv(s3) && !s3.failed && s3.lockedBy == Some(t)
    ensures s3.threads == s.threads[t := Thread(s.threads[t].role, Testing, val)]
    ensures s3.items == s.items && s3.count == s.count && s3.maxCount == s.maxCount
    ensures s3.addCount == s.addCount && s3.getCount == s.getCount
  {
    hide Alone, Apply;
    CallComesToTest(s, t, val);
    TestingKeepsInv(s, t, val);
    s3 := Alone(s, t, val, 3);
    NotFailed(s3);
  }

  lemma UpdatedTwice<T>(xs: seq<T>, i: nat, x: T, y: T)
    requires i < |xs|
    ensures xs[i := x][i := y] == xs[i := y]
  {
  }

  lemma ChangedAlone(s: State, t: Tid, val: int) returns (s4: State)
    requires Inv(s) && s.lockedBy == Some(t) && t < |s.threads| && s.threads[t].pc.Testing?
    requires !MustWait(s, s.threads[t].role) && !s.failed
    ensures s4 == Alone(s, t, val, 4) && |s4.threads| == |s.threads| && s4.threads[t].pc.Notifying? && !s4.failed
    ensures s4.threads == s.threads[t := s4.threads[t]] && s4.threads[t].role == s.threads[t].role
    ensures if s.threads[t].role.Producer? then
        s4.items == s.items + [s.threads[t].val] && s4.count == s.count + 1 && s4.addCount == s.addCount + 1
      else
        [s4.threads[t].val] + s4.items == s.items && s4.count == s.count - 1 && s4.getCount == s.getCount + 1
  {
    hide Inv, Alone, Apply;
    ChangeAlone(s, t, val);
    s4 := Alone(s, t, val, 4);
  }

  lemma FreeCountIsLength(s: State)
    requires Inv(s) && s.lockedBy.None?
    ensures s.count == |s.items|
  {
  }

  lemma NotFailed(s: State)
    requires Inv(s)
    ensures !s.failed
  {
  }

  lemma TestingKeepsInv(s: State, t: Tid, val: int)
    requires Inv(s)
    ensures Inv(Alone(s, t, val, 3))
  {
    ApplyKeepsInv(s, Run(t, val));
    ApplyKeepsInv(Apply(s, Run(t, val)), Run(t, val));
    ApplyKeepsInv(Apply(Apply(s, Run(t, val)), Run(t, val)), Run(t, val));
    hide Inv, Apply;
    assert Alone(s, t, val, 0) == s;
    assert Alone(s, t, val, 1) == Apply(s, Run(t, val));
    assert Alone(s, t, val, 2) == Apply(Apply(s, Run(t, val)), Run(t, val));
  }

  /** Alone, an add to a queue with room appends its value, and a get from a queue that is not empty
      hands out the oldest one; the call returns after nine moves with the lock free, and those asleep
      for what it did are awake. */
  lemma CallReturnsAlone(s: State, t: Tid, val: int)
    requires Reachable(s) && s.lockedBy.None? && t < |s.threads| && s.threads[t].pc.Outside?
    requires if s.threads[t].role.Producer? then |s.items| < s.maxCount else s.items != []
    ensures var s' := Alone(s, t, val, 9);
      && s'.lockedBy.None? && SleepersWoken(s.threads, s'.threads, t) && s'.threads[t].pc.Outside?
      && if s.threads[t].role.Producer? then
           s'.items == s.items + [val] && s'.count == s.count + 1 && s'.addCount == s.addCount + 1
         else
           [s'.threads[t].val] + s'.items == s.items && s'.count == s.count - 1 && s'.getCount == s.getCount + 1
  {
    hide Alone, Reachable, Apply;
    var s7 := CallComesToNotify(s, t, val);
    ReturnAlone(s7, t, val);
    AloneAfter(s, t, val, 7, 2);
  }
}
