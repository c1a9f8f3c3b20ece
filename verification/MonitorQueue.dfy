/**
 The bounded queue as a monitor: one lock, two condition variables, any number of producers
 and consumers.  Each step takes or leaves the lock, reads or writes one group of fields, goes
 to sleep or wakes sleepers.
 */
module MonitorQueue {

  type Tid = nat

  datatype Option<+T> = None | Some(value: T)

  datatype Role = Producer | Consumer

  /** `Entering` and `Woken` wait for the lock; `Testing` is at the head of the wait loop; a thread
      in `Linking`, `Counting`, `Tallying` carries out its change; `Notifying` broadcasts. */
  datatype Pc =
    | Outside | Entering | Arriving | Testing | Asleep | Woken
    | Linking | Counting | Tallying | Notifying | Leaving

  datatype Thread = Thread(role: Role, pc: Pc, val: int)

  /** `added` and `taken` are histories of the values linked in and unlinked. */
  datatype State = State(lockedBy: Option<Tid>, items: seq<int>, count: int, maxCount: int,
                         addAttempts: int, getAttempts: int, addCount: int, getCount: int,
                         threads: seq<Thread>, failed: bool, added: seq<int>, taken: seq<int>)

  /** A thread moves (a producer between calls picks `val`), or the system wakes a sleeper for no
      reason. */
  datatype Event = Run(t: Tid, val: int) | Spurious(t: Tid)

  ghost predicate Starts(s: State) {
    && s.lockedBy == None && s.items == s.added == s.taken == [] && s.count == 0 <= s.maxCount && !s.failed
    && s.addAttempts == s.getAttempts == s.addCount == s.getCount == 0
    && forall t :: 0 <= t < |s.threads| ==> s.threads[t].pc.Outside?
  }

  /** The condition that sends a thread of this role to sleep. */
  predicate MustWait(s: State, role: Role) {
    match role
    case Producer => s.count == s.maxCount
    case Consumer => s.count == 0
  }

  /** Everybody asleep on the other role's condition variable goes for the lock. */
  function Broadcast(threads: seq<Thread>, role: Role): seq<Thread> {
    seq(|threads|, i requires 0 <= i < |threads| =>
      if threads[i].role == role && threads[i].pc.Asleep? then threads[i].(pc := Woken) else threads[i])
  }

  predicate Enabled(s: State, e: Event) {
    && e.t < |s.threads| && !s.failed
    && (e.Spurious? ==> s.threads[e.t].pc.Asleep?)
    && (e.Run? ==>
          && !s.threads[e.t].pc.Asleep?
          && (s.threads[e.t].pc in {Entering, Woken} ==> s.lockedBy.None?))
  }

  function Goto(s: State, t: Tid, pc: Pc): State
    requires t < |s.threads|
  {
    s.(threads := s.threads[t := s.threads[t].(pc := pc)])
  }

  function Apply(s: State, e: Event): State {
    if !Enabled(s, e) then s
    else if e.Spurious? then Goto(s, e.t, Woken)
    else
      var t, th := e.t, s.threads[e.t];
      match th.pc
      case Outside => s.(threads := s.threads[t := th.(pc := Entering, val := e.val)])
      case Entering => Goto(s, t, Arriving).(lockedBy := Some(t))
      case Arriving =>
        if th.role.Producer? then
          if s.count > s.maxCount then s.(failed := true)
          else Goto(s, t, Testing).(addAttempts := s.addAttempts + 1)
        else
          if s.count < 0 then s.(failed := true)
          else Goto(s, t, Testing).(getAttempts := s.getAttempts + 1)
      case Testing =>
        if MustWait(s, th.role) then Goto(s, t, Asleep).(lockedBy := None) else Goto(s, t, Linking)
      case Woken => Goto(s, t, Testing).(lockedBy := Some(t))
      case Linking =>
        if th.role.Producer? then
          Goto(s, t, Counting).(items := s.items + [th.val], added := s.added + [th.val])
        else if s.items == [] then s.(failed := true)  // would dereference null
        else
          s.(threads := s.threads[t := th.(pc := Counting, val := s.items[0])],
             items := s.items[1..], taken := s.taken + [s.items[0]])
      case Counting => Goto(s, t, Tallying).(count := if th.role.Producer? then s.count + 1 else s.count - 1)
      case Tallying =>
        if th.role.Producer? then Goto(s, t, Notifying).(addCount := s.addCount + 1)
        else Goto(s, t, Notifying).(getCount := s.getCount + 1)
      case Notifying =>
        s.(threads := Broadcast(s.threads, if th.role.Producer? then Consumer else Producer)
                        [t := th.(pc := Leaving)])
      case Leaving => Goto(s, t, Outside).(lockedBy := None)
      case Asleep => s
  }

  function Exec(s: State, schedule: seq<Event>): State
    decreases |schedule|
  {
    if schedule == [] then s else Exec(Apply(s, schedule[0]), schedule[1..])
  }

  // ------------------------------------------------------------ the invariant

  predicate InMonitor(pc: Pc) {
    pc in {Arriving, Testing, Linking, Counting, Tallying, Notifying, Leaving}
  }

  /** How far `count` and the statistics lag behind the list, by what the lock holder is doing. */
  function CountLag(s: State): int {
    if s.lockedBy.Some? && s.lockedBy.value < |s.threads| && s.threads[s.lockedBy.value].pc.Counting? then
      if s.threads[s.lockedBy.value].role.Producer? then 1 else -1
    else 0
  }

  function TallyLag(s: State, role: Role): int {
    if && s.lockedBy.Some? && s.lockedBy.value < |s.threads|
       && s.threads[s.lockedBy.value].role == role && s.threads[s.lockedBy.value].pc in {Counting, Tallying}
    then 1 else 0
  }

  /** Some thread of this role has made its change and not yet broadcast it. */
  predicate AboutToNotify(s: State, role: Role) {
    && s.lockedBy.Some? && s.lockedBy.value < |s.threads|
    && s.threads[s.lockedBy.value].role == role
    && s.threads[s.lockedBy.value].pc in {Tallying, Notifying}
  }

  predicate ThreadInv(s: State, t: Tid)
    requires t < |s.threads|
  {
    var th := s.threads[t];
    && (InMonitor(th.pc) <==> s.lockedBy == Some(t))
    && (th.pc.Linking? ==> !MustWait(s, th.role))
    && (th.pc.Counting? ==> !MustWait(s, th.role))
    && (th.pc.Asleep? && th.role.Consumer? ==> s.count == 0 || AboutToNotify(s, Producer))
    && (th.pc.Asleep? && th.role.Producer? ==> s.count == s.maxCount || AboutToNotify(s, Consumer))
  }

  ghost predicate DataInv(s: State) {
    && (s.lockedBy.Some? ==> s.lockedBy.value < |s.threads|)
    && 0 <= s.count <= s.maxCount
    && s.count + CountLag(s) == |s.items|
    && s.added == s.taken + s.items
    && |s.added| == s.addCount + TallyLag(s, Producer)
    && |s.taken| == s.getCount + TallyLag(s, Consumer)
    && !s.failed
  }

  ghost predicate Inv(s: State) {
    && DataInv(s)
    && (forall t :: 0 <= t < |s.threads| ==> ThreadInv(s, t))
  }

  lemma ChangeStepData(s: State, e: Event)
    requires Inv(s) && Enabled(s, e) && e.Run? && s.threads[e.t].pc in {Linking, Counting, Tallying}
    ensures DataInv(Apply(s, e))
  {
    assert ThreadInv(s, e.t);
  }

  lemma EntryStepData(s: State, e: Event)
    requires Inv(s) && Enabled(s, e) && e.Run? && s.threads[e.t].pc in {Outside, Entering, Arriving}
    ensures DataInv(Apply(s, e))
  {
    assert ThreadInv(s, e.t);
  }

  lemma WaitStepData(s: State, e: Event)
    requires Inv(s) && Enabled(s, e)
    requires e.Run? ==> s.threads[e.t].pc in {Testing, Woken, Notifying, Leaving}
    ensures DataInv(Apply(s, e))
  {
    assert ThreadInv(s, e.t);
  }

  lemma OwnStep(s: State, e: Event)
    requires Inv(s) && Enabled(s, e)
    ensures |Apply(s, e).threads| == |s.threads| && Apply(s, e).threads[e.t].role == s.threads[e.t].role
    ensures ThreadInv(Apply(s, e), e.t)
  {
    assert ThreadInv(s, e.t);
    hide Inv;
  }

  lemma OtherStep(s: State, e: Event, u: Tid)
    requires Inv(s) && Enabled(s, e) && u < |s.threads| && u != e.t
    ensures |Apply(s, e).threads| == |s.threads| && Apply(s, e).threads[u].role == s.threads[u].role
    ensures ThreadInv(Apply(s, e), u)
  {
    assert ThreadInv(s, e.t) && ThreadInv(s, u);
  }

  lemma ThreadStep(s: State, e: Event, u: Tid)
    requires Inv(s) && Enabled(s, e) && u < |s.threads|
    ensures |Apply(s, e).threads| == |s.threads| && Apply(s, e).threads[u].role == s.threads[u].role
    ensures ThreadInv(Apply(s, e), u)
  {
    if u == e.t {
      OwnStep(s, e);
    } else {
      OtherStep(s, e, u);
    }
  }

  lemma ApplyKeepsInv(s: State, e: Event)
    requires Inv(s)
    ensures Inv(Apply(s, e))
  {
    if Enabled(s, e) {
      if e.Run? && s.threads[e.t].pc in {Linking, Counting, Tallying} {
        ChangeStepData(s, e);
      } else if e.Run? && s.threads[e.t].pc in {Outside, Entering, Arriving} {
        EntryStepData(s, e);
      } else {
        WaitStepData(s, e);
      }
      forall u | 0 <= u < |s.threads|
        ensures |Apply(s, e).threads| == |s.threads| && ThreadInv(Apply(s, e), u)
      {
        ThreadStep(s, e, u);
      }
      ThreadStep(s, e, e.t);
    }
  }

  lemma {:induction false} ExecKeepsInv(s: State, schedule: seq<Event>)
    requires Inv(s)
    ensures Inv(Exec(s, schedule))
    decreases |schedule|
  {
    if schedule != [] {
      ApplyKeepsInv(s, schedule[0]);
      ExecKeepsInv(Apply(s, schedule[0]), schedule[1..]);
    }
  }

  ghost predicate Reachable(s: State) {
    exists s0, schedule :: Starts(s0) && s == Exec(s0, schedule)
  }

  lemma ReachableInv(s: State)
    requires Reachable(s)
    ensures Inv(s)
  {
    var s0, schedule :| Starts(s0) && s == Exec(s0, schedule);
    ExecKeepsInv(s0, schedule);
  }

  // ------------------------------------------------------------ theorems

  /** Whenever the lock is free, a consumer sleeps only on an empty queue and a producer only on a
      full one; with room for at least one value, never both at once. */
  lemma SleepersHaveReason(s: State, t: Tid, u: Tid)
    requires Reachable(s) && s.lockedBy.None? && t < |s.threads| && u < |s.threads|
    requires s.threads[t].pc.Asleep?
    ensures s.threads[t].role.Consumer? ==> s.count == 0 == |s.items|
    ensures s.threads[t].role.Producer? ==> s.count == s.maxCount == |s.items|
    ensures s.maxCount > 0 && s.threads[u].pc.Asleep? ==> s.threads[t].role == s.threads[u].role
  {
    ReachableInv(s);
    assert ThreadInv(s, t) && ThreadInv(s, u);
  }

  /** Mutual exclusion in the monitor. */
  lemma OneInMonitor(s: State, t: Tid, u: Tid)
    requires Reachable(s) && t < |s.threads| && u < |s.threads|
    requires InMonitor(s.threads[t].pc) && InMonitor(s.threads[u].pc)
    ensures t == u
  {
    ReachableInv(s);
    assert ThreadInv(s, t) && ThreadInv(s, u);
  }

  /** First in, first out over every run: the values taken, followed by the values queued, are the
      values added; the assertions never fail and no null node is read; and whenever the lock is
      free the counters agree with the list. */
  lemma FirstInFirstOut(s: State)
    requires Reachable(s)
    ensures s.added == s.taken + s.items && !s.failed
    ensures 0 <= s.count <= s.maxCount
    ensures s.lockedBy.None? ==>
      s.count == |s.items| == s.addCount - s.getCount && s.addCount == |s.added| && s.getCount == |s.taken|
  {
    ReachableInv(s);
  }

  /** Progress: with room for a value, a producer and a consumer, the system never comes to rest;
      some thread can move without any spurious wake-up. */
  lemma SomeThreadCanMove(s: State, p: Tid, c: Tid) returns (t: Tid)
    requires Reachable(s) && s.maxCount > 0 && p < |s.threads| && c < |s.threads|
    requires s.threads[p].role.Producer? && s.threads[c].role.Consumer?
    ensures Enabled(s, Run(t, 0))
  {
    ReachableInv(s);
    assert ThreadInv(s, p) && ThreadInv(s, c);
    if s.lockedBy.Some? {
      t := s.lockedBy.value;
      assert ThreadInv(s, t);
    } else {
      t := if s.threads[p].pc.Asleep? then c else p;
    }
  }
}
