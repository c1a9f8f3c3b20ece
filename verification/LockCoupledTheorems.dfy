/**
 What the lock-coupled list promises in every interleaving of any number of readers and
 swappers: passes that see each node exactly once, no deadlock, no lost node.
 */
module LockCoupledTheorems {
  import opened LockCoupledList
  import opened LockCoupledInvariant

  // ------------------------------------------------------------ building and freeing the list

  /** The pointers of a freshly built list: 0 -> 1 -> ... -> n - 1. */
  function FreshNext(n: nat): (next: seq<Ptr>) {
    seq(n, i requires 0 <= i < n => if i + 1 < n then At(i + 1) else Null)
  }

  /** Appends `count` nodes to the sentinel, one allocation and one pointer store at a time. */
  method ListInit(count: int) returns (next: seq<Ptr>)
    ensures next == FreshNext(1 + if count < 0 then 0 else count)
  {
    next := [Null];
    var prev := START;
    var i := 0;
    while i < count
      invariant 0 <= i && (i <= count || i == 0)
      invariant prev == i && next == FreshNext(i + 1)
    {
      var node := |next|;
      next := next + [Null];
      next := next[prev := At(node)];
      prev := node;
      i := i + 1;
    }
  }

  /** The start of a run: a fresh list, no locks held, all threads at the top of their loops. */
  ghost predicate Starts(s: State) {
    && |s.lens| > 0
    && s.mem == Mem(FreshNext(|s.lens|), seq(|s.lens|, i => i), seq(|s.lens|, i => i))
    && s.holders == seq(|s.lens|, i => {})
    && !s.stop
    && (forall t :: 0 <= t < |s.threads| ==>
          && ShapeThread(s.threads[t], |s.lens|)
          && (if s.threads[t].Reader? then s.threads[t].rpc.RTop? else s.threads[t].spc.STop?))
  }

  lemma StartsInv(s: State)
    requires Starts(s)
    ensures Inv(s)
  {
  }

  /** `s` can come up in some run. */
  ghost predicate Reachable(s: State) {
    exists s0, schedule :: Starts(s0) && Shape(s0) && s == Exec(s0, schedule)
  }

  lemma ReachableInv(s: State)
    requires Reachable(s)
    ensures Inv(s)
  {
    var s0, schedule :| Starts(s0) && Shape(s0) && s == Exec(s0, schedule);
    StartsInv(s0);
    ExecKeepsInv(s0, schedule);
  }

  // ------------------------------------------------------------ a pass sees every node once

  /** Each of the `n` nodes occurs exactly once. */
  ghost predicate Permutation(xs: seq<Node>, n: nat) {
    |xs| == n && forall x :: 0 <= x < n ==> multiset(xs)[x] == 1
  }

  lemma {:induction false} OccursOnce(xs: seq<Node>, x: Node)
    requires !Duplicates(xs)
    ensures multiset(xs)[x] == if x in xs then 1 else 0
    decreases |xs|
  {
    if xs != [] {
      var k := |xs| - 1;
      assert xs == xs[..k] + [xs[k]];
      assert multiset(xs) == multiset(xs[..k]) + multiset([xs[k]]);
      assert !Duplicates(xs[..k]);
      OccursOnce(xs[..k], x);
      if x == xs[k] {
        assert x !in xs[..k];
      } else {
        assert x in xs <==> x in xs[..k];
      }
    }
  }

  lemma WholeListIsPermutation(seen: seq<Node>, n: nat)
    requires WholeList(seen, n)
    ensures Permutation(seen, n)
  {
    forall x | 0 <= x < n
      ensures multiset(seen)[x] == 1
    {
      OccursOnce(seen, x);
    }
  }

  /** A reader closes a pass only where it knows that it has seen the whole list. */
  lemma ClosingMeansWhole(m: Mem, kind: LockKind, lens: seq<nat>, th: Thread, loaded: Ptr, stop: bool)
    requires |lens| > 0 && ShapeMem(m, |lens|) && Headed(m) && ShapeThread(th, |lens|)
    requires th.Reader? && ReaderKnows(m, lens, th)
    requires ReaderAfter(th, kind, lens, loaded, stop).tally != th.tally
    ensures WholeList(th.seen, |lens|)
    ensures |lens| > 1 ==> th.counter == Streak(th.cmp, lens, th.seen)
  {
    assert th.rpc in {RUnlockEmpty, RUnlockLast};
    if th.rpc.RUnlockEmpty? {
      assert m.pos[th.prev] + 1 == |lens|;
    }
  }

  /** Exactly-once traversal: whatever the swappers did meanwhile, when a reader closes a pass it
      has locked every node of the list exactly once, the sentinel first. */
  lemma PassSeesEveryNodeOnce(s: State, t: Tid, draw: bool)
    requires Reachable(s) && Shape(s) && t < |s.threads| && s.threads[t].Reader?
    requires Step(s, t, draw).threads[t].tally != s.threads[t].tally
    ensures Permutation(s.threads[t].seen, |s.lens|) && s.threads[t].seen[0] == START
    ensures |s.lens| > 1 ==>
      s.threads[t].counter == Streak(s.threads[t].cmp, s.lens, s.threads[t].seen)
  {
    ReachableInv(s);
    assert Knows(s.mem, s.lens, s.threads[t]);
    var th := s.threads[t];
    assert Step(s, t, draw).threads[t] == After(s, t, draw);
    ClosingMeansWhole(s.mem, s.kind, s.lens, th, Loaded(s.mem, OpOf(th)), s.stop);
    WholeListIsPermutation(th.seen, |s.lens|);
  }

  lemma {:induction false} StreakIsLongest(cmp: Comparison, lens: seq<nat>, seen: seq<Node>)
    requires forall i :: 0 <= i < |seen| ==> seen[i] < |lens|
    ensures var k := Streak(cmp, lens, seen);
      && (|seen| >= 2 ==> k + 2 <= |seen|) && (|seen| < 2 ==> k == 0)
      && (forall i :: |seen| - k <= i < |seen| && 0 < i ==> Compare(cmp, lens[seen[i - 1]], lens[seen[i]]))
      && (|seen| - k >= 3 ==> !Compare(cmp, lens[seen[|seen| - k - 2]], lens[seen[|seen| - k - 1]]))
    decreases |seen|
  {
    var n := |seen|;
    if n > 2 && Compare(cmp, lens[seen[n - 2]], lens[seen[n - 1]]) {
      StreakIsLongest(cmp, lens, seen[..n - 1]);
      var k := Streak(cmp, lens, seen[..n - 1]);
      forall i | n - (k + 1) <= i < n && 0 < i
        ensures Compare(cmp, lens[seen[i - 1]], lens[seen[i]])
      {
        if i < n - 1 {
          assert seen[..n - 1][i - 1] == seen[i - 1] && seen[..n - 1][i] == seen[i];
        }
      }
    }
  }

  /** The last `k` steps of the walk are to longer strings, to shorter ones, or to ones of equal
      length, and the step before them, if there is one behind the sentinel, is not. */
  ghost predicate LongestRun(cmp: Comparison, lens: seq<nat>, seen: seq<Node>, k: nat)
    requires k <= |seen| && forall i :: 0 <= i < |seen| ==> seen[i] < |lens|
  {
    var n := |seen|;
    match cmp
    case Increasing =>
      && (forall i :: n - k <= i < n && 0 < i ==> lens[seen[i - 1]] < lens[seen[i]])
      && (n - k >= 3 ==> lens[seen[n - k - 2]] >= lens[seen[n - k - 1]])
    case Decreasing =>
      && (forall i :: n - k <= i < n && 0 < i ==> lens[seen[i - 1]] > lens[seen[i]])
      && (n - k >= 3 ==> lens[seen[n - k - 2]] <= lens[seen[n - k - 1]])
    case Equal =>
      && (forall i :: n - k <= i < n && 0 < i ==> lens[seen[i - 1]] == lens[seen[i]])
      && (n - k >= 3 ==> lens[seen[n - k - 2]] != lens[seen[n - k - 1]])
  }

  /** The counter is the length of the longest run, up to the end of the walk, of steps to longer
      strings, to shorter ones, or to ones of equal length; the step from the sentinel does not count. */
  lemma StreakIsLongestRun(cmp: Comparison, lens: seq<nat>, seen: seq<Node>)
    requires forall i :: 0 <= i < |seen| ==> seen[i] < |lens|
    ensures var k := Streak(cmp, lens, seen);
      && (if |seen| >= 2 then k + 2 <= |seen| else k == 0) && LongestRun(cmp, lens, seen, k)
  {
    StreakIsLongest(cmp, lens, seen);
  }

  /** The nodes up to and including `c` in the intended order. */
  ghost function UpTo(s: State, c: Node): set<Node>
    requires Shape(s) && c < |s.lens|
  {
    set x: Node | x < |s.lens| && s.mem.pos[x] <= s.mem.pos[c]
  }

  predicate SparesThread(schedule: seq<Event>, t: Tid) {
    forall i :: 0 <= i < |schedule| ==> schedule[i].RaiseStop? || schedule[i].t != t
  }

  lemma ExclusiveHoldsApart(s: State, t: Tid, u: Tid, c: Node)
    requires Inv(s) && t < |s.threads| && u < |s.threads| && u != t && c in Held(s.threads[t])
    ensures Exclusive(s.kind, s.threads[u]) ==> c !in Held(s.threads[u])
  {
  }

  lemma StepChangesMem(s: State, u: Tid, draw: bool)
    requires Shape(s)
    ensures Step(s, u, draw).lens == s.lens
    ensures Step(s, u, draw).mem == if Enabled(s, u) then NewMem(s.mem, s.threads[u], |s.lens|) else s.mem
    ensures forall t :: 0 <= t < |s.threads| && t != u ==> Step(s, u, draw).threads[t] == s.threads[t]
  {
    hide NewMem, NewHolders, After;
  }

  lemma StepFreezesPrefix(s: State, t: Tid, c: Node, u: Tid, draw: bool)
    requires Inv(s) && t < |s.threads| && u != t && c < |s.lens| && c in Held(s.threads[t])
    ensures UpTo(Step(s, u, draw), c) == UpTo(s, c)
    ensures Step(s, u, draw).mem.pos[c] == s.mem.pos[c]
    ensures Step(s, u, draw).threads[t] == s.threads[t]
  {
    StepChangesMem(s, u, draw);
    if Enabled(s, u) {
      var th := s.threads[u];
      assert Knows(s.mem, s.lens, th);
      ExclusiveHoldsApart(s, t, u, c);
      hide Step, Enabled, NewMem, Excluded, HoldersAgree, Linked, Headed;
      if th.Swapper? && th.spc.SWritePrev? {
        SwapLeavesOthers(s.mem, |s.lens|, th, c);
      } else {
        OnlySwapsReorder(s.mem, |s.lens|, th);
      }
    }
  }

  /** While a thread holds a node, no schedule of the others changes which nodes come before it,
      nor, therefore, how many come after it. */
  lemma {:induction false} HeldNodeFreezesPrefix(s: State, t: Tid, c: Node, schedule: seq<Event>)
    requires Inv(s) && t < |s.threads| && c < |s.lens| && c in Held(s.threads[t])
    requires SparesThread(schedule, t)
    ensures UpTo(Exec(s, schedule), c) == UpTo(s, c)
    ensures Exec(s, schedule).mem.pos[c] == s.mem.pos[c]
    ensures Exec(s, schedule).threads[t] == s.threads[t]
    decreases |schedule|
  {
    if schedule != [] {
      var e := schedule[0];
      ApplyKeepsInv(s, e);
      if e.Run? {
        StepFreezesPrefix(s, t, c, e.t, e.draw);
      }
      assert SparesThread(schedule[1..], t);
      HeldNodeFreezesPrefix(Apply(s, e), t, c, schedule[1..]);
    }
  }

  // ------------------------------------------------------------ a pass ends

  predicate InPass(th: Thread) {
    th.Reader? && !th.rpc.RTop? && !th.rpc.RDone? && !th.rpc.RFault?
  }

  /** How many more steps a pass can take; five for each node not yet locked. */
  function PassLeft(th: Thread, n: nat): int
    requires th.Reader?
  {
    var left := 5 * (n - |th.seen|);
    match th.rpc
    case RLockStart => 5 * n + 2
    case RLoadFirst => left + 1
    case RLockFirst => left
    case RTest => left + 3
    case RUnlockPrev => left + 2
    case RLoadNext => left + 1
    case RLockNext => left
    case RAdvance => left + 4
    case RUnlockCur => 2
    case RUnlockLast => 1
    case RUnlockEmpty | RTop | RDone | RFault => 0
  }

  /** One step of a pass: either it closes the pass, or fewer steps are left. */
  predicate Descends(th: Thread, th': Thread, n: nat) {
    && th.Reader? && PassLeft(th, n) >= 0
    && (|| th'.tally == th.tally + 1
        || (InPass(th') && th'.tally == th.tally && 0 <= PassLeft(th', n) < PassLeft(th, n)))
  }

  lemma StartDescends(m: Mem, kind: LockKind, lens: seq<nat>, th: Thread, stop: bool)
    requires Ready(m, lens, th) && InPass(th) && AtStart(th)
    ensures Descends(th, ReaderAfter(th, kind, lens, Loaded(m, OpOf(th)), stop), |lens|)
  {
  }

  lemma LookAheadDescends(m: Mem, kind: LockKind, lens: seq<nat>, th: Thread, stop: bool)
    requires Ready(m, lens, th) && th.Reader? && th.rpc in {RTest, RUnlockPrev, RLoadNext}
    ensures Descends(th, ReaderAfter(th, kind, lens, Loaded(m, OpOf(th)), stop), |lens|)
  {
    hide Streak;
  }

  lemma WalkDescends(m: Mem, kind: LockKind, lens: seq<nat>, th: Thread, stop: bool)
    requires Ready(m, lens, th) && InPass(th) && !AtStart(th)
    ensures Descends(th, ReaderAfter(th, kind, lens, Loaded(m, OpOf(th)), stop), |lens|)
  {
    hide Streak, Compare, Headed;
    if th.rpc in {RTest, RUnlockPrev, RLoadNext} {
      LookAheadDescends(m, kind, lens, th, stop);
    }
  }

  lemma ReaderDescends(m: Mem, kind: LockKind, lens: seq<nat>, th: Thread, stop: bool)
    requires Ready(m, lens, th) && InPass(th)
    ensures Descends(th, ReaderAfter(th, kind, lens, Loaded(m, OpOf(th)), stop), |lens|)
  {
    if AtStart(th) {
      StartDescends(m, kind, lens, th, stop);
    } else {
      WalkDescends(m, kind, lens, th, stop);
    }
  }

  lemma PassStepDescends(s: State, t: Tid, draw: bool)
    requires Inv(s) && Enabled(s, t) && InPass(s.threads[t])
    ensures Descends(s.threads[t], Step(s, t, draw).threads[t], |s.lens|)
  {
    ThreadIsReady(s, t);
    ReaderDescends(s.mem, s.kind, s.lens, s.threads[t], s.stop);
  }

  /** How often thread `t` really moves in a schedule, up to the end of its current pass. */
  ghost function Moves(s: State, t: Tid, schedule: seq<Event>): nat
    requires Shape(s)
    decreases |schedule|
  {
    if schedule == [] then 0
    else
      (if schedule[0].Run? && schedule[0].t == t && Enabled(s, t) then 1 else 0)
      + Moves(Apply(s, schedule[0]), t, schedule[1..])
  }

  lemma OthersLeaveThread(s: State, t: Tid, e: Event)
    requires Inv(s) && t < |s.threads|
    requires !(e.Run? && e.t == t && Enabled(s, t))
    ensures Apply(s, e).threads[t] == s.threads[t]
  {
  }

  lemma ReaderTallyNeverFalls(th: Thread, kind: LockKind, lens: seq<nat>, loaded: Ptr, stop: bool)
    requires th.Reader? && th.cur < |lens| && th.nxt < |lens|
    ensures ReaderAfter(th, kind, lens, loaded, stop).tally >= th.tally
  {
  }

  lemma SwapperTallyNeverFalls(th: Thread, loaded: Ptr, stop: bool, draw: bool)
    requires th.Swapper?
    ensures SwapperAfter(th, loaded, stop, draw).tally >= th.tally
  {
  }

  lemma TallyNeverFalls(s: State, t: Tid, e: Event)
    requires Inv(s) && t < |s.threads|
    ensures Apply(s, e).threads[t].tally >= s.threads[t].tally
  {
    if e.Run? && e.t == t && Enabled(s, t) {
      var th, loaded := s.threads[t], Loaded(s.mem, OpOf(s.threads[t]));
      assert Apply(s, e).threads[t] == After(s, t, e.draw);
      if th.Reader? {
        ReaderTallyNeverFalls(th, s.kind, s.lens, loaded, s.stop);
      } else {
        SwapperTallyNeverFalls(th, loaded, s.stop, e.draw);
      }
    } else {
      OthersLeaveThread(s, t, e);
    }
  }

  lemma {:induction false} TallyGrows(s: State, t: Tid, schedule: seq<Event>)
    requires Inv(s) && t < |s.threads|
    ensures Exec(s, schedule).threads[t].tally >= s.threads[t].tally
    decreases |schedule|
  {
    if schedule != [] {
      TallyNeverFalls(s, t, schedule[0]);
      ApplyKeepsInv(s, schedule[0]);
      TallyGrows(Apply(s, schedule[0]), t, schedule[1..]);
    }
  }

  /** A pass ends: however the others interleave, a reader that keeps moving closes its pass
      after a number of its own steps linear in the length of the list. */
  lemma {:induction false} PassEnds(s: State, t: Tid, schedule: seq<Event>)
    requires Inv(s) && t < |s.threads| && InPass(s.threads[t])
    ensures Moves(s, t, schedule) > PassLeft(s.threads[t], |s.lens|) ==>
      Exec(s, schedule).threads[t].tally > s.threads[t].tally
    decreases |schedule|
  {
    if schedule != [] {
      var e, rest := schedule[0], schedule[1..];
      var s' := Apply(s, e);
      ApplyKeepsInv(s, e);
      if e.Run? && e.t == t && Enabled(s, t) {
        PassStepDescends(s, t, e.draw);
        if s'.threads[t].tally == s.threads[t].tally + 1 {
          TallyGrows(s', t, rest);
        } else {
          PassEnds(s', t, rest);
        }
      } else {
        OthersLeaveThread(s, t, e);
        PassEnds(s', t, rest);
      }
    } else {
      PassLeftIsNatural(s, t);
    }
  }

  lemma PassLeftIsNatural(s: State, t: Tid)
    requires Inv(s) && t < |s.threads| && InPass(s.threads[t])
    ensures PassLeft(s.threads[t], |s.lens|) >= 0
  {
    assert Knows(s.mem, s.lens, s.threads[t]);
  }

  // ------------------------------------------------------------ no deadlock

  ghost predicate Blocked(s: State, t: Tid)
    requires Shape(s)
  {
    t < |s.threads| && OpOf(s.threads[t]).Lock? && !CanLock(s, t, OpOf(s.threads[t]).x)
  }

  /** Thread `t` is stopped at a lock that `u` holds. */
  ghost predicate WaitsFor(s: State, t: Tid, u: Tid)
    requires Shape(s)
  {
    && Blocked(s, t) && u < |s.threads| && u in s.holders[OpOf(s.threads[t]).x]
    && (Exclusive(s.kind, s.threads[t]) || Exclusive(s.kind, s.threads[u]))
  }

  /** Where in the list thread `t` is waiting. */
  ghost function Awaited(s: State, t: Tid): nat
    requires Shape(s) && t < |s.threads| && OpOf(s.threads[t]).Lock?
  {
    s.mem.pos[OpOf(s.threads[t]).x]
  }

  /** A thread about to lock holds only nodes that come before the one it wants. */
  lemma WantsBeyondHeld(m: Mem, lens: seq<nat>, th: Thread, x: Node)
    requires |m.pos| == |lens| && ShapeThread(th, |lens|) && Knows(m, lens, th) && OpOf(th).Lock? && x in Held(th)
    ensures x < |lens| && m.pos[x] < m.pos[OpOf(th).x]
  {
  }

  lemma WaitingMovesForward(s: State, t: Tid, u: Tid)
    requires Inv(s) && WaitsFor(s, t, u) && Blocked(s, u)
    ensures Awaited(s, t) < Awaited(s, u)
  {
    assert Knows(s.mem, s.lens, s.threads[u]);
    WantsBeyondHeld(s.mem, s.lens, s.threads[u], OpOf(s.threads[t]).x);
  }

  /** A chain of threads, each waiting for the next. */
  ghost predicate WaitChain(s: State, chain: seq<Tid>)
    requires Shape(s)
  {
    forall i :: 0 <= i < |chain| - 1 ==> WaitsFor(s, chain[i], chain[i + 1])
  }

  lemma {:induction false} WaitChainAscends(s: State, chain: seq<Tid>)
    requires Inv(s) && |chain| >= 2 && WaitChain(s, chain) && Blocked(s, chain[|chain| - 1])
    ensures Blocked(s, chain[0]) && Awaited(s, chain[0]) < Awaited(s, chain[|chain| - 1])
    decreases |chain|
  {
    assert WaitsFor(s, chain[0], chain[1]);
    if |chain| == 2 {
      WaitingMovesForward(s, chain[0], chain[1]);
    } else {
      var rest := chain[1..];
      forall i | 0 <= i < |rest| - 1
        ensures WaitsFor(s, rest[i], rest[i + 1])
      {
        assert WaitsFor(s, chain[i + 1], chain[i + 2]);
      }
      WaitChainAscends(s, rest);
      WaitingMovesForward(s, chain[0], chain[1]);
    }
  }

  /** No thread ever waits, directly or through others, for itself. */
  lemma WaitsForIsAcyclic(s: State, chain: seq<Tid>)
    requires Reachable(s) && Shape(s) && |chain| >= 2 && WaitChain(s, chain)
    ensures chain[0] != chain[|chain| - 1]
  {
    ReachableInv(s);
    if chain[0] == chain[|chain| - 1] {
      assert WaitsFor(s, chain[0], chain[1]);
      WaitChainAscends(s, chain);
    }
  }

  lemma HoldersHold(s: State, x: Node, u: Tid)
    requires Inv(s) && x < |s.lens| && u in s.holders[x]
    ensures u < |s.threads| && x in Held(s.threads[u]) && !Halted(s.threads[u])
  {
    assert u in s.holders[x] <==> u < |s.threads| && x in Held(s.threads[u]);
  }

  lemma BlockedWaitsForSomeone(s: State, t: Tid) returns (u: Tid)
    requires Inv(s) && Blocked(s, t)
    ensures WaitsFor(s, t, u) && !Halted(s.threads[u])
  {
    var x := OpOf(s.threads[t]).x;
    if Exclusive(s.kind, s.threads[t]) {
      u :| u in s.holders[x];
    } else {
      u :| u in s.holders[x] && !(u < |s.threads| && !Exclusive(s.kind, s.threads[u]));
    }
    HoldersHold(s, x, u);
    hide Inv;
  }

  lemma {:induction false} BlockedLeadsToEnabled(s: State, t: Tid) returns (u: Tid)
    requires Inv(s) && Blocked(s, t)
    ensures Enabled(s, u)
    decreases |s.lens| - Awaited(s, t)
  {
    u := BlockedWaitsForSomeone(s, t);
    if Blocked(s, u) {
      WaitingMovesForward(s, t, u);
      u := BlockedLeadsToEnabled(s, u);
    }
  }

  /** Deadlock freedom: as long as some thread has not left its loop, some thread can step. */
  lemma SomeThreadCanStep(s: State, t: Tid) returns (u: Tid)
    requires Reachable(s) && Shape(s) && t < |s.threads|
    requires !(if s.threads[t].Reader? then s.threads[t].rpc.RDone? else s.threads[t].spc.SDone?)
    ensures Enabled(s, u)
  {
    ReachableInv(s);
    assert Knows(s.mem, s.lens, s.threads[t]);
    if Blocked(s, t) {
      u := BlockedLeadsToEnabled(s, t);
    } else {
      u := t;
    }
  }

  /** The strictest read/write lock: readers are kept out by a waiting writer too. */
  ghost predicate Admitted(s: State, t: Tid)
    requires Shape(s)
  {
    && Enabled(s, t)
    && (OpOf(s.threads[t]).Lock? && !Exclusive(s.kind, s.threads[t]) ==> !WriterWants(s, OpOf(s.threads[t]).x))
  }

  ghost predicate WriterWants(s: State, x: Node) {
    exists w :: 0 <= w < |s.threads| && Exclusive(s.kind, s.threads[w]) && OpOf(s.threads[w]) == Lock(x)
  }

  lemma HolderWantsBeyond(s: State, t: Tid, u: Tid)
    requires Inv(s) && WaitsFor(s, t, u) && OpOf(s.threads[u]).Lock?
    ensures Awaited(s, t) < Awaited(s, u)
  {
    assert Knows(s.mem, s.lens, s.threads[u]);
    HoldersHold(s, OpOf(s.threads[t]).x, u);
    hide Knows, Held, Linked, Headed, HoldersAgree, Excluded;
    WantsBeyondHeld(s.mem, s.lens, s.threads[u], OpOf(s.threads[t]).x);
  }

  lemma {:induction false} LockerLeadsToAdmitted(s: State, t: Tid) returns (u: Tid)
    requires Inv(s) && t < |s.threads| && OpOf(s.threads[t]).Lock?
    ensures Admitted(s, u)
    decreases |s.lens| - Awaited(s, t), if Exclusive(s.kind, s.threads[t]) then 0 else 1
  {
    hide HoldersAgree, Excluded, Linked, Headed, Held, Knows;
    if Blocked(s, t) {
      u := BlockedWaitsForSomeone(s, t);
      if OpOf(s.threads[u]).Lock? {
        HolderWantsBeyond(s, t, u);
        u := LockerLeadsToAdmitted(s, u);
      }
    } else if !Exclusive(s.kind, s.threads[t]) && WriterWants(s, OpOf(s.threads[t]).x) {
      u :| 0 <= u < |s.threads| && Exclusive(s.kind, s.threads[u]) && OpOf(s.threads[u]) == OpOf(s.threads[t]);
      u := LockerLeadsToAdmitted(s, u);
    } else {
      u := t;
    }
  }

  /** Deadlock freedom does not depend on the order in which readers and writers are let in: even if
      every waiting writer keeps readers out, some thread can step. */
  lemma SomeThreadIsAdmitted(s: State, t: Tid) returns (u: Tid)
    requires Reachable(s) && Shape(s) && t < |s.threads|
    requires !(if s.threads[t].Reader? then s.threads[t].rpc.RDone? else s.threads[t].spc.SDone?)
    ensures Admitted(s, u)
  {
    ReachableInv(s);
    assert Knows(s.mem, s.lens, s.threads[t]);
    hide HoldersAgree, Excluded, Linked, Headed;
    u := t;
    if OpOf(s.threads[t]).Lock? {
      u := LockerLeadsToAdmitted(s, t);
    }
  }

  // ------------------------------------------------------------ no node is lost

  /** The nodes met when following `next` from `p`, at most `fuel` of them. */
  function Walk(next: seq<Ptr>, p: Ptr, fuel: nat): seq<Node>
    decreases fuel
  {
    if fuel == 0 || p.Null? || p.node >= |next| then []
    else [p.node] + Walk(next, next[p.node], fuel - 1)
  }

  /** No thread is between the first and the last store of a swap. */
  ghost predicate NoSwapUnderWay(s: State) {
    forall t :: 0 <= t < |s.threads| ==> Lagging(s.threads[t]) == {}
  }

  lemma {:induction false} WalkFollowsOrder(s: State, i: nat, fuel: nat)
    requires Inv(s) && NoSwapUnderWay(s) && i < |s.lens| && fuel >= |s.lens| - i
    ensures Walk(s.mem.next, At(s.mem.order[i]), fuel) == s.mem.order[i..]
    decreases fuel
  {
    hide HoldersAgree, Excluded, Headed, Knows, Lagging;
    var x := s.mem.order[i];
    assert NobodyLags(s.threads, x);
    assert s.mem.next[x] == Succ(s.mem, x);
    assert s.mem.order[i..] == [x] + s.mem.order[i + 1..];
    if i + 1 < |s.lens| {
      WalkFollowsOrder(s, i + 1, fuel - 1);
    } else {
      assert Walk(s.mem.next, Null, fuel - 1) == [];
    }
  }

  lemma OrderIsPermutation(m: Mem, n: nat)
    requires ShapeMem(m, n)
    ensures Permutation(m.order, n)
  {
    forall x | 0 <= x < n
      ensures multiset(m.order)[x] == 1
    {
      assert !Duplicates(m.order) by {
        forall i, j | 0 <= i < j < |m.order|
          ensures m.order[i] != m.order[j]
        {
          assert m.pos[m.order[i]] == i && m.pos[m.order[j]] == j;
        }
      }
      assert m.order[m.pos[x]] == x;
      OccursOnce(m.order, x);
    }
  }

  /** Permutation safety: whenever no swap is under way, following the pointers from the sentinel
      meets every node of the original list exactly once and then ends, however far one is
      prepared to walk. */
  lemma ChainIsPermutation(s: State, fuel: nat)
    requires Reachable(s) && NoSwapUnderWay(s) && fuel >= |s.lens|
    ensures Permutation(Walk(s.mem.next, At(START), fuel), |s.lens|)
    ensures Walk(s.mem.next, At(START), fuel)[0] == START
  {
    ReachableInv(s);
    assert s.mem.order[0] == START by {
      assert s.mem.order[s.mem.pos[START]] == START;
    }
    WalkFollowsOrder(s, 0, fuel);
    assert s.mem.order[0..] == s.mem.order;
    OrderIsPermutation(s.mem, |s.lens|);
  }

  lemma ReadyRecheckSucceeds(m: Mem, lens: seq<nat>, th: Thread)
    requires Ready(m, lens, th) && th.Swapper?
    ensures th.spc.SCheckPrev? ==> m.next[th.prev] == At(th.cur)
    ensures th.spc.SCheckCur? ==> m.next[th.cur] == At(th.nxt)
  {
  }

  /** The second look at both pointers never fails, so every draw for a swap ends in a swap. */
  lemma RecheckAlwaysSucceeds(s: State, t: Tid)
    requires Reachable(s) && Shape(s) && t < |s.threads| && s.threads[t].Swapper?
    ensures s.threads[t].spc.SCheckPrev? ==> s.mem.next[s.threads[t].prev] == At(s.threads[t].cur)
    ensures s.threads[t].spc.SCheckCur? ==> s.mem.next[s.threads[t].cur] == At(s.threads[t].nxt)
  {
    ReachableInv(s);
    ThreadIsReady(s, t);
    hide Inv, Ready;
    ReadyRecheckSucceeds(s.mem, s.lens, s.threads[t]);
  }

  /** Locals never go astray: no reader dereferences null; a thread that is about to lock a node, or
      has locked it, has its neighbours in `prev`, `cur` and `nxt`, whatever the others have swapped
      meanwhile; and no thread locks a node that it holds. */
  lemma LocalsNameListNodes(s: State, t: Tid)
    requires Reachable(s) && Shape(s) && t < |s.threads|
    ensures var th := s.threads[t];
      th.Reader? ==>
        && th.rpc != RFault
        && (th.rpc in {RLockFirst, RTest} ==> Adj(s.mem, th.prev, th.cur))
        && (th.rpc in {RLockNext, RAdvance} ==> Adj(s.mem, th.cur, th.nxt))
    ensures var th := s.threads[t];
      th.Swapper? ==>
        && (th.spc in {SLockCur, SLoadNext, STailUnlockCur, SSkipUnlockCur} ==> Adj(s.mem, th.prev, th.cur))
        && (th.spc in {SChoose, SLockNext, SCheckPrev, SCheckCur, SLoadNextNext, SWritePrev} ==>
              Adj(s.mem, th.prev, th.cur) && Adj(s.mem, th.cur, th.nxt))
        && (th.spc in {SWriteCur, SWriteNext, SUnlockNext} ==>
              Adj(s.mem, th.prev, th.nxt) && Adj(s.mem, th.nxt, th.cur))
    ensures OpOf(s.threads[t]).Lock? ==> t !in s.holders[OpOf(s.threads[t]).x]
  {
    ReachableInv(s);
    var th := s.threads[t];
    assert Knows(s.mem, s.lens, th);
    if OpOf(th).Lock? && t in s.holders[OpOf(th).x] {
      HoldersHold(s, OpOf(th).x, t);
      hide Inv, Knows, Held;
      WantsBeyondHeld(s.mem, s.lens, th, OpOf(th).x);
    }
  }

  lemma AdvanceLeavesNode(m: Mem, n: nat, th: Thread, stop: bool, draw: bool)
    requires ShapeMem(m, n) && Headed(m) && ShapeThread(th, n) && th.Swapper? && th.spc.SAdvance?
    ensures var th' := SwapperAfter(th, m.next[th.prev], stop, draw);
      && th'.spc == (if m.next[th.prev].Null? then STop else SInner)
      && (th'.spc.SInner? ==> th'.prev < n && th'.prev != START && th'.prev != th.prev)
  {
  }

  lemma AdvanceIsEnabled(s: State, t: Tid, draw: bool)
    requires Shape(s) && t < |s.threads| && s.threads[t].Swapper? && s.threads[t].spc.SAdvance?
    ensures Step(s, t, draw).threads[t] ==
      SwapperAfter(s.threads[t], s.mem.next[s.threads[t].prev], s.stop, draw)
  {
    hide SwapperAfter, NewMem, NewHolders;
    assert Enabled(s, t);
  }

  /** The pointer that a swapper follows without a lock may be one that a swap is about to change; it
      still leads to a node of the list other than the sentinel and the node that it is read from. */
  lemma UnlockedAdvanceStaysInList(s: State, t: Tid, draw: bool)
    requires Reachable(s) && Shape(s) && t < |s.threads| && s.threads[t].Swapper? && s.threads[t].spc.SAdvance?
    ensures var th := Step(s, t, draw).threads[t];
      th.spc.SInner? ==> th.prev < |s.lens| && th.prev != START && th.prev != s.threads[t].prev
    ensures var th := Step(s, t, draw).threads[t];
      th.spc == if s.mem.next[s.threads[t].prev].Null? then STop else SInner
  {
    ReachableInv(s);
    assert Headed(s.mem);
    AdvanceLeavesNode(s.mem, |s.lens|, s.threads[t], s.stop, draw);
    AdvanceIsEnabled(s, t, draw);
    hide *;
  }

  /** Mutual exclusion on nodes: a node held by an exclusive locker has no other holder. */
  lemma ExclusiveHolderIsAlone(s: State, x: Node, t: Tid, u: Tid)
    requires Reachable(s) && Shape(s) && x < |s.holders| && t in s.holders[x] && u in s.holders[x] && t != u
    ensures t < |s.threads| && u < |s.threads|
    ensures s.kind.RwLocks? && s.threads[t].Reader? && s.threads[u].Reader?
  {
    ReachableInv(s);
    assert t < |s.threads| && x in Held(s.threads[t]);
    assert u < |s.threads| && x in Held(s.threads[u]);
  }

  /** Frees the nodes in the order in which the pointers are followed. */
  method ListDestroy(next: seq<Ptr>, ghost order: seq<Node>) returns (freed: seq<Node>)
    requires |order| > 0 && order[0] == START
    requires forall i :: 0 <= i < |order| ==>
      (order[i] < |next| && next[order[i]] == if i + 1 < |order| then At(order[i + 1]) else Null)
    ensures freed == order
  {
    freed := [];
    var cur := At(START);
    while cur.At?
      invariant |freed| <= |order| && freed == order[..|freed|]
      invariant cur == if |freed| < |order| then At(order[|freed|]) else Null
      decreases |order| - |freed|
    {
      var following := next[cur.node];
      freed := freed + [cur.node];
      cur := following;
    }
  }

  ghost predicate AllHalted(s: State) {
    forall t :: 0 <= t < |s.threads| ==> Halted(s.threads[t])
  }

  lemma HaltedHoldsNothing(s: State, x: Node)
    requires Inv(s) && AllHalted(s) && x < |s.holders|
    ensures s.holders[x] == {}
  {
    forall t: Tid
      ensures t !in s.holders[x]
    {
      assert t in s.holders[x] <==> t < |s.threads| && x in Held(s.threads[t]);
    }
  }

  lemma QuietPointersFollowOrder(s: State, i: nat)
    requires Inv(s) && NoSwapUnderWay(s) && i < |s.lens|
    ensures s.mem.next[s.mem.order[i]] == if i + 1 < |s.lens| then At(s.mem.order[i + 1]) else Null
  {
    assert NobodyLags(s.threads, s.mem.order[i]);
  }

  lemma HaltedListIsQuiet(s: State)
    requires Inv(s) && AllHalted(s)
    ensures s.mem.order[0] == START && Permutation(s.mem.order, |s.lens|)
    ensures forall x :: 0 <= x < |s.holders| ==> s.holders[x] == {}
    ensures forall i :: 0 <= i < |s.lens| ==>
      s.mem.order[i] < |s.lens| &&
      s.mem.next[s.mem.order[i]] == if i + 1 < |s.lens| then At(s.mem.order[i + 1]) else Null
  {
    assert s.mem.order[s.mem.pos[START]] == START;
    assert NoSwapUnderWay(s);
    OrderIsPermutation(s.mem, |s.lens|);
    hide NoSwapUnderWay, Permutation, Linked, HoldersAgree, Excluded, Headed, Knows;
    forall i | 0 <= i < |s.lens|
      ensures s.mem.next[s.mem.order[i]] == if i + 1 < |s.lens| then At(s.mem.order[i + 1]) else Null
    {
      QuietPointersFollowOrder(s, i);
    }
    forall x | 0 <= x < |s.holders|
      ensures s.holders[x] == {}
    {
      HaltedHoldsNothing(s, x);
    }
  }

  /** When all threads have left their loops, no lock is held, and freeing the list frees every
      node exactly once. */
  method TearDown(ghost s: State, next: seq<Ptr>) returns (freed: seq<Node>)
    requires Reachable(s) && AllHalted(s) && next == s.mem.next
    ensures Permutation(freed, |s.lens|)
    ensures forall x :: 0 <= x < |s.holders| ==> s.holders[x] == {}
  {
    ReachableInv(s);
    HaltedListIsQuiet(s);
    hide AllHalted, Permutation, Linked, HoldersAgree, Excluded, Headed, Knows;
    freed := ListDestroy(next, s.mem.order);
  }
}
