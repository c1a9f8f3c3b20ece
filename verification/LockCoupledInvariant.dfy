/**
 The inductive invariant of the lock-coupled list, and the proof that every step keeps it.

 The key argument: a node that one thread holds can never be one of the two nodes that
 another thread is exchanging, because the exchanging thread holds both exclusively.
 Everything a thread remembers about the list is about nodes next to one it holds.
 */
module LockCoupledInvariant {
  import opened LockCoupledList

  // ------------------------------------------------------------ vocabulary

  /** The nodes whose locks a thread holds, read off its program counter. */
  function Held(th: Thread): set<Node> {
    if th.Reader? then
      match th.rpc
      case RLoadFirst | RUnlockEmpty | RLockFirst | RUnlockLast => {th.prev}
      case RTest | RUnlockPrev | RUnlockCur => {th.prev, th.cur}
      case RLoadNext | RLockNext => {th.cur}
      case RAdvance => {th.cur, th.nxt}
      case RTop | RLockStart | RDone | RFault => {}
    else
      match th.spc
      case SLoadCur | SUnlockEmpty | SLockCur | STailUnlockPrev | SSkipUnlockPrev | SUnlockPrev => {th.prev}
      case SLoadNext | STailUnlockCur | SChoose | SLockNext | SSkipUnlockCur | SUnlockCur => {th.prev, th.cur}
      case SCheckPrev | SCheckCur | SLoadNextNext | SWritePrev | SWriteCur | SWriteNext | SUnlockNext =>
        {th.prev, th.cur, th.nxt}
      case STop | SInner | SLockPrev | SAdvance | SDone => {}
  }

  /** `b` directly follows `a` in the intended order. */
  ghost predicate Adj(m: Mem, a: Node, b: Node) {
    a < |m.pos| && b < |m.pos| && m.pos[b] == m.pos[a] + 1
  }

  ghost predicate IsLast(m: Mem, a: Node) {
    a < |m.pos| && m.pos[a] + 1 == |m.pos|
  }

  /** The pointer that `x` ought to hold: its successor in the intended order. */
  ghost function Succ(m: Mem, x: Node): Ptr
    requires x < |m.pos|
  {
    if m.pos[x] + 1 < |m.order| then At(m.order[m.pos[x] + 1]) else Null
  }

  /** Nodes whose `next` field lags behind the intended order, because the thread still
      has a store to make. */
  function Lagging(th: Thread): set<Node> {
    if th.Swapper? && th.spc.SWriteCur? then {th.cur, th.nxt}
    else if th.Swapper? && th.spc.SWriteNext? then {th.nxt}
    else {}
  }

  ghost predicate Duplicates<T>(xs: seq<T>) {
    exists i, j :: 0 <= i < j < |xs| && xs[i] == xs[j]
  }

  /** `seen` lists each node up to and including `top` in the intended order exactly once,
      the sentinel first and `top` last. */
  ghost predicate Covers(m: Mem, seen: seq<Node>, top: Node)
    requires top < |m.pos|
  {
    && |seen| == m.pos[top] + 1
    && seen[0] == START && seen[|seen| - 1] == top
    && !Duplicates(seen)
    && (forall x: Node {:trigger x in seen} :: x in seen <==> x < |m.pos| && m.pos[x] <= m.pos[top])
  }

  /** `seen` lists each of the `n` nodes exactly once, the sentinel first. */
  ghost predicate WholeList(seen: seq<Node>, n: nat) {
    && |seen| == n > 0 && seen[0] == START
    && !Duplicates(seen)
    && (forall x: Node {:trigger x in seen} :: x in seen <==> x < n)
  }

  /** The number of consecutive pairs at the end of `seen`, past the sentinel, that satisfy
      the comparison. */
  function Streak(cmp: Comparison, lens: seq<nat>, seen: seq<Node>): nat {
    var k := |seen|;
    if k > 2 && seen[k - 2] < |lens| && seen[k - 1] < |lens| && Compare(cmp, lens[seen[k - 2]], lens[seen[k - 1]])
    then Streak(cmp, lens, seen[..k - 1]) + 1
    else 0
  }

  // ------------------------------------------------------------ what each thread knows

  ghost predicate ReaderKnows(m: Mem, lens: seq<nat>, th: Thread)
    requires ShapeThread(th, |m.pos|) && th.Reader?
  {
    match th.rpc
    case RTop | RDone => true
    case RLockStart => th.prev == START
    case RLoadFirst => th.prev == START && Covers(m, th.seen, th.prev)
    case RUnlockEmpty => th.prev == START && Covers(m, th.seen, th.prev) && IsLast(m, th.prev)
    case RLockFirst => th.prev == START && Covers(m, th.seen, th.prev) && Adj(m, th.prev, th.cur)
    case RTest =>
      && Covers(m, th.seen, th.cur) && Adj(m, th.prev, th.cur)
      && th.counter == Streak(th.cmp, lens, th.seen)
    case RUnlockPrev | RLoadNext =>
      && Covers(m, th.seen, th.cur) && !IsLast(m, th.cur) && th.cur != START && th.prev != th.cur
      && th.counter == Streak(th.cmp, lens, th.seen)
    case RLockNext =>
      && Covers(m, th.seen, th.cur) && Adj(m, th.cur, th.nxt) && th.cur != START
      && th.counter == Streak(th.cmp, lens, th.seen)
    case RAdvance =>
      && Covers(m, th.seen, th.nxt) && Adj(m, th.cur, th.nxt) && th.cur != START
      && th.seen[|th.seen| - 2] == th.cur
      && th.counter == Streak(th.cmp, lens, th.seen[..|th.seen| - 1])
    case RUnlockCur =>
      && Covers(m, th.seen, th.cur) && IsLast(m, th.cur) && th.prev != th.cur
      && th.counter == Streak(th.cmp, lens, th.seen)
    case RUnlockLast =>
      && WholeList(th.seen, |m.pos|)
      && th.counter == Streak(th.cmp, lens, th.seen)
    case RFault => false
  }

  ghost predicate SwapperKnows(m: Mem, th: Thread)
    requires ShapeThread(th, |m.pos|) && th.Swapper?
  {
    match th.spc
    case SLockCur | SLoadNext | STailUnlockCur | SSkipUnlockCur => Adj(m, th.prev, th.cur)
    case SChoose | SLockNext | SCheckPrev | SCheckCur | SLoadNextNext =>
      Adj(m, th.prev, th.cur) && Adj(m, th.cur, th.nxt)
    case SWritePrev => Adj(m, th.prev, th.cur) && Adj(m, th.cur, th.nxt) && th.nn == Succ(m, th.nxt)
    case SWriteCur => Adj(m, th.prev, th.nxt) && Adj(m, th.nxt, th.cur) && th.nn == Succ(m, th.cur)
    case SWriteNext | SUnlockNext => Adj(m, th.prev, th.nxt) && Adj(m, th.nxt, th.cur)
    case SUnlockCur => th.prev != th.cur
    case STop | SInner | SLockPrev | SAdvance | SDone => true
    case SLoadCur | SUnlockEmpty | STailUnlockPrev | SSkipUnlockPrev | SUnlockPrev => true
  }

  ghost predicate Knows(m: Mem, lens: seq<nat>, th: Thread)
    requires ShapeThread(th, |m.pos|)
  {
    if th.Reader? then ReaderKnows(m, lens, th) else SwapperKnows(m, th)
  }

  // ------------------------------------------------------------ the shared part

  ghost predicate NobodyLags(threads: seq<Thread>, x: Node) {
    forall t :: 0 <= t < |threads| ==> x !in Lagging(threads[t])
  }

  /** Every pointer follows the intended order, except where a swap still has to store it. */
  ghost predicate Linked(m: Mem, threads: seq<Thread>)
    requires |m.next| == |m.pos|
  {
    forall x :: 0 <= x < |m.next| && NobodyLags(threads, x) ==> m.next[x] == Succ(m, x)
  }

  /** The sentinel stays in front, and no pointer ever leads back to it or to its own node. */
  ghost predicate Headed(m: Mem) {
    && |m.pos| > 0 && m.pos[START] == 0
    && (forall x :: 0 <= x < |m.next| ==> m.next[x] != At(START) && m.next[x] != At(x))
  }

  /** The locks record exactly the nodes that the program counters say are held. */
  ghost predicate HoldersAgree(holders: seq<set<Tid>>, threads: seq<Thread>) {
    forall x: Node, t: Tid {:trigger t in holders[x]} {:trigger x in Held(threads[t])} :: x < |holders| ==>
      (t in holders[x] <==> t < |threads| && x in Held(threads[t]))
  }

  /** No two threads hold a node together unless both took it for reading. */
  ghost predicate Excluded(kind: LockKind, threads: seq<Thread>) {
    forall t, u, x :: 0 <= t < |threads| && 0 <= u < |threads| && t != u ==>
      (Exclusive(kind, threads[t]) && x in Held(threads[t]) ==> x !in Held(threads[u]))
  }

  ghost predicate Inv(s: State) {
    && Shape(s)
    && Headed(s.mem)
    && Linked(s.mem, s.threads)
    && HoldersAgree(s.holders, s.threads)
    && Excluded(s.kind, s.threads)
    && (forall t :: 0 <= t < |s.threads| ==> Knows(s.mem, s.lens, s.threads[t]))
  }

  // ------------------------------------------------------------ small facts

  lemma LaggingIsHeld(th: Thread)
    ensures Lagging(th) <= Held(th)
  {
  }

  /** A node that thread `t` holds points where it should, unless `t` itself still has to store it. */
  lemma HeldIsLinked(s: State, t: Tid, x: Node)
    requires Inv(s) && t < |s.threads| && x in Held(s.threads[t]) && x < |s.lens|
    requires Lagging(s.threads[t]) == {}
    ensures s.mem.next[x] == Succ(s.mem, x)
  {
    forall u | 0 <= u < |s.threads|
      ensures x !in Lagging(s.threads[u])
    {
      LaggingIsHeld(s.threads[u]);
      LaggingIsExclusive(s, u);
    }
    assert NobodyLags(s.threads, x);
  }

  lemma LaggingIsExclusive(s: State, u: Tid)
    requires Inv(s) && u < |s.threads|
    ensures Lagging(s.threads[u]) != {} ==> Exclusive(s.kind, s.threads[u])
  {
    assert Knows(s.mem, s.lens, s.threads[u]);
  }

  lemma CoversExtend(m: Mem, n: nat, seen: seq<Node>, a: Node, b: Node)
    requires ShapeMem(m, n) && a < n && b < n
    requires Covers(m, seen, a) && Adj(m, a, b)
    ensures Covers(m, seen + [b], b)
  {
    var more := seen + [b];
    assert b !in seen;
    forall i, j | 0 <= i < j < |more|
      ensures more[i] != more[j]
    {
      if j == |seen| {
        assert more[i] == seen[i] && seen[i] in seen;
      } else {
        assert more[i] == seen[i] && more[j] == seen[j];
        assert !Duplicates(seen);
      }
    }
    forall x: Node
      ensures x in more <==> x < |m.pos| && m.pos[x] <= m.pos[b]
    {
      assert x in more <==> x in seen || x == b;
      if x < |m.pos| && m.pos[x] == m.pos[b] {
        assert x == m.order[m.pos[x]] == b;
      }
    }
  }

  lemma CoversStart(m: Mem, n: nat)
    requires ShapeMem(m, n) && n > 0 && Headed(m)
    ensures Covers(m, [START], START)
  {
    forall x: Node
      ensures x in [START] <==> x < |m.pos| && m.pos[x] <= m.pos[START]
    {
      if x < |m.pos| && m.pos[x] <= 0 {
        assert x == m.order[m.pos[x]] == m.order[m.pos[START]] == START;
      }
    }
  }

  // ------------------------------------------------------------ a step of one thread

  /** The load of a step returns the pointer that belongs in the node it reads. */
  ghost predicate LoadsTruly(m: Mem, n: nat, th: Thread)
    requires ShapeMem(m, n) && ShapeThread(th, n)
  {
    OpOf(th).Load? && !(th.Swapper? && th.spc.SAdvance?) ==> m.next[OpOf(th).x] == Succ(m, OpOf(th).x)
  }

  ghost predicate Ready(m: Mem, lens: seq<nat>, th: Thread) {
    && |lens| > 0 && ShapeMem(m, |lens|) && Headed(m)
    && ShapeThread(th, |lens|) && Knows(m, lens, th) && LoadsTruly(m, |lens|, th)
  }

  ghost predicate ReaderStillKnows(m: Mem, kind: LockKind, lens: seq<nat>, th: Thread, stop: bool)
    requires Ready(m, lens, th) && th.Reader?
  {
    ReaderShape(th, kind, lens, Loaded(m, OpOf(th)), stop);
    ReaderKnows(m, lens, ReaderAfter(th, kind, lens, Loaded(m, OpOf(th)), stop))
  }

  /** The swapper knows all it has to after its step, in the list `m'` that the step leaves. */
  ghost predicate SwapperStillKnows(m: Mem, m': Mem, lens: seq<nat>, th: Thread, stop: bool, draw: bool)
    requires Ready(m, lens, th) && th.Swapper? && ShapeMem(m', |lens|)
  {
    SwapperShape(th, |lens|, Loaded(m, OpOf(th)), stop, draw);
    SwapperKnows(m', SwapperAfter(th, Loaded(m, OpOf(th)), stop, draw))
  }

  lemma ReaderStarts(m: Mem, kind: LockKind, lens: seq<nat>, th: Thread, stop: bool)
    requires Ready(m, lens, th) && th.Reader?
    requires th.rpc in {RTop, RLockStart, RLoadFirst, RUnlockEmpty, RLockFirst}
    ensures ReaderStillKnows(m, kind, lens, th, stop)
  {
    if th.rpc.RLockStart? {
      CoversStart(m, |lens|);
    } else if th.rpc.RLockFirst? {
      CoversExtend(m, |lens|, th.seen, th.prev, th.cur);
    }
  }

  lemma ReaderLooksAhead(m: Mem, kind: LockKind, lens: seq<nat>, th: Thread, stop: bool)
    requires Ready(m, lens, th) && th.Reader? && th.rpc in {RTest, RUnlockPrev, RLoadNext}
    ensures ReaderStillKnows(m, kind, lens, th, stop)
  {
  }

  lemma ReaderMoves(m: Mem, kind: LockKind, lens: seq<nat>, th: Thread, stop: bool)
    requires Ready(m, lens, th) && th.Reader? && th.rpc in {RLockNext, RAdvance}
    ensures ReaderStillKnows(m, kind, lens, th, stop)
  {
    if th.rpc.RLockNext? {
      CoversExtend(m, |lens|, th.seen, th.cur, th.nxt);
      assert (th.seen + [th.nxt])[..|th.seen|] == th.seen;
    }
  }

  lemma ReaderFinishes(m: Mem, kind: LockKind, lens: seq<nat>, th: Thread, stop: bool)
    requires Ready(m, lens, th) && th.Reader? && th.rpc in {RUnlockCur, RUnlockLast, RDone, RFault}
    ensures ReaderStillKnows(m, kind, lens, th, stop)
  {
  }

  lemma ReaderKeepsKnowing(m: Mem, kind: LockKind, lens: seq<nat>, th: Thread, stop: bool)
    requires Ready(m, lens, th) && th.Reader?
    ensures ReaderStillKnows(m, kind, lens, th, stop)
  {
    if th.rpc in {RTop, RLockStart, RLoadFirst, RUnlockEmpty, RLockFirst} {
      ReaderStarts(m, kind, lens, th, stop);
    } else if th.rpc in {RTest, RUnlockPrev, RLoadNext} {
      ReaderLooksAhead(m, kind, lens, th, stop);
    } else if th.rpc in {RLockNext, RAdvance} {
      ReaderMoves(m, kind, lens, th, stop);
    } else {
      ReaderFinishes(m, kind, lens, th, stop);
    }
  }

  lemma SwapperEnters(m: Mem, lens: seq<nat>, th: Thread, stop: bool, draw: bool)
    requires Ready(m, lens, th) && th.Swapper? && th.spc in {STop, SInner, SLockPrev, SUnlockEmpty, SLockCur}
    ensures SwapperStillKnows(m, m, lens, th, stop, draw)
  {
  }

  lemma SwapperFinds(m: Mem, lens: seq<nat>, th: Thread, stop: bool, draw: bool)
    requires Ready(m, lens, th) && th.Swapper? && th.spc in {SLoadCur, SAdvance}
    ensures SwapperStillKnows(m, m, lens, th, stop, draw)
  {
  }

  lemma SwapperFindsNext(m: Mem, lens: seq<nat>, th: Thread, stop: bool, draw: bool)
    requires Ready(m, lens, th) && th.Swapper? && th.spc.SLoadNext?
    ensures SwapperStillKnows(m, m, lens, th, stop, draw)
  {
  }

  lemma SwapperChecks(m: Mem, lens: seq<nat>, th: Thread, stop: bool, draw: bool)
    requires Ready(m, lens, th) && th.Swapper? && th.spc in {SChoose, SLockNext, SCheckPrev, SCheckCur}
    ensures SwapperStillKnows(m, m, lens, th, stop, draw)
  {
  }

  lemma SwapperLeaves(m: Mem, lens: seq<nat>, th: Thread, stop: bool, draw: bool)
    requires Ready(m, lens, th) && th.Swapper? && th.spc in {SLoadNextNext, SUnlockNext, SUnlockCur, SUnlockPrev, SDone}
    ensures SwapperStillKnows(m, m, lens, th, stop, draw)
  {
  }

  lemma SwapperSkips(m: Mem, lens: seq<nat>, th: Thread, stop: bool, draw: bool)
    requires Ready(m, lens, th) && th.Swapper?
    requires th.spc in {STailUnlockCur, STailUnlockPrev, SSkipUnlockCur, SSkipUnlockPrev}
    ensures SwapperStillKnows(m, m, lens, th, stop, draw)
  {
  }

  lemma SwapperWritesPrev(m: Mem, lens: seq<nat>, th: Thread, stop: bool, draw: bool)
    requires Ready(m, lens, th) && th.Swapper? && th.spc.SWritePrev?
    ensures SwapperStillKnows(m, NewMem(m, th, |lens|), lens, th, stop, draw)
  {
  }

  lemma SwapperWrites(m: Mem, lens: seq<nat>, th: Thread, stop: bool, draw: bool)
    requires Ready(m, lens, th) && th.Swapper? && th.spc in {SWriteCur, SWriteNext}
    ensures SwapperStillKnows(m, NewMem(m, th, |lens|), lens, th, stop, draw)
  {
  }

  /** Only the three stores of a swap change the list. */
  lemma QuietStepLeavesMem(m: Mem, n: nat, th: Thread)
    requires ShapeMem(m, n) && ShapeThread(th, n)
    ensures th.Reader? || !(th.spc in {SWritePrev, SWriteCur, SWriteNext}) ==> NewMem(m, th, n) == m
  {
  }

  lemma SwapperKeepsKnowing(m: Mem, lens: seq<nat>, th: Thread, stop: bool, draw: bool)
    requires Ready(m, lens, th) && th.Swapper?
    ensures SwapperStillKnows(m, NewMem(m, th, |lens|), lens, th, stop, draw)
  {
    QuietStepLeavesMem(m, |lens|, th);
    hide SwapperStillKnows, NewMem, Ready;
    if th.spc.SWritePrev? {
      SwapperWritesPrev(m, lens, th, stop, draw);
    } else if th.spc in {SWriteCur, SWriteNext} {
      SwapperWrites(m, lens, th, stop, draw);
    } else if th.spc in {STop, SInner, SLockPrev, SUnlockEmpty, SLockCur} {
      SwapperEnters(m, lens, th, stop, draw);
    } else if th.spc in {SLoadCur, SAdvance} {
      SwapperFinds(m, lens, th, stop, draw);
    } else if th.spc.SLoadNext? {
      SwapperFindsNext(m, lens, th, stop, draw);
    } else if th.spc in {SChoose, SLockNext, SCheckPrev, SCheckCur} {
      SwapperChecks(m, lens, th, stop, draw);
    } else if th.spc in {STailUnlockCur, STailUnlockPrev, SSkipUnlockCur, SSkipUnlockPrev} {
      SwapperSkips(m, lens, th, stop, draw);
    } else {
      SwapperLeaves(m, lens, th, stop, draw);
    }
  }

  // ------------------------------------------------------------ locks

  /** The locks held after an operation are the ones its lock or unlock accounts for. */
  predicate HeldTracks(op: Op, before: set<Node>, after: set<Node>) {
    match op
    case Lock(x) => after == before + {x}
    case Unlock(x) => x in before && after == before - {x}
    case _ => after == before
  }

  /** What the bookkeeping of locks needs of the locals: nodes unlocked apart are distinct, and
      a reader that re-reads a pointer finds the node it has just locked. */
  predicate LocalsApart(th: Thread, loaded: Ptr) {
    if th.Reader? then
      && (th.rpc in {RUnlockPrev, RUnlockCur} ==> th.prev != th.cur)
      && (th.rpc == RAdvance ==> loaded == At(th.nxt))
      && th.rpc != RFault && (th.rpc == RLoadNext ==> loaded.At?)
    else
      && (th.spc in {STailUnlockCur, SSkipUnlockCur, SUnlockNext, SUnlockCur} ==> th.prev != th.cur)
      && (th.spc == SUnlockNext ==> th.nxt != th.prev && th.nxt != th.cur)
  }

  lemma ReaderHeldTracks(kind: LockKind, lens: seq<nat>, th: Thread, loaded: Ptr, stop: bool)
    requires th.Reader? && th.cur < |lens| && th.nxt < |lens| && LocalsApart(th, loaded)
    ensures HeldTracks(OpOf(th), Held(th), Held(ReaderAfter(th, kind, lens, loaded, stop)))
  {
  }

  predicate Unlocking(th: Thread) {
    th.Swapper? &&
    th.spc in {SUnlockEmpty, STailUnlockCur, STailUnlockPrev, SUnlockNext, SUnlockCur, SUnlockPrev,
      SSkipUnlockCur, SSkipUnlockPrev}
  }

  lemma UnlockingHeldTracks(th: Thread, loaded: Ptr, stop: bool, draw: bool)
    requires Unlocking(th) && LocalsApart(th, loaded)
    ensures HeldTracks(OpOf(th), Held(th), Held(SwapperAfter(th, loaded, stop, draw)))
  {
  }

  lemma SearchingHeldTracks(th: Thread, loaded: Ptr, stop: bool, draw: bool)
    requires th.Swapper? && !Unlocking(th) && LocalsApart(th, loaded)
    ensures HeldTracks(OpOf(th), Held(th), Held(SwapperAfter(th, loaded, stop, draw)))
  {
  }

  lemma SwapperHeldTracks(th: Thread, loaded: Ptr, stop: bool, draw: bool)
    requires th.Swapper? && LocalsApart(th, loaded)
    ensures HeldTracks(OpOf(th), Held(th), Held(SwapperAfter(th, loaded, stop, draw)))
  {
    if Unlocking(th) {
      UnlockingHeldTracks(th, loaded, stop, draw);
    } else {
      SearchingHeldTracks(th, loaded, stop, draw);
    }
  }

  lemma ReadyLocalsApart(m: Mem, lens: seq<nat>, th: Thread)
    requires Ready(m, lens, th)
    ensures LocalsApart(th, Loaded(m, OpOf(th)))
  {
  }

  /** A thread about to step knows enough to step. */
  lemma ThreadIsReady(s: State, t: Tid)
    requires Inv(s) && t < |s.threads|
    ensures Ready(s.mem, s.lens, s.threads[t])
  {
    var th := s.threads[t];
    assert Knows(s.mem, s.lens, th);
    if OpOf(th).Load? && !(th.Swapper? && th.spc.SAdvance?) {
      assert OpOf(th).x in Held(th);
      HeldIsLinked(s, t, OpOf(th).x);
    }
  }

  lemma StepHeldTracks(s: State, t: Tid, draw: bool)
    requires Inv(s) && t < |s.threads|
    ensures HeldTracks(OpOf(s.threads[t]), Held(s.threads[t]), Held(After(s, t, draw)))
  {
    ThreadIsReady(s, t);
    ReadyLocalsApart(s.mem, s.lens, s.threads[t]);
    var loaded := Loaded(s.mem, OpOf(s.threads[t]));
    if s.threads[t].Reader? {
      ReaderHeldTracks(s.kind, s.lens, s.threads[t], loaded, s.stop);
    } else {
      SwapperHeldTracks(s.threads[t], loaded, s.stop, draw);
    }
  }

  /** The bookkeeping of one lock operation, whatever the program around it does. */
  lemma LocksTrack(kind: LockKind, holders: seq<set<Tid>>, threads: seq<Thread>, t: Tid, th': Thread)
    requires HoldersAgree(holders, threads) && Excluded(kind, threads) && t < |threads|
    requires var op := OpOf(threads[t]);
      && HeldTracks(op, Held(threads[t]), Held(th'))
      && (op.Lock? ==> && op.x < |holders|
                       && forall u :: 0 <= u < |threads| && u != t && u in holders[op.x] ==>
                            !Exclusive(kind, threads[t]) && !Exclusive(kind, threads[u]))
      && (op.Unlock? ==> op.x < |holders|)
    requires th'.Reader? == threads[t].Reader?
    ensures HoldersAgree(NewHolders(holders, OpOf(threads[t]), t), threads[t := th'])
    ensures Excluded(kind, threads[t := th'])
  {
    var op := OpOf(threads[t]);
    var threads' := threads[t := th'];
    var holders' := NewHolders(holders, op, t);
    forall x: Node, u: Tid | x < |holders'|
      ensures u in holders'[x] <==> u < |threads'| && x in Held(threads'[u])
    {
      assert u in holders[x] <==> u < |threads| && x in Held(threads[u]);
    }
    forall v, u, x | 0 <= v < |threads'| && 0 <= u < |threads'| && v != u
      && Exclusive(kind, threads'[v]) && x in Held(threads'[v])
      ensures x !in Held(threads'[u])
    {
      assert op == Lock(x) ==> (u in holders[x] <==> x in Held(threads[u]));
      assert op == Lock(x) ==> (v in holders[x] <==> x in Held(threads[v]));
    }
  }

  /** A lock that is taken is not held, unless all concerned only read. */
  lemma LockIsFree(s: State, t: Tid)
    requires Shape(s) && Enabled(s, t)
    ensures var op := OpOf(s.threads[t]);
      && (op.Lock? ==> && op.x < |s.holders|
                       && forall u :: 0 <= u < |s.threads| && u != t && u in s.holders[op.x] ==>
                            !Exclusive(s.kind, s.threads[t]) && !Exclusive(s.kind, s.threads[u]))
      && (op.Unlock? ==> op.x < |s.holders|)
    ensures After(s, t, true).Reader? == After(s, t, false).Reader? == s.threads[t].Reader?
  {
  }

  lemma StepKeepsLocks(s: State, t: Tid, draw: bool)
    requires Inv(s) && Enabled(s, t)
    ensures HoldersAgree(Step(s, t, draw).holders, Step(s, t, draw).threads)
    ensures Excluded(s.kind, Step(s, t, draw).threads)
  {
    StepHeldTracks(s, t, draw);
    LockIsFree(s, t);
    hide Linked, Headed, Knows, HoldersAgree, Excluded, HeldTracks, NewMem, NewHolders, Held, CanLock;
    LocksTrack(s.kind, s.holders, s.threads, t, After(s, t, draw));
  }

  // ------------------------------------------------------------ the other threads

  /** After the first store of a swap, everything about a node outside the swap is as before. */
  lemma SwapLeavesOthers(m: Mem, n: nat, th: Thread, a: Node)
    requires ShapeMem(m, n) && ShapeThread(th, n) && th.Swapper? && th.spc.SWritePrev?
    requires SwapperKnows(m, th)
    requires a < n && a != th.prev && a != th.cur && a != th.nxt
    ensures NewMem(m, th, n).pos[a] == m.pos[a] && Succ(NewMem(m, th, n), a) == Succ(m, a)
    ensures forall x :: 0 <= x < n ==> (NewMem(m, th, n).pos[x] <= m.pos[a] <==> m.pos[x] <= m.pos[a])
  {
    assert m.order[m.pos[a]] == a && m.order[m.pos[th.cur]] == th.cur && m.order[m.pos[th.prev]] == th.prev;
    assert m.order[m.pos[th.nxt]] == th.nxt;
  }

  /** The other stores leave the intended order alone. */
  lemma OnlySwapsReorder(m: Mem, n: nat, th: Thread)
    requires ShapeMem(m, n) && ShapeThread(th, n) && !(th.Swapper? && th.spc.SWritePrev?)
    ensures NewMem(m, th, n).order == m.order && NewMem(m, th, n).pos == m.pos
  {
  }

  lemma CoversSurvive(m: Mem, lens: seq<nat>, th: Thread, seen: seq<Node>, top: Node)
    requires Ready(m, lens, th) && th.Swapper? && th.spc.SWritePrev?
    requires top < |lens| && top !in Held(th) && Covers(m, seen, top)
    ensures Covers(NewMem(m, th, |lens|), seen, top)
  {
    SwapLeavesOthers(m, |lens|, th, top);
    var m' := NewMem(m, th, |lens|);
    forall x: Node
      ensures x in seen <==> x < |m'.pos| && m'.pos[x] <= m'.pos[top]
    {
      assert x in seen <==> x < |m.pos| && m.pos[x] <= m.pos[top];
    }
  }

  lemma AdjSurvives(m: Mem, lens: seq<nat>, th: Thread, a: Node, b: Node)
    requires Ready(m, lens, th) && th.Swapper? && th.spc.SWritePrev?
    requires a < |lens| && a !in Held(th) && Adj(m, a, b)
    ensures Adj(NewMem(m, th, |lens|), a, b)
  {
    SwapLeavesOthers(m, |lens|, th, a);
    var m' := NewMem(m, th, |lens|);
    assert m.order[m.pos[b]] == b;
    assert Succ(m, a) == At(b);
    hide NewMem;
    assert m'.pos[m'.order[m'.pos[a] + 1]] == m'.pos[a] + 1;
  }

  predicate AtStart(th: Thread) {
    th.Reader? && th.rpc in {RTop, RLockStart, RLoadFirst, RUnlockEmpty, RLockFirst, RDone, RFault}
  }

  lemma StartingReaderSurvivesSwap(m: Mem, lens: seq<nat>, th: Thread, other: Thread)
    requires Ready(m, lens, th) && th.Swapper? && th.spc.SWritePrev?
    requires AtStart(other) && ShapeThread(other, |lens|) && ReaderKnows(m, lens, other)
    requires Held(other) !! Held(th)
    ensures ReaderKnows(NewMem(m, th, |lens|), lens, other)
  {
    hide NewMem, Covers, Headed;
    if other.rpc in {RLoadFirst, RUnlockEmpty, RLockFirst} {
      assert other.prev in Held(other);
      CoversSurvive(m, lens, th, other.seen, other.prev);
      SwapLeavesOthers(m, |lens|, th, other.prev);
    }
    if other.rpc.RLockFirst? {
      AdjSurvives(m, lens, th, other.prev, other.cur);
    }
  }

  lemma WalkingReaderSurvivesSwap(m: Mem, lens: seq<nat>, th: Thread, other: Thread)
    requires Ready(m, lens, th) && th.Swapper? && th.spc.SWritePrev?
    requires other.Reader? && !AtStart(other) && ShapeThread(other, |lens|) && ReaderKnows(m, lens, other)
    requires Held(other) !! Held(th)
    ensures ReaderKnows(NewMem(m, th, |lens|), lens, other)
  {
    hide NewMem, Covers, Headed, Streak;
    if other.rpc in {RTest, RUnlockPrev, RLoadNext, RLockNext, RUnlockCur} {
      assert other.cur in Held(other);
      CoversSurvive(m, lens, th, other.seen, other.cur);
      SwapLeavesOthers(m, |lens|, th, other.cur);
    } else if other.rpc.RAdvance? {
      CoversSurvive(m, lens, th, other.seen, other.nxt);
    }
    if other.rpc.RTest? {
      AdjSurvives(m, lens, th, other.prev, other.cur);
    } else if other.rpc in {RLockNext, RAdvance} {
      AdjSurvives(m, lens, th, other.cur, other.nxt);
    }
  }

  lemma SwapperSurvivesSwap(m: Mem, lens: seq<nat>, th: Thread, other: Thread)
    requires Ready(m, lens, th) && th.Swapper? && th.spc.SWritePrev?
    requires other.Swapper? && ShapeThread(other, |lens|) && SwapperKnows(m, other)
    requires Held(other) !! Held(th)
    ensures SwapperKnows(NewMem(m, th, |lens|), other)
  {
    forall a | a in Held(other) && a < |lens|
      ensures Succ(NewMem(m, th, |lens|), a) == Succ(m, a)
      ensures forall b :: Adj(m, a, b) ==> Adj(NewMem(m, th, |lens|), a, b)
    {
      SwapLeavesOthers(m, |lens|, th, a);
      forall b | Adj(m, a, b)
        ensures Adj(NewMem(m, th, |lens|), a, b)
      {
        AdjSurvives(m, lens, th, a, b);
      }
    }
  }

  lemma OthersKeepKnowing(s: State, t: Tid, u: Tid)
    requires Inv(s) && t < |s.threads| && u < |s.threads| && u != t
    ensures Knows(NewMem(s.mem, s.threads[t], |s.lens|), s.lens, s.threads[u])
  {
    var th, other := s.threads[t], s.threads[u];
    assert Knows(s.mem, s.lens, other);
    if th.Swapper? && th.spc.SWritePrev? {
      ThreadIsReady(s, t);
      assert Held(other) !! Held(th) by {
        assert Exclusive(s.kind, th);
      }
      if AtStart(other) {
        StartingReaderSurvivesSwap(s.mem, s.lens, th, other);
      } else if other.Reader? {
        WalkingReaderSurvivesSwap(s.mem, s.lens, th, other);
      } else {
        SwapperSurvivesSwap(s.mem, s.lens, th, other);
      }
    } else {
      OnlySwapsReorder(s.mem, |s.lens|, th);
      SameOrderSameKnowledge(s.mem, NewMem(s.mem, th, |s.lens|), s.lens, other);
    }
  }

  /** What a thread knows is about the intended order, not about the pointers. */
  lemma SameOrderSameKnowledge(m: Mem, m': Mem, lens: seq<nat>, th: Thread)
    requires m.order == m'.order && m.pos == m'.pos && ShapeThread(th, |m.pos|)
    requires Knows(m, lens, th)
    ensures Knows(m', lens, th)
  {
    hide Streak;
  }

  lemma ActorKeepsKnowing(s: State, t: Tid, draw: bool)
    requires Inv(s) && Enabled(s, t)
    ensures ShapeThread(After(s, t, draw), |s.lens|)
    ensures Knows(NewMem(s.mem, s.threads[t], |s.lens|), s.lens, After(s, t, draw))
  {
    AfterShape(s, t, draw);
    ThreadIsReady(s, t);
    ReadyKeepsKnowing(s.mem, s.kind, s.lens, s.threads[t], s.stop, draw, After(s, t, draw));
  }

  lemma ReadyKeepsKnowing(m: Mem, kind: LockKind, lens: seq<nat>, th: Thread, stop: bool, draw: bool, th': Thread)
    requires Ready(m, lens, th) && ShapeThread(th', |lens|)
    requires var loaded := Loaded(m, OpOf(th));
      th' == if th.Reader? then ReaderAfter(th, kind, lens, loaded, stop) else SwapperAfter(th, loaded, stop, draw)
    ensures Knows(NewMem(m, th, |lens|), lens, th')
  {
    if th.Reader? {
      QuietStepLeavesMem(m, |lens|, th);
      ReaderKeepsKnowing(m, kind, lens, th, stop);
      assert th'.Reader?;
    } else {
      SwapperKeepsKnowing(m, lens, th, stop, draw);
      assert th'.Swapper?;
    }
  }

  // ------------------------------------------------------------ pointers

  /** The nodes that a step leaves lagging. */
  function LaggingNext(th: Thread): set<Node> {
    if th.Swapper? && th.spc.SWritePrev? then {th.cur, th.nxt}
    else if th.Swapper? && th.spc.SWriteCur? then {th.nxt}
    else {}
  }

  lemma LaggingAfter(s: State, t: Tid, draw: bool)
    requires t < |s.threads| && s.threads[t].cur < |s.lens| && s.threads[t].nxt < |s.lens|
    ensures Lagging(After(s, t, draw)) == LaggingNext(s.threads[t])
  {
  }

  /** The stores of a swap bring the pointers in line one by one. */
  lemma FirstStoreLinks(m: Mem, n: nat, th: Thread, x: Node)
    requires ShapeMem(m, n) && ShapeThread(th, n) && x < n
    requires th.Swapper? && th.spc.SWritePrev? && SwapperKnows(m, th)
    requires m.next[x] == Succ(m, x) && x != th.cur && x != th.nxt
    ensures NewMem(m, th, n).next[x] == Succ(NewMem(m, th, n), x)
  {
    if x != th.prev {
      SwapLeavesOthers(m, n, th, x);
    }
  }

  lemma LaterStoresLink(m: Mem, n: nat, th: Thread, x: Node)
    requires ShapeMem(m, n) && ShapeThread(th, n) && x < n
    requires th.Swapper? && th.spc in {SWriteCur, SWriteNext} && SwapperKnows(m, th)
    requires x !in Lagging(th) ==> m.next[x] == Succ(m, x)
    requires x !in LaggingNext(th)
    ensures NewMem(m, th, n).next[x] == Succ(NewMem(m, th, n), x)
  {
  }

  lemma StoresLink(m: Mem, lens: seq<nat>, th: Thread, x: Node)
    requires Ready(m, lens, th) && x < |lens|
    requires x !in Lagging(th) ==> m.next[x] == Succ(m, x)
    requires x !in LaggingNext(th)
    ensures NewMem(m, th, |lens|).next[x] == Succ(NewMem(m, th, |lens|), x)
  {
    if th.Swapper? && th.spc.SWritePrev? {
      FirstStoreLinks(m, |lens|, th, x);
    } else if th.Swapper? && th.spc in {SWriteCur, SWriteNext} {
      LaterStoresLink(m, |lens|, th, x);
    } else {
      assert NewMem(m, th, |lens|) == m;
    }
  }

  lemma StoreKeepsHead(m: Mem, n: nat, th: Thread)
    requires ShapeMem(m, n) && Headed(m) && ShapeThread(th, n)
    requires th.Swapper? && th.spc in {SWritePrev, SWriteCur, SWriteNext} && SwapperKnows(m, th)
    ensures Headed(NewMem(m, th, n))
  {
    if th.spc.SWriteCur? {
      assert th.nn == Succ(m, th.cur);
    }
  }

  lemma StoresKeepHead(m: Mem, lens: seq<nat>, th: Thread)
    requires Ready(m, lens, th)
    ensures Headed(NewMem(m, th, |lens|))
  {
    QuietStepLeavesMem(m, |lens|, th);
    if th.Swapper? && th.spc in {SWritePrev, SWriteCur, SWriteNext} {
      StoreKeepsHead(m, |lens|, th);
    }
  }

  lemma StepKeepsLinks(s: State, t: Tid, draw: bool)
    requires Inv(s) && Enabled(s, t)
    ensures Linked(NewMem(s.mem, s.threads[t], |s.lens|), s.threads[t := After(s, t, draw)])
    ensures Headed(NewMem(s.mem, s.threads[t], |s.lens|))
  {
    var th, m := s.threads[t], s.mem;
    var m', threads' := NewMem(m, th, |s.lens|), s.threads[t := After(s, t, draw)];
    ThreadIsReady(s, t);
    StoresKeepHead(m, s.lens, th);
    LaggingAfter(s, t, draw);
    forall x | 0 <= x < |m'.next| && NobodyLags(threads', x)
      ensures m'.next[x] == Succ(m', x)
    {
      assert x !in Lagging(threads'[t]);
      if x !in Lagging(th) {
        forall u | 0 <= u < |s.threads|
          ensures x !in Lagging(s.threads[u])
        {
          assert u != t ==> threads'[u] == s.threads[u];
        }
        assert NobodyLags(s.threads, x);
      }
      StoresLink(m, s.lens, th, x);
    }
  }

  // ------------------------------------------------------------ the theorem

  lemma StepKeepsInv(s: State, t: Tid, draw: bool)
    requires Inv(s)
    ensures Inv(Step(s, t, draw))
  {
    if Enabled(s, t) {
      var s' := Step(s, t, draw);
      StepKeepsLocks(s, t, draw);
      StepKeepsLinks(s, t, draw);
      forall u | 0 <= u < |s'.threads|
        ensures Knows(s'.mem, s'.lens, s'.threads[u])
      {
        if u == t {
          ActorKeepsKnowing(s, t, draw);
        } else {
          OthersKeepKnowing(s, t, u);
        }
      }
    }
  }

  lemma ApplyKeepsInv(s: State, e: Event)
    requires Inv(s)
    ensures Inv(Apply(s, e))
  {
    match e
    case Run(t, draw) => StepKeepsInv(s, t, draw);
    case RaiseStop =>
  }

  lemma {:induction false} ExecKeepsInv(s: State, schedule: seq<Event>)
    requires Inv(s)
    ensures Inv(Exec(s, schedule))
    decreases |schedule|
  {
    if schedule != [] {
      ApplyKeepsInv(s, schedule[0]);
      ExecKeepsInv(Apply(s, schedule[0]), schedule[1..]);
    }
  }
}
