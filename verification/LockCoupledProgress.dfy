/**
 What the threads of the lock-coupled list get done, counted in their own moves and in every
 interleaving: readers close passes, swappers come to choose, and a drawn swap is made.
 */
module LockCoupledProgress {
  import opened LockCoupledList
  import opened LockCoupledInvariant
  import opened LockCoupledTheorems

  ghost predicate OwnMove(s: State, t: Tid, e: Event)
    requires Shape(s)
  {
    e.Run? && e.t == t && Enabled(s, t)
  }

  /** The thread's own move, whatever the random draw. */
  lemma OwnMoveIsAfter(s: State, t: Tid, e: Event)
    requires Shape(s) && OwnMove(s, t, e)
    ensures Apply(s, e).threads[t] == After(s, t, e.draw)
    ensures Apply(s, e).mem == NewMem(s.mem, s.threads[t], |s.lens|)
    ensures Apply(s, e).lens == s.lens && Apply(s, e).kind == s.kind && Apply(s, e).stop == s.stop
  {
    hide NewMem, NewHolders, After;
  }

  /** A thread holds on to its nodes, and they to their places, while the others move. */
  lemma OthersKeepHeld(s: State, t: Tid, x: Node, e: Event)
    requires Inv(s) && t < |s.threads| && x < |s.lens| && x in Held(s.threads[t]) && !OwnMove(s, t, e)
    ensures Apply(s, e).mem.pos[x] == s.mem.pos[x] && Apply(s, e).threads[t] == s.threads[t]
  {
    OthersLeaveThread(s, t, e);
    if e.Run? && e.t != t {
      StepFreezesPrefix(s, t, x, e.t, e.draw);
    }
  }

  /** A thread about to lock a node is kept out exactly by another thread that holds the node, unless
      both only read. */
  lemma KeptOutIffHeld(s: State, t: Tid)
    requires Inv(s) && t < |s.threads| && OpOf(s.threads[t]).Lock?
    ensures !Enabled(s, t) <==>
      exists u :: 0 <= u < |s.threads| && OpOf(s.threads[t]).x in Held(s.threads[u])
        && (s.kind.Mutexes? || s.threads[t].Swapper? || s.threads[u].Swapper?)
  {
    var x := OpOf(s.threads[t]).x;
    if Blocked(s, t) {
      var u := BlockedWaitsForSomeone(s, t);
      HoldersHold(s, x, u);
    }
    forall u | 0 <= u < |s.threads| && x in Held(s.threads[u])
      ensures u in s.holders[x]
    {
      assert u in s.holders[x] <==> u < |s.threads| && x in Held(s.threads[u]);
    }
    hide Inv, Held;
  }

  // ------------------------------------------------------------ a drawn swap is made

  /** The outcome of the random choice at the thread's first own move. */
  ghost predicate FirstDraw(s: State, t: Tid, schedule: seq<Event>, draw: bool)
    requires Shape(s)
    decreases |schedule|
  {
    schedule != [] ==>
      if OwnMove(s, t, schedule[0]) then schedule[0].draw == draw
      else FirstDraw(Apply(s, schedule[0]), t, schedule[1..], draw)
  }

  /** Where a swapper is after `k` moves from its choice to swap. */
  function SwapStage(k: nat): SwapperPc {
    if k == 0 then SChoose else if k == 1 then SLockNext else if k == 2 then SCheckPrev else if k == 3 then SCheckCur
    else if k == 4 then SLoadNextNext else if k == 5 then SWritePrev else if k == 6 then SWriteCur
    else if k == 7 then SWriteNext else SUnlockNext
  }

  /** Swapper `t` has made `k` moves of swapping `c` and `x` behind `p`, which is at place `i`. */
  ghost predicate Swapping(s: State, t: Tid, p: Node, c: Node, x: Node, i: nat, tally: nat, k: nat) {
    && Inv(s) && t < |s.threads| && s.threads[t].Swapper? && k <= 8
    && s.threads[t].spc == SwapStage(k)
    && s.threads[t].prev == p && s.threads[t].cur == c && s.threads[t].nxt == x
    && s.mem.pos[p] == i
    && s.threads[t].tally == tally + if k == 8 then 1 else 0
  }

  lemma SecondLookLoads(m: Mem, lens: seq<nat>, th: Thread)
    requires Ready(m, lens, th) && th.Swapper?
    ensures th.spc.SCheckPrev? ==> Loaded(m, OpOf(th)) == At(th.cur)
    ensures th.spc.SCheckCur? ==> Loaded(m, OpOf(th)) == At(th.nxt)
  {
    ReadyRecheckSucceeds(m, lens, th);
    hide Ready;
  }

  lemma SwapperMovesOn(m: Mem, lens: seq<nat>, th: Thread, k: nat, stop: bool, draw: bool)
    requires Ready(m, lens, th) && th.Swapper? && k < 8 && th.spc == SwapStage(k) && (k == 0 ==> draw)
    ensures var th' := SwapperAfter(th, Loaded(m, OpOf(th)), stop, draw);
      && th'.Swapper? && th'.spc == SwapStage(k + 1)
      && th'.prev == th.prev && th'.cur == th.cur && th'.nxt == th.nxt
      && th'.tally == th.tally + if k == 7 then 1 else 0
  {
    hide Ready, ReaderAfter, OpOf, Loaded;
    SecondLookLoads(m, lens, th);
  }

  lemma OwnMoveKeepsPrev(m: Mem, n: nat, th: Thread)
    requires ShapeMem(m, n) && ShapeThread(th, n) && th.Swapper? && (th.spc.SWritePrev? ==> SwapperKnows(m, th))
    ensures NewMem(m, th, n).pos[th.prev] == m.pos[th.prev]
  {
  }

  lemma SwappingMove(s: State, t: Tid, p: Node, c: Node, x: Node, i: nat, tally: nat, k: nat, e: Event)
    requires Swapping(s, t, p, c, x, i, tally, k) && k < 8 && OwnMove(s, t, e) && (k == 0 ==> e.draw)
    ensures Swapping(Apply(s, e), t, p, c, x, i, tally, k + 1)
  {
    ApplyKeepsInv(s, e);
    ThreadIsReady(s, t);
    OwnMoveIsAfter(s, t, e);
    SwapperMovesOn(s.mem, s.lens, s.threads[t], k, s.stop, e.draw);
    OwnMoveKeepsPrev(s.mem, |s.lens|, s.threads[t]);
    hide Ready, NewMem, SwapperAfter, Enabled, Apply, Linked, Headed, HoldersAgree, Excluded, Knows;
  }

  lemma SwappingHolds(s: State, t: Tid, p: Node, c: Node, x: Node, i: nat, tally: nat, k: nat)
    requires Swapping(s, t, p, c, x, i, tally, k)
    ensures p < |s.lens| && p in Held(s.threads[t])
  {
    hide Linked, Headed, HoldersAgree, Excluded, Knows;
  }

  lemma SwappingWaits(s: State, t: Tid, p: Node, c: Node, x: Node, i: nat, tally: nat, k: nat, e: Event)
    requires Swapping(s, t, p, c, x, i, tally, k) && !OwnMove(s, t, e)
    ensures Swapping(Apply(s, e), t, p, c, x, i, tally, k)
  {
    hide Apply, Enabled, OwnMove;
    ApplyKeepsInv(s, e);
    SwappingHolds(s, t, p, c, x, i, tally, k);
    OthersKeepHeld(s, t, p, e);
    hide Inv;
  }

  lemma {:induction false} SwappingGoesOn(s: State, t: Tid, p: Node, c: Node, x: Node, i: nat, tally: nat, k: nat,
      schedule: seq<Event>)
    requires Swapping(s, t, p, c, x, i, tally, k) && Moves(s, t, schedule) == 8 - k
    requires k == 0 ==> FirstDraw(s, t, schedule, true)
    ensures Swapping(Exec(s, schedule), t, p, c, x, i, tally, 8)
    decreases |schedule|
  {
    if schedule != [] {
      var e := schedule[0];
      if OwnMove(s, t, e) {
        SwappingMove(s, t, p, c, x, i, tally, k, e);
        SwappingGoesOn(Apply(s, e), t, p, c, x, i, tally, k + 1, schedule[1..]);
      } else {
        SwappingWaits(s, t, p, c, x, i, tally, k, e);
        SwappingGoesOn(Apply(s, e), t, p, c, x, i, tally, k, schedule[1..]);
      }
    }
  }

  lemma SwapIsInPlace(m: Mem, n: nat, th: Thread)
    requires ShapeMem(m, n) && ShapeThread(th, n) && th.Swapper? && th.spc.SUnlockNext? && SwapperKnows(m, th)
    ensures m.pos[th.nxt] == m.pos[th.prev] + 1 && m.pos[th.cur] == m.pos[th.prev] + 2
    ensures Succ(m, th.prev) == At(th.nxt) && Succ(m, th.nxt) == At(th.cur)
  {
  }

  lemma SwappedNodesAreLinked(s: State, t: Tid)
    requires Inv(s) && t < |s.threads| && s.threads[t].Swapper? && s.threads[t].spc.SUnlockNext?
    ensures var th := s.threads[t];
      && s.mem.pos[th.nxt] == s.mem.pos[th.prev] + 1 && s.mem.pos[th.cur] == s.mem.pos[th.prev] + 2
      && s.mem.next[th.prev] == At(th.nxt) && s.mem.next[th.nxt] == At(th.cur)
      && s.mem.next[th.cur] == Succ(s.mem, th.cur)
  {
    var th := s.threads[t];
    assert Knows(s.mem, s.lens, th);
    assert Lagging(th) == {} && Held(th) == {th.prev, th.cur, th.nxt};
    HeldIsLinked(s, t, th.prev);
    HeldIsLinked(s, t, th.cur);
    HeldIsLinked(s, t, th.nxt);
    hide Linked, HoldersAgree, Excluded, Headed, Held, Lagging;
    SwapIsInPlace(s.mem, |s.lens|, th);
  }

  lemma ChoosingIsSwapping(s: State, t: Tid)
    requires Inv(s) && t < |s.threads| && s.threads[t].Swapper? && s.threads[t].spc.SChoose?
    ensures var th := s.threads[t];
      && Swapping(s, t, th.prev, th.cur, th.nxt, s.mem.pos[th.prev], th.tally, 0)
      && s.mem.pos[th.cur] == s.mem.pos[th.prev] + 1 && s.mem.pos[th.nxt] == s.mem.pos[th.prev] + 2
  {
    assert Knows(s.mem, s.lens, s.threads[t]);
  }

  /** A swapper that draws a swap makes it: whatever the others do meanwhile, once it has made eight
      moves its tally is one higher, the two nodes have exchanged their places behind the first, and the
      pointers say so. */
  lemma DrawnSwapIsMade(s: State, t: Tid, schedule: seq<Event>)
    requires Reachable(s) && Shape(s) && t < |s.threads| && s.threads[t].Swapper? && s.threads[t].spc.SChoose?
    requires Moves(s, t, schedule) == 8 && FirstDraw(s, t, schedule, true)
    ensures var s', th := Exec(s, schedule), s.threads[t];
      && s'.threads[t].tally == th.tally + 1
      && s'.mem.pos[th.prev] == s.mem.pos[th.prev]
      && s'.mem.pos[th.cur] == s.mem.pos[th.nxt] && s'.mem.pos[th.nxt] == s.mem.pos[th.cur]
      && s'.mem.next[th.prev] == At(th.nxt) && s'.mem.next[th.nxt] == At(th.cur)
      && s'.mem.next[th.cur] == Succ(s'.mem, th.cur)
  {
    hide Exec, Moves, FirstDraw, Reachable, Inv;
    ReachableInv(s);
    var th := s.threads[t];
    ChoosingIsSwapping(s, t);
    SwappingGoesOn(s, t, th.prev, th.cur, th.nxt, s.mem.pos[th.prev], th.tally, 0, schedule);
    SwappedNodesAreLinked(Exec(s, schedule), t);
  }

  // ------------------------------------------------------------ after a swap

  function UnlockStage(k: nat): SwapperPc {
    if k == 0 then SUnlockNext else if k == 1 then SUnlockCur else if k == 2 then SUnlockPrev else SInner
  }

  ghost predicate Unlocking(s: State, t: Tid, p: Node, tally: nat, k: nat) {
    && Inv(s) && t < |s.threads| && s.threads[t].Swapper? && k <= 3
    && s.threads[t].spc == UnlockStage(k) && s.threads[t].prev == p && s.threads[t].tally == tally
  }

  lemma UnlockingAfter(th: Thread, loaded: Ptr, stop: bool, draw: bool, k: nat)
    requires th.Swapper? && k < 3 && th.spc == UnlockStage(k)
    ensures SwapperAfter(th, loaded, stop, draw) == th.(spc := UnlockStage(k + 1))
  {
  }

  lemma UnlockingMove(s: State, t: Tid, p: Node, tally: nat, k: nat, e: Event)
    requires Unlocking(s, t, p, tally, k) && k < 3 && OwnMove(s, t, e)
    ensures Unlocking(Apply(s, e), t, p, tally, k + 1)
  {
    hide NewMem, Apply, Enabled, SwapperAfter, ReaderAfter, Linked, Headed, HoldersAgree, Excluded, Knows;
    ApplyKeepsInv(s, e);
    OwnMoveIsAfter(s, t, e);
    UnlockingAfter(s.threads[t], Loaded(s.mem, OpOf(s.threads[t])), s.stop, e.draw, k);
  }

  lemma {:induction false} UnlockingGoesOn(s: State, t: Tid, p: Node, tally: nat, k: nat, schedule: seq<Event>)
    requires Unlocking(s, t, p, tally, k) && Moves(s, t, schedule) == 3 - k
    ensures Unlocking(Exec(s, schedule), t, p, tally, 3)
    decreases |schedule|
  {
    if schedule != [] {
      var e := schedule[0];
      if OwnMove(s, t, e) {
        UnlockingMove(s, t, p, tally, k, e);
        UnlockingGoesOn(Apply(s, e), t, p, tally, k + 1, schedule[1..]);
      } else {
        ApplyKeepsInv(s, e);
        OthersLeaveThread(s, t, e);
        UnlockingGoesOn(Apply(s, e), t, p, tally, k, schedule[1..]);
      }
    }
  }

  /** After a swap three more moves give back the locks, and the swapper looks on from the same node:
      the next draw may move the same node on. */
  lemma SwapperStaysAtNode(s: State, t: Tid, schedule: seq<Event>)
    requires Reachable(s) && Shape(s) && t < |s.threads| && s.threads[t].Swapper? && s.threads[t].spc.SUnlockNext?
    requires Moves(s, t, schedule) == 3
    ensures var th' := Exec(s, schedule).threads[t];
      && th'.Swapper? && th'.spc.SInner? && th'.prev == s.threads[t].prev && th'.tally == s.threads[t].tally
      && Held(th') == {}
  {
    hide Inv, Exec, Moves, Reachable;
    ReachableInv(s);
    UnlockingGoesOn(s, t, s.threads[t].prev, s.threads[t].tally, 0, schedule);
  }

  // ------------------------------------------------------------ otherwise it moves on

  function SkipStage(k: nat): set<SwapperPc> {
    if k == 0 then {SChoose} else if k == 1 then {SSkipUnlockCur} else if k == 2 then {SSkipUnlockPrev}
    else if k == 3 then {SAdvance} else {SInner, STop}
  }

  ghost predicate Skipping(s: State, t: Tid, tally: nat, k: nat) {
    && Inv(s) && t < |s.threads| && s.threads[t].Swapper? && k <= 4
    && s.threads[t].spc in SkipStage(k) && s.threads[t].tally == tally
  }

  /** No move of the thread's own changes the list. */
  ghost predicate LeavesList(s: State, t: Tid, schedule: seq<Event>)
    requires Shape(s)
    decreases |schedule|
  {
    schedule != [] ==>
      && (OwnMove(s, t, schedule[0]) ==> Apply(s, schedule[0]).mem == s.mem)
      && LeavesList(Apply(s, schedule[0]), t, schedule[1..])
  }

  lemma SkippingAfter(th: Thread, loaded: Ptr, stop: bool, draw: bool, k: nat)
    requires th.Swapper? && k < 4 && th.spc in SkipStage(k) && (k == 0 ==> !draw)
    ensures var th' := SwapperAfter(th, loaded, stop, draw);
      th'.Swapper? && th'.spc in SkipStage(k + 1) && th'.tally == th.tally
  {
  }

  lemma SkippingMove(s: State, t: Tid, tally: nat, k: nat, e: Event)
    requires Skipping(s, t, tally, k) && k < 4 && OwnMove(s, t, e) && (k == 0 ==> !e.draw)
    ensures Skipping(Apply(s, e), t, tally, k + 1) && Apply(s, e).mem == s.mem
  {
    hide NewMem, Apply, Enabled, SwapperAfter, ReaderAfter, Linked, Headed, HoldersAgree, Excluded, Knows;
    ApplyKeepsInv(s, e);
    OwnMoveIsAfter(s, t, e);
    QuietStepLeavesMem(s.mem, |s.lens|, s.threads[t]);
    SkippingAfter(s.threads[t], Loaded(s.mem, OpOf(s.threads[t])), s.stop, e.draw, k);
  }

  lemma {:induction false} SkippingGoesOn(s: State, t: Tid, tally: nat, k: nat, schedule: seq<Event>)
    requires Skipping(s, t, tally, k) && Moves(s, t, schedule) == 4 - k
    requires k == 0 ==> FirstDraw(s, t, schedule, false)
    ensures Skipping(Exec(s, schedule), t, tally, 4) && LeavesList(s, t, schedule)
    decreases |schedule|
  {
    if schedule != [] {
      var e := schedule[0];
      if OwnMove(s, t, e) {
        SkippingMove(s, t, tally, k, e);
        SkippingGoesOn(Apply(s, e), t, tally, k + 1, schedule[1..]);
      } else {
        ApplyKeepsInv(s, e);
        OthersLeaveThread(s, t, e);
        SkippingGoesOn(Apply(s, e), t, tally, k, schedule[1..]);
      }
    }
  }

  /** A swapper that does not draw a swap moves on within four moves, none of which changes the list,
      and counts nothing. */
  lemma UndrawnSwapIsSkipped(s: State, t: Tid, schedule: seq<Event>)
    requires Reachable(s) && Shape(s) && t < |s.threads| && s.threads[t].Swapper? && s.threads[t].spc.SChoose?
    requires Moves(s, t, schedule) == 4 && FirstDraw(s, t, schedule, false)
    ensures LeavesList(s, t, schedule)
    ensures var th' := Exec(s, schedule).threads[t];
      th'.tally == s.threads[t].tally && th'.Swapper? && th'.spc in {SInner, STop}
  {
    hide Inv, Exec, Moves, FirstDraw, LeavesList, Reachable;
    ReachableInv(s);
    SkippingGoesOn(s, t, s.threads[t].tally, 0, schedule);
  }

  // ------------------------------------------------------------ coming to choose

  predicate NeverStopped(schedule: seq<Event>) {
    forall i :: 0 <= i < |schedule| ==> schedule[i].Run?
  }

  function ApproachStage(k: nat): SwapperPc {
    if k == 0 then STop else if k == 1 then SInner else if k == 2 then SLockPrev else if k == 3 then SLoadCur
    else if k == 4 then SLockCur else if k == 5 then SLoadNext else SChoose
  }

  ghost predicate Approaching(s: State, t: Tid, k: nat) {
    && Inv(s) && !s.stop && |s.lens| >= 3 && t < |s.threads| && s.threads[t].Swapper? && k <= 6
    && s.threads[t].spc == ApproachStage(k) && (k > 0 ==> s.threads[t].prev == START)
  }

  lemma ApproachingAfter(m: Mem, lens: seq<nat>, th: Thread, k: nat, draw: bool)
    requires Ready(m, lens, th) && |lens| >= 3 && th.Swapper? && k < 6 && th.spc == ApproachStage(k)
    requires k > 0 ==> th.prev == START
    ensures var th' := SwapperAfter(th, Loaded(m, OpOf(th)), false, draw);
      th'.Swapper? && th'.spc == ApproachStage(k + 1) && th'.prev == START
  {
  }

  lemma ApproachingMove(s: State, t: Tid, k: nat, e: Event)
    requires Approaching(s, t, k) && k < 6 && OwnMove(s, t, e)
    ensures Approaching(Apply(s, e), t, k + 1)
  {
    ApplyKeepsInv(s, e);
    ThreadIsReady(s, t);
    OwnMoveIsAfter(s, t, e);
    ApproachingAfter(s.mem, s.lens, s.threads[t], k, e.draw);
    hide Ready, NewMem, SwapperAfter, Enabled, Apply, Linked, Headed, HoldersAgree, Excluded, Knows;
  }

  lemma {:induction false} ApproachingGoesOn(s: State, t: Tid, k: nat, schedule: seq<Event>)
    requires Approaching(s, t, k) && NeverStopped(schedule) && Moves(s, t, schedule) == 6 - k
    ensures Approaching(Exec(s, schedule), t, 6)
    decreases |schedule|
  {
    if schedule != [] {
      var e := schedule[0];
      assert e.Run?;
      if OwnMove(s, t, e) {
        ApproachingMove(s, t, k, e);
        ApproachingGoesOn(Apply(s, e), t, k + 1, schedule[1..]);
      } else {
        ApplyKeepsInv(s, e);
        OthersLeaveThread(s, t, e);
        ApproachingGoesOn(Apply(s, e), t, k, schedule[1..]);
      }
    }
  }

  lemma ChoosesBehindSentinel(s: State, t: Tid)
    requires Approaching(s, t, 6)
    ensures s.mem.pos[s.threads[t].cur] == 1 && s.mem.pos[s.threads[t].nxt] == 2
  {
    assert Knows(s.mem, s.lens, s.threads[t]);
    hide Linked, HoldersAgree, Excluded;
  }

  /** A swapper at the top of its loop comes to choose within six moves, on the sentinel and the two
      nodes behind it, provided that there are two. */
  lemma SwapperComesToChoose(s: State, t: Tid, schedule: seq<Event>)
    requires Reachable(s) && Shape(s) && t < |s.threads| && s.threads[t].Swapper? && s.threads[t].spc.STop?
    requires !s.stop && |s.lens| >= 3 && NeverStopped(schedule) && Moves(s, t, schedule) == 6
    ensures var s' := Exec(s, schedule); var th' := s'.threads[t];
      && th'.Swapper? && th'.spc.SChoose? && th'.prev == START
      && s'.mem.pos[th'.cur] == 1 && s'.mem.pos[th'.nxt] == 2
  {
    ReachableInv(s);
    ApproachingGoesOn(s, t, 0, schedule);
    ChoosesBehindSentinel(Exec(s, schedule), t);
    hide Inv, Exec, Moves, Reachable;
  }

  /** Further on, it goes by what is behind the node: it chooses if there are two more nodes, and
      otherwise goes back to the top. */
  lemma SwapperLooksAhead(s: State, t: Tid, e: Event)
    requires Reachable(s) && Shape(s) && t < |s.threads| && s.threads[t].Swapper? && OwnMove(s, t, e)
    ensures var th, th' := s.threads[t], Apply(s, e).threads[t];
      && (th.spc.SLoadCur? ==>
            if s.mem.pos[th.prev] + 1 == |s.lens| then th'.spc == SUnlockEmpty
            else th'.spc == SLockCur && s.mem.pos[th'.cur] == s.mem.pos[th.prev] + 1)
      && (th.spc.SLoadNext? ==>
            if s.mem.pos[th.cur] + 1 == |s.lens| then th'.spc == STailUnlockCur
            else th'.spc == SChoose && s.mem.pos[th'.nxt] == s.mem.pos[th.cur] + 1)
      && (th.spc.SAdvance? ==>
            if s.mem.next[th.prev].Null? then th'.spc == STop
            else th'.spc == SInner && th'.prev == s.mem.next[th.prev].node)
  {
    ReachableInv(s);
    ThreadIsReady(s, t);
    OwnMoveIsAfter(s, t, e);
    LooksAhead(s.mem, s.lens, s.threads[t], s.stop, e.draw);
    hide Ready, NewMem, SwapperAfter, Enabled, Apply, Linked, Headed, HoldersAgree, Excluded, Knows;
  }

  lemma LooksAhead(m: Mem, lens: seq<nat>, th: Thread, stop: bool, draw: bool)
    requires Ready(m, lens, th) && th.Swapper?
    ensures var th' := SwapperAfter(th, Loaded(m, OpOf(th)), stop, draw);
      && th'.Swapper?
      && (th.spc.SLoadCur? ==>
            if m.pos[th.prev] + 1 == |lens| then th'.spc == SUnlockEmpty
            else th'.spc == SLockCur && m.pos[th'.cur] == m.pos[th.prev] + 1)
      && (th.spc.SLoadNext? ==>
            if m.pos[th.cur] + 1 == |lens| then th'.spc == STailUnlockCur
            else th'.spc == SChoose && m.pos[th'.nxt] == m.pos[th.cur] + 1)
      && (th.spc.SAdvance? ==>
            if m.next[th.prev].Null? then th'.spc == STop
            else th'.spc == SInner && th'.prev == m.next[th.prev].node)
  {
  }

  // ------------------------------------------------------------ rounds end, and start again

  /** How many more moves a swapper's round can take. */
  function RoundLeft(pc: SwapperPc): nat {
    match pc
    case STop | SInner | SDone => 0
    case SLockPrev => 15
    case SLoadCur => 14
    case SLockCur => 13
    case SLoadNext => 12
    case SChoose => 11
    case SLockNext => 10
    case SCheckPrev => 9
    case SCheckCur => 8
    case SLoadNextNext => 7
    case SWritePrev => 6
    case SWriteCur => 5
    case SWriteNext => 4
    case SUnlockNext | SSkipUnlockCur => 3
    case SUnlockCur | STailUnlockCur | SSkipUnlockPrev => 2
    case SUnlockPrev | STailUnlockPrev | SUnlockEmpty | SAdvance => 1
  }

  lemma RoundAfter(th: Thread, loaded: Ptr, stop: bool, draw: bool)
    requires th.Swapper? && th.spc !in {STop, SInner, SDone}
    ensures var th' := SwapperAfter(th, loaded, stop, draw);
      th'.Swapper? && RoundLeft(th'.spc) < RoundLeft(th.spc)
  {
  }

  /** Every move within a round brings its end nearer. */
  lemma RoundDescends(s: State, t: Tid, e: Event)
    requires Shape(s) && t < |s.threads| && s.threads[t].Swapper? && OwnMove(s, t, e)
    requires s.threads[t].spc !in {STop, SInner}
    ensures var th' := Apply(s, e).threads[t];
      th'.Swapper? && RoundLeft(th'.spc) < RoundLeft(s.threads[t].spc)
  {
    hide NewMem, Apply, SwapperAfter, ReaderAfter, RoundLeft;
    OwnMoveIsAfter(s, t, e);
    assert !Halted(s.threads[t]);
    RoundAfter(s.threads[t], Loaded(s.mem, OpOf(s.threads[t])), s.stop, e.draw);
  }

  /** A swapper that finds no further node gives back its locks and ends the round. */
  lemma EmptyHandedRoundEnds(s: State, t: Tid, e: Event)
    requires Inv(s) && t < |s.threads| && s.threads[t].Swapper? && OwnMove(s, t, e)
    ensures var pc, th' := s.threads[t].spc, Apply(s, e).threads[t];
      && th'.Swapper?
      && (pc.STailUnlockCur? ==> th'.spc.STailUnlockPrev? && Held(th') == {th'.prev})
      && (pc in {SUnlockEmpty, STailUnlockPrev} ==> th'.spc.STop? && Held(th') == {})
  {
    OwnMoveIsAfter(s, t, e);
    hide NewMem, Apply, Enabled, Linked, Headed, HoldersAgree, Excluded, Knows;
  }

  /** A thread leaves its loop exactly at the top and exactly when it has been told to; otherwise a
      reader begins a pass there, and a swapper a round on the sentinel. */
  lemma LoopsUntilStopped(s: State, t: Tid, e: Event)
    requires Inv(s) && t < |s.threads| && OwnMove(s, t, e)
    ensures var th, th' := s.threads[t], Apply(s, e).threads[t];
      var top := if th.Reader? then th.rpc.RTop? else th.spc.STop?;
      && (Halted(th') <==> top && s.stop)
      && (th.Reader? && top && !s.stop ==> th'.Reader? && InPass(th') && th'.tally == th.tally)
      && (th.Swapper? && top && !s.stop ==> th'.Swapper? && th'.spc.SInner? && th'.prev == START)
      && (th.Swapper? && th.spc.SInner? ==> th'.spc == if s.stop then STop else SLockPrev)
  {
    ThreadIsReady(s, t);
    OwnMoveIsAfter(s, t, e);
    assert Knows(s.mem, s.lens, s.threads[t]);
    LoopsAfter(s.mem, s.kind, s.lens, s.threads[t], s.stop, e.draw);
    hide Ready, NewMem, SwapperAfter, ReaderAfter, Apply, Linked, Headed, HoldersAgree, Excluded, Knows, CanLock;
  }

  lemma LoopsAfter(m: Mem, kind: LockKind, lens: seq<nat>, th: Thread, stop: bool, draw: bool)
    requires Ready(m, lens, th) && !Halted(th)
    ensures var loaded := Loaded(m, OpOf(th));
      var th' := if th.Reader? then ReaderAfter(th, kind, lens, loaded, stop) else SwapperAfter(th, loaded, stop, draw);
      var top := if th.Reader? then th.rpc.RTop? else th.spc.STop?;
      && (th'.Reader? == th.Reader?) && (Halted(th') <==> top && stop)
      && (th.Reader? && top && !stop ==> InPass(th') && th'.tally == th.tally)
      && (th.Swapper? && top && !stop ==> th'.spc.SInner? && th'.prev == START)
      && (th.Swapper? && th.spc.SInner? ==> th'.spc == if stop then STop else SLockPrev)
  {
    ReadyLocalsApart(m, lens, th);
    if th.Reader? {
      ReaderLoopsAfter(kind, lens, th, Loaded(m, OpOf(th)), stop);
    } else {
      SwapperLoopsAfter(th, Loaded(m, OpOf(th)), stop, draw);
    }
    hide Ready, ReaderAfter, SwapperAfter;
  }

  lemma ReaderLoopsAfter(kind: LockKind, lens: seq<nat>, th: Thread, loaded: Ptr, stop: bool)
    requires th.Reader? && !Halted(th) && th.cur < |lens| && th.nxt < |lens| && LocalsApart(th, loaded)
    ensures var th' := ReaderAfter(th, kind, lens, loaded, stop);
      && th'.Reader? && (Halted(th') <==> th.rpc.RTop? && stop)
      && (th.rpc.RTop? && !stop ==> InPass(th') && th'.tally == th.tally)
  {
  }

  lemma SwapperLoopsAfter(th: Thread, loaded: Ptr, stop: bool, draw: bool)
    requires th.Swapper? && !Halted(th)
    ensures var th' := SwapperAfter(th, loaded, stop, draw);
      && th'.Swapper? && (Halted(th') <==> th.spc.STop? && stop)
      && (th.spc.STop? && !stop ==> th'.spc.SInner? && th'.prev == START)
      && (th.spc.SInner? ==> th'.spc == if stop then STop else SLockPrev)
  {
  }

  /** A reader that keeps moving and is not told to stop makes a whole pass. */
  lemma {:induction false} PassIsMade(s: State, t: Tid, schedule: seq<Event>)
    requires Inv(s) && !s.stop && t < |s.threads| && s.threads[t].Reader? && s.threads[t].rpc.RTop?
    requires NeverStopped(schedule)
    ensures Moves(s, t, schedule) > 5 * |s.lens| + 3 ==> Exec(s, schedule).threads[t].tally > s.threads[t].tally
    decreases |schedule|
  {
    if schedule != [] {
      var e, rest := schedule[0], schedule[1..];
      assert e.Run?;
      ApplyKeepsInv(s, e);
      if OwnMove(s, t, e) {
        LoopsUntilStopped(s, t, e);
        PassEnds(Apply(s, e), t, rest);
        PassTakes(Apply(s, e), t);
      } else {
        OthersLeaveThread(s, t, e);
        PassIsMade(Apply(s, e), t, rest);
      }
    }
  }

  lemma PassTakes(s: State, t: Tid)
    requires Inv(s) && t < |s.threads| && InPass(s.threads[t])
    ensures PassLeft(s.threads[t], |s.lens|) <= 5 * |s.lens| + 2
  {
    assert Knows(s.mem, s.lens, s.threads[t]);
  }
}
