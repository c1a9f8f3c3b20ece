/**
 A singly linked list walked hand over hand by readers while swapper threads
 exchange adjacent nodes.  Every thread is a small program that performs at most
 one lock, one unlock, one pointer load or one pointer store per step; a schedule
 decides which thread moves next.  The two source variants differ in the locks
 they take: exclusive mutexes for everybody, or read/write locks that readers share.

 Nodes are numbered; node 0 is the sentinel `start`.  `order` and `pos` are history
 variables that no thread reads: the intended order of the list and its inverse.
 */
module LockCoupledList {

  type Node = nat
  type Tid = nat

  const START: Node := 0

  datatype Ptr = Null | At(node: Node)

  /** Which locks the nodes carry: one mutex each, or one read/write lock each. */
  datatype LockKind = Mutexes | RwLocks

  /** What a reader counts: runs of growing, shrinking or equal string lengths. */
  datatype Comparison = Increasing | Decreasing | Equal

  /** Program counters of a reader, named after what it does next. */
  datatype ReaderPc =
    | RTop | RLockStart | RLoadFirst | RUnlockEmpty | RLockFirst
    | RTest | RUnlockPrev | RLoadNext | RLockNext | RAdvance | RUnlockCur | RUnlockLast
    | RDone
    | RFault  // a null pointer was about to be dereferenced

  /** Program counters of a swapper. */
  datatype SwapperPc =
    | STop | SInner | SLockPrev | SLoadCur | SUnlockEmpty | SLockCur | SLoadNext
    | STailUnlockCur | STailUnlockPrev | SChoose
    | SLockNext | SCheckPrev | SCheckCur | SLoadNextNext
    | SWritePrev | SWriteCur | SWriteNext | SUnlockNext | SUnlockCur | SUnlockPrev
    | SSkipUnlockCur | SSkipUnlockPrev | SAdvance
    | SDone

  /** One thread: its program counter, its locals and the tally it publishes.  `seen` is a
      history variable: the nodes that a reader locked in the current pass, in order. */
  datatype Thread =
    | Reader(cmp: Comparison, rpc: ReaderPc, prev: Node, cur: Node, nxt: Node,
             counter: nat, tally: nat, seen: seq<Node>)
    | Swapper(spc: SwapperPc, prev: Node, cur: Node, nxt: Node, nn: Ptr, tally: nat)

  /** The list itself: the real `next` fields, and the history variables. */
  datatype Mem = Mem(next: seq<Ptr>, order: seq<Node>, pos: seq<nat>)

  datatype State = State(kind: LockKind, lens: seq<nat>, mem: Mem,
                         holders: seq<set<Tid>>, threads: seq<Thread>, stop: bool)

  /** What the environment may do: let thread `t` take a step (with the outcome of its
      random draw, if it makes one) or raise the stop flag. */
  datatype Event = Run(t: Tid, draw: bool) | RaiseStop

  // ------------------------------------------------------------ the program

  /** The one shared-memory operation of a step. */
  datatype Op = Local | Load(x: Node) | Store(x: Node, p: Ptr) | Lock(x: Node) | Unlock(x: Node)

  function OpOf(th: Thread): Op {
    if th.Reader? then ReaderOp(th) else SwapperOp(th)
  }

  function ReaderOp(th: Thread): Op
    requires th.Reader?
  {
    match th.rpc
    case RLockStart => Lock(th.prev)
    case RLoadFirst => Load(th.prev)
    case RUnlockEmpty => Unlock(th.prev)
    case RLockFirst => Lock(th.cur)
    case RTest => Load(th.cur)
    case RUnlockPrev => Unlock(th.prev)
    case RLoadNext => Load(th.cur)
    case RLockNext => Lock(th.nxt)
    case RAdvance => Load(th.cur)
    case RUnlockCur => Unlock(th.cur)
    case RUnlockLast => Unlock(th.prev)
    case RTop | RDone | RFault => Local
  }

  function SwapperOp(th: Thread): Op
    requires th.Swapper?
  {
    match th.spc
    case SLockPrev => Lock(th.prev)
    case SLockCur => Lock(th.cur)
    case SLockNext => Lock(th.nxt)
    case SLoadCur | SCheckPrev | SAdvance => Load(th.prev)
    case SLoadNext | SCheckCur => Load(th.cur)
    case SLoadNextNext => Load(th.nxt)
    case SWritePrev => Store(th.prev, At(th.nxt))
    case SWriteCur => Store(th.cur, th.nn)
    case SWriteNext => Store(th.nxt, At(th.cur))
    case SUnlockNext => Unlock(th.nxt)
    case STailUnlockCur | SUnlockCur | SSkipUnlockCur => Unlock(th.cur)
    case SUnlockEmpty | STailUnlockPrev | SUnlockPrev | SSkipUnlockPrev => Unlock(th.prev)
    case STop | SInner | SChoose | SDone => Local
  }

  predicate Compare(cmp: Comparison, a: nat, b: nat) {
    match cmp
    case Increasing => a < b
    case Decreasing => a > b
    case Equal => a == b
  }

  /** The locals after a step of a reader; `loaded` is what its load returned. */
  function ReaderAfter(th: Thread, kind: LockKind, lens: seq<nat>, loaded: Ptr, stop: bool): Thread
    requires th.Reader? && th.cur < |lens| && th.nxt < |lens|
  {
    match th.rpc
    case RTop => if stop then th.(rpc := RDone) else th.(rpc := RLockStart, prev := START)
    case RLockStart => th.(rpc := RLoadFirst, seen := [th.prev])
    case RLoadFirst =>
      if loaded.Null? then th.(rpc := RUnlockEmpty) else th.(rpc := RLockFirst, cur := loaded.node)
    case RUnlockEmpty => th.(rpc := RTop, tally := th.tally + 1)
    case RLockFirst => th.(rpc := RTest, counter := 0, seen := th.seen + [th.cur])
    case RTest => th.(rpc := if loaded.Null? then RUnlockCur else RUnlockPrev)
    case RUnlockPrev => th.(rpc := RLoadNext)
    case RLoadNext =>
      if loaded.Null? then th.(rpc := RFault) else th.(rpc := RLockNext, nxt := loaded.node)
    case RLockNext => th.(rpc := RAdvance, seen := th.seen + [th.nxt])
    case RAdvance =>
      var c := if Compare(th.cmp, lens[th.cur], lens[th.nxt]) then th.counter + 1 else 0;
      // the mutex list re-reads the pointer, the read/write-lock list keeps its local copy
      if kind.RwLocks? then th.(rpc := RTest, counter := c, prev := th.cur, cur := th.nxt)
      else if loaded.Null? then th.(rpc := RFault)
      else th.(rpc := RTest, counter := c, prev := th.cur, cur := loaded.node)
    case RUnlockCur => th.(rpc := RUnlockLast)
    case RUnlockLast => th.(rpc := RTop, tally := th.tally + 1)
    case RDone | RFault => th
  }

  /** The locals after a step of a swapper; `draw` is the outcome of its random choice. */
  function SwapperAfter(th: Thread, loaded: Ptr, stop: bool, draw: bool): Thread
    requires th.Swapper?
  {
    match th.spc
    case STop => if stop then th.(spc := SDone) else th.(spc := SInner, prev := START)
    case SInner => th.(spc := if stop then STop else SLockPrev)
    case SLockPrev => th.(spc := SLoadCur)
    case SLoadCur =>
      if loaded.Null? then th.(spc := SUnlockEmpty) else th.(spc := SLockCur, cur := loaded.node)
    case SUnlockEmpty => th.(spc := STop)
    case SLockCur => th.(spc := SLoadNext)
    case SLoadNext =>
      if loaded.Null? then th.(spc := STailUnlockCur) else th.(spc := SChoose, nxt := loaded.node)
    case STailUnlockCur => th.(spc := STailUnlockPrev)
    case STailUnlockPrev => th.(spc := STop)
    case SChoose => th.(spc := if draw then SLockNext else SSkipUnlockCur)
    case SLockNext => th.(spc := SCheckPrev)
    case SCheckPrev => th.(spc := if loaded == At(th.cur) then SCheckCur else SUnlockNext)
    case SCheckCur => th.(spc := if loaded == At(th.nxt) then SLoadNextNext else SUnlockNext)
    case SLoadNextNext => th.(spc := SWritePrev, nn := loaded)
    case SWritePrev => th.(spc := SWriteCur)
    case SWriteCur => th.(spc := SWriteNext)
    case SWriteNext => th.(spc := SUnlockNext, tally := th.tally + 1)
    case SUnlockNext => th.(spc := SUnlockCur)
    case SUnlockCur => th.(spc := SUnlockPrev)
    case SUnlockPrev => th.(spc := SInner)
    case SSkipUnlockCur => th.(spc := SSkipUnlockPrev)
    case SSkipUnlockPrev => th.(spc := SAdvance)
    case SAdvance => if loaded.Null? then th.(spc := STop) else th.(spc := SInner, prev := loaded.node)
    case SDone => th
  }

  /** Swappers, and with mutexes all threads, take locks for themselves alone. */
  predicate Exclusive(kind: LockKind, th: Thread) {
    kind.Mutexes? || th.Swapper?
  }

  /** A thread that has left its loop, or crashed, makes no more steps. */
  predicate Halted(th: Thread) {
    if th.Reader? then th.rpc.RDone? || th.rpc.RFault? else th.spc.SDone?
  }

  /** May thread `t` take the lock of node `x` now? */
  predicate CanLock(s: State, t: Tid, x: Node)
    requires t < |s.threads| && x < |s.holders|
  {
    || s.holders[x] == {}
    || (&& !Exclusive(s.kind, s.threads[t])
        && forall u :: u in s.holders[x] ==> u < |s.threads| && !Exclusive(s.kind, s.threads[u]))
  }

  /** Sizes agree, every pointer names a node, and `pos` inverts `order`. */
  ghost predicate ShapeMem(m: Mem, n: nat) {
    && |m.next| == n && |m.order| == n && |m.pos| == n
    && (forall x :: 0 <= x < n ==> m.next[x].At? ==> m.next[x].node < n)
    && (forall x :: 0 <= x < n ==> m.pos[x] < n && m.order[m.pos[x]] == x)
    && (forall i :: 0 <= i < n ==> m.order[i] < n && m.pos[m.order[i]] == i)
  }

  ghost predicate ShapeThread(th: Thread, n: nat) {
    th.prev < n && th.cur < n && th.nxt < n && (th.Swapper? && th.nn.At? ==> th.nn.node < n)
  }

  ghost predicate Shape(s: State) {
    && |s.lens| > 0 && |s.holders| == |s.lens|
    && ShapeMem(s.mem, |s.lens|)
    && (forall t :: 0 <= t < |s.threads| ==> ShapeThread(s.threads[t], |s.lens|))
  }

  ghost predicate Enabled(s: State, t: Tid)
    requires Shape(s)
  {
    && t < |s.threads|
    && !Halted(s.threads[t])
    && (OpOf(s.threads[t]).Lock? ==> CanLock(s, t, OpOf(s.threads[t]).x))
  }

  function Loaded(m: Mem, op: Op): Ptr {
    if op.Load? && op.x < |m.next| then m.next[op.x] else Null
  }

  function After(s: State, t: Tid, draw: bool): Thread
    requires t < |s.threads| && s.threads[t].cur < |s.lens| && s.threads[t].nxt < |s.lens|
  {
    var th := s.threads[t];
    var loaded := Loaded(s.mem, OpOf(th));
    if th.Reader? then ReaderAfter(th, s.kind, s.lens, loaded, s.stop)
    else SwapperAfter(th, loaded, s.stop, draw)
  }

  function NewHolders(holders: seq<set<Tid>>, op: Op, t: Tid): seq<set<Tid>> {
    if op.Lock? && op.x < |holders| then holders[op.x := holders[op.x] + {t}]
    else if op.Unlock? && op.x < |holders| then holders[op.x := holders[op.x] - {t}]
    else holders
  }

  /** The list after a step.  The intended order changes at the first of the three stores. */
  ghost function NewMem(m: Mem, th: Thread, n: nat): (m': Mem)
    requires ShapeMem(m, n) && ShapeThread(th, n)
    ensures ShapeMem(m', n)
  {
    var op := OpOf(th);
    if op.Store? then
      var next := m.next[op.x := op.p];
      if th.Swapper? && th.spc.SWritePrev? then
        Mem(next,
            m.order[m.pos[th.cur] := th.nxt][m.pos[th.nxt] := th.cur],
            m.pos[th.cur := m.pos[th.nxt]][th.nxt := m.pos[th.cur]])
      else m.(next := next)
    else m
  }

  lemma ReaderShape(th: Thread, kind: LockKind, lens: seq<nat>, loaded: Ptr, stop: bool)
    requires th.Reader? && |lens| > 0 && ShapeThread(th, |lens|) && (loaded.At? ==> loaded.node < |lens|)
    ensures ShapeThread(ReaderAfter(th, kind, lens, loaded, stop), |lens|)
  {
  }

  lemma SwapperShape(th: Thread, n: nat, loaded: Ptr, stop: bool, draw: bool)
    requires th.Swapper? && n > 0 && ShapeThread(th, n) && (loaded.At? ==> loaded.node < n)
    ensures ShapeThread(SwapperAfter(th, loaded, stop, draw), n)
  {
  }

  lemma AfterShape(s: State, t: Tid, draw: bool)
    requires Shape(s) && t < |s.threads|
    ensures ShapeThread(After(s, t, draw), |s.lens|)
  {
    var loaded := Loaded(s.mem, OpOf(s.threads[t]));
    if s.threads[t].Reader? {
      ReaderShape(s.threads[t], s.kind, s.lens, loaded, s.stop);
    } else {
      SwapperShape(s.threads[t], |s.lens|, loaded, s.stop, draw);
    }
  }

  /** One step of thread `t`.  A thread that cannot move stays where it is. */
  ghost function Step(s: State, t: Tid, draw: bool): (s': State)
    requires Shape(s)
    ensures Shape(s') && |s'.lens| == |s.lens| && |s'.threads| == |s.threads|
  {
    if !Enabled(s, t) then s
    else
      var th := s.threads[t];
      AfterShape(s, t, draw);
      s.(mem := NewMem(s.mem, th, |s.lens|),
         holders := NewHolders(s.holders, OpOf(th), t),
         threads := s.threads[t := After(s, t, draw)])
  }

  ghost function Apply(s: State, e: Event): (s': State)
    requires Shape(s)
    ensures Shape(s') && |s'.lens| == |s.lens| && |s'.threads| == |s.threads|
  {
    match e
    case Run(t, draw) => Step(s, t, draw)
    case RaiseStop => s.(stop := true)
  }

  /** The state that a schedule leads to. */
  ghost function Exec(s: State, schedule: seq<Event>): (s': State)
    requires Shape(s)
    ensures Shape(s') && |s'.lens| == |s.lens| && |s'.threads| == |s.threads|
    decreases |schedule|
  {
    if schedule == [] then s else Exec(Apply(s, schedule[0]), schedule[1..])
  }
}
