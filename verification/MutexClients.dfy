/**
 One reader and one writer around a bounded queue that has no lock of its own, protected by
 a normal futex mutex.  The calls to lock and unlock are the micro-steps of `FutexMutex`; the
 queue operations read and write their fields in separate steps, so that without mutual
 exclusion updates would be lost.

 Thread 0 is the reader and thread 1 the writer.
 */
module MutexClients {
  import M = FutexMutex

  const READER: M.Tid := 0
  const WRITER: M.Tid := 1

  /** Where a client is.  `Op1` to `Op4` are the steps of its queue operation. */
  datatype Pc = Enter | Locking | Op1 | Op2 | Op3 | Op4 | Leave | Unlocking | Check

  /** `val`, `ok` and `expected` are the reader's locals, `tmp` the count it read; `got` is the
      history of the values it obtained, `errors` how often it found the wrong one. */
  datatype ReaderState = ReaderState(pc: Pc, ok: bool, val: int, tmp: int, expected: int,
                                     got: seq<int>, errors: nat)

  /** `i` is the next value to add. */
  datatype WriterState = WriterState(pc: Pc, ok: bool, tmp: int, i: int)

  /** `crashed` means that an assertion of the queue failed or a null node was read. */
  datatype State = State(m: M.State, items: seq<int>, count: int, maxCount: int,
                         rd: ReaderState, wr: WriterState, crashed: bool)

  /** A client thread moves; `pick` is the sleeper chosen if the step is a wake-up. */
  datatype Event = Go(t: M.Tid, pick: M.Tid)

  function Init(maxCount: nat): State {
    State(M.Init(M.Normal, 2), [], 0, maxCount,
          ReaderState(Enter, false, -1, 0, 0, [], 0), WriterState(Enter, false, 0, 0), false)
  }

  /** The steps that both clients share: calling lock and unlock and waiting for them to return. */
  function MutexEvent(pc: Pc, t: M.Tid, pick: M.Tid): M.Event {
    if pc.Enter? then M.CallLock(t)
    else if pc.Leave? then M.CallUnlock(t)
    else M.Run(t, pick)
  }

  predicate InMutexCode(pc: Pc) {
    pc in {Enter, Locking, Leave, Unlocking}
  }

  /** The client's program counter after a step inside the mutex code. */
  function MutexPc(pc: Pc, m: M.State, t: M.Tid): Pc {
    if pc in {Enter, Locking} then
      if pc.Locking? && t < |m.threads| && m.threads[t].pc.Idle? then Op1 else Locking
    else
      if pc.Unlocking? && t < |m.threads| && m.threads[t].pc.Idle? then Check else Unlocking
  }

  /** queue_get and the check of the value obtained. */
  function ReaderStep(s: State): State {
    var r := s.rd;
    match r.pc
    case Op1 =>
      if s.count < 0 then s.(crashed := true)
      else if s.count == 0 then s.(rd := r.(pc := Leave, ok := false))
      else s.(rd := r.(pc := Op2))
    case Op2 =>
      if s.items == [] then s.(crashed := true)
      else s.(rd := r.(pc := Op3, val := s.items[0]))
    case Op3 =>
      if s.items == [] then s.(crashed := true)
      else s.(rd := r.(pc := Op4, tmp := s.count), items := s.items[1..])
    case Op4 => s.(rd := r.(pc := Leave, ok := true), count := r.tmp - 1)
    case Check =>
      if !r.ok then s.(rd := r.(pc := Enter, val := -1))
      else
        s.(rd := r.(pc := Enter, val := -1, expected := r.val + 1, got := r.got + [r.val],
                    errors := if r.expected != r.val then r.errors + 1 else r.errors))
    case _ => s
  }

  /** queue_add and the choice of the next value. */
  function WriterStep(s: State): State {
    var w := s.wr;
    match w.pc
    case Op1 =>
      if s.count > s.maxCount then s.(crashed := true)
      else if s.count == s.maxCount then s.(wr := w.(pc := Leave, ok := false))
      else s.(wr := w.(pc := Op2))
    case Op2 => s.(wr := w.(pc := Op3, tmp := s.count), items := s.items + [w.i])
    case Op3 => s.(wr := w.(pc := Leave, ok := true), count := w.tmp + 1)
    case Check => s.(wr := w.(pc := Enter, i := if w.ok then w.i + 1 else w.i))
    case _ => s
  }

  function PcOf(s: State, t: M.Tid): Pc {
    if t == READER then s.rd.pc else s.wr.pc
  }

  function WithPc(s: State, t: M.Tid, pc: Pc): State {
    if t == READER then s.(rd := s.rd.(pc := pc)) else s.(wr := s.wr.(pc := pc))
  }

  /** A client inside the mutex code moves when the mutex lets it; elsewhere it always moves. */
  predicate Enabled(s: State, e: Event) {
    && e.t in {READER, WRITER} && !s.crashed && !s.m.aborted
    && (InMutexCode(PcOf(s, e.t)) ==> M.Enabled(s.m, MutexEvent(PcOf(s, e.t), e.t, e.pick)))
  }

  function Apply(s: State, e: Event): State {
    if !Enabled(s, e) then s
    else if InMutexCode(PcOf(s, e.t)) then
      var m := M.Apply(s.m, MutexEvent(PcOf(s, e.t), e.t, e.pick));
      WithPc(s.(m := m), e.t, MutexPc(PcOf(s, e.t), m, e.t))
    else if e.t == READER then ReaderStep(s)
    else WriterStep(s)
  }

  function Exec(s: State, schedule: seq<Event>): State
    decreases |schedule|
  {
    if schedule == [] then s else Exec(Apply(s, schedule[0]), schedule[1..])
  }

  // ------------------------------------------------------------ the invariant

  /** The integers from `lo` up to but not including `hi`. */
  function Range(lo: int, hi: int): (r: seq<int>)
    ensures |r| == if lo < hi then hi - lo else 0
    ensures forall k :: 0 <= k < |r| ==> r[k] == lo + k
    decreases hi - lo
  {
    if lo >= hi then [] else [lo] + Range(lo + 1, hi)
  }

  predicate InSection(pc: Pc) {
    pc in {Op1, Op2, Op3, Op4, Leave}
  }

  /** Where the mutex thread is while the client is at `pc`. */
  predicate Matches(pc: Pc, th: M.Thread) {
    match pc
    case Enter | Check => th.pc.Idle? && M.Depth(th) == 0
    case Locking =>
      && th.pc in {M.LReadWord, M.LReadOwner, M.LCas, M.LSetOwner, M.LSetDepth, M.LWait, M.LAsleep}
      && M.Depth(th) == 0
    case Op1 | Op2 | Op3 | Op4 | Leave => th.pc.Idle? && M.Depth(th) == 1
    case Unlocking =>
      || (th.pc in {M.UReadOwner, M.UClearOwner, M.UClearDepth, M.UStore} && M.Depth(th) == 1)
      || (th.pc.UWake? && M.Depth(th) == 0)
  }

  /** The first value still in the queue. */
  function Lo(r: ReaderState): int {
    if r.pc.Op4? || (r.ok && r.pc in {Leave, Unlocking, Check}) then r.expected + 1 else r.expected
  }

  /** One past the last value put into the queue. */
  function Hi(w: WriterState): int {
    if w.pc.Op3? || (w.ok && w.pc in {Leave, Unlocking, Check}) then w.i + 1 else w.i
  }

  ghost predicate ReaderInv(s: State) {
    var r := s.rd;
    && (r.pc in {Op2, Op3} ==> s.count > 0)
    && (r.pc.Op3? ==> r.val == r.expected)
    && (r.pc.Op4? || (r.ok && r.pc in {Leave, Unlocking, Check}) ==> r.val == r.expected)
    && r.expected >= 0 && r.got == Range(0, r.expected) && r.errors == 0
  }

  ghost predicate QueueInv(s: State) {
    && s.items == Range(Lo(s.rd), Hi(s.wr)) && Lo(s.rd) <= Hi(s.wr)
    && 0 <= s.count <= s.maxCount
    && (if s.rd.pc.Op4? then s.count == s.rd.tmp == |s.items| + 1
        else if s.wr.pc.Op3? then s.count == s.wr.tmp == |s.items| - 1
        else s.count == |s.items|)
    && (s.wr.pc in {Op2, Op3} ==> s.count < s.maxCount)
  }

  /** The mutex as main sets it up for its two clients. */
  ghost predicate MutexFits(m: M.State) {
    M.Inv(m) && m.kind.Normal? && |m.threads| == 2 && !m.aborted
  }

  ghost predicate Inv(s: State) {
    && MutexFits(s.m) && !s.crashed
    && Matches(s.rd.pc, s.m.threads[READER]) && Matches(s.wr.pc, s.m.threads[WRITER])
    && !s.wr.pc.Op4?
    && ReaderInv(s) && QueueInv(s)
  }

  lemma SectionsExclude(s: State)
    requires Inv(s)
    ensures !(InSection(s.rd.pc) && InSection(s.wr.pc))
  {
    assert M.ThreadInv(s.m, READER) && M.ThreadInv(s.m, WRITER);
  }

  /** A step of one client inside the mutex code does what its client expects. */
  lemma MutexStepMatches(m: M.State, pc: Pc, t: M.Tid, pick: M.Tid)
    requires MutexFits(m) && t < 2 && InMutexCode(pc) && Matches(pc, m.threads[t])
    requires M.Enabled(m, MutexEvent(pc, t, pick))
    ensures var m' := M.Apply(m, MutexEvent(pc, t, pick));
      && !m'.aborted && m'.kind == m.kind && |m'.threads| == 2
      && Matches(MutexPc(pc, m', t), m'.threads[t])
  {
    assert M.ThreadInv(m, t);
    hide M.Inv;
  }

  lemma OtherStillMatches(m: M.State, pc: Pc, t: M.Tid, pick: M.Tid, other: Pc)
    requires MutexFits(m) && t < 2 && InMutexCode(pc)
    requires M.Enabled(m, MutexEvent(pc, t, pick)) && Matches(other, m.threads[1 - t])
    ensures var m' := M.Apply(m, MutexEvent(pc, t, pick));
      |m'.threads| == 2 && Matches(other, m'.threads[1 - t])
  {
    assert M.ThreadInv(m, t) && M.ThreadInv(m, 1 - t);
    hide M.Inv;
  }

  /** Moving through the mutex code concerns neither the queue nor the values. */
  lemma MutexPcKeepsValues(s: State, t: M.Tid, m: M.State)
    requires ReaderInv(s) && QueueInv(s) && !s.wr.pc.Op4? && t < 2 && InMutexCode(PcOf(s, t))
    ensures var s' := WithPc(s.(m := m), t, MutexPc(PcOf(s, t), m, t));
      ReaderInv(s') && QueueInv(s') && !s'.wr.pc.Op4?
  {
    hide Range;
  }

  lemma MutexStepInv(s: State, e: Event)
    requires Inv(s) && Enabled(s, e) && InMutexCode(PcOf(s, e.t))
    ensures Inv(Apply(s, e))
  {
    hide M.Inv, M.Apply, ReaderInv, QueueInv, Matches, MutexPc;
    var pc := PcOf(s, e.t);
    M.ApplyKeepsInv(s.m, MutexEvent(pc, e.t, e.pick));
    MutexStepMatches(s.m, pc, e.t, e.pick);
    OtherStillMatches(s.m, pc, e.t, e.pick, PcOf(s, 1 - e.t));
    MutexPcKeepsValues(s, e.t, M.Apply(s.m, MutexEvent(pc, e.t, e.pick)));
  }

  lemma RangeDrop(lo: int, hi: int)
    requires lo < hi
    ensures Range(lo, hi)[1..] == Range(lo + 1, hi)
  {
  }

  lemma {:induction false} RangeExtend(lo: int, hi: int)
    requires lo <= hi
    ensures Range(lo, hi) + [hi] == Range(lo, hi + 1)
  {
  }

  lemma ReaderStepInv(s: State)
    requires Inv(s) && !InMutexCode(s.rd.pc)
    ensures Inv(ReaderStep(s))
  {
    SectionsExclude(s);
    if s.rd.pc.Op3? {
      RangeDrop(Lo(s.rd), Hi(s.wr));
    } else if s.rd.pc.Check? {
      RangeExtend(0, s.rd.expected);
    }
  }

  lemma WriterStepInv(s: State)
    requires Inv(s) && !InMutexCode(s.wr.pc)
    ensures Inv(WriterStep(s))
  {
    hide Range, M.Inv;
    SectionsExclude(s);
    if s.wr.pc.Op2? {
      RangeExtend(Lo(s.rd), Hi(s.wr));
    }
  }

  lemma InitInv(maxCount: nat)
    ensures Inv(Init(maxCount))
  {
    M.InitInv(M.Normal, 2);
  }

  lemma {:induction false} ExecKeepsInv(s: State, schedule: seq<Event>)
    requires Inv(s)
    ensures Inv(Exec(s, schedule))
    decreases |schedule|
  {
    if schedule != [] {
      var e := schedule[0];
      if Enabled(s, e) {
        if InMutexCode(PcOf(s, e.t)) {
          MutexStepInv(s, e);
        } else if e.t == READER {
          ReaderStepInv(s);
        } else {
          WriterStepInv(s);
        }
      }
      ExecKeepsInv(Apply(s, e), schedule[1..]);
    }
  }

  // ------------------------------------------------------------ theorems

  /** End to end, in every interleaving: the values that the reader obtains are 0, 1, 2, ... without
      gap or repeat, it never reports an error, no assertion fails and the process never aborts. */
  lemma ReaderSeesCountingUp(maxCount: nat, schedule: seq<Event>)
    ensures var s := Exec(Init(maxCount), schedule);
      && s.rd.errors == 0 && !s.crashed && !s.m.aborted
      && s.rd.expected == |s.rd.got|
      && forall k :: 0 <= k < |s.rd.got| ==> s.rd.got[k] == k
  {
    InitInv(maxCount);
    ExecKeepsInv(Init(maxCount), schedule);
  }

  /** Nothing is lost and nothing duplicated: whenever both clients are outside their sections and
      have looked at their results, what was obtained followed by what is queued is exactly what
      was added, and `count` says how much is queued. */
  lemma QueueConserves(maxCount: nat, schedule: seq<Event>)
    ensures var s := Exec(Init(maxCount), schedule);
      s.rd.pc.Enter? && s.wr.pc.Enter? ==>
        && s.rd.got + s.items == Range(0, s.wr.i)
        && s.count == |s.items| <= maxCount
  {
    InitInv(maxCount);
    ExecKeepsInv(Init(maxCount), schedule);
    MaxCountStays(Init(maxCount), schedule);
    var s := Exec(Init(maxCount), schedule);
  }

  lemma {:induction false} MaxCountStays(s: State, schedule: seq<Event>)
    ensures Exec(s, schedule).maxCount == s.maxCount
    decreases |schedule|
  {
    if schedule != [] {
      MaxCountStays(Apply(s, schedule[0]), schedule[1..]);
    }
  }

  /** The two queue operations never overlap. */
  lemma OperationsNeverOverlap(maxCount: nat, schedule: seq<Event>)
    ensures var s := Exec(Init(maxCount), schedule);
      !(InSection(s.rd.pc) && InSection(s.wr.pc))
  {
    InitInv(maxCount);
    ExecKeepsInv(Init(maxCount), schedule);
    SectionsExclude(Exec(Init(maxCount), schedule));
  }

  /** The pair never gets stuck: in every reachable state one of the clients can move. */
  lemma SomeClientCanMove(maxCount: nat, schedule: seq<Event>) returns (e: Event)
    ensures Enabled(Exec(Init(maxCount), schedule), e)
  {
    hide Exec, Init;
    InitInv(maxCount);
    ExecKeepsInv(Init(maxCount), schedule);
    var s := Exec(Init(maxCount), schedule);
    assert M.ThreadInv(s.m, READER) && M.ThreadInv(s.m, WRITER);
    e := if s.m.threads[READER].pc.LAsleep? then Go(WRITER, READER) else Go(READER, WRITER);
  }
}
