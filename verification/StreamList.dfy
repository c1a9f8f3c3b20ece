/**
 The proxy's append-only chunk list: one appender, any number of readers, a mutex with a
 condition variable, a read/write lock on every node, and a completion flag.

 Readers come in two kinds.  A `Keeper` calls list_wait_for_data again and again with the
 cursor it kept.  A `Handler` is the proxy's client loop, which sets its cursor to null when
 it finds no successor yet.  Nodes are named by their position in the list.
 */
module StreamList {

  datatype Option<+T> = None | Some(value: T)

  datatype Kind = Keeper | Handler

  datatype AppenderPc =
    | AReady | ALock | ALink | ANotify | AUnlock | AHoldNew | AReleaseOld
    | AReleaseLast | CLock | CSet | CNotify | CUnlock | ADone

  datatype ReaderPc =
    | RStart | RTop
    | WLock | WTest | WAsleep | WWoken | WGot | WEnd
    | RHold | RSend | RRelease
    | KLock | KLook | KUnlock
    | RFinished

  /** `sent` is what the client received; `from` and `restarts` are history: where in `sent` the
      current run over the list began, and how often the cursor was reset. */
  datatype Reader = Reader(kind: Kind, pc: ReaderPc, cursor: Option<nat>, ahead: Option<nat>, done: bool,
                           sent: seq<int>, from: nat, restarts: nat)

  datatype Actor = Appender | TheReader(r: nat)

  /** `held` names the nodes whose lock the appender holds for writing. */
  datatype State = State(chunks: seq<int>, complete: bool, lockedBy: Option<Actor>, held: set<nat>,
                         app: AppenderPc, pending: int, readers: seq<Reader>)

  /** The appender moves (when ready, it gets another chunk or the end of the download), a reader
      moves, or a sleeping reader wakes for no reason. */
  datatype Event = Append(more: Option<int>) | Read(r: nat) | Spurious(r: nat)

  ghost predicate Starts(s: State) {
    && s.chunks == [] && !s.complete && s.lockedBy == None && s.held == {} && s.app.AReady?
    && forall r :: 0 <= r < |s.readers| ==>
         && s.readers[r].pc == (if s.readers[r].kind.Handler? then RStart else RTop)
         && s.readers[r].cursor == None && s.readers[r].sent == []
         && s.readers[r].from == s.readers[r].restarts == 0
  }

  /** The node after the cursor, or the first one when there is no cursor. */
  function NextNode(s: State, cursor: Option<nat>): Option<nat> {
    var i := if cursor.None? then 0 else cursor.value + 1;
    if i < |s.chunks| then Some(i) else None
  }

  predicate ReadLocks(rd: Reader, k: int) {
    rd.pc in {RSend, RRelease} && rd.cursor.Some? && rd.cursor.value == k
  }

  ghost predicate Enabled(s: State, e: Event) {
    match e
    case Append(_) =>
      && !s.app.ADone?
      && (s.app in {ALock, CLock} ==> s.lockedBy.None?)
      && (s.app.AHoldNew? ==> forall r :: 0 <= r < |s.readers| ==> !ReadLocks(s.readers[r], |s.chunks| - 1))
    case Read(r) =>
      && r < |s.readers| && s.readers[r].pc !in {RFinished, WAsleep}
      && (s.readers[r].pc in {WLock, WWoken, KLock} ==> s.lockedBy.None?)
      && (s.readers[r].pc.RHold? && s.readers[r].cursor.Some? ==> s.readers[r].cursor.value !in s.held)
    case Spurious(r) => r < |s.readers| && s.readers[r].pc.WAsleep?
  }

  function WakeAll(readers: seq<Reader>): seq<Reader> {
    seq(|readers|, i requires 0 <= i < |readers| =>
      if readers[i].pc.WAsleep? then readers[i].(pc := WWoken) else readers[i])
  }

  function AppendStep(s: State, more: Option<int>): State {
    match s.app
    case AReady =>
      if more.Some? then s.(app := ALock, pending := more.value) else s.(app := AReleaseLast)
    case ALock => s.(app := ALink, lockedBy := Some(Appender))
    case ALink => s.(app := ANotify, chunks := s.chunks + [s.pending])
    case ANotify => s.(app := AUnlock, readers := WakeAll(s.readers))
    case AUnlock => s.(app := AHoldNew, lockedBy := None)
    case AHoldNew => s.(app := AReleaseOld, held := if s.chunks == [] then s.held else s.held + {|s.chunks| - 1})
    case AReleaseOld => s.(app := AReady, held := if |s.chunks| < 2 then s.held else s.held - {|s.chunks| - 2})
    case AReleaseLast => s.(app := CLock, held := if s.chunks == [] then s.held else s.held - {|s.chunks| - 1})
    case CLock => s.(app := CSet, lockedBy := Some(Appender))
    case CSet => s.(app := CNotify, complete := true)
    case CNotify => s.(app := CUnlock, readers := WakeAll(s.readers))
    case CUnlock => s.(app := ADone, lockedBy := None)
    case ADone => s
  }

  /** A reader's step: its own fields, and whether it takes or leaves the mutex. */
  function ReaderStep(s: State, rd: Reader): Reader {
    match rd.pc
    case RStart => rd.(pc := RTop, cursor := NextNode(s, None))
    case RTop => rd.(pc := if rd.kind.Handler? && rd.cursor.Some? then RHold else WLock)
    case WLock => rd.(pc := WTest)
    case WTest =>
      if NextNode(s, rd.cursor).Some? then rd.(pc := WGot, cursor := NextNode(s, rd.cursor))
      else rd.(pc := if s.complete then WEnd else WAsleep)
    case WWoken => rd.(pc := WTest)
    case WGot => rd.(pc := RHold)
    case WEnd => rd.(pc := RFinished)
    case RHold => rd.(pc := RSend)
    case RSend =>
      if rd.cursor.Some? && rd.cursor.value < |s.chunks|
      then rd.(pc := RRelease, sent := rd.sent + [s.chunks[rd.cursor.value]])
      else rd.(pc := RRelease)
    case RRelease => rd.(pc := if rd.kind.Handler? then KLock else RTop)
    case KLock => rd.(pc := KLook)
    case KLook => rd.(pc := KUnlock, done := s.complete, ahead := NextNode(s, rd.cursor))
    case KUnlock =>
      if rd.ahead.None? && rd.done then rd.(pc := RFinished)
      else if rd.ahead.None? then rd.(pc := RTop, cursor := None, from := |rd.sent|, restarts := rd.restarts + 1)
      else rd.(pc := RTop, cursor := rd.ahead)
    case WAsleep | RFinished => rd
  }

  function MutexAfter(s: State, r: nat): Option<Actor>
    requires r < |s.readers|
  {
    match s.readers[r].pc
    case WLock | WWoken | KLock => Some(TheReader(r))
    case WTest => if ReaderStep(s, s.readers[r]).pc.WAsleep? then None else s.lockedBy
    case WGot | WEnd | KUnlock => None
    case _ => s.lockedBy
  }

  ghost function Apply(s: State, e: Event): State {
    if !Enabled(s, e) then s
    else
      match e
      case Append(more) => AppendStep(s, more)
      case Read(r) => s.(readers := s.readers[r := ReaderStep(s, s.readers[r])], lockedBy := MutexAfter(s, r))
      case Spurious(r) => s.(readers := s.readers[r := s.readers[r].(pc := WWoken)])
  }

  ghost function Exec(s: State, schedule: seq<Event>): State
    decreases |schedule|
  {
    if schedule == [] then s else Exec(Apply(s, schedule[0]), schedule[1..])
  }

  // ------------------------------------------------------------ the invariant

  predicate ReaderInMutex(pc: ReaderPc) {
    pc in {WTest, WGot, WEnd, KLook, KUnlock}
  }

  predicate AppenderInMutex(pc: AppenderPc) {
    pc in {ALink, ANotify, AUnlock, CSet, CNotify, CUnlock}
  }

  /** How many nodes of the current run over the list have been sent. */
  function Position(rd: Reader): nat {
    if rd.cursor.None? then 0
    else if rd.pc in {WGot, RHold, RSend} || (rd.kind.Handler? && rd.pc.RTop?) then rd.cursor.value
    else rd.cursor.value + 1
  }

  ghost predicate ReaderInv(s: State, r: nat)
    requires r < |s.readers|
  {
    var rd := s.readers[r];
    && (ReaderInMutex(rd.pc) <==> s.lockedBy == Some(TheReader(r)))
    && (rd.cursor.Some? ==> rd.cursor.value < |s.chunks|)
    && (rd.pc in {WGot, RHold, RSend, RRelease, KLock, KLook, KUnlock} ==> rd.cursor.Some?)
    && Position(rd) <= |s.chunks|
    && rd.from <= |rd.sent| && rd.sent[rd.from..] == s.chunks[..Position(rd)]
    && (rd.restarts == 0 ==> rd.from == 0) && (rd.restarts > 0 ==> rd.from > 0)
    && (rd.kind.Keeper? ==> rd.restarts == 0 && rd.pc !in {RStart, KLock, KLook, KUnlock})
    && (rd.pc.RStart? ==> rd.cursor.None?)
    && (rd.pc.KUnlock? ==> rd.done == s.complete && rd.ahead == NextNode(s, rd.cursor))
    && (rd.pc in {WEnd, RFinished} ==> s.complete && Position(rd) == |s.chunks|)
    && (rd.pc.WAsleep? ==> (NextNode(s, rd.cursor).None? || s.app.ANotify?) && (!s.complete || s.app.CNotify?))
  }

  ghost predicate AppenderInv(s: State) {
    && (AppenderInMutex(s.app) <==> s.lockedBy == Some(Appender))
    && (s.lockedBy.Some? && s.lockedBy.value.TheReader? ==> s.lockedBy.value.r < |s.readers|)
    && (s.complete <==> s.app in {CNotify, CUnlock, ADone})
    && (s.app in {ANotify, AUnlock, AHoldNew, AReleaseOld} ==> s.chunks != [])
    && (s.app in {CLock, CSet, CNotify, CUnlock, ADone} ==> s.held == {})
    && (s.app in {AReady, AReleaseLast, ALock, ALink} ==> s.held <= {|s.chunks| - 1})
    && (s.app in {ANotify, AUnlock, AHoldNew} ==> s.held <= {|s.chunks| - 2})
    && (s.app.AReleaseOld? ==> s.held <= {|s.chunks| - 2, |s.chunks| - 1})
  }

  ghost predicate Inv(s: State) {
    AppenderInv(s) && forall r :: 0 <= r < |s.readers| ==> ReaderInv(s, r)
  }

  lemma LinkStepInv(s: State, more: Option<int>, r: nat)
    requires Inv(s) && Enabled(s, Append(more)) && r < |s.readers| && s.app.ALink?
    ensures |AppendStep(s, more).readers| == |s.readers| && ReaderInv(AppendStep(s, more), r)
  {
    assert ReaderInv(s, r);
    assert (s.chunks + [s.pending])[..Position(s.readers[r])] == s.chunks[..Position(s.readers[r])];
  }

  lemma NotifyStepInv(s: State, more: Option<int>, r: nat)
    requires Inv(s) && Enabled(s, Append(more)) && r < |s.readers| && s.app in {ANotify, CNotify}
    ensures |AppendStep(s, more).readers| == |s.readers| && ReaderInv(AppendStep(s, more), r)
  {
    assert ReaderInv(s, r);
  }

  lemma QuietStepInv(s: State, more: Option<int>, r: nat)
    requires Inv(s) && Enabled(s, Append(more)) && r < |s.readers| && s.app !in {ALink, ANotify, CNotify}
    ensures |AppendStep(s, more).readers| == |s.readers| && ReaderInv(AppendStep(s, more), r)
  {
    assert ReaderInv(s, r);
    assert AppendStep(s, more).readers[r] == s.readers[r] && AppendStep(s, more).chunks == s.chunks;
  }

  lemma AppendStepInv(s: State, more: Option<int>, r: nat)
    requires Inv(s) && Enabled(s, Append(more)) && r < |s.readers|
    ensures |AppendStep(s, more).readers| == |s.readers| && ReaderInv(AppendStep(s, more), r)
  {
    if s.app.ALink? {
      LinkStepInv(s, more, r);
    } else if s.app in {ANotify, CNotify} {
      NotifyStepInv(s, more, r);
    } else {
      QuietStepInv(s, more, r);
    }
  }

  lemma AppenderStepInv(s: State, e: Event)
    requires Inv(s) && Enabled(s, e)
    ensures AppenderInv(Apply(s, e))
  {
    if e.Read? {
      assert ReaderInv(s, e.r);
    }
  }

  lemma SendStepInv(s: State, r: nat)
    requires Inv(s) && Enabled(s, Read(r)) && s.readers[r].pc.RSend?
    ensures ReaderInv(Apply(s, Read(r)), r)
  {
    assert ReaderInv(s, r);
    var rd := s.readers[r];
    var k := rd.cursor.value;
    assert s.chunks[..k + 1] == s.chunks[..k] + [s.chunks[k]];
    assert (rd.sent + [s.chunks[k]])[rd.from..] == rd.sent[rd.from..] + [s.chunks[k]];
  }

  lemma WaitStepInv(s: State, r: nat)
    requires Inv(s) && Enabled(s, Read(r)) && s.readers[r].pc in {WLock, WTest, WWoken, WGot, WEnd}
    ensures ReaderInv(Apply(s, Read(r)), r)
  {
    assert ReaderInv(s, r);
  }

  lemma LookStepInv(s: State, r: nat)
    requires Inv(s) && Enabled(s, Read(r)) && s.readers[r].pc in {KLock, KLook, KUnlock}
    ensures ReaderInv(Apply(s, Read(r)), r)
  {
    assert ReaderInv(s, r);
    var rd := s.readers[r];
    if rd.pc.KUnlock? {
      assert |rd.sent[rd.from..]| == Position(rd) > 0;
      assert rd.sent[|rd.sent|..] == s.chunks[..0];
    }
  }

  lemma TopStepInv(s: State, r: nat)
    requires Inv(s) && Enabled(s, Read(r)) && s.readers[r].pc in {RStart, RTop, RHold, RRelease}
    ensures ReaderInv(Apply(s, Read(r)), r)
  {
    assert ReaderInv(s, r);
  }

  lemma OwnStepInv(s: State, r: nat)
    requires Inv(s) && Enabled(s, Read(r))
    ensures ReaderInv(Apply(s, Read(r)), r)
  {
    if s.readers[r].pc.RSend? {
      SendStepInv(s, r);
    } else if s.readers[r].pc in {WLock, WTest, WWoken, WGot, WEnd} {
      WaitStepInv(s, r);
    } else if s.readers[r].pc in {KLock, KLook, KUnlock} {
      LookStepInv(s, r);
    } else {
      TopStepInv(s, r);
    }
  }

  lemma OtherStepInv(s: State, r: nat, q: nat)
    requires Inv(s) && Enabled(s, Read(r)) && q < |s.readers| && q != r
    ensures ReaderInv(Apply(s, Read(r)), q)
  {
    assert ReaderInv(s, r) && ReaderInv(s, q);
  }

  lemma ApplyKeepsInv(s: State, e: Event)
    requires Inv(s)
    ensures Inv(Apply(s, e))
  {
    if Enabled(s, e) {
      AppenderStepInv(s, e);
      forall r | 0 <= r < |s.readers|
        ensures |Apply(s, e).readers| == |s.readers| && ReaderInv(Apply(s, e), r)
      {
        match e
        case Append(more) => AppendStepInv(s, more, r);
        case Read(q) => if q == r { OwnStepInv(s, r); } else { OtherStepInv(s, q, r); }
        case Spurious(q) => assert ReaderInv(s, r);
      }
    }
  }

  lemma {:induction false} ExecKeepsInv(s: State, schedule: seq<Event>)
    requires Inv(s)
    ensures Inv(Exec(s, schedule))
    decreases |schedule|
  {
    if schedule != [] {
      ApplyKeepsInv(s, schedule[0]);
      ExecKeepsInv(Apply(s, schedule[0]), schedule[1..]);
    }
  }

  ghost predicate Reachable(s: State) {
    exists s0, schedule :: Starts(s0) && s == Exec(s0, schedule)
  }

  lemma ReachableInv(s: State)
    requires Reachable(s)
    ensures Inv(s)
  {
    var s0, schedule :| Starts(s0) && s == Exec(s0, schedule);
    ExecKeepsInv(s0, schedule);
  }

  // ------------------------------------------------------------ theorems

  /** A reader that keeps its cursor gets the chunks in order, without gap or repeat, and
      list_wait_for_data tells it that there is no more only when the list is complete and every
      chunk has been delivered. */
  lemma KeptCursorStreamsExactly(s: State, r: nat)
    requires Reachable(s) && r < |s.readers| && s.readers[r].kind.Keeper?
    ensures s.readers[r].sent <= s.chunks
    ensures s.readers[r].pc in {WEnd, RFinished} ==> s.complete && s.readers[r].sent == s.chunks
  {
    ReachableInv(s);
    assert ReaderInv(s, r);
    assert s.readers[r].sent[0..] == s.readers[r].sent;
  }

  /** After completion the list never changes again. */
  lemma CompleteIsFinal(s: State, e: Event)
    requires Reachable(s) && s.complete
    ensures Apply(s, e).complete && Apply(s, e).chunks == s.chunks
  {
    ReachableInv(s);
  }

  /** No reader sleeps on, once the mutex is free, when a successor exists or the list is complete. */
  lemma SleepersHaveReason(s: State, r: nat)
    requires Reachable(s) && s.lockedBy.None? && r < |s.readers| && s.readers[r].pc.WAsleep?
    ensures NextNode(s, s.readers[r].cursor).None? && !s.complete
  {
    ReachableInv(s);
    assert ReaderInv(s, r);
  }

  /** The proxy's client loop sends the response exactly when it never had to reset its cursor: one
      reset is enough for chunks to be sent twice. */
  lemma HandlerStreamsExactlyIffNoRestart(s: State, r: nat)
    requires Reachable(s) && r < |s.readers| && s.readers[r].pc.RFinished?
    ensures s.readers[r].sent == s.chunks <==> s.readers[r].restarts == 0
    ensures s.complete && s.readers[r].from <= |s.readers[r].sent|
    ensures s.readers[r].sent[s.readers[r].from..] == s.chunks
  {
    ReachableInv(s);
    assert ReaderInv(s, r);
    var rd := s.readers[r];
    assert rd.sent[rd.from..] == s.chunks;
    if rd.restarts == 0 {
      assert rd.sent[0..] == rd.sent;
    } else {
      assert |rd.sent| == rd.from + |s.chunks| > |s.chunks|;
    }
  }

  /** The reset happens exactly when the reader looks for a successor of the last chunk before the
      list is complete. */
  lemma RestartsExactlyWhenAheadOfAppender(s: State, r: nat)
    requires Reachable(s) && Enabled(s, Read(r)) && s.readers[r].pc.KUnlock?
    ensures Apply(s, Read(r)).readers[r].restarts == s.readers[r].restarts + 1 <==>
      s.readers[r].cursor == Some(|s.chunks| - 1) && !s.complete
  {
    ReachableInv(s);
    assert ReaderInv(s, r);
  }

  /** A client that joins once the list is complete never has to reset, whatever the others do. */
  lemma {:induction false} CompleteListNeverRestarts(s: State, r: nat, schedule: seq<Event>)
    requires Inv(s) && s.complete && r < |s.readers|
    ensures |Exec(s, schedule).readers| == |s.readers|
    ensures Exec(s, schedule).readers[r].restarts == s.readers[r].restarts
    decreases |schedule|
  {
    if schedule != [] {
      var s' := Apply(s, schedule[0]);
      ApplyKeepsInv(s, schedule[0]);
      assert ReaderInv(s, r);
      CompleteListNeverRestarts(s', r, schedule[1..]);
    }
  }

  lemma {:induction false} ExecSnoc(s: State, xs: seq<Event>, e: Event)
    ensures Exec(s, xs + [e]) == Apply(Exec(s, xs), e)
    decreases |xs|
  {
    if xs == [] {
      assert xs + [e] == [e] && [e][1..] == [];
    } else {
      assert (xs + [e])[0] == xs[0] && (xs + [e])[1..] == xs[1..] + [e];
      ExecSnoc(Apply(s, xs[0]), xs[1..], e);
    }
  }

  lemma Go(s: State, e: Event) returns (s': State)
    requires Reachable(s)
    ensures Reachable(s') && s' == Apply(s, e)
  {
    var s0, schedule :| Starts(s0) && s == Exec(s0, schedule);
    ExecSnoc(s0, schedule, e);
    s' := Apply(s, e);
  }

  /** The state of a run with one handler and one chunk. */
  function Scene(app: AppenderPc, complete: bool, lockedBy: Option<Actor>, held: set<nat>, rd: Reader): State {
    State([7], complete, lockedBy, held, app, 7, [rd])
  }

  /** The handler of the scene: where it is, how often it has received the chunk, and its resets. */
  function Client(pc: ReaderPc, cursor: Option<nat>, done: bool, sent: seq<int>, restarts: nat): Reader {
    Reader(Handler, pc, cursor, None, done, sent, restarts, restarts)
  }

  lemma SceneStart() returns (s: State)
    ensures Reachable(s)
    ensures s == State([], false, None, {}, AReady, 0, [Client(RStart, None, false, [], 0)])
  {
    s := State([], false, None, {}, AReady, 0, [Client(RStart, None, false, [], 0)]);
    assert Starts(s) && s == Exec(s, []);
  }

  lemma SceneLink() returns (s: State)
    ensures Reachable(s)
    ensures s == Scene(ANotify, false, Some(Appender), {}, Client(RStart, None, false, [], 0))
  {
    var rd := Client(RStart, None, false, [], 0);
    s := SceneStart();
    s := Go(s, Append(Some(7)));
    assert s == State([], false, None, {}, ALock, 7, [rd]);
    s := Go(s, Append(None));
    assert s == State([], false, Some(Appender), {}, ALink, 7, [rd]);
    s := Go(s, Append(None));
    assert s.chunks == [7];
  }

  lemma SceneAppend() returns (s: State)
    ensures Reachable(s)
    ensures s == Scene(AHoldNew, false, None, {}, Client(RStart, None, false, [], 0))
  {
    var rd := Client(RStart, None, false, [], 0);
    s := SceneLink();
    s := Go(s, Append(None));
    assert s.readers == [rd];
    assert s == Scene(AUnlock, false, Some(Appender), {}, rd);
    s := Go(s, Append(None));
  }

  lemma SceneSent() returns (s: State)
    ensures Reachable(s)
    ensures s == Scene(AHoldNew, false, None, {}, Client(RRelease, Some(0), false, [7], 0))
  {
    s := SceneAppend();
    s := Go(s, Read(0));
    assert s == Scene(AHoldNew, false, None, {}, Client(RTop, Some(0), false, [], 0));
    s := Go(s, Read(0));
    s := Go(s, Read(0));
    assert s == Scene(AHoldNew, false, None, {}, Client(RSend, Some(0), false, [], 0));
    s := Go(s, Read(0));
    assert s.readers[0].sent == [7];
    assert s.readers == [Client(RRelease, Some(0), false, [7], 0)];
  }

  lemma SceneRestart() returns (s: State)
    ensures Reachable(s)
    ensures s == Scene(AHoldNew, false, None, {}, Client(RTop, None, false, [7], 1))
  {
    s := SceneSent();
    s := Go(s, Read(0));
    s := Go(s, Read(0));
    assert s == Scene(AHoldNew, false, Some(TheReader(0)), {}, Client(KLook, Some(0), false, [7], 0));
    s := Go(s, Read(0));
    assert s == Scene(AHoldNew, false, Some(TheReader(0)), {}, Client(KUnlock, Some(0), false, [7], 0));
    s := Go(s, Read(0));
  }

  lemma SceneReleased() returns (s: State)
    ensures Reachable(s)
    ensures s == Scene(CLock, false, None, {}, Client(RTop, None, false, [7], 1))
  {
    s := SceneRestart();
    s := Go(s, Append(None));
    assert s == Scene(AReleaseOld, false, None, {0}, Client(RTop, None, false, [7], 1));
    s := Go(s, Append(None));
    assert s == Scene(AReady, false, None, {0}, Client(RTop, None, false, [7], 1));
    s := Go(s, Append(None));
    s := Go(s, Append(None));
  }

  lemma SceneComplete() returns (s: State)
    ensures Reachable(s)
    ensures s == Scene(ADone, true, None, {}, Client(RTop, None, false, [7], 1))
  {
    s := SceneReleased();
    s := Go(s, Append(None));
    assert s == Scene(CSet, false, Some(Appender), {}, Client(RTop, None, false, [7], 1));
    s := Go(s, Append(None));
    assert s == Scene(CNotify, true, Some(Appender), {}, Client(RTop, None, false, [7], 1));
    s := Go(s, Append(None));
    assert s == Scene(CUnlock, true, Some(Appender), {}, Client(RTop, None, false, [7], 1));
    s := Go(s, Append(None));
  }

  lemma SceneAgain() returns (s: State)
    ensures Reachable(s)
    ensures s == Scene(ADone, true, None, {}, Client(RRelease, Some(0), false, [7, 7], 1))
  {
    s := SceneComplete();
    s := Go(s, Read(0));
    s := Go(s, Read(0));
    assert s == Scene(ADone, true, Some(TheReader(0)), {}, Client(WTest, None, false, [7], 1));
    s := Go(s, Read(0));
    assert s == Scene(ADone, true, Some(TheReader(0)), {}, Client(WGot, Some(0), false, [7], 1));
    s := Go(s, Read(0));
    assert s == Scene(ADone, true, None, {}, Client(RHold, Some(0), false, [7], 1));
    s := Go(s, Read(0));
    assert s == Scene(ADone, true, None, {}, Client(RSend, Some(0), false, [7], 1));
    s := Go(s, Read(0));
    assert s.readers[0].sent == [7, 7];
    assert s.readers == [Client(RRelease, Some(0), false, [7, 7], 1)];
  }

  /** A run that resets the cursor: the client reads the only chunk before the download has been
      declared complete, and receives it twice. */
  lemma HandlerCanRepeatChunks() returns (s: State)
    ensures Reachable(s) && s.chunks == [7] && |s.readers| == 1
    ensures s.readers[0].pc.RFinished? && s.readers[0].sent == [7, 7]
  {
    s := SceneAgain();
    s := Go(s, Read(0));
    s := Go(s, Read(0));
    assert s == Scene(ADone, true, Some(TheReader(0)), {}, Client(KLook, Some(0), false, [7, 7], 1));
    s := Go(s, Read(0));
    assert s == Scene(ADone, true, Some(TheReader(0)), {}, Client(KUnlock, Some(0), true, [7, 7], 1));
    s := Go(s, Read(0));
  }

  /** The stream never jams: while anybody has work left, somebody can move without a spurious
      wake-up. */
  lemma SomebodyCanMove(s: State, r: nat) returns (e: Event)
    requires Reachable(s)
    requires !s.app.ADone? || (r < |s.readers| && !s.readers[r].pc.RFinished?)
    ensures Enabled(s, e) && !e.Spurious?
  {
    ReachableInv(s);
    if s.lockedBy.Some? {
      if s.lockedBy.value.Appender? {
        e := Append(None);
      } else {
        e := Read(s.lockedBy.value.r);
        assert ReaderInv(s, s.lockedBy.value.r);
      }
    } else if Enabled(s, Append(None)) {
      e := Append(None);
    } else if s.app.ADone? {
      e := Read(r);
      assert ReaderInv(s, r);
    } else {
      var q :| 0 <= q < |s.readers| && ReadLocks(s.readers[q], |s.chunks| - 1);
      e := Read(q);
    }
  }
}
