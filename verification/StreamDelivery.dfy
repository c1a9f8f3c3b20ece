/**
 What the readers of the streaming list receive, in terms of what the download offered; and that the
 download and its readers come to an end.
 */
module StreamDelivery {
  import opened StreamList
  import opened StreamRestart

  // ------------------------------------------------------------ what was offered

  /** The chunk that the appender is given with this step. */
  ghost function OfferedBy(s: State, e: Event): seq<int> {
    if e.Append? && e.more.Some? && s.app.AReady? && Enabled(s, e) then [e.more.value] else []
  }

  /** The chunks that the appender is given, in order. */
  ghost function Offered(s: State, schedule: seq<Event>): seq<int>
    decreases |schedule|
  {
    if schedule == [] then [] else OfferedBy(s, schedule[0]) + Offered(Apply(s, schedule[0]), schedule[1..])
  }

  /** The chunks in the list, and the one that is about to be linked in. */
  ghost function Accepted(s: State): seq<int> {
    s.chunks + if s.app in {ALock, ALink} then [s.pending] else []
  }

  lemma StepAccepts(s: State, e: Event)
    ensures Accepted(Apply(s, e)) == Accepted(s) + OfferedBy(s, e)
  {
  }

  lemma {:induction false} OfferedIsAccepted(s: State, schedule: seq<Event>)
    ensures Accepted(Exec(s, schedule)) == Accepted(s) + Offered(s, schedule)
    decreases |schedule|
  {
    hide Accepted, OfferedBy, Apply;
    if schedule != [] {
      var e := schedule[0];
      StepAccepts(s, e);
      OfferedIsAccepted(Apply(s, e), schedule[1..]);
      assert (Accepted(s) + OfferedBy(s, e)) + Offered(Apply(s, e), schedule[1..]) ==
        Accepted(s) + (OfferedBy(s, e) + Offered(Apply(s, e), schedule[1..]));
    }
  }

  /** The list holds what the download has offered so far, in order, but for a chunk on its way. */
  lemma ListHoldsOffered(s0: State, schedule: seq<Event>)
    requires Starts(s0)
    ensures Accepted(Exec(s0, schedule)) == Offered(s0, schedule)
    ensures Exec(s0, schedule).chunks <= Offered(s0, schedule)
    ensures Exec(s0, schedule).complete ==> Exec(s0, schedule).chunks == Offered(s0, schedule)
  {
    OfferedIsAccepted(s0, schedule);
    assert [] + Offered(s0, schedule) == Offered(s0, schedule);
    assert Reachable(Exec(s0, schedule));
    ReachableInv(Exec(s0, schedule));
    hide Exec, Offered, Reachable;
  }

  /** A reader that keeps its cursor receives a prefix of what was offered, and the whole of it by the
      time that it is told that there is no more. */
  lemma KeeperReceivesOffered(s0: State, schedule: seq<Event>, r: nat)
    requires Starts(s0)
    requires var s := Exec(s0, schedule); r < |s.readers| && s.readers[r].kind.Keeper?
    ensures var rd := Exec(s0, schedule).readers[r];
      && rd.sent <= Offered(s0, schedule)
      && (rd.pc in {WEnd, RFinished} ==> rd.sent == Offered(s0, schedule))
  {
    ListHoldsOffered(s0, schedule);
    assert Reachable(Exec(s0, schedule));
    hide Exec, Offered, Reachable;
    KeptCursorStreamsExactly(Exec(s0, schedule), r);
  }

  /** A client of the proxy that has finished received exactly what was offered if and only if it never
      reset its cursor; in any case the end of what it received is all that was offered. */
  lemma HandlerReceivesOfferedIff(s0: State, schedule: seq<Event>, r: nat)
    requires Starts(s0)
    requires var s := Exec(s0, schedule); r < |s.readers| && s.readers[r].pc.RFinished?
    ensures var rd := Exec(s0, schedule).readers[r];
      && (rd.sent == Offered(s0, schedule) <==> rd.restarts == 0)
      && rd.from <= |rd.sent| && rd.sent[rd.from..] == Offered(s0, schedule)
  {
    ListHoldsOffered(s0, schedule);
    assert Reachable(Exec(s0, schedule));
    hide Exec, Offered, Reachable;
    HandlerStreamsExactlyIffNoRestart(Exec(s0, schedule), r);
  }

  // ------------------------------------------------------------ the locks of the chunks

  function Only(k: int): set<nat> {
    if k >= 0 then {k} else {}
  }

  /** The appender keeps the newest chunk locked until it has the next one, or none is to come. */
  ghost predicate LocksNewest(s: State) {
    var n := |s.chunks|;
    s.held ==
      match s.app
      case AReady | ALock | ALink | AReleaseLast => Only(n - 1)
      case ANotify | AUnlock | AHoldNew => Only(n - 2)
      case AReleaseOld => Only(n - 2) + Only(n - 1)
      case CLock | CSet | CNotify | CUnlock | ADone => {}
  }

  /** Nobody sends a chunk that the appender has locked. */
  ghost predicate NobodySendsLocked(s: State) {
    forall r, k :: 0 <= r < |s.readers| && k in s.held ==> !ReadLocks(s.readers[r], k)
  }

  lemma AppendKeepsLocks(s: State, more: Option<int>)
    requires Inv(s) && LocksNewest(s) && NobodySendsLocked(s) && Enabled(s, Append(more))
    ensures LocksNewest(Apply(s, Append(more))) && NobodySendsLocked(Apply(s, Append(more)))
  {
  }

  lemma ReadKeepsLocks(s: State, e: Event)
    requires Inv(s) && LocksNewest(s) && NobodySendsLocked(s) && Enabled(s, e) && !e.Append?
    ensures LocksNewest(Apply(s, e)) && NobodySendsLocked(Apply(s, e))
  {
    var r := e.r;
    assert ReaderInv(s, r);
    hide AppenderInv;
  }

  lemma {:induction false} LocksAreKept(s: State, schedule: seq<Event>)
    requires Inv(s) && LocksNewest(s) && NobodySendsLocked(s)
    ensures LocksNewest(Exec(s, schedule)) && NobodySendsLocked(Exec(s, schedule))
    decreases |schedule|
  {
    if schedule != [] {
      var e := schedule[0];
      ApplyKeepsInv(s, e);
      if Enabled(s, e) {
        if e.Append? {
          AppendKeepsLocks(s, e.more);
        } else {
          ReadKeepsLocks(s, e);
        }
      }
      hide LocksNewest, NobodySendsLocked, Inv, Apply;
      LocksAreKept(Apply(s, e), schedule[1..]);
    }
  }

  /** In every run, the newest chunk is locked between two calls of list_add, and no reader sends a
      locked one. */
  lemma NewestChunkIsGuarded(s0: State, schedule: seq<Event>, r: nat)
    requires Starts(s0) && r < |Exec(s0, schedule).readers|
    ensures var s := Exec(s0, schedule);
      && (s.app.AReady? && s.chunks != [] ==> s.held == {|s.chunks| - 1})
      && (s.app.AReady? && s.chunks != [] ==> !ReadLocks(s.readers[r], |s.chunks| - 1))
  {
    assert Inv(s0);
    LocksAreKept(s0, schedule);
    hide Exec, Inv;
  }

  // ------------------------------------------------------------ the end of the download

  /** With the mutex free, four moves of the appender complete the list, give the mutex back and leave
      nobody asleep. */
  lemma DownloadCompletes(s: State)
    requires Inv(s) && s.app.CLock? && s.lockedBy.None?
    ensures var t := Exec(s, [Append(None), Append(None), Append(None), Append(None)]);
      && t.complete && t.app.ADone? && t.lockedBy.None? && t.chunks == s.chunks && |t.readers| == |s.readers|
      && forall r :: 0 <= r < |s.readers| ==>
           t.readers[r] == if s.readers[r].pc.WAsleep? then s.readers[r].(pc := WWoken) else s.readers[r]
  {
    var e := Append(None);
    var s1 := Apply(s, e);
    var s2 := Apply(s1, e);
    var s3 := Apply(s2, e);
    var s4 := Apply(s3, e);
    assert s1.app.CSet? && s2.app.CNotify? && s3.app.CUnlock? && s3.readers == WakeAll(s.readers);
    assert [e, e, e, e][1..] == [e, e, e] && [e, e, e][1..] == [e, e] && [e, e][1..] == [e] && [e][1..] == [];
    assert Exec(s, [e, e, e, e]) == Exec(s1, [e, e, e]) == Exec(s2, [e, e]) == Exec(s3, [e]) == s4;
  }

  /** list_wait_for_data goes to sleep exactly if there is no next chunk and may still be one; otherwise
      it gives the mutex back with the next chunk, or with the news that there is none. */
  lemma WaitDecides(s: State, r: nat)
    requires Inv(s) && r < |s.readers| && s.readers[r].pc.WTest?
    ensures var t := Apply(s, Read(r)); var rd, next := t.readers[r], NextNode(s, s.readers[r].cursor);
      && |t.readers| == |s.readers|
      && (rd.pc.WAsleep? <==> next.None? && !s.complete) && (rd.pc.WEnd? <==> next.None? && s.complete)
      && (rd.pc.WGot? <==> next.Some?) && (next.Some? ==> rd.cursor == next)
      && (rd.pc.WAsleep? ==> t.lockedBy.None?)
  {
  }

  // ------------------------------------------------------------ readers come to the end

  /** The download is over and nobody is in the way of reader `r`, which is at `pc`. */
  ghost predicate Draining(s: State, r: nat, kind: Kind, pc: ReaderPc) {
    && Inv(s) && s.complete && s.app.ADone? && s.lockedBy.None? && r < |s.readers|
    && s.readers[r].kind == kind && s.readers[r].pc == pc
  }

  lemma SendsOne(s: State, r: nat, kind: Kind) returns (t: State)
    requires Draining(s, r, kind, RHold) && s.readers[r].cursor.Some?
    ensures Leads(s, t) && Draining(t, r, kind, if kind.Keeper? then RTop else KLock)
    ensures t.chunks == s.chunks && t.readers[r].cursor == s.readers[r].cursor
    ensures t.readers[r].restarts == s.readers[r].restarts
  {
    LeadsHere(s);
    ApplyKeepsInv(s, Read(r));
    LeadsOn(s, s, Read(r));
    var a := Apply(s, Read(r));
    ApplyKeepsInv(a, Read(r));
    LeadsOn(s, a, Read(r));
    var b := Apply(a, Read(r));
    ApplyKeepsInv(b, Read(r));
    LeadsOn(s, b, Read(r));
    t := Apply(b, Read(r));
  }

  lemma KeeperAsks(s: State, r: nat) returns (t: State)
    requires Draining(s, r, Keeper, RTop)
    ensures Leads(s, t) && t.chunks == s.chunks && r < |t.readers|
    ensures var next := NextNode(s, s.readers[r].cursor);
      if next.Some? then Draining(t, r, Keeper, RHold) && t.readers[r].cursor == next
      else Draining(t, r, Keeper, RFinished)
  {
    LeadsHere(s);
    ApplyKeepsInv(s, Read(r));
    LeadsOn(s, s, Read(r));
    var a := Apply(s, Read(r));
    ApplyKeepsInv(a, Read(r));
    LeadsOn(s, a, Read(r));
    var b := Apply(a, Read(r));
    ApplyKeepsInv(b, Read(r));
    LeadsOn(s, b, Read(r));
    var c := Apply(b, Read(r));
    ApplyKeepsInv(c, Read(r));
    LeadsOn(s, c, Read(r));
    t := Apply(c, Read(r));
  }

  /** After the download, a reader that keeps its cursor comes to the end with every chunk. */
  lemma {:induction false} KeeperDrains(s: State, r: nat) returns (t: State)
    requires Draining(s, r, Keeper, RTop)
    ensures Leads(s, t) && Draining(t, r, Keeper, RFinished) && t.readers[r].sent == s.chunks
    decreases |s.chunks| - if s.readers[r].cursor.None? then 0 else s.readers[r].cursor.value + 1
  {
    assert ReaderInv(s, r);
    var a := KeeperAsks(s, r);
    if NextNode(s, s.readers[r].cursor).Some? {
      var b := SendsOne(a, r, Keeper);
      LeadsFurther(s, a, b);
      t := KeeperDrains(b, r);
      LeadsFurther(s, b, t);
    } else {
      t := a;
      EndHasEverything(t, r);
    }
  }

  lemma EndHasEverything(t: State, r: nat)
    requires Draining(t, r, Keeper, RFinished)
    ensures t.readers[r].sent == t.chunks
  {
    assert ReaderInv(t, r);
    var rd := t.readers[r];
    assert rd.sent[0..] == rd.sent && t.chunks[..|t.chunks|] == t.chunks;
  }

  lemma HandlerLooks(s: State, r: nat) returns (t: State)
    requires Draining(s, r, Handler, KLock)
    ensures Leads(s, t) && t.chunks == s.chunks && r < |t.readers|
    ensures t.readers[r].restarts == s.readers[r].restarts
    ensures var next := NextNode(s, s.readers[r].cursor);
      if next.Some? then Draining(t, r, Handler, RTop) && t.readers[r].cursor == next
      else Draining(t, r, Handler, RFinished)
  {
    assert ReaderInv(s, r);
    LeadsHere(s);
    ApplyKeepsInv(s, Read(r));
    LeadsOn(s, s, Read(r));
    var a := Apply(s, Read(r));
    ApplyKeepsInv(a, Read(r));
    LeadsOn(s, a, Read(r));
    var b := Apply(a, Read(r));
    ApplyKeepsInv(b, Read(r));
    LeadsOn(s, b, Read(r));
    t := Apply(b, Read(r));
  }

  lemma HandlerTurnsToNext(s: State, r: nat) returns (t: State)
    requires Draining(s, r, Handler, RTop) && s.readers[r].cursor.Some?
    ensures Leads(s, t) && Draining(t, r, Handler, RHold)
    ensures t.chunks == s.chunks && t.readers[r].cursor == s.readers[r].cursor
    ensures t.readers[r].restarts == s.readers[r].restarts
  {
    LeadsHere(s);
    ApplyKeepsInv(s, Read(r));
    LeadsOn(s, s, Read(r));
    t := Apply(s, Read(r));
  }

  /** And so does a client of the proxy, without a reset on the way. */
  lemma {:induction false} HandlerDrains(s: State, r: nat) returns (t: State)
    requires Draining(s, r, Handler, RHold) && s.readers[r].cursor.Some? && s.readers[r].cursor.value < |s.chunks|
    ensures Leads(s, t) && Draining(t, r, Handler, RFinished) && t.chunks == s.chunks
    ensures t.readers[r].restarts == s.readers[r].restarts
    decreases |s.chunks| - s.readers[r].cursor.value
  {
    var a := SendsOne(s, r, Handler);
    var b := HandlerLooks(a, r);
    LeadsFurther(s, a, b);
    t := b;
    if NextNode(s, s.readers[r].cursor).Some? {
      var c := HandlerTurnsToNext(b, r);
      LeadsFurther(s, b, c);
      t := HandlerDrains(c, r);
      LeadsFurther(s, c, t);
    }
  }
}
