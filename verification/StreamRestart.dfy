/**
 When a client of the proxy that joins a download can come to receive chunks twice: the exact
 condition, at the moment of joining.
 */
module StreamRestart {
  import opened StreamList

  /** From `s` some schedule leads to `t`. */
  ghost predicate Leads(s: State, t: State) {
    exists schedule :: Exec(s, schedule) == t
  }

  lemma LeadsHere(s: State)
    ensures Leads(s, s)
  {
    assert Exec(s, []) == s;
  }

  lemma LeadsOn(s: State, t: State, e: Event)
    requires Leads(s, t)
    ensures Leads(s, Apply(t, e))
  {
    var schedule :| Exec(s, schedule) == t;
    ExecSnoc(s, schedule, e);
  }

  lemma {:induction false} ExecConcat(s: State, xs: seq<Event>, ys: seq<Event>)
    ensures Exec(s, xs + ys) == Exec(Exec(s, xs), ys)
    decreases |xs|
  {
    if xs == [] {
      assert xs + ys == ys;
    } else {
      assert (xs + ys)[0] == xs[0] && (xs + ys)[1..] == xs[1..] + ys;
      ExecConcat(Apply(s, xs[0]), xs[1..], ys);
    }
  }

  lemma LeadsFurther(s: State, t: State, u: State)
    requires Leads(s, t) && Leads(t, u)
    ensures Leads(s, u)
  {
    var xs :| Exec(s, xs) == t;
    var ys :| Exec(t, ys) == u;
    ExecConcat(s, xs, ys);
  }

  /** Reader `r` is a client of the proxy that has just joined a download that is not complete. */
  ghost predicate Joining(s: State, r: nat) {
    && Inv(s) && !s.complete && r < |s.readers|
    && s.readers[r].kind.Handler? && s.readers[r].pc.RStart?
  }

  /** `t` differs from `s` in the positions of readers other than `r` only. */
  ghost predicate OthersMoved(s: State, t: State, r: nat) {
    && t.chunks == s.chunks && t.complete == s.complete && t.held == s.held && t.app == s.app
    && |t.readers| == |s.readers| && r < |s.readers| && t.readers[r] == s.readers[r]
  }

  lemma OtherReads(s: State, r: nat, q: nat)
    requires Joining(s, r) && q != r && Enabled(s, Read(q))
    ensures Joining(Apply(s, Read(q)), r) && OthersMoved(s, Apply(s, Read(q)), r)
  {
    ApplyKeepsInv(s, Read(q));
  }

  // ------------------------------------------------------------ the others make way

  /** A reader that has the mutex gives it back within two steps. */
  lemma MutexComesFree(s: State, r: nat) returns (t: State)
    requires Joining(s, r) && s.lockedBy.Some? && s.lockedBy.value.TheReader?
    ensures Leads(s, t) && Joining(t, r) && OthersMoved(s, t, r) && t.lockedBy.None?
  {
    var q := s.lockedBy.value.r;
    assert ReaderInv(s, r) && ReaderInv(s, q);
    t := Apply(s, Read(q));
    OtherReads(s, r, q);
    LeadsHere(s);
    LeadsOn(s, s, Read(q));
    if t.lockedBy.Some? {
      MutexGivenBack(s, t, q);
      OtherReads(t, r, q);
      LeadsOn(s, t, Read(q));
      t := Apply(t, Read(q));
    }
  }

  lemma MutexGivenBack(s: State, t: State, q: nat)
    requires Inv(s) && q < |s.readers| && s.lockedBy == Some(TheReader(q)) && Enabled(s, Read(q))
    requires t == Apply(s, Read(q)) && t.lockedBy.Some?
    ensures Enabled(t, Read(q)) && Apply(t, Read(q)).lockedBy.None?
  {
    assert ReaderInv(s, q);
  }

  /** The first `q` readers let go of the last chunk. */
  lemma {:induction false} ChunkComesFree(s: State, r: nat, q: nat) returns (t: State)
    requires Joining(s, r) && q <= |s.readers|
    ensures Leads(s, t) && Joining(t, r) && OthersMoved(s, t, r) && t.lockedBy == s.lockedBy
    ensures forall i :: 0 <= i < q ==> !ReadLocks(t.readers[i], |s.chunks| - 1)
    decreases q
  {
    if q == 0 {
      t := s;
      LeadsHere(s);
    } else {
      t := ChunkComesFree(s, r, q - 1);
      if ReadLocks(t.readers[q - 1], |s.chunks| - 1) {
        t := LetsGo(s, t, r, q - 1);
      }
    }
  }

  lemma LetsGo(s: State, t0: State, r: nat, p: nat) returns (t: State)
    requires Joining(t0, r) && Leads(s, t0) && OthersMoved(s, t0, r)
    requires p < |t0.readers| && t0.readers[p].pc in {RSend, RRelease}
    ensures Leads(s, t) && Joining(t, r) && OthersMoved(s, t, r) && t.lockedBy == t0.lockedBy
    ensures t.readers[p].pc !in {RSend, RRelease}
    ensures forall i :: 0 <= i < |t.readers| && i != p ==> t.readers[i] == t0.readers[i]
  {
    OtherReads(t0, r, p);
    LeadsOn(s, t0, Read(p));
    t := Apply(t0, Read(p));
    if t.readers[p].pc.RRelease? {
      OtherReads(t, r, p);
      LeadsOn(s, t, Read(p));
      t := Apply(t, Read(p));
    }
  }

  // ------------------------------------------------------------ the appender pauses

  /** How far the appender is from the moment before it takes the mutex to complete the list. */
  function ToGo(s: State): nat {
    match s.app
    case AReady => if s.chunks == [] then 12 else 2
    case ALock => 11
    case ALink => 10
    case ANotify => 9
    case AUnlock => 8
    case AHoldNew => 7
    case AReleaseOld => 6
    case AReleaseLast => 1
    case CLock | CSet | CNotify | CUnlock | ADone => 0
  }

  /** The list can still be read to its end before it is complete. */
  ghost predicate ChanceLeft(s: State) {
    s.app !in {CSet, CNotify, CUnlock, ADone} && (s.chunks == [] ==> s.app !in {AReleaseLast, CLock})
  }

  lemma AppenderMoves(s: State, r: nat) returns (e: Event)
    requires Joining(s, r) && ChanceLeft(s) && !s.app.CLock?
    requires s.app.ALock? ==> s.lockedBy.None?
    requires s.app.AHoldNew? ==> forall i :: 0 <= i < |s.readers| ==> !ReadLocks(s.readers[i], |s.chunks| - 1)
    ensures var t := Apply(s, e);
      && Joining(t, r) && ChanceLeft(t) && ToGo(t) < ToGo(s) && |t.readers| == |s.readers|
      && t.readers[r] == s.readers[r]
  {
    e := Append(if s.chunks == [] then Some(0) else None);
    ApplyKeepsInv(s, e);
  }

  lemma {:induction false} AppenderPauses(s: State, r: nat) returns (t: State)
    requires Joining(s, r) && ChanceLeft(s)
    ensures Leads(s, t) && Joining(t, r) && t.readers[r] == s.readers[r]
    ensures t.app.CLock? && t.chunks != [] && t.lockedBy.None?
    decreases ToGo(s)
  {
    var u := s;
    LeadsHere(s);
    if s.lockedBy.Some? && s.lockedBy.value.TheReader? {
      u := MutexComesFree(s, r);
    }
    if u.app.CLock? {
      t := u;
    } else {
      if u.app.AHoldNew? {
        var v := ChunkComesFree(u, r, |u.readers|);
        LeadsFurther(s, u, v);
        u := v;
      }
      var e := AppenderMoves(u, r);
      LeadsOn(s, u, e);
      t := AppenderPauses(Apply(u, e), r);
      LeadsFurther(s, Apply(u, e), t);
    }
  }

  // ------------------------------------------------------------ the client overtakes

  /** The client is at chunk `k`, and the appender waits before it completes the list. */
  ghost predicate Overtaking(s: State, r: nat, pc: ReaderPc, k: nat) {
    && Inv(s) && !s.complete && s.app.CLock? && s.lockedBy.None? && r < |s.readers| && k < |s.chunks|
    && s.readers[r].kind.Handler? && s.readers[r].pc == pc && s.readers[r].cursor == Some(k)
  }

  lemma OvertakingReads(s: State, r: nat, pc: ReaderPc, k: nat)
    requires Overtaking(s, r, pc, k) && pc in {RTop, RHold, RSend, RRelease}
    ensures var t := Apply(s, Read(r));
      var next := if pc.RTop? then RHold else if pc.RHold? then RSend else if pc.RSend? then RRelease else KLock;
      && Overtaking(t, r, next, k)
      && t.chunks == s.chunks && t.readers[r].restarts == s.readers[r].restarts
  {
    ApplyKeepsInv(s, Read(r));
  }

  lemma OvertakingLooks(s: State, r: nat, k: nat) returns (t: State)
    requires Overtaking(s, r, KLock, k)
    ensures Leads(s, t) && t.chunks == s.chunks
    ensures if k + 1 < |s.chunks| then Overtaking(t, r, RTop, k + 1) && t.readers[r].restarts == s.readers[r].restarts
      else r < |t.readers| && t.readers[r].restarts == s.readers[r].restarts + 1
  {
    LeadsHere(s);
    ApplyKeepsInv(s, Read(r));
    LeadsOn(s, s, Read(r));
    var u := Apply(s, Read(r));
    ApplyKeepsInv(u, Read(r));
    LeadsOn(s, u, Read(r));
    var v := Apply(u, Read(r));
    ApplyKeepsInv(v, Read(r));
    LeadsOn(s, v, Read(r));
    t := Apply(v, Read(r));
  }

  lemma {:induction false} ClientOvertakes(s: State, r: nat, k: nat) returns (t: State)
    requires Overtaking(s, r, RTop, k)
    ensures Leads(s, t) && r < |t.readers| && t.readers[r].restarts == s.readers[r].restarts + 1
    decreases |s.chunks| - k
  {
    LeadsHere(s);
    OvertakingReads(s, r, RTop, k);
    LeadsOn(s, s, Read(r));
    var a := Apply(s, Read(r));
    OvertakingReads(a, r, RHold, k);
    LeadsOn(s, a, Read(r));
    var b := Apply(a, Read(r));
    OvertakingReads(b, r, RSend, k);
    LeadsOn(s, b, Read(r));
    var c := Apply(b, Read(r));
    OvertakingReads(c, r, RRelease, k);
    LeadsOn(s, c, Read(r));
    var d := Apply(c, Read(r));
    var e := OvertakingLooks(d, r, k);
    LeadsFurther(s, d, e);
    t := e;
    if k + 1 < |s.chunks| {
      t := ClientOvertakes(e, r, k + 1);
      LeadsFurther(s, e, t);
    }
  }

  // ------------------------------------------------------------ no chance left

  /** Nothing can happen to reader `r` any more: the list is complete, or is being completed before the
      reader can look, or is going to stay empty. */
  ghost predicate Safe(s: State, r: nat) {
    && Inv(s) && r < |s.readers|
    && (|| s.complete
        || (s.app.CSet? && s.readers[r].pc in {RStart, RTop, WLock, RHold, RSend, RRelease, KLock})
        || (s.chunks == [] && s.app in {AReleaseLast, CLock, CSet}))
  }

  lemma SafeStays(s: State, r: nat, e: Event)
    requires Safe(s, r)
    ensures Safe(Apply(s, e), r) && Apply(s, e).readers[r].restarts == s.readers[r].restarts
  {
    assert ReaderInv(s, r);
    ApplyKeepsInv(s, e);
  }

  lemma {:induction false} SafeNeverResets(s: State, r: nat, schedule: seq<Event>)
    requires Safe(s, r)
    ensures Safe(Exec(s, schedule), r) && Exec(s, schedule).readers[r].restarts == s.readers[r].restarts
    decreases |schedule|
  {
    if schedule != [] {
      SafeStays(s, r, schedule[0]);
      SafeNeverResets(Apply(s, schedule[0]), r, schedule[1..]);
    }
  }

  // ------------------------------------------------------------ theorem

  ghost predicate ResetBy(s: State, r: nat, schedule: seq<Event>)
    requires r < |s.readers|
  {
    var t := Exec(s, schedule);
    r < |t.readers| && t.readers[r].restarts > s.readers[r].restarts
  }

  /** A client that joins can be made to reset its cursor, and so to receive chunks twice, if and only
      if the appender has not yet taken the mutex to complete the list, and there is a chunk or will be
      one. */
  lemma JoiningClientCanBeResetIff(s: State, r: nat)
    requires Reachable(s) && r < |s.readers| && s.readers[r].kind.Handler? && s.readers[r].pc.RStart?
    ensures (exists schedule :: ResetBy(s, r, schedule)) <==> ChanceLeft(s)
  {
    ReachableInv(s);
    if ChanceLeft(s) {
      var t := AppenderPauses(s, r);
      JoinsPaused(t, r);
      LeadsOn(s, t, Read(r));
      var u := ClientOvertakes(Apply(t, Read(r)), r, 0);
      LeadsFurther(s, Apply(t, Read(r)), u);
      var schedule :| Exec(s, schedule) == u;
      assert ResetBy(s, r, schedule);
    } else {
      forall schedule
        ensures !ResetBy(s, r, schedule)
      {
        SafeNeverResets(s, r, schedule);
      }
    }
  }

  lemma JoinsPaused(t: State, r: nat)
    requires Joining(t, r) && t.app.CLock? && t.chunks != [] && t.lockedBy.None?
    ensures Overtaking(Apply(t, Read(r)), r, RTop, 0)
    ensures Apply(t, Read(r)).readers[r].restarts == t.readers[r].restarts
  {
    ApplyKeepsInv(t, Read(r));
  }
}
