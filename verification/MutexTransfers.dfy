/**
 That the reader and the writer get something done: calls on the queue fail only when they must, and any
 number of values can be handed over.
 */
module MutexTransfers {
  import opened MutexClients
  import M = FutexMutex

  // ------------------------------------------------------------ calls fail only when they must

  /** An add fails only with as many values queued as there may be, and otherwise appends the value. */
  lemma AddFailsOnlyWhenFull(s: State, pick: M.Tid)
    requires Inv(s) && s.wr.pc in {Op1, Op2, Op3} && Enabled(s, Go(WRITER, pick))
    ensures var s' := Apply(s, Go(WRITER, pick));
      s'.wr.pc.Leave? ==>
        if s'.wr.ok then s'.items != [] && s'.items[|s'.items| - 1] == s'.wr.i && s'.count == |s'.items|
        else |s.items| == s.maxCount && s'.items == s.items && s'.count == s.count
  {
    SectionsExclude(s);
    if s.wr.pc.Op3? {
      assert s.items == Range(Lo(s.rd), Hi(s.wr));
    }
    hide M.Inv, M.Apply;
  }

  /** A get fails only with none queued, and otherwise takes the first one. */
  lemma GetFailsOnlyWhenEmpty(s: State, pick: M.Tid)
    requires Inv(s) && s.rd.pc in {Op1, Op2, Op3, Op4} && Enabled(s, Go(READER, pick))
    ensures var s' := Apply(s, Go(READER, pick));
      && (s'.rd.pc.Leave? ==> if s'.rd.ok then s'.count == |s'.items| else s.items == [])
      && (s'.items != s.items ==> [s'.rd.val] + s'.items == s.items)
  {
    SectionsExclude(s);
    hide M.Inv, M.Apply;
  }

  // ------------------------------------------------------------ schedules

  ghost predicate Leads(s: State, t: State) {
    exists schedule :: Exec(s, schedule) == t
  }

  lemma LeadsHere(s: State)
    ensures Leads(s, s)
  {
    assert Exec(s, []) == s;
  }

  lemma {:induction false} ExecConcat(s: State, xs: seq<Event>, ys: seq<Event>)
    ensures Exec(s, xs + ys) == Exec(Exec(s, xs), ys)
    decreases |xs|
  {
    hide Apply;
    if xs == [] {
      assert xs + ys == ys;
    } else {
      assert (xs + ys)[0] == xs[0] && (xs + ys)[1..] == xs[1..] + ys;
      ExecConcat(Apply(s, xs[0]), xs[1..], ys);
    }
  }

  lemma LeadsFurther(s: State, t: State, u: State)
    requires Leads(s, t) && Leads(t, u)
    ensures Leads(s, u)
  {
    var xs :| Exec(s, xs) == t;
    var ys :| Exec(t, ys) == u;
    ExecConcat(s, xs, ys);
    hide Exec;
  }

  lemma LeadsOn(s: State, t: State, e: Event)
    requires Leads(s, t)
    ensures Leads(s, Apply(t, e))
  {
    hide Apply;
    assert Exec(t, [e]) == Apply(t, e) by {
      assert [e][1..] == [];
    }
    LeadsFurther(s, t, Apply(t, e));
  }

  // ------------------------------------------------------------ a client alone

  /** Nobody has the mutex or wants it but perhaps client `t`, whose mutex code is at `mpc`. */
  ghost predicate Alone(s: State, t: M.Tid, pc: Pc, mpc: M.Pc) {
    && !s.crashed && !s.m.aborted && s.m.kind.Normal? && |s.m.threads| == 2 && t < 2
    && PcOf(s, t) == pc && s.m.threads[t].pc == mpc
    && s.m.threads[1 - t].pc.Idle? && s.m.sleepers == {}
  }

  /** The states agree in all but the mutex and the place of client `t`. */
  ghost predicate SameData(s: State, s': State, t: M.Tid) {
    && s'.items == s.items && s'.count == s.count && s'.maxCount == s.maxCount
    && (if t == READER then s'.wr == s.wr && s'.rd == s.rd.(pc := s'.rd.pc)
        else s'.rd == s.rd && s'.wr == s.wr.(pc := s'.wr.pc))
  }

  /** One move through the lock call. */
  lemma LockMove(s: State, t: M.Tid, pc: Pc, mpc: M.Pc, pc': Pc, mpc': M.Pc)
    requires Alone(s, t, pc, mpc) && pc == (if mpc.Idle? then Enter else Locking)
    requires match mpc
      case Idle => mpc' == M.LReadWord
      case LReadWord => s.m.word == 1 && mpc' == M.LCas
      case LCas => s.m.word == 1 && mpc' == M.LSetOwner
      case LSetOwner => mpc' == M.LSetDepth
      case LSetDepth => mpc' == M.Idle
      case _ => false
    requires pc' == if mpc'.Idle? then Op1 else Locking
    ensures var s' := Apply(s, Go(t, 0));
      && Alone(s', t, pc', mpc') && SameData(s, s', t)
      && (mpc in {M.Idle, M.LReadWord} ==> s'.m.word == s.m.word)
      && s'.m.owner == (if mpc.LSetOwner? then t + 1 else s.m.owner)
  {
  }

  /** One move through the unlock call. */
  lemma UnlockMove(s: State, t: M.Tid, pc: Pc, mpc: M.Pc, pc': Pc, mpc': M.Pc)
    requires Alone(s, t, pc, mpc) && pc == (if mpc.Idle? then Leave else Unlocking)
    requires match mpc
      case Idle => mpc' == M.UReadOwner
      case UReadOwner => s.m.owner == t + 1 && mpc' == M.UClearOwner
      case UClearOwner => mpc' == M.UClearDepth
      case UClearDepth => mpc' == M.UStore
      case UStore => mpc' == M.UWake
      case UWake => mpc' == M.Idle
      case _ => false
    requires pc' == if mpc'.Idle? then Check else Unlocking
    ensures var s' := Apply(s, Go(t, 0));
      && Alone(s', t, pc', mpc') && SameData(s, s', t)
      && (mpc.Idle? ==> s'.m.owner == s.m.owner)
  {
  }

  lemma Acquire(s: State, t: M.Tid) returns (s': State)
    requires Alone(s, t, Enter, M.Idle) && s.m.word == 1
    ensures Leads(s, s') && Alone(s', t, Op1, M.Idle) && SameData(s, s', t) && s'.m.owner == t + 1
  {
    hide Apply, Exec, Leads;
    var e := Go(t, 0);
    LockMove(s, t, Enter, M.Idle, Locking, M.LReadWord);
    var s1 := Apply(s, e);
    LockMove(s1, t, Locking, M.LReadWord, Locking, M.LCas);
    var s2 := Apply(s1, e);
    LockMove(s2, t, Locking, M.LCas, Locking, M.LSetOwner);
    var s3 := Apply(s2, e);
    LockMove(s3, t, Locking, M.LSetOwner, Locking, M.LSetDepth);
    var s4 := Apply(s3, e);
    LockMove(s4, t, Locking, M.LSetDepth, Op1, M.Idle);
    s' := Apply(s4, e);
    LeadsHere(s);
    LeadsOn(s, s, e);
    LeadsOn(s, s1, e);
    LeadsOn(s, s2, e);
    LeadsOn(s, s3, e);
    LeadsOn(s, s4, e);
  }

  lemma ReleaseBegins(s: State, t: M.Tid) returns (s': State)
    requires Alone(s, t, Leave, M.Idle) && s.m.owner == t + 1
    ensures Leads(s, s') && Alone(s', t, Unlocking, M.UClearDepth) && SameData(s, s', t)
  {
    hide Apply, Exec, Leads;
    var e := Go(t, 0);
    UnlockMove(s, t, Leave, M.Idle, Unlocking, M.UReadOwner);
    var s1 := Apply(s, e);
    UnlockMove(s1, t, Unlocking, M.UReadOwner, Unlocking, M.UClearOwner);
    var s2 := Apply(s1, e);
    UnlockMove(s2, t, Unlocking, M.UClearOwner, Unlocking, M.UClearDepth);
    s' := Apply(s2, e);
    LeadsHere(s);
    LeadsOn(s, s, e);
    LeadsOn(s, s1, e);
    LeadsOn(s, s2, e);
  }

  lemma Release(s: State, t: M.Tid) returns (s': State)
    requires Alone(s, t, Leave, M.Idle) && s.m.owner == t + 1
    ensures Leads(s, s') && Alone(s', t, Check, M.Idle) && SameData(s, s', t)
  {
    hide Apply, Exec, Leads;
    var e := Go(t, 0);
    var s3 := ReleaseBegins(s, t);
    UnlockMove(s3, t, Unlocking, M.UClearDepth, Unlocking, M.UStore);
    var s4 := Apply(s3, e);
    UnlockMove(s4, t, Unlocking, M.UStore, Unlocking, M.UWake);
    var s5 := Apply(s4, e);
    UnlockMove(s5, t, Unlocking, M.UWake, Check, M.Idle);
    s' := Apply(s5, e);
    LeadsOn(s, s3, e);
    LeadsOn(s, s4, e);
    LeadsOn(s, s5, e);
  }

  /** Both clients between their rounds. */
  ghost predicate AtRest(s: State) {
    Inv(s) && s.rd.pc.Enter? && s.wr.pc.Enter?
  }

  lemma RestIsQuiet(s: State, t: M.Tid)
    requires AtRest(s) && t < 2
    ensures Alone(s, t, Enter, M.Idle) && s.m.word == 1
    ensures s.items == Range(s.rd.expected, s.wr.i) && s.count == |s.items| && s.rd.got == Range(0, s.rd.expected)
  {
    assert M.ThreadInv(s.m, READER) && M.ThreadInv(s.m, WRITER);
    assert s.m.sleepers == {} by {
      forall u: M.Tid
        ensures u !in s.m.sleepers
      {
        if u < 2 {
          assert M.ThreadInv(s.m, u);
        }
      }
    }
  }

  lemma LeadsKeepsInv(s: State, t: State)
    requires Inv(s) && Leads(s, t)
    ensures Inv(t)
  {
    var schedule :| Exec(s, schedule) == t;
    ExecKeepsInv(s, schedule);
    hide Exec;
  }

  /** The writer's three moves on the queue. */
  lemma WriterWorks(s: State) returns (s': State)
    requires Alone(s, WRITER, Op1, M.Idle) && s.count < s.maxCount
    ensures Leads(s, s') && Alone(s', WRITER, Leave, M.Idle) && s'.m == s.m
    ensures s'.items == s.items + [s.wr.i] && s'.maxCount == s.maxCount && s'.rd == s.rd
  {
    hide Exec, Leads, M.Apply;
    var e := Go(WRITER, 0);
    var s1 := Apply(s, e);
    var s2 := Apply(s1, e);
    s' := Apply(s2, e);
    LeadsHere(s);
    LeadsOn(s, s, e);
    LeadsOn(s, s1, e);
    LeadsOn(s, s2, e);
  }

  /** The reader's four moves on the queue. */
  lemma ReaderWorks(s: State) returns (s': State)
    requires Alone(s, READER, Op1, M.Idle) && s.items != [] && s.count == |s.items|
    ensures Leads(s, s') && Alone(s', READER, Leave, M.Idle) && s'.m == s.m
    ensures s'.items == s.items[1..] && s'.maxCount == s.maxCount && s'.wr == s.wr
    ensures s'.rd.ok && s'.rd.val == s.items[0] && s'.rd.got == s.rd.got && s'.rd.expected == s.rd.expected
  {
    hide Exec, Leads, M.Apply;
    var e := Go(READER, 0);
    var s1 := Apply(s, e);
    var s2 := Apply(s1, e);
    var s3 := Apply(s2, e);
    s' := Apply(s3, e);
    LeadsHere(s);
    LeadsOn(s, s, e);
    LeadsOn(s, s1, e);
    LeadsOn(s, s2, e);
    LeadsOn(s, s3, e);
  }

  /** A round of the writer on a queue with room. */
  lemma WriterRound(s: State) returns (s': State)
    requires AtRest(s) && |s.items| < s.maxCount
    ensures Leads(s, s') && AtRest(s') && s'.maxCount == s.maxCount && s'.rd == s.rd
    ensures s'.items == s.items + [s.wr.i]
  {
    hide Exec, Leads, M.Apply, Inv;
    RestIsQuiet(s, WRITER);
    var a := Acquire(s, WRITER);
    var b := WriterWorks(a);
    LeadsFurther(s, a, b);
    var c := Release(b, WRITER);
    LeadsFurther(s, b, c);
    s' := Apply(c, Go(WRITER, 0));
    LeadsOn(s, c, Go(WRITER, 0));
    LeadsKeepsInv(s, s');
  }

  /** A round of the reader on a queue that is not empty. */
  lemma ReaderRound(s: State) returns (s': State)
    requires AtRest(s) && s.items != []
    ensures Leads(s, s') && AtRest(s') && s'.maxCount == s.maxCount
    ensures s'.rd.got + s'.items == s.rd.got + s.items && |s'.rd.got| == |s.rd.got| + 1
  {
    hide Exec, Leads, M.Apply, Inv;
    RestIsQuiet(s, READER);
    var a := Acquire(s, READER);
    var b := ReaderWorks(a);
    LeadsFurther(s, a, b);
    var c := Release(b, READER);
    LeadsFurther(s, b, c);
    s' := Apply(c, Go(READER, 0));
    LeadsOn(s, c, Go(READER, 0));
    LeadsKeepsInv(s, s');
  }

  /** Any number of values can be handed over, through a queue of any size but 0. */
  lemma {:induction false} AnyNumberGetsThrough(maxCount: nat, k: nat) returns (schedule: seq<Event>)
    requires maxCount > 0
    ensures var s := Exec(Init(maxCount), schedule);
      |s.rd.got| == k && (forall i :: 0 <= i < k ==> s.rd.got[i] == i) && s.items == []
  {
    var s := Handed(maxCount, k);
    RestIsQuiet(s, READER);
    schedule :| Exec(Init(maxCount), schedule) == s;
  }

  lemma {:induction false} Handed(maxCount: nat, k: nat) returns (s: State)
    requires maxCount > 0
    ensures Leads(Init(maxCount), s) && AtRest(s) && |s.rd.got| == k && s.items == [] && s.maxCount == maxCount
    decreases k
  {
    if k == 0 {
      s := Init(maxCount);
      LeadsHere(s);
      InitInv(maxCount);
    } else {
      hide Exec, Leads, Inv, Init;
      var s0 := Handed(maxCount, k - 1);
      var s1 := WriterRound(s0);
      LeadsFurther(Init(maxCount), s0, s1);
      s := ReaderRound(s1);
      LeadsFurther(Init(maxCount), s1, s);
    }
  }
}
