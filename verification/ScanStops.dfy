/**
 Where the scheduler's scan stops when finished threads are about.  Each removal steps over the next
 slot unexamined, so behind a run of finished threads it depends on the length of the run whether the
 scan looks at a thread at all.
 */
module ScanStops {
  import opened ScanRing

  // ------------------------------------------------------------ the scan as a walk along a sequence

  /** The slots ahead of `at`, round to the caller's, which comes last. */
  function Ahead<T>(slots: seq<Slot<T>>, at: nat, mine: nat): (ahead: seq<Slot<T>>)
    requires at < |slots| && mine < |slots|
    ensures ahead != [] && ahead[|ahead| - 1] == slots[mine]
  {
    if at < mine then slots[at + 1..mine + 1] else slots[at + 1..] + slots[..mine + 1]
  }

  /** How far the scan gets: a finished thread takes the one after it along. */
  function Walk<T>(ahead: seq<Slot<T>>, now: int): (k: nat)
    requires ahead != [] && !ahead[|ahead| - 1].finished
    ensures k < |ahead|
    decreases |ahead|
  {
    if ahead[0].finished then
      if |ahead| == 2 then 1 else 2 + Walk(ahead[2..], now)
    else if MayRun(ahead[0], now) || |ahead| == 1 then 0
    else 1 + Walk(ahead[1..], now)
  }

  lemma AheadOfNext<T>(slots: seq<Slot<T>>, at: nat, mine: nat)
    requires at < |slots| && mine < |slots|
    ensures var next := Wrap(at + 1, |slots|); var ahead := Ahead(slots, at, mine);
      && ahead[0] == slots[next] && (next == mine <==> |ahead| == 1)
      && (next != mine ==> Ahead(slots, next, mine) == ahead[1..])
  {
  }

  lemma AheadOfRemovalBeforeCaller<T>(slots: seq<Slot<T>>, next: nat, mine: nat)
    requires 0 < next < mine < |slots|
    ensures next + 1 < mine ==>
      Ahead(Remove(slots, next), next, mine - 1) == slots[next..mine + 1][2..]
  {
    if next + 1 < mine {
      assert Remove(slots, next)[next + 1..mine] == slots[next + 2..mine + 1] == slots[next..mine + 1][2..];
    }
  }

  lemma DropTwo<T>(a: seq<T>, b: seq<T>)
    requires |a| >= 2
    ensures (a + b)[2..] == a[2..] + b
  {
  }

  lemma AheadOfInnerRemoval<T>(slots: seq<Slot<T>>, next: nat, mine: nat)
    requires mine < next < |slots| - 1
    ensures Ahead(Remove(slots, next), next, mine) == (slots[next..] + slots[..mine + 1])[2..]
  {
    var rest := Remove(slots, next);
    assert rest[next + 1..] == slots[next + 2..];
    assert rest[..mine + 1] == slots[..mine + 1];
    hide Remove;
    DropTwo(slots[next..], slots[..mine + 1]);
    assert slots[next..][2..] == slots[next + 2..];
  }

  lemma AheadOfRemovalBehindCaller<T>(slots: seq<Slot<T>>, next: nat, mine: nat)
    requires mine < next < |slots|
    ensures var after := Wrap(next, |slots| - 1);
      after != mine ==> Ahead(Remove(slots, next), after, mine) == (slots[next..] + slots[..mine + 1])[2..]
  {
    if next < |slots| - 1 {
      AheadOfInnerRemoval(slots, next, mine);
    } else if mine > 0 {
      assert Remove(slots, next) == slots[..next];
      assert slots[..next][1..mine + 1] == slots[1..mine + 1] == ([slots[next]] + slots[..mine + 1])[2..];
    }
  }

  lemma AheadOfRemoval<T>(slots: seq<Slot<T>>, at: nat, mine: nat)
    requires at < |slots| && mine < |slots|
    requires var next := Wrap(at + 1, |slots|); next != mine && next != 0
    ensures var next := Wrap(at + 1, |slots|); var ahead := Ahead(slots, at, mine);
      var rest, after := Remove(slots, next), Wrap(next, |slots| - 1);
      && |ahead| >= 2
      && Shifted(Some(mine), next).Some? && Shifted(Some(mine), next).value < |rest|
      && rest[Shifted(Some(mine), next).value] == slots[mine] && rest[after] == ahead[1]
      && (after == Shifted(Some(mine), next).value <==> |ahead| == 2)
      && (|ahead| > 2 ==> Ahead(rest, after, Shifted(Some(mine), next).value) == ahead[2..])
  {
    var next := Wrap(at + 1, |slots|);
    var shifted := if mine < next then mine else mine - 1;
    hide Remove;
    RemovedAt(slots, next, shifted);
    RemovedAt(slots, next, Wrap(next, |slots| - 1));
    if at < mine {
      AheadOfRemovalBeforeCaller(slots, next, mine);
    } else {
      AheadOfRemovalBehindCaller(slots, next, mine);
    }
  }

  /** A scan called by an unfinished thread stops where the walk does. */
  lemma {:induction false} ScanIsWalk<T>(slots: seq<Slot<T>>, at: nat, mine: nat, now: int)
    requires HeadRuns(slots, now) && at < |slots| && mine < |slots| && !slots[mine].finished
    ensures var o := Scan(slots, at, Some(mine), now); var ahead := Ahead(slots, at, mine);
      o.slots[o.stop] == ahead[Walk(ahead, now)]
    decreases |slots|, |slots| - at
  {
    hide Scan, Ahead, Remove;
    var next := Wrap(at + 1, |slots|);
    AheadOfNext(slots, at, mine);
    ScanRound(slots, at, Some(mine), now);
    if slots[next].finished && next != 0 {
      AheadOfRemoval(slots, at, mine);
      RemovedAt(slots, next, 0);
      var rest, after, shifted := Remove(slots, next), Wrap(next, |slots| - 1), Shifted(Some(mine), next).value;
      if after != shifted {
        ScanIsWalk(rest, after, shifted, now);
      }
    } else if !MayRun(slots[next], now) && next != mine {
      ScanIsWalk(slots, next, mine, now);
    }
  }

  // ------------------------------------------------------------ runs of finished threads

  /** How many finished threads stand directly before place `k`. */
  function RunBefore<T>(ahead: seq<Slot<T>>, k: nat): (r: nat)
    requires k <= |ahead|
    ensures r <= k
  {
    if k == 0 || !ahead[k - 1].finished then 0 else 1 + RunBefore(ahead, k - 1)
  }

  /** The scan looks at place `k` and finds a thread that may run. */
  predicate Caught<T>(ahead: seq<Slot<T>>, k: nat, now: int)
    requires k < |ahead|
  {
    MayRun(ahead[k], now) && RunBefore(ahead, k) % 2 == 0
  }

  lemma {:induction false} RunWithoutPrefix<T>(ahead: seq<Slot<T>>, d: nat, k: nat)
    requires d <= k <= |ahead|
    ensures var r := RunBefore(ahead[d..], k - d);
      RunBefore(ahead, k) == if r < k - d then r else k - d + RunBefore(ahead, d)
    decreases k
  {
    if k > d && ahead[k - 1].finished {
      RunWithoutPrefix(ahead, d, k - 1);
    }
  }

  lemma CaughtWithoutPrefix<T>(ahead: seq<Slot<T>>, d: nat, now: int)
    requires (d == 1 && |ahead| >= 1 && !ahead[0].finished) || (d == 2 && |ahead| >= 2 && ahead[0].finished)
    ensures forall k :: d <= k < |ahead| ==> (Caught(ahead, k, now) <==> Caught(ahead[d..], k - d, now))
    ensures d == 2 ==> !Caught(ahead, 0, now) && !Caught(ahead, 1, now)
  {
    forall k | d <= k < |ahead|
      ensures Caught(ahead, k, now) <==> Caught(ahead[d..], k - d, now)
    {
      RunWithoutPrefix(ahead, d, k);
      assert ahead[d..][k - d] == ahead[k];
      assert RunBefore(ahead, 1) == if ahead[0].finished then 1 else 0;
    }
  }

  /** The walk stops at the first thread that may run and has an even run before it, else at the end. */
  lemma {:induction false} WalkStopsAtFirstCaught<T>(ahead: seq<Slot<T>>, now: int)
    requires ahead != [] && !ahead[|ahead| - 1].finished
    ensures var k := Walk(ahead, now);
      && (k == |ahead| - 1 || Caught(ahead, k, now))
      && forall j :: 0 <= j < k ==> !Caught(ahead, j, now)
    decreases |ahead|
  {
    var d := if ahead[0].finished then 2 else 1;
    if |ahead| >= d {
      CaughtWithoutPrefix(ahead, d, now);
    }
    if |ahead| > d && !MayRun(ahead[0], now) {
      WalkStopsAtFirstCaught(ahead[d..], now);
      var k := Walk(ahead[d..], now);
      forall j | 0 <= j < d + k
        ensures !Caught(ahead, j, now)
      {
        assert j >= d ==> !Caught(ahead[d..], j - d, now);
      }
    }
  }

  // ------------------------------------------------------------ on the ring

  /** How many finished threads stand directly behind slot `i`, going back round the ring as far as
      the caller. */
  function FinishedRunBefore<T>(slots: seq<Slot<T>>, mine: nat, i: nat): nat
    requires mine < |slots| && i < |slots|
    decreases Distance(mine, i, |slots|)
  {
    var before := if i == 0 then |slots| - 1 else i - 1;
    if before == mine || !slots[before].finished then 0 else 1 + FinishedRunBefore(slots, mine, before)
  }

  /** The scan looks at slot `i`, unless it stops before, and finds a thread that may run. */
  predicate CaughtAt<T>(slots: seq<Slot<T>>, mine: nat, i: nat, now: int)
    requires mine < |slots| && i < |slots|
  {
    MayRun(slots[i], now) && FinishedRunBefore(slots, mine, i) % 2 == 0
  }

  lemma {:induction false} RunsAgree<T>(slots: seq<Slot<T>>, mine: nat, i: nat)
    requires mine < |slots| && i < |slots| && !slots[mine].finished
    ensures var ahead := Ahead(slots, mine, mine); var k := Distance(mine, i, |slots|) - 1;
      ahead[k] == slots[i] && RunBefore(ahead, k) == FinishedRunBefore(slots, mine, i)
    decreases Distance(mine, i, |slots|)
  {
    var before := if i == 0 then |slots| - 1 else i - 1;
    if before != mine {
      RunsAgree(slots, mine, before);
    }
  }

  /** The scan stops at the first thread ahead that may run and has an even run of finished threads
      behind it, or else at the caller; `s` is where that thread was before the scan. */
  lemma ScanStopsAtFirstCaught<T>(slots: seq<Slot<T>>, mine: nat, now: int) returns (s: nat)
    requires HeadRuns(slots, now) && mine < |slots| && !slots[mine].finished
    ensures s < |slots|
    ensures var o := Scan(slots, mine, Some(mine), now); o.slots[o.stop] == slots[s]
    ensures s == mine || CaughtAt(slots, mine, s, now)
    ensures forall i :: 0 <= i < |slots| && Distance(mine, i, |slots|) < Distance(mine, s, |slots|) ==>
      !CaughtAt(slots, mine, i, now)
  {
    var n := |slots|;
    var ahead := Ahead(slots, mine, mine);
    ScanIsWalk(slots, mine, mine, now);
    WalkStopsAtFirstCaught(ahead, now);
    var k := Walk(ahead, now);
    s := if mine + 1 + k < n then mine + 1 + k else mine + 1 + k - n;
    assert Distance(mine, s, n) == k + 1;
    RunsAgree(slots, mine, s);
    forall i | 0 <= i < n && Distance(mine, i, n) < Distance(mine, s, n)
      ensures !CaughtAt(slots, mine, i, now)
    {
      RunsAgree(slots, mine, i);
      assert !Caught(ahead, Distance(mine, i, n) - 1, now);
    }
  }

  /** The slots are of different threads. */
  ghost predicate Apart<T>(slots: seq<Slot<T>>) {
    forall i, j :: 0 <= i < j < |slots| ==> slots[i].who != slots[j].who
  }

  /** A thread that went to sleep keeps the processor if and only if every thread that may run, the
      head included, stands directly behind an odd run of finished threads. */
  lemma SleeperReturnsIff<T>(slots: seq<Slot<T>>, mine: nat, now: int)
    requires HeadRuns(slots, now) && Apart(slots)
    requires mine < |slots| && !slots[mine].finished && !MayRun(slots[mine], now)
    ensures var o := Scan(slots, mine, Some(mine), now);
      o.slots[o.stop].who == slots[mine].who <==>
        forall i :: 0 <= i < |slots| && MayRun(slots[i], now) ==> FinishedRunBefore(slots, mine, i) % 2 == 1
  {
    var s := ScanStopsAtFirstCaught(slots, mine, now);
    if s == mine {
      forall i | 0 <= i < |slots| && MayRun(slots[i], now)
        ensures FinishedRunBefore(slots, mine, i) % 2 == 1
      {
        assert !CaughtAt(slots, mine, i, now);
      }
    } else {
      assert slots[s].who != slots[mine].who;
      assert CaughtAt(slots, mine, s, now);
    }
  }

  /** Every thread other than the caller that may run stands directly behind an odd run of finished
      threads. */
  ghost predicate AllPassedOver<T>(slots: seq<Slot<T>>, mine: nat, now: int)
    requires mine < |slots|
  {
    forall i :: 0 <= i < |slots| && i != mine && MayRun(slots[i], now) ==> FinishedRunBefore(slots, mine, i) % 2 == 1
  }

  lemma {:induction false} RunsIgnoreDeadlines<T>(slots: seq<Slot<T>>, others: seq<Slot<T>>, mine: nat, i: nat)
    requires mine < |slots| == |others| && i < |slots|
    requires forall k :: 0 <= k < |slots| ==> slots[k].finished == others[k].finished
    ensures FinishedRunBefore(slots, mine, i) == FinishedRunBefore(others, mine, i)
    decreases Distance(mine, i, |slots|)
  {
    var before := if i == 0 then |slots| - 1 else i - 1;
    if before != mine {
      RunsIgnoreDeadlines(slots, others, mine, before);
    }
  }

  /** The same for the ring as it was before the caller set its deadline, to `s`. */
  lemma SleepReturnsIff<T>(slots: seq<Slot<T>>, mine: nat, s: Slot<T>, now: int)
    requires mine < |slots| && Apart(slots) && HeadRuns(slots[mine := s], now)
    requires !slots[mine].finished && !s.finished && s.wake > now && s.who == slots[mine].who
    ensures var o := Scan(slots[mine := s], mine, Some(mine), now);
      o.slots[o.stop].who == s.who <==> AllPassedOver(slots, mine, now)
    ensures AllAlive(slots) ==> !AllPassedOver(slots, mine, now)
  {
    var others := slots[mine := s];
    SleeperReturnsIff(others, mine, now);
    forall i | 0 <= i < |slots|
      ensures FinishedRunBefore(slots, mine, i) == FinishedRunBefore(others, mine, i)
    {
      RunsIgnoreDeadlines(slots, others, mine, i);
    }
    assert mine != 0 && MayRun(slots[0], now);
  }
}
