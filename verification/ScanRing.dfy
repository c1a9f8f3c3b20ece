/**
 The scheduler's scan as a function on the ring: it walks on from the current thread,
 removes finished threads on the way, and stops at the first thread that may run.
 */
module ScanRing {

  datatype Option<+T> = None | Some(value: T)

  /** What the scan sees of a thread; slot 0 is the head of the ring. */
  datatype Slot<T> = Slot(who: T, finished: bool, wake: int)

  /** The ring after a scan and the slot at which it stopped. */
  datatype Outcome<T> = Outcome(slots: seq<Slot<T>>, stop: nat)

  predicate MayRun<T>(s: Slot<T>, now: int) {
    !s.finished && s.wake <= now
  }

  function Remove<T>(xs: seq<T>, k: nat): (ys: seq<T>)
    requires k < |xs|
    ensures |ys| == |xs| - 1
  {
    xs[..k] + xs[k + 1..]
  }

  lemma RemovedAt<T>(xs: seq<T>, k: nat, i: nat)
    requires k < |xs| && i < |xs| - 1
    ensures Remove(xs, k)[i] == xs[if i < k then i else i + 1]
  {
  }

  /** Where the slot numbered `i` is after the removal of slot `k`. */
  function Shifted(i: Option<nat>, k: nat): Option<nat> {
    if i == Some(k) then None
    else if i.Some? && i.value > k then Some(i.value - 1)
    else i
  }

  function Wrap(i: nat, n: nat): nat {
    if i < n then i else 0
  }

  /** The head is neither finished nor asleep. */
  predicate HeadRuns<T>(slots: seq<Slot<T>>, now: int) {
    slots != [] && MayRun(slots[0], now)
  }

  /** One or more rounds of the loop, with the cursor at slot `at`; `mine` is the slot of the thread
      that called the scheduler, if it is still in the ring. */
  function Scan<T>(slots: seq<Slot<T>>, at: nat, mine: Option<nat>, now: int): (o: Outcome<T>)
    requires HeadRuns(slots, now) && at < |slots|
    ensures o.stop < |o.slots| && HeadRuns(o.slots, now) && o.slots[0] == slots[0]
    decreases |slots|, |slots| - at
  {
    var next := Wrap(at + 1, |slots|);
    if slots[next].finished && next != 0 then
      // unlink it, step to its successor, and go straight to the loop condition
      var rest, after := Remove(slots, next), Wrap(next, |slots| - 1);
      if Some(after) == Shifted(mine, next) then Outcome(rest, after)
      else Scan(rest, after, Shifted(mine, next), now)
    else if MayRun(slots[next], now) then Outcome(slots, next)
    else if Some(next) == mine then Outcome(slots, next)
    else Scan(slots, next, mine, now)
  }

  /** The scan in terms of its first round. */
  lemma ScanRound<T>(slots: seq<Slot<T>>, at: nat, mine: Option<nat>, now: int)
    requires HeadRuns(slots, now) && at < |slots|
    ensures var next := Wrap(at + 1, |slots|);
      var rest, after := Remove(slots, next), Wrap(next, |slots| - 1);
      Scan(slots, at, mine, now) ==
        if slots[next].finished && next != 0 then
          if Some(after) == Shifted(mine, next) then Outcome(rest, after)
          else Scan(rest, after, Shifted(mine, next), now)
        else if MayRun(slots[next], now) || Some(next) == mine then Outcome(slots, next)
        else Scan(slots, next, mine, now)
  {
  }

  // ------------------------------------------------------------ what a scan keeps

  function Unfinished<T>(slots: seq<Slot<T>>): seq<Slot<T>> {
    if slots == [] then []
    else if slots[0].finished then Unfinished(slots[1..])
    else [slots[0]] + Unfinished(slots[1..])
  }

  lemma {:induction false} UnfinishedConcat<T>(xs: seq<Slot<T>>, ys: seq<Slot<T>>)
    ensures Unfinished(xs + ys) == Unfinished(xs) + Unfinished(ys)
    decreases |xs|
  {
    if xs == [] {
      assert xs + ys == ys;
    } else {
      assert (xs + ys)[0] == xs[0] && (xs + ys)[1..] == xs[1..] + ys;
      UnfinishedConcat(xs[1..], ys);
    }
  }

  lemma RemoveKeepsUnfinished<T>(slots: seq<Slot<T>>, k: nat)
    requires k < |slots| && slots[k].finished
    ensures Unfinished(Remove(slots, k)) == Unfinished(slots)
  {
    assert slots == slots[..k] + slots[k..];
    UnfinishedConcat(slots[..k], slots[k..]);
    UnfinishedConcat(slots[..k], slots[k + 1..]);
    assert slots[k..][1..] == slots[k + 1..];
  }

  /** The scan removes none but finished threads: the unfinished ones are all still there, in order,
      and no thread is added. */
  lemma {:induction false} ScanRemovesOnlyFinished<T>(slots: seq<Slot<T>>, at: nat, mine: Option<nat>, now: int)
    requires HeadRuns(slots, now) && at < |slots|
    ensures var o := Scan(slots, at, mine, now);
      && Unfinished(o.slots) == Unfinished(slots)
      && multiset(o.slots) <= multiset(slots)
    decreases |slots|, |slots| - at
  {
    var next := Wrap(at + 1, |slots|);
    if slots[next].finished && next != 0 {
      RemoveKeepsUnfinished(slots, next);
      var rest, after := Remove(slots, next), Wrap(next, |slots| - 1);
      assert slots == slots[..next] + [slots[next]] + slots[next + 1..];
      if Some(after) != Shifted(mine, next) {
        ScanRemovesOnlyFinished(rest, after, Shifted(mine, next), now);
      }
    } else if !MayRun(slots[next], now) && Some(next) != mine {
      ScanRemovesOnlyFinished(slots, next, mine, now);
    }
  }

  lemma {:induction false} UnfinishedMember<T>(slots: seq<Slot<T>>, s: Slot<T>)
    ensures s in Unfinished(slots) <==> s in slots && !s.finished
    decreases |slots|
  {
    if slots != [] {
      UnfinishedMember(slots[1..], s);
    }
  }

  /** The scheduler lets no unfinished thread drop out of the ring, and drops every thread it unlinks
      for being finished. */
  lemma UnfinishedStay<T>(slots: seq<Slot<T>>, m: nat, now: int, s: Slot<T>)
    requires HeadRuns(slots, now) && m < |slots| && s in slots
    ensures !s.finished ==> s in Scan(slots, m, Some(m), now).slots
    ensures s !in Scan(slots, m, Some(m), now).slots ==> s.finished
  {
    ScanRemovesOnlyFinished(slots, m, Some(m), now);
    UnfinishedMember(slots, s);
    UnfinishedMember(Scan(slots, m, Some(m), now).slots, s);
  }

  /** The scan stops at a thread that may run, or back at the caller without a switch. */
  lemma {:induction false} ScanStopsWell<T>(slots: seq<Slot<T>>, at: nat, mine: Option<nat>, now: int, me: Slot<T>)
    requires HeadRuns(slots, now) && at < |slots|
    requires mine.Some? ==> mine.value < |slots| && slots[mine.value] == me
    ensures var o := Scan(slots, at, mine, now);
      MayRun(o.slots[o.stop], now) || (mine.Some? && o.slots[o.stop] == me)
    decreases |slots|, |slots| - at
  {
    var next := Wrap(at + 1, |slots|);
    if slots[next].finished && next != 0 {
      var rest, after := Remove(slots, next), Wrap(next, |slots| - 1);
      if Some(after) != Shifted(mine, next) {
        ScanStopsWell(rest, after, Shifted(mine, next), now, me);
      }
    } else if !MayRun(slots[next], now) && Some(next) != mine {
      ScanStopsWell(slots, next, mine, now, me);
    }
  }

  // ------------------------------------------------------------ bounded waiting

  /** No thread in the ring has finished. */
  predicate AllAlive<T>(slots: seq<Slot<T>>) {
    forall i :: 0 <= i < |slots| ==> !slots[i].finished
  }

  /** How many steps forward slot `x` lies from slot `m`; a full turn if it is slot `m` itself. */
  function Distance(m: nat, x: nat, n: nat): nat
    requires m < n && x < n
  {
    if m < x then x - m else x + n - m
  }

  /** With nobody finished, the scan stops at the first thread after the cursor that may run, or at
      the caller: every slot it passed over was asleep and not the caller. */
  lemma {:induction false} ScanFindsFirst<T>(slots: seq<Slot<T>>, at: nat, mine: nat, now: int)
    requires HeadRuns(slots, now) && AllAlive(slots) && at < |slots| && mine < |slots|
    ensures var o := Scan(slots, at, Some(mine), now);
      && o.slots == slots
      && (MayRun(slots[o.stop], now) || o.stop == mine)
      && (forall i :: 0 <= i < |slots| && Distance(at, i, |slots|) < Distance(at, o.stop, |slots|) ==>
            !MayRun(slots[i], now) && i != mine)
    decreases |slots|, |slots| - at
  {
    var n := |slots|;
    var next := Wrap(at + 1, n);
    if !MayRun(slots[next], now) && next != mine {
      ScanFindsFirst(slots, next, mine, now);
      var o := Scan(slots, next, Some(mine), now);
      assert Scan(slots, at, Some(mine), now) == o;
      forall i | 0 <= i < n && Distance(at, i, n) < Distance(at, o.stop, n)
        ensures !MayRun(slots[i], now) && i != mine
      {
        if i != next {
          assert Distance(at, i, n) == Distance(next, i, n) + 1 || i == at;
        }
      }
    }
  }

  /** With nobody finished, a thread that went to sleep does not get the processor back before its
      deadline: the scan stops elsewhere, at a thread that may run. */
  lemma SleeperYields<T>(slots: seq<Slot<T>>, mine: nat, now: int)
    requires HeadRuns(slots, now) && AllAlive(slots) && mine < |slots| && !MayRun(slots[mine], now)
    ensures var o := Scan(slots, mine, Some(mine), now);
      o.slots == slots && o.stop != mine && MayRun(o.slots[o.stop], now)
  {
    ScanFindsFirst(slots, mine, mine, now);
  }

  /** With a finished thread about, that fails: the removal of the last thread in the ring steps over
      the head unexamined, and the sleeping caller goes on at once although the head could run.
      SleeperReturnsIff in ScanStops says when exactly. */
  lemma SleeperCanReturnEarly<T>(head: T, sleeper: T, gone: T)
    ensures var slots := [Slot(head, false, 0), Slot(sleeper, false, 10), Slot(gone, true, 0)];
      Scan(slots, 1, Some(1), 0) == Outcome([Slot(head, false, 0), Slot(sleeper, false, 10)], 1)
  {
    var slots := [Slot(head, false, 0), Slot(sleeper, false, 10), Slot(gone, true, 0)];
    var rest := Remove(slots, 2);
    assert rest == [Slot(head, false, 0), Slot(sleeper, false, 10)];
    assert Scan(slots, 1, Some(1), 0) == Scan(rest, 0, Some(1), 0);
  }

  /** The slot that is current after each call of a series; the ring is fixed, deadlines and the
      clock may change between calls. */
  function CurrentAfter<T>(mine: nat, calls: seq<(seq<Slot<T>>, int)>): nat
    requires calls != [] ==> mine < |calls[0].0|
    requires forall k :: 0 <= k < |calls| ==> |calls[k].0| == |calls[0].0| && HeadRuns(calls[k].0, calls[k].1)
    requires forall k :: 0 <= k < |calls| ==> AllAlive(calls[k].0)
    decreases |calls|
  {
    if calls == [] then mine
    else
      ScanFindsFirst(calls[0].0, mine, mine, calls[0].1);
      var stop := Scan(calls[0].0, mine, Some(mine), calls[0].1).stop;
      CurrentAfter(stop, calls[1..])
  }

  /** Bounded waiting: a thread that stays awake becomes current within as many calls as it lies steps
      ahead, hence within as many calls as there are threads. */
  lemma {:induction false} AwakeThreadGetsItsTurn<T>(mine: nat, x: nat, calls: seq<(seq<Slot<T>>, int)>)
    returns (k: nat)
    requires calls != [] && mine < |calls[0].0| && x < |calls[0].0|
    requires forall k :: 0 <= k < |calls| ==> |calls[k].0| == |calls[0].0| && HeadRuns(calls[k].0, calls[k].1)
    requires forall k :: 0 <= k < |calls| ==> AllAlive(calls[k].0)
    requires forall k :: 0 <= k < |calls| ==> MayRun(calls[k].0[x], calls[k].1)
    requires |calls| >= Distance(mine, x, |calls[0].0|)
    ensures 1 <= k <= Distance(mine, x, |calls[0].0|) && CurrentAfter(mine, calls[..k]) == x
    decreases |calls|
  {
    var slots, now := calls[0].0, calls[0].1;
    var n := |slots|;
    ScanFindsFirst(slots, mine, mine, now);
    var stop := Scan(slots, mine, Some(mine), now).stop;
    assert MayRun(calls[0].0[x], calls[0].1);
    if stop == x {
      k := 1;
      assert calls[..1][1..] == [];
    } else {
      assert Distance(stop, x, n) < Distance(mine, x, n);
      var j := AwakeThreadGetsItsTurn(stop, x, calls[1..]);
      k := j + 1;
      assert calls[..k][0] == calls[0] && calls[..k][1..] == calls[1..][..j];
    }
  }

  // ------------------------------------------------------------ bounded waiting while threads finish

  lemma ScanNeverGrows<T>(slots: seq<Slot<T>>, at: nat, mine: Option<nat>, now: int)
    requires HeadRuns(slots, now) && at < |slots|
    ensures |Scan(slots, at, mine, now).slots| <= |slots|
  {
    ScanRemovesOnlyFinished(slots, at, mine, now);
    var o := Scan(slots, at, mine, now);
    assert |multiset(o.slots)| == |o.slots| && |multiset(slots)| == |slots|;
    assert multiset(slots) == multiset(o.slots) + (multiset(slots) - multiset(o.slots));
  }

  /** A scan that removes nobody does not pass a thread that may run. */
  lemma {:induction false} ScanRemovesOrHeeds<T>(slots: seq<Slot<T>>, at: nat, mine: nat, p: nat, now: int)
    requires HeadRuns(slots, now) && at < |slots| && mine < |slots| && p < |slots| && MayRun(slots[p], now)
    requires Distance(at, p, |slots|) <= Distance(at, mine, |slots|)
    ensures var o := Scan(slots, at, Some(mine), now);
      || |o.slots| < |slots|
      || (o.slots == slots && Distance(at, o.stop, |slots|) <= Distance(at, p, |slots|))
    decreases |slots|, |slots| - at
  {
    var next := Wrap(at + 1, |slots|);
    ScanRound(slots, at, Some(mine), now);
    if slots[next].finished && next != 0 {
      var rest, after := Remove(slots, next), Wrap(next, |slots| - 1);
      ScanNeverGrows(rest, after, Shifted(Some(mine), next), now);
    } else if !MayRun(slots[next], now) && next != mine {
      ScanRemovesOrHeeds(slots, next, mine, p, now);
    }
  }

  /** A call of the scheduler: the ring that it finds, the caller's slot and the time. */
  datatype Call<T> = Call(slots: seq<Slot<T>>, mine: nat, now: int)

  ghost predicate Proper<T>(c: Call<T>) {
    HeadRuns(c.slots, c.now) && c.mine < |c.slots|
  }

  function Result<T>(c: Call<T>): (o: Outcome<T>)
    requires HeadRuns(c.slots, c.now) && c.mine < |c.slots|
    ensures o.stop < |o.slots|
  {
    Scan(c.slots, c.mine, Some(c.mine), c.now)
  }

  /** The next call comes from the thread that the last one chose.  The ring is as the last one left
      it; threads may have finished and deadlines may have changed. */
  ghost predicate Follows<T>(c: Call<T>, d: Call<T>)
    requires Proper(c)
  {
    && d.mine == Result(c).stop && |d.slots| == |Result(c).slots|
    && forall i :: 0 <= i < |d.slots| ==> d.slots[i].who == Result(c).slots[i].who
  }

  ghost predicate Series<T>(calls: seq<Call<T>>) {
    && (forall k :: 0 <= k < |calls| ==> Proper(calls[k]))
    && (forall k, l {:trigger calls[k], calls[l]} :: 0 <= k < |calls| && l == k + 1 < |calls| ==>
          Follows(calls[k], calls[l]))
  }

  /** Thread `x` is in the ring once, and may run. */
  ghost predicate Ready<T>(c: Call<T>, x: T) {
    && (exists p :: 0 <= p < |c.slots| && c.slots[p].who == x && MayRun(c.slots[p], c.now))
    && (forall p, q :: 0 <= p < |c.slots| && 0 <= q < |c.slots| && c.slots[p].who == c.slots[q].who ==> p == q)
  }

  ghost function Place<T>(c: Call<T>, x: T): (p: nat)
    requires Ready(c, x)
    ensures p < |c.slots| && c.slots[p].who == x && MayRun(c.slots[p], c.now)
  {
    var p :| 0 <= p < |c.slots| && c.slots[p].who == x && MayRun(c.slots[p], c.now);
    p
  }

  /** The calls that a ready thread may still have to wait for. */
  ghost function Patience<T>(c: Call<T>, x: T): nat
    requires Proper(c) && Ready(c, x)
  {
    (|c.slots| - 1) * |c.slots| + Distance(c.mine, Place(c, x), |c.slots|)
  }

  lemma ProductGrows(a: nat, b: nat, c: nat)
    requires a <= b
    ensures a * c <= b * c && c * a <= c * b
  {
    assert b * c == a * c + (b - a) * c;
  }

  lemma SmallerRing(m: nat, n: nat, d: nat, e: nat)
    requires 1 <= m < n && d <= m && e >= 1
    ensures (m - 1) * m + d < (n - 1) * n + e && (n - 1) * n >= 2
  {
    ProductGrows(m, n - 1, m);
    ProductGrows(m, n, n - 1);
    ProductGrows(1, n - 1, n);
    assert (m - 1) * m == m * m - m;
  }

  lemma PatienceExceedsDistance<T>(c: Call<T>, x: T)
    requires Proper(c) && Ready(c, x)
    ensures Patience(c, x) >= Distance(c.mine, Place(c, x), |c.slots|) >= 1
    ensures |c.slots| > 1 ==> Patience(c, x) > 1
  {
    var n := |c.slots|;
    if n > 1 {
      SmallerRing(1, n, 1, 1);
    }
  }

  /** A call that does not choose a ready thread leaves it more than one call to wait for. */
  lemma PassedOverMustWait<T>(c: Call<T>, x: T)
    requires Proper(c) && Ready(c, x) && Result(c).slots[Result(c).stop].who != x
    ensures Patience(c, x) > 1
    ensures |Result(c).slots| < |c.slots| ||
      (Result(c).slots == c.slots &&
       Distance(c.mine, Result(c).stop, |c.slots|) < Distance(c.mine, Place(c, x), |c.slots|))
  {
    ScanRemovesOrHeeds(c.slots, c.mine, c.mine, Place(c, x), c.now);
    PatienceExceedsDistance(c, x);
    hide Scan, Patience;
  }

  lemma CallUsesPatience<T>(c: Call<T>, d: Call<T>, x: T)
    requires Proper(c) && Proper(d) && Follows(c, d) && Ready(c, x) && Ready(d, x)
    requires Result(c).slots[Result(c).stop].who != x
    ensures Patience(d, x) < Patience(c, x)
  {
    var n, m := |c.slots|, |d.slots|;
    PassedOverMustWait(c, x);
    hide Scan;
    if m < n {
      SmallerRing(m, n, Distance(d.mine, Place(d, x), m), Distance(c.mine, Place(c, x), n));
    } else {
      assert d.slots[Place(c, x)].who == x;
      assert Place(d, x) == Place(c, x);
    }
  }

  /** Bounded waiting while threads finish: one that is ready at every call becomes current within as
      many calls as the square of the number of threads. */
  lemma {:induction false} ReadyThreadGetsItsTurn<T>(calls: seq<Call<T>>, x: T) returns (k: nat)
    requires calls != [] && Series(calls) && forall c :: c in calls ==> Ready(c, x)
    requires |calls| >= Patience(calls[0], x)
    ensures k < Patience(calls[0], x) <= |calls[0].slots| * |calls[0].slots| && k < |calls|
    ensures Result(calls[k]).slots[Result(calls[k]).stop].who == x
    decreases |calls|
  {
    var c := calls[0];
    assert (|c.slots| - 1) * |c.slots| + |c.slots| == |c.slots| * |c.slots|;
    if Result(c).slots[Result(c).stop].who == x {
      k := 0;
    } else {
      PassedOverMustWait(c, x);
      var d, rest := calls[1], calls[1..];
      CallUsesPatience(c, d, x);
      assert Series(rest) by {
        forall i, j | 0 <= i < |rest| && j == i + 1 < |rest|
          ensures Follows(rest[i], rest[j])
        {
          assert Follows(calls[i + 1], calls[j + 1]);
        }
      }
      var l := ReadyThreadGetsItsTurn(rest, x);
      k := l + 1;
    }
  }
}
