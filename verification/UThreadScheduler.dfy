/**
 User-level threads on a circular, doubly linked ring: creation, the scheduler's scan that
 unlinks finished threads while it walks, and sleeping.
 */
module UThreadScheduler {
  import opened ScanRing
  import opened ScanStops

  class UThread {
    const id: int
    var finished: bool
    var sleepUntil: int
    var next: UThread
    var prev: UThread

    /** A thread alone on its ring. */
    constructor (id: int)
      ensures this.id == id && !finished && sleepUntil == 0 && next == prev == this
    {
      this.id := id;
      finished := false;
      sleepUntil := 0;
      next := this;
      prev := this;
    }
  }

  /** Thread `i` and the one after it point to each other; the last is followed by the first. */
  ghost predicate LinkedAt(ring: seq<UThread>, i: nat)
    requires i < |ring|
    reads ring
  {
    var j := Wrap(i + 1, |ring|);
    ring[i].next == ring[j] && ring[j].prev == ring[i]
  }

  ghost predicate Distinct(ring: seq<UThread>) {
    forall i, j :: 0 <= i < j < |ring| ==> ring[i] != ring[j]
  }

  ghost predicate Ring(ring: seq<UThread>)
    reads ring
  {
    Distinct(ring) && forall i :: 0 <= i < |ring| ==> LinkedAt(ring, i)
  }

  function SlotOf(t: UThread): Slot<UThread>
    reads t
  {
    Slot(t, t.finished, t.sleepUntil)
  }

  /** `slots` is what a scan sees of the ring. */
  ghost predicate Seen(ring: seq<UThread>, slots: seq<Slot<UThread>>)
    reads ring
  {
    |slots| == |ring| && forall i :: 0 <= i < |ring| ==> slots[i] == SlotOf(ring[i])
  }

  lemma InsertedAt<T>(xs: seq<T>, k: nat, x: T, i: nat)
    requires k < |xs| && i <= |xs|
    ensures (xs[..k + 1] + [x] + xs[k + 1..])[i] == if i <= k then xs[i] else if i == k + 1 then x else xs[i - 1]
  {
  }

  lemma InsertedDistinct(ring: seq<UThread>, k: nat, x: UThread)
    requires Distinct(ring) && x !in ring && k < |ring|
    ensures Distinct(ring[..k + 1] + [x] + ring[k + 1..])
    ensures forall t :: t in ring ==> t in ring[..k + 1] + [x] + ring[k + 1..]
  {
    assert ring == ring[..k + 1] + ring[k + 1..];
  }

  lemma RingIsApart(ring: seq<UThread>, slots: seq<Slot<UThread>>)
    requires Ring(ring) && Seen(ring, slots)
    ensures Apart(slots)
  {
  }

  class Manager {
    var head: UThread
    var cur: UThread
    var count: int
    var nextId: int
    /** The threads from `head` round. */
    ghost var ring: seq<UThread>

    ghost predicate Valid()
      reads this, ring
    {
      && Ring(ring) && ring != [] && ring[0] == head && cur in ring && count == |ring| && Numbered()
    }

    /** Ids: 0 for the main thread, and an odd number below the counter for every other. */
    ghost predicate Numbered()
      reads this
    {
      && nextId >= 0 && nextId % 2 == 0
      && forall t :: t in ring ==> if t == head then t.id == 0 else t.id % 2 == 1 && 0 < t.id < nextId
    }

    /** Makes the main thread; its deadline is taken to be 0, which the original leaves unset. */
    constructor ()
      ensures Valid() && fresh(head) && ring == [head] && cur == head
      ensures head.id == 0 && !head.finished && head.sleepUntil == 0
    {
      var main := new UThread(0);
      head, cur, count, nextId := main, main, 1, 0;
      ring := [main];
    }

    /** The pointer writes that put a thread in behind the current one. */
    method LinkIn(thr: UThread, ghost k: nat)
      requires Ring(ring) && k < |ring| && ring[k] == cur && thr !in ring
      modifies this`count, this`ring, ring, thr
      ensures Ring(ring) && ring == old(ring[..k + 1]) + [thr] + old(ring[k + 1..]) && count == old(count) + 1
      ensures forall t :: t in old(ring) || t == thr ==>
        t.finished == old(t.finished) && t.sleepUntil == old(t.sleepUntil)
    {
      ghost var was, n := ring, |ring|;
      assert LinkedAt(was, k);
      var after := cur.next;
      thr.next := after;
      thr.prev := cur;
      cur.next := thr;
      after.prev := thr;
      count := count + 1;
      ring := was[..k + 1] + [thr] + was[k + 1..];
      InsertedDistinct(was, k, thr);
      forall i | 0 <= i < n + 1
        ensures LinkedAt(ring, i)
      {
        InsertedAt(was, k, thr, i);
        InsertedAt(was, k, thr, Wrap(i + 1, n + 1));
        if i < k {
          assert old(LinkedAt(was, i)) && was[i] != cur && was[i + 1] != after;
        } else if i > k + 1 {
          assert old(LinkedAt(was, i - 1)) && was[i - 1] != cur && was[Wrap(i, n)] != after;
        }
      }
    }

    /** Makes a new thread and links it in behind the current one. */
    method Create(ghost k: nat) returns (thr: UThread)
      requires Valid() && k < |ring| && ring[k] == cur
      modifies this, ring
      ensures Valid() && fresh(thr) && !thr.finished && thr.sleepUntil == 0
      ensures ring == old(ring[..k + 1]) + [thr] + old(ring[k + 1..])
      ensures head == old(head) && cur == old(cur) && count == old(count) + 1
      ensures thr.id == old(nextId) + 1 && nextId == old(nextId) + 2
      ensures forall t :: t in old(ring) ==> t.finished == old(t.finished) && t.sleepUntil == old(t.sleepUntil)
    {
      hide Ring;
      ghost var was := ring;
      nextId := nextId + 1;
      thr := new UThread(nextId);
      nextId := nextId + 1;
      LinkIn(thr, k);
      assert forall t :: t in ring ==> t in was || t == thr;
    }

    /** Unlinks thread `k`, which is not the head. */
    method Unlink(x: UThread, ghost k: nat)
      requires Ring(ring) && 0 < k < |ring| && ring[k] == x && head == ring[0] && count == |ring|
      modifies this`count, this`ring, ring
      ensures ring == Remove(old(ring), k) && count == |ring|
      ensures Ring(ring)
      ensures forall t :: t in old(ring) ==> t.finished == old(t.finished) && t.sleepUntil == old(t.sleepUntil)
    {
      ghost var was, n := ring, |ring|;
      assert LinkedAt(was, k) && LinkedAt(was, k - 1);
      x.prev.next := x.next;
      x.next.prev := x.prev;
      count := count - 1;
      ring := Remove(was, k);
      forall i | 0 <= i < n - 1
        ensures LinkedAt(ring, i)
      {
        var a := if i < k then i else i + 1;
        var b := Wrap(if a == k - 1 then k + 1 else a + 1, n);
        assert old(LinkedAt(was, a));
        RemovedAt(was, k, i);
        RemovedAt(was, k, Wrap(i + 1, n - 1));
        assert ring[i] == was[a] && ring[Wrap(i + 1, n - 1)] == was[b];
        assert a != k - 1 ==> was[a] != was[k - 1] && was[b] != was[Wrap(k + 1, n)];
      }
    }

    /** What every round of the scan keeps: the ring is well formed, `c` is thread `at` of it, and
        `mine` is where the calling thread is, if it has not been unlinked. */
    ghost predicate Scanning(slots: seq<Slot<UThread>>, c: UThread, at: nat, mine: Option<nat>, now: int)
      reads this, ring
    {
      && Ring(ring) && ring != [] && head == ring[0] && count == |ring|
      && Seen(ring, slots) && HeadRuns(slots, now)
      && at < |ring| && c == ring[at]
      && (mine.Some? ==> mine.value < |ring| && ring[mine.value] == cur)
      && (mine.None? ==> cur !in ring)
    }

    /** A round that finds a finished thread: unlinks it and steps to its successor. */
    method Drop(c0: UThread, now: int, ghost k: nat, ghost slots0: seq<Slot<UThread>>, ghost mine0: Option<nat>)
      returns (c: UThread)
      requires Scanning(slots0, c0, k, mine0, now) && k > 0
      modifies this`count, this`ring, ring
      ensures Scanning(Remove(slots0, k), c, Wrap(k, |ring|), Shifted(mine0, k), now)
      ensures ring == Remove(old(ring), k)
      ensures forall t :: t in old(ring) ==> t.finished == old(t.finished) && t.sleepUntil == old(t.sleepUntil)
    {
      var toDelete := c0;
      assert LinkedAt(ring, k);
      hide Ring;
      c := c0.next;
      Unlink(toDelete, k);
      assert count != 0;  // the original gives up here if no thread is left
    }

    /** One round of the scan's loop: steps on, unlinks a finished thread, decides whether to go on. */
    method Round(c0: UThread, now: int, ghost at0: nat, ghost slots0: seq<Slot<UThread>>, ghost mine0: Option<nat>)
      returns (c: UThread, more: bool, ghost at: nat, ghost slots: seq<Slot<UThread>>, ghost mine: Option<nat>)
      requires Scanning(slots0, c0, at0, mine0, now)
      modifies this`count, this`ring, ring
      ensures Scanning(slots, c, at, mine, now)
      ensures Scan(slots0, at0, mine0, now) == if more then Scan(slots, at, mine, now) else Outcome(slots, at)
      ensures !more ==> c == cur || (!c.finished && c.sleepUntil <= now)
      ensures |ring| < old(|ring|) || (ring == old(ring) && (more ==> at > at0))
      ensures forall i :: 0 <= i < |ring| ==> ring[i] in old(ring)
      ensures forall t :: t in old(ring) ==> t.finished == old(t.finished) && t.sleepUntil == old(t.sleepUntil)
    {
      hide Scan;
      ScanRound(slots0, at0, mine0, now);
      ghost var k := Wrap(at0 + 1, |ring|);
      assert LinkedAt(ring, at0);
      c := c0.next;
      at, slots, mine := k, slots0, mine0;
      assert slots[k] == SlotOf(c);
      if c.finished && c != head {
        c := Drop(c, now, k, slots0, mine0);
        at, slots, mine := Wrap(k, |ring|), Remove(slots0, k), Shifted(mine0, k);
        more := c != cur;
      } else if !c.finished && c.sleepUntil <= now {
        more := false;
      } else {
        more := c != cur;
      }
    }

    /** Hands the processor to the first thread after the current one that may run, unlinking finished
        threads on the way.  The head must be fit to run; `m` is where the current thread is, and
        `slots` what the ring looks like. */
    method Scheduler(now: int, ghost m: nat, ghost slots0: seq<Slot<UThread>>) returns (switched: bool)
      requires Valid() && !head.finished && head.sleepUntil <= now
      requires m < |ring| && ring[m] == cur && Seen(ring, slots0)
      modifies this`cur, this`count, this`ring, ring
      ensures Valid() && head == old(head)
      ensures var o := Scan(slots0, m, Some(m), now);
        Seen(ring, o.slots) && cur == ring[o.stop]
      ensures switched <==> cur != old(cur)
      ensures switched ==> !cur.finished && cur.sleepUntil <= now
      ensures forall t :: t in ring ==> t in old(ring)
      ensures forall t :: t in old(ring) ==> t.finished == old(t.finished) && t.sleepUntil == old(t.sleepUntil)
    {
      hide Scan, Ring;
      ghost var was, slots := ring, slots0;
      ghost var at: nat, mine: Option<nat> := m, Some(m);
      var c := cur;
      var more := true;
      while more
        invariant Scanning(slots, c, at, mine, now)
        invariant forall i :: 0 <= i < |ring| ==> ring[i] in was
        invariant forall t :: t in was ==> t.finished == old(t.finished) && t.sleepUntil == old(t.sleepUntil)
        invariant Scan(slots0, m, Some(m), now) == if more then Scan(slots, at, mine, now) else Outcome(slots, at)
        invariant !more ==> c == cur || (!c.finished && c.sleepUntil <= now)
        invariant cur == old(cur) && head == old(head)
        decreases |ring|, more, |ring| - at
      {
        c, more, at, slots, mine := Round(c, now, at, slots, mine);
      }
      switched := c != cur;
      if c != cur {
        cur := c;
      }
    }

    /** A thread other than the main one sets its deadline and gives the processor away; `called` and
        `now` are what the clock says to this call and to the scheduler.  The next thread is the one at
        which one scan of the ring with that deadline stops.  If the deadline is still ahead, the thread
        keeps the processor exactly if all that may run stand behind odd runs of finished threads;
        never, with nobody finished. */
    method USleep(usec: int, called: int, now: int, ghost m: nat, ghost slots0: seq<Slot<UThread>>)
      requires Valid() && !head.finished && head.sleepUntil <= now
      requires m < |ring| && ring[m] == cur && Seen(ring, slots0)
      modifies this`cur, this`count, this`ring, ring
      ensures Valid() && head == old(head) && head.sleepUntil <= now
      ensures old(cur.id) != 0 ==> old(cur).sleepUntil == called + usec
      ensures old(cur.id) == 0 ==> old(cur).sleepUntil == old(cur.sleepUntil)
      ensures var slots := if old(cur.id) == 0 then slots0
          else slots0[m := Slot(old(cur), old(cur.finished), called + usec)];
        && HeadRuns(slots, now)
        && var o := Scan(slots, m, Some(m), now);
           Seen(ring, o.slots) && cur == ring[o.stop]
      ensures cur != old(cur) ==> !cur.finished && cur.sleepUntil <= now
      ensures old(cur.id != 0 && !cur.finished) && called + usec > now ==>
        (cur == old(cur) <==> AllPassedOver(slots0, m, now))
      ensures AllAlive(slots0) && old(cur.id) != 0 && called + usec > now ==> cur != old(cur)
    {
      hide Scan, Ring, AllPassedOver;
      RingIsApart(ring, slots0);
      ghost var slots := slots0;
      if cur.id != 0 {
        cur.sleepUntil := called + usec;
        slots := slots0[m := SlotOf(cur)];
        StillRing(ring);
        if !cur.finished && called + usec > now {
          SleepReturnsIff(slots0, m, SlotOf(cur), now);
        }
      }
      var _ := Scheduler(now, m, slots);
    }
  }

  /** Deadlines have no part in the shape of the ring. */
  twostate lemma StillRing(ring: seq<UThread>)
    requires old(Ring(ring))
    requires forall t :: t in ring ==> t.next == old(t.next) && t.prev == old(t.prev)
    ensures Ring(ring)
  {
    forall i | 0 <= i < |ring|
      ensures LinkedAt(ring, i)
    {
      assert old(LinkedAt(ring, i));
    }
  }
}
