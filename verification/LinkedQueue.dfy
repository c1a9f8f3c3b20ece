/**
 The bounded linked queue itself: nodes appended at `last` and removed at `first`, with the
 counters that its monitor prints.
 */
module LinkedQueue {

  class QNode {
    const val: int
    var next: QNode?

    constructor (val: int)
      ensures this.val == val && next == null
    {
      this.val := val;
      this.next := null;
    }
  }

  /** Each node points to the one after it, and the last one nowhere. */
  ghost predicate Linked(nodes: seq<QNode>)
    reads nodes
  {
    && (forall i, j {:trigger nodes[i], nodes[j]} :: 0 <= i < |nodes| && j == i + 1 < |nodes| ==>
          nodes[i].next == nodes[j])
    && (nodes != [] ==> nodes[|nodes| - 1].next == null)
  }

  lemma LinkedExtends(nodes: seq<QNode>, node: QNode)
    requires forall i, j {:trigger nodes[i], nodes[j]} :: 0 <= i < |nodes| && j == i + 1 < |nodes| ==>
      nodes[i].next == nodes[j]
    requires nodes != [] ==> nodes[|nodes| - 1].next == node
    requires node.next == null
    ensures Linked(nodes + [node])
  {
  }

  lemma ExtendedMatches(nodes: seq<QNode>, contents: seq<int>, node: QNode)
    requires |nodes| == |contents| && node !in nodes
    requires forall i :: 0 <= i < |nodes| ==> nodes[i].val == contents[i]
    requires forall i, j :: 0 <= i < j < |nodes| ==> nodes[i] != nodes[j]
    ensures var more := nodes + [node];
      && (forall i :: 0 <= i < |more| ==> more[i].val == (contents + [node.val])[i])
      && (forall i, j :: 0 <= i < j < |more| ==> more[i] != more[j])
  {
  }

  class Queue {
    var first: QNode?
    var last: QNode?  // stale once the queue has run empty
    var count: int
    var maxCount: int
    var addAttempts: int
    var getAttempts: int
    var addCount: int
    var getCount: int

    /** The nodes from `first` to `last`, and the values they carry. */
    ghost var nodes: seq<QNode>
    ghost var contents: seq<int>

    ghost predicate Valid()
      reads this, nodes
    {
      && count == |nodes| == |contents| == addCount - getCount && 0 <= getCount
      && (maxCount >= 0 ==> count <= maxCount)
      && first == (if nodes == [] then null else nodes[0])
      && (nodes != [] ==> last == nodes[|nodes| - 1])
      && Linked(nodes)
      && (forall i :: 0 <= i < |nodes| ==> nodes[i].val == contents[i])
      && (forall i, j :: 0 <= i < j < |nodes| ==> nodes[i] != nodes[j])
    }

    constructor (maxCount: int)
      ensures Valid() && contents == [] && this.maxCount == maxCount && nodes == []
      ensures addAttempts == getAttempts == addCount == getCount == 0
    {
      this.maxCount := maxCount;
      first, last, count := null, null, 0;
      addAttempts, getAttempts, addCount, getCount := 0, 0, 0, 0;
      nodes, contents := [], [];
    }

    /** Appends a node to the chain. */
    method Link(node: QNode)
      requires Linked(nodes) && node !in nodes && node.next == null
      requires first == (if nodes == [] then null else nodes[0]) && (nodes != [] ==> last == nodes[|nodes| - 1])
      requires forall i, j :: 0 <= i < j < |nodes| ==> nodes[i] != nodes[j]
      modifies this`first, this`last, this`nodes, nodes
      ensures nodes == old(nodes) + [node] && Linked(nodes)
      ensures first == nodes[0] && last == node
    {
      if first == null {
        first, last := node, node;
      } else {
        last.next := node;
        last := last.next;
      }
      LinkedExtends(nodes, node);
      nodes := nodes + [node];
    }

    /** Appends a value unless the queue is full; `failed` is the failure of the assertion, which a
        negative bound trips. */
    method Add(val: int) returns (ok: bool, failed: bool)
      requires Valid()
      modifies this, nodes
      ensures Valid() && maxCount == old(maxCount)
      ensures ok <==> |old(contents)| < maxCount
      ensures failed <==> maxCount < 0
      ensures contents == if ok then old(contents) + [val] else old(contents)
      ensures ok ==> |nodes| == |old(nodes)| + 1 && nodes[..|old(nodes)|] == old(nodes) && fresh(nodes[|old(nodes)|])
      ensures !ok ==> nodes == old(nodes)
      ensures addAttempts == old(addAttempts) + 1 && getAttempts == old(getAttempts)
      ensures addCount == old(addCount) + (if ok then 1 else 0) && getCount == old(getCount)
    {
      hide Linked;
      addAttempts := addAttempts + 1;
      if count > maxCount {
        return false, true;
      }
      if count == maxCount {
        return false, false;
      }
      var node := new QNode(val);
      ghost var before, values := nodes, contents;
      Link(node);
      contents := contents + [val];
      count := count + 1;
      addCount := addCount + 1;
      ExtendedMatches(before, values, node);
      return true, false;
    }

    /** Removes the oldest value and frees its node; `val` keeps its value when there is none. */
    method Get(val0: int) returns (ok: bool, val: int, freed: QNode?)
      requires Valid()
      modifies this
      ensures Valid() && maxCount == old(maxCount)
      ensures ok <==> old(contents) != []
      ensures ok ==> [val] + contents == old(contents)
      ensures ok ==> freed != null && [freed] + nodes == old(nodes) && freed !in nodes
      ensures !ok ==> val == val0 && freed == null && nodes == old(nodes) && contents == old(contents)
      ensures getAttempts == old(getAttempts) + 1 && addAttempts == old(addAttempts)
      ensures getCount == old(getCount) + (if ok then 1 else 0) && addCount == old(addCount)
    {
      getAttempts := getAttempts + 1;
      assert count >= 0;
      if count == 0 {
        return false, val0, null;
      }
      var tmp := first;
      val := tmp.val;
      first := first.next;
      count := count - 1;
      getCount := getCount + 1;
      nodes, contents := nodes[1..], contents[1..];
      ok, freed := true, tmp;
    }

    /** Frees the nodes from the front, each exactly once. */
    method Destroy() returns (freed: seq<QNode>)
      requires Valid()
      modifies this
      ensures freed == old(nodes) && count == 0
    {
      freed := [];
      while count != 0
        invariant 0 <= count == |nodes| <= |old(nodes)|
        invariant |freed| == |old(nodes)| - count && freed + nodes == old(nodes)
        invariant first == (if nodes == [] then null else nodes[0])
        invariant Linked(nodes)
        decreases count
      {
        var tmp := first;
        first := first.next;
        freed := freed + [tmp];
        nodes := nodes[1..];
        count := count - 1;
      }
    }
  }

  // ------------------------------------------------------------ histories

  datatype Call = AddCall(val: int) | GetCall

  /** What a history of calls leaves behind: the contents, the values accepted so far and the values
      handed out so far. */
  datatype Outcome = Outcome(contents: seq<int>, accepted: seq<int>, delivered: seq<int>)

  function Replay(maxCount: nat, calls: seq<Call>): Outcome {
    if calls == [] then Outcome([], [], [])
    else
      var o := Replay(maxCount, calls[..|calls| - 1]);
      match calls[|calls| - 1]
      case AddCall(v) =>
        if |o.contents| < maxCount then Outcome(o.contents + [v], o.accepted + [v], o.delivered) else o
      case GetCall =>
        if o.contents != [] then Outcome(o.contents[1..], o.accepted, o.delivered + [o.contents[0]]) else o
  }

  lemma ReplayLast(maxCount: nat, calls: seq<Call>, i: nat)
    requires i < |calls|
    ensures var o := Replay(maxCount, calls[..i]);
      Replay(maxCount, calls[..i + 1]) ==
        match calls[i]
        case AddCall(v) =>
          if |o.contents| < maxCount then Outcome(o.contents + [v], o.accepted + [v], o.delivered) else o
        case GetCall =>
          if o.contents != [] then Outcome(o.contents[1..], o.accepted, o.delivered + [o.contents[0]]) else o
  {
    assert calls[..i + 1][..i] == calls[..i];
  }

  /** First in, first out, in every history: the values handed out followed by those still queued
      are the values accepted, and the bound is kept. */
  lemma {:induction false} FirstInFirstOut(maxCount: nat, calls: seq<Call>)
    ensures var o := Replay(maxCount, calls);
      o.delivered + o.contents == o.accepted && |o.contents| <= maxCount
    decreases |calls|
  {
    if calls != [] {
      FirstInFirstOut(maxCount, calls[..|calls| - 1]);
    }
  }

  /** The queue object answers every history as the replay says. */
  method RunHistory(maxCount: nat, calls: seq<Call>) returns (q: Queue, delivered: seq<int>)
    ensures fresh(q) && q.Valid()
    ensures q.contents == Replay(maxCount, calls).contents
    ensures delivered == Replay(maxCount, calls).delivered
    ensures q.addCount == |Replay(maxCount, calls).accepted| && q.getCount == |delivered|
  {
    q := new Queue(maxCount);
    delivered := [];
    var i := 0;
    assert Replay(maxCount, calls[..0]) == Outcome([], [], []);
    hide Replay, Linked, Queue.Valid;
    while i < |calls|
      invariant 0 <= i <= |calls|
      invariant fresh(q) && fresh(q.nodes) && q.Valid() && q.maxCount == maxCount
      invariant q.contents == Replay(maxCount, calls[..i]).contents
      invariant delivered == Replay(maxCount, calls[..i]).delivered
      invariant q.addCount == |Replay(maxCount, calls[..i]).accepted| && q.getCount == |delivered|
    {
      ReplayLast(maxCount, calls, i);
      match calls[i] {
        case AddCall(v) =>
          var _, _ := q.Add(v);
        case GetCall =>
          var ok, val, _ := q.Get(0);
          if ok {
            delivered := delivered + [val];
          }
      }
      i := i + 1;
    }
    assert calls[..|calls|] == calls;
  }
}
