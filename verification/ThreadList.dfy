/** kern/thread/threadlist.c: the doubly linked list with a bookend at each end that run queues and wait
    channels are made of.  The nodes are linked and unlinked in place; the proofs say that this is a
    plain sequence of threads. */
module ThreadList {
  import opened Collections

  type Tid = int

  class Node {
    var prev: Node?
    var next: Node?
    const self: Tid

    /** threadlistnode_init */
    constructor (t: Tid)
      ensures prev == null && next == null && self == t
    {
      prev, next, self := null, null, t;
    }
  }

  /** A chain of different nodes, each pointing at the next and back. */
  ghost predicate Chain(spine: seq<Node>)
    reads spine
  {
    && (forall i, j :: 0 <= i < j < |spine| ==> spine[i] != spine[j])
    && (forall i :: 0 <= i < |spine| - 1 ==> spine[i].next == spine[i + 1])
    && (forall i :: 0 < i < |spine| ==> spine[i].prev == spine[i - 1])
  }

  function Threads(nodes: seq<Node>): seq<Tid> { seq(|nodes|, i requires 0 <= i < |nodes| => nodes[i].self) }

  /** Between the bookends, a node put in at place k of the chain. */
  lemma Inserted(was: seq<Node>, k: nat, t: Node)
    requires 1 <= k < |was|
    ensures (was[..k] + [t] + was[k..])[1..|was|] == was[1..k] + [t] + was[k..|was| - 1]
  {
  }

  class ThreadList {
    const head: Node
    const tail: Node
    var count: nat
    ghost var spine: seq<Node>

    ghost predicate Valid()
      reads this, spine
    {
      && |spine| == count + 2 && spine[0] == head && spine[count + 1] == tail
      && head.prev == null && tail.next == null
      && Chain(spine)
    }

    /** The threads on the list, in order. */
    ghost function Contents(): seq<Tid>
      requires |spine| >= 2
      reads this
    { Threads(spine[1..|spine| - 1]) }

    constructor ()
      ensures Valid() && Contents() == [] && fresh(head) && fresh(tail)
    {
      var h := new Node(0);
      var t := new Node(0);
      h.next := t;
      t.prev := h;
      head, tail, count := h, t, 0;
      spine := [h, t];
    }

    /** threadlist_insertafternode, at place k of the chain. */
    method InsertAfter(ghost k: nat, onlist: Node, addee: Node)
      requires Valid() && k < |spine| - 1 && onlist == spine[k]
      requires addee !in spine && addee.prev == null && addee.next == null
      modifies this`spine, this`count, spine, addee
      ensures Valid() && count == old(count) + 1
      ensures spine == old(spine)[..k + 1] + [addee] + old(spine)[k + 1..]
    {
      ghost var was := spine;
      assert onlist.next == was[k + 1];
      addee.prev := onlist;
      addee.next := onlist.next;
      onlist.next := addee;
      var after := addee.next;
      after.prev := addee;
      spine := was[..k + 1] + [addee] + was[k + 1..];
      count := count + 1;
      assert forall i :: 0 <= i <= k ==> spine[i] == was[i];
      assert spine[k + 1] == addee;
      assert forall i :: k + 2 <= i < |spine| ==> spine[i] == was[i - 1];
    }

    /** threadlist_removenode, at place k of the chain. */
    method Unlink(ghost k: nat, node: Node)
      requires Valid() && 0 < k < |spine| - 1 && node == spine[k]
      modifies this`spine, this`count, spine
      ensures Valid() && count == old(count) - 1
      ensures spine == old(spine)[..k] + old(spine)[k + 1..]
      ensures node.prev == null && node.next == null && node !in spine
    {
      ghost var was := spine;
      assert node.prev == was[k - 1] && node.next == was[k + 1];
      var before, after := node.prev, node.next;
      before.next := after;
      after.prev := before;
      node.prev := null;
      node.next := null;
      spine := was[..k] + was[k + 1..];
      count := count - 1;
      assert forall i :: 0 <= i < k ==> spine[i] == was[i];
      assert forall i :: k <= i < |spine| ==> spine[i] == was[i + 1];
    }

    method AddHead(t: Node)
      requires Valid() && t !in spine && t.prev == null && t.next == null
      modifies this`spine, this`count, spine, t
      ensures Valid() && Contents() == [t.self] + old(Contents()) && spine == [head, t] + old(spine)[1..]
    {
      ghost var was := spine;
      InsertAfter(0, head, t);
      assert was[..1] == [head];
      Inserted(was, 1, t);
      assert was[1..1] + [t] + was[1..|was| - 1] == [t] + was[1..|was| - 1];
    }

    method AddTail(t: Node)
      requires Valid() && t !in spine && t.prev == null && t.next == null
      modifies this`spine, this`count, spine, t
      ensures Valid() && Contents() == old(Contents()) + [t.self] && spine == old(spine)[..|old(spine)| - 1] + [t, tail]
    {
      ghost var was := spine;
      ghost var k := |spine| - 2;
      assert tail.prev == spine[k];
      var onlist := tail.prev;
      InsertAfter(k, onlist, t);
      Inserted(was, k + 1, t);
      assert was[k + 1..] == [tail];
      assert was[1..k + 1] + [t] + was[k + 1..|was| - 1] == was[1..|was| - 1] + [t];
    }

    /** The first thread, taken off; nothing exactly when the list is empty. */
    method RemHead() returns (r: Option<Node>)
      requires Valid()
      modifies this`spine, this`count, spine
      ensures Valid() && (r.None? <==> old(Contents()) == [])
      ensures r.None? ==> Contents() == []
      ensures r.Some? ==> old(Contents()) == [r.value.self] + Contents() && r.value.prev == null && r.value.next == null
      ensures r.Some? ==> r.value in old(spine) && r.value !in spine && forall n :: n in spine ==> n in old(spine)
    {
      assert head.next == spine[1];
      var tln := head.next;
      assert |spine| > 2 ==> spine[1].next == spine[2];
      if tln.next == null {
        return None;
      }
      ghost var was := spine;
      assert |was| > 2;
      Unlink(1, tln);
      assert was[1..|was| - 1] == [tln] + spine[1..|spine| - 1];
      r := Some(tln);
    }

    /** The last thread, taken off; nothing exactly when the list is empty. */
    method RemTail() returns (r: Option<Node>)
      requires Valid()
      modifies this`spine, this`count, spine
      ensures Valid() && (r.None? <==> old(Contents()) == [])
      ensures r.None? ==> Contents() == []
      ensures r.Some? ==> old(Contents()) == Contents() + [r.value.self] && r.value.prev == null && r.value.next == null
      ensures r.Some? ==> r.value in old(spine) && r.value !in spine && forall n :: n in spine ==> n in old(spine)
    {
      ghost var was := spine;
      ghost var k := |spine| - 2;
      assert tail.prev == spine[k];
      var tln := tail.prev;
      assert k > 0 ==> spine[k].prev == spine[k - 1];
      if tln.prev == null {
        return None;
      }
      assert k > 0;
      Unlink(k, tln);
      assert was[1..|was| - 1] == spine[1..|spine| - 1] + [tln];
      r := Some(tln);
    }
  }
}
