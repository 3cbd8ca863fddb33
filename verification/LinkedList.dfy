/** kern/lib/list.c: the singly linked list under the hash table's chains and the child lists.  Nodes are
    linked in place; the proofs say that this is a plain sequence of values. */
module LinkedList {
  import opened Collections

  class Node<T> {
    const val: T
    var next: Node?<T>

    constructor (v: T)
      ensures val == v && next == null
    {
      val, next := v, null;
    }
  }

  ghost function After<T>(spine: seq<Node<T>>, i: int): Node?<T> { if 0 <= i + 1 < |spine| then spine[i + 1] else null }

  /** Different nodes, each pointing at the one after it and the last at nothing. */
  ghost predicate Chain<T>(spine: seq<Node<T>>)
    reads spine
  {
    && Distinct(spine)
    && (forall i :: 0 <= i < |spine| ==> spine[i].next == After(spine, i))
  }

  function Values<T>(spine: seq<Node<T>>): seq<T> { seq(|spine|, i requires 0 <= i < |spine| => spine[i].val) }

  /** The place of the first value the comparator calls equal to the query, or the length. */
  function FirstEqual<T, Q>(vals: seq<T>, query: Q, cmp: (T, Q) -> int): (k: nat)
    ensures k <= |vals| && (forall j :: 0 <= j < k ==> cmp(vals[j], query) != 0)
      && (k < |vals| ==> cmp(vals[k], query) == 0)
  {
    if vals == [] then 0 else if cmp(vals[0], query) == 0 then 0 else 1 + FirstEqual(vals[1..], query, cmp)
  }

  lemma FirstEqualIs<T, Q>(vals: seq<T>, query: Q, cmp: (T, Q) -> int, k: nat)
    requires k <= |vals| && (forall j :: 0 <= j < k ==> cmp(vals[j], query) != 0)
      && (k < |vals| ==> cmp(vals[k], query) == 0)
    ensures FirstEqual(vals, query, cmp) == k
  {
  }

  lemma Pushed<T>(was: seq<Node<T>>, n: Node<T>)
    ensures Values(was + [n]) == Values(was) + [n.val]
    ensures forall i :: 0 <= i < |was| ==>
      (was + [n])[i] == was[i] && After(was + [n], i) == if i == |was| - 1 then n else After(was, i)
  {
  }

  lemma Shifted<T>(was: seq<Node<T>>)
    requires was != []
    ensures Values(was[1..]) == Values(was)[1..]
    ensures forall i :: 0 <= i < |was| - 1 ==> was[1..][i] == was[i + 1] && After(was[1..], i) == After(was, i + 1)
  {
  }

  ghost function Without<T>(s: seq<T>, k: nat): seq<T>
    requires k < |s|
  {
    s[..k] + s[k + 1..]
  }

  lemma Dropped<T>(was: seq<Node<T>>, k: nat)
    requires k < |was|
    ensures Values(Without(was, k)) == Without(Values(was), k)
  {
  }

  /** The ends of the chain once the node at place k is gone. */
  lemma Ends<T>(was: seq<Node<T>>, k: nat)
    requires k < |was|
    ensures
      var s := Without(was, k);
      && |s| == |was| - 1 && (k == 0 ==> After(s, -1) == After(was, 0)) && (k > 0 ==> After(s, -1) == After(was, -1))
      && (s != [] && k == |was| - 1 ==> s[|s| - 1] == was[k - 1])
      && (s != [] && k < |was| - 1 ==> s[|s| - 1] == was[|was| - 1])
  {
  }

  /** What stands at place i once the node at place k is gone, and what stands after it. */
  lemma DroppedAt<T>(was: seq<Node<T>>, k: nat, i: nat)
    requires k < |was| && i < |was| - 1
    ensures
      var s := Without(was, k);
      && s[i] == was[if i < k then i else i + 1]
      && After(s, i) == if i == k - 1 then After(was, k) else if i < k then After(was, i) else After(was, i + 1)
  {
  }

  lemma DroppedDistinct<T>(was: seq<Node<T>>, k: nat)
    requires k < |was| && Distinct(was)
    ensures Distinct(Without(was, k))
  {
  }

  lemma PushedDistinct<T>(was: seq<Node<T>>, n: Node<T>)
    requires Distinct(was) && n !in was
    ensures Distinct(was + [n])
  {
  }

  lemma Neighbours<T>(was: seq<Node<T>>, k: nat)
    requires Distinct(was) && k < |was|
    ensures forall i :: 0 <= i < |was| && i != k ==> was[i] != was[k]
  {
  }

  lemma LastOnly<T>(was: seq<Node<T>>, k: nat)
    requires Distinct(was) && k < |was|
    ensures was[k] == was[|was| - 1] <==> k == |was| - 1
  {
  }

  /** Every node points at the one after it, except that place k is pointed past. */
  ghost predicate Skips<T>(was: seq<Node<T>>, k: nat)
    requires k < |was|
    reads was
  {
    && (k > 0 ==> was[k - 1].next == After(was, k))
    && forall i :: 0 <= i < |was| && i + 1 != k ==> was[i].next == After(was, i)
  }

  /** Then the other nodes are a chain. */
  lemma DroppedChain<T>(was: seq<Node<T>>, k: nat)
    requires k < |was| && Distinct(was) && Skips(was, k)
    ensures Chain(Without(was, k))
  {
    var now := Without(was, k);
    DroppedDistinct(was, k);
    hide Distinct, After;
    forall i | 0 <= i < |now| ensures now[i].next == After(now, i) {
      DroppedAt(was, k, i);
      if i < k {
        assert now[i] == was[i];
      } else {
        assert now[i] == was[i + 1];
      }
    }
  }

  class List<T> {
    var head: Node?<T>
    var tail: Node?<T>
    var size: nat
    ghost var spine: seq<Node<T>>

    ghost predicate Valid()
      reads this, spine
    {
      && size == |spine| && Chain(spine)
      && head == After(spine, -1)
      && tail == (if spine == [] then null else spine[|spine| - 1])
    }

    ghost function Contents(): seq<T>
      reads this
    { Values(spine) }

    constructor ()
      ensures Valid() && Contents() == [] && spine == []
    {
      head, tail, size, spine := null, null, 0, [];
    }

    method PushBack(newval: T)
      requires Valid()
      modifies this, spine
      ensures Valid() && Contents() == old(Contents()) + [newval]
      ensures |spine| > 0 && fresh(spine[|spine| - 1]) && spine[..|spine| - 1] == old(spine)
    {
      var newnode := new Node(newval);
      ghost var was := spine;
      Pushed(was, newnode);
      PushedDistinct(was, newnode);
      if size > 0 { Neighbours(was, |was| - 1); }
      hide Distinct;
      if size == 0 {
        head := newnode;
      } else {
        tail.next := newnode;
      }
      tail := newnode;
      size := size + 1;
      spine := was + [newnode];
    }

    method PopFront()
      requires Valid()
      modifies this
      ensures Valid() && Contents() == if old(Contents()) == [] then [] else old(Contents())[1..]
      ensures forall n :: n in spine ==> n in old(spine)
    {
      if size == 0 {
        return;
      }
      ghost var was := spine;
      assert was[0].next == After(was, 0);
      head := head.next;
      size := size - 1;
      spine := was[1..];
      if size == 0 {
        tail := null;
      }
      Shifted(was);
    }

    method Front() returns (r: Option<T>)
      requires Valid()
      ensures r == if Contents() == [] then None else Some(Contents()[0])
    {
      if size == 0 {
        return None;
      }
      return Some(head.val);
    }

    /** The first value the comparator calls equal to the query. */
    method Find<Q>(query: Q, cmp: (T, Q) -> int) returns (r: Option<T>)
      requires Valid()
      ensures var k := FirstEqual(Contents(), query, cmp); r == if k < |Contents()| then Some(Contents()[k]) else None
    {
      ghost var k := 0;
      var p := head;
      while p != null
        invariant 0 <= k <= |spine| && p == After(spine, k - 1)
        invariant forall j :: 0 <= j < k ==> cmp(Contents()[j], query) != 0
        decreases |spine| - k
      {
        if cmp(p.val, query) == 0 {
          FirstEqualIs(Contents(), query, cmp, k);
          return Some(p.val);
        }
        p := p.next;
        k := k + 1;
      }
      FirstEqualIs(Contents(), query, cmp, |spine|);
      return None;
    }

    /** Point whatever points at place k, the node q or the head, past it. */
    method SkipOver(ghost k: nat, p: Node<T>, q: Node?<T>)
      requires Valid() && k < |spine| && p == spine[k] && q == if k == 0 then null else spine[k - 1]
      modifies this`head, spine
      ensures Skips(spine, k) && head == if k == 0 then After(spine, 0) else old(head)
    {
      assert p.next == After(spine, k);
      if k > 0 { Neighbours(spine, k - 1); }
      hide Distinct, After;
      if q == null {
        head := p.next;
      } else {
        q.next := p.next;
      }
    }

    /** One node fewer: the tail moves back if it was the tail that went. */
    method Shorten(p: Node<T>, q: Node?<T>)
      requires size > 0
      modifies this`tail, this`size
      ensures size == old(size) - 1
      ensures tail == if size == 0 then null else if p == old(tail) then q else old(tail)
    {
      if p == tail {
        tail := q;
      }
      size := size - 1;
      if size == 0 {
        tail := null;
      }
    }

    /** Unlink the node at place k, with q the one before it. */
    method Relink(ghost k: nat, p: Node<T>, q: Node?<T>)
      requires Valid() && k < |spine| && p == spine[k] && q == if k == 0 then null else spine[k - 1]
      modifies this, spine
      ensures spine == Without(old(spine), k) && Skips(old(spine), k)
      ensures size == |spine| && head == After(spine, -1)
      ensures tail == if spine == [] then null else spine[|spine| - 1]
    {
      ghost var was := spine;
      Ends(was, k);
      LastOnly(was, k);
      assert p == tail <==> k == |was| - 1;
      assert head == After(was, -1);
      hide Chain, Distinct, After, Skips, Without;
      SkipOver(k, p, q);
      Shorten(p, q);
      spine := Without(was, k);
    }

    method Drop(ghost k: nat, p: Node<T>, q: Node?<T>)
      requires Valid() && k < |spine| && p == spine[k] && q == if k == 0 then null else spine[k - 1]
      modifies this, spine
      ensures Valid() && spine == Without(old(spine), k)
    {
      ghost var was := spine;
      assert Distinct(was);
      hide Distinct, Chain, After, Skips, Without;
      Relink(k, p, q);
      DroppedChain(was, k);
    }

    /** That value, taken off the list; the others stay in order. */
    method Remove<Q>(query: Q, cmp: (T, Q) -> int) returns (r: Option<T>)
      requires Valid()
      modifies this, spine
      ensures Valid() && forall n :: n in spine ==> n in old(spine)
      ensures
        var was := old(Contents());
        var k := FirstEqual(was, query, cmp);
        if k < |was| then r == Some(was[k]) && Contents() == was[..k] + was[k + 1..] else r == None && Contents() == was
    {
      r := None;
      ghost var k := 0;
      var p := head;
      var q: Node?<T> := null;
      while p != null
        invariant 0 <= k <= |spine| && p == After(spine, k - 1) && Valid() && spine == old(spine)
        invariant q == if k == 0 then null else spine[k - 1]
        invariant forall j :: 0 <= j < k ==> cmp(Contents()[j], query) != 0
        decreases |spine| - k
      {
        if cmp(p.val, query) == 0 {
          FirstEqualIs(Contents(), query, cmp, k);
          r := Some(p.val);
          Dropped(spine, k);
          Drop(k, p, q);
          return;
        }
        q := p;
        p := p.next;
        k := k + 1;
      }
      FirstEqualIs(Contents(), query, cmp, |spine|);
      if size == 0 {
        tail := null;
      }
    }
  }
}
