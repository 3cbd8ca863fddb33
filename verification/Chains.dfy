/** kern/lib/hashtable.c: the array of lists under the hash table, each list with its own nodes. */
module Chains {
  import opened Collections
  import opened LinkedList

  ghost predicate Apart<T>(a: seq<Node<T>>, b: seq<Node<T>>) { forall n :: n in a ==> n !in b }

  lemma NoValues<T>()
    ensures Values<T>([]) == []
  {
  }

  class ListArray<T> {
    const lists: seq<List<T>>
    ghost var Repr: set<object>

    /** The lists are different and share no node. */
    ghost predicate Valid()
      reads this, Repr
    {
      && this in Repr
      && (forall i :: 0 <= i < |lists| ==> lists[i] in Repr)
      && (forall i, n :: 0 <= i < |lists| && n in lists[i].spine ==> n in Repr)
      && (forall i :: 0 <= i < |lists| ==> lists[i].Valid())
      && (forall i, j :: 0 <= i < j < |lists| ==> lists[i] != lists[j])
      && (forall i, j :: 0 <= i < |lists| && 0 <= j < |lists| && i != j ==> Apart(lists[i].spine, lists[j].spine))
    }

    ghost function Vals(): (s: seq<seq<T>>)
      reads this, lists
      ensures |s| == |lists|
    {
      seq(|lists|, i requires 0 <= i < |lists| reads lists => lists[i].Contents())
    }

    /** init_array_with_lists: n empty lists. */
    constructor (n: nat)
      ensures Valid() && fresh(Repr) && |lists| == n && forall i :: 0 <= i < n ==> Vals()[i] == []
    {
      hide Chain, After, Values;
      var made: seq<List<T>> := [];
      ghost var all: set<object> := {};
      while |made| < n
        invariant |made| <= n && fresh(all)
        invariant forall i :: 0 <= i < |made| ==> made[i] in all && made[i].Valid() && made[i].spine == []
        invariant forall i, j :: 0 <= i < j < |made| ==> made[i] != made[j]
      {
        var l := new List<T>();
        made := made + [l];
        all := all + {l};
      }
      lists := made;
      Repr := {this} + all;
      new;
      NoValues<T>();
    }

    lemma InRepr()
      requires Valid()
      ensures this in Repr && forall l :: l in lists ==> l in Repr
    {
      hide Chain, After, Apart;
    }

    /** The nodes of list i are in Repr, and no other list has any of them. */
    lemma Owned(i: nat)
      requires Valid() && i < |lists|
      ensures lists[i] in Repr && (forall n :: n in lists[i].spine ==> n in Repr) && lists[i].Valid()
      ensures forall j :: 0 <= j < |lists| && j != i ==> lists[j] != lists[i] && Apart(lists[j].spine, lists[i].spine)
    {
      hide Chain, After;
    }

    /** Only list i has changed, and its nodes are old ones of its own or fresh. */
    twostate lemma OneChanged(i: nat)
      requires old(Valid()) && i < |lists| && old(Repr) <= Repr && lists[i].Valid()
      requires forall n :: n in lists[i].spine ==> n in Repr && (n in old(lists[i].spine) || fresh(n))
      requires forall j :: 0 <= j < |lists| && j != i ==> lists[j].spine == old(lists[j].spine) && lists[j].Valid()
      ensures Valid()
    {
      hide Chain, After, Values;
      forall j, k | 0 <= j < |lists| && 0 <= k < |lists| && j != k ensures Apart(lists[j].spine, lists[k].spine) {
        assert Apart(old(lists[j].spine), old(lists[k].spine));
      }
    }

    twostate lemma OneValue(i: nat)
      requires i < |lists|
      requires forall j :: 0 <= j < |lists| && j != i ==> lists[j].spine == old(lists[j].spine)
      ensures Vals() == old(Vals())[i := lists[i].Contents()]
    {
      forall j | 0 <= j < |lists| ensures Vals()[j] == old(Vals())[i := lists[i].Contents()][j] {
        assert j != i ==> lists[j].Contents() == old(lists[j].Contents());
      }
    }

    method PushBack(i: nat, v: T)
      requires Valid() && i < |lists|
      modifies Repr
      ensures Valid() && fresh(Repr - old(Repr))
      ensures Vals() == old(Vals())[i := old(Vals())[i] + [v]]
    {
      hide After, Values;
      Owned(i);
      lists[i].PushBack(v);
      ghost var s := lists[i].spine;
      assert s == s[..|s| - 1] + [s[|s| - 1]];
      forall j | 0 <= j < |lists| && j != i ensures lists[j].spine == old(lists[j].spine) && lists[j].Valid() {
        ghost var s := lists[j].spine;
        assert Apart(s, old(lists[i].spine));
        forall k | 0 <= k < |s| ensures s[k].next == old(s[k].next) {
          assert s[k] in s;
        }
      }
      Repr := Repr + {s[|s| - 1]};
      OneChanged(i);
      OneValue(i);
    }

    method PopFront(i: nat)
      requires Valid() && i < |lists|
      modifies Repr
      ensures Valid() && Repr == old(Repr)
      ensures Vals() == old(Vals())[i := if old(Vals())[i] == [] then [] else old(Vals())[i][1..]]
    {
      hide Chain, After, Values, Apart;
      Owned(i);
      lists[i].PopFront();
      OneChanged(i);
      OneValue(i);
    }

    method Front(i: nat) returns (r: Option<T>)
      requires Valid() && i < |lists|
      ensures r == if Vals()[i] == [] then None else Some(Vals()[i][0])
    {
      r := lists[i].Front();
    }

    method Find<Q>(i: nat, query: Q, cmp: (T, Q) -> int) returns (r: Option<T>)
      requires Valid() && i < |lists|
      ensures
        var c := Vals()[i];
        var k := FirstEqual(c, query, cmp);
        r == if k < |c| then Some(c[k]) else None
    {
      r := lists[i].Find(query, cmp);
    }

    method Remove<Q>(i: nat, query: Q, cmp: (T, Q) -> int) returns (r: Option<T>)
      requires Valid() && i < |lists|
      modifies Repr
      ensures Valid() && Repr == old(Repr)
      ensures
        var was := old(Vals()[i]);
        var k := FirstEqual(was, query, cmp);
        if k < |was| then r == Some(was[k]) && Vals() == old(Vals())[i := was[..k] + was[k + 1..]]
        else r == None && Vals() == old(Vals())
    {
      hide After, Values, FirstEqual;
      Owned(i);
      r := lists[i].Remove(query, cmp);
      forall j | 0 <= j < |lists| && j != i ensures lists[j].spine == old(lists[j].spine) && lists[j].Valid() {
        ghost var s := lists[j].spine;
        assert Apart(s, old(lists[i].spine));
        forall k | 0 <= k < |s| ensures s[k].next == old(s[k].next) {
          assert s[k] in s;
        }
      }
      OneChanged(i);
      OneValue(i);
      assert lists[i].Contents() == old(Vals())[i] ==> Vals() == old(Vals());
    }
  }
}
