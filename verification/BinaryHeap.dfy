/** kern/lib/heap.c: a binary heap in a growing array, ordered by a comparator given by the caller. */
module BinaryHeap {
  import opened Collections

  /** The comparator says "comes before": a strict weak order. */
  ghost predicate StrictWeak<T(!new)>(lt: (T, T) -> bool)
  {
    && (forall x :: !lt(x, x))
    && (forall x, y, z :: lt(x, y) && lt(y, z) ==> lt(x, z))
    && (forall x, y, z :: lt(x, z) ==> lt(x, y) || lt(y, z))
  }

  function Parent(i: nat): nat
    requires i > 0
  { (i - 1) / 2 }

  /** No element comes before its parent. */
  ghost predicate Heaped<T(!new)>(lt: (T, T) -> bool, vals: seq<T>)
  {
    forall i :: 0 < i < |vals| ==> !lt(vals[i], vals[Parent(i)])
  }

  /** The same except perhaps at `hole` and its parent, the hole's children still behind that parent. */
  ghost predicate HeapedButUp<T(!new)>(lt: (T, T) -> bool, vals: seq<T>, hole: nat)
  {
    && (forall i :: 0 < i < |vals| && i != hole ==> !lt(vals[i], vals[Parent(i)]))
    && (0 < hole < |vals| ==> forall i :: 0 < i < |vals| && Parent(i) == hole ==> !lt(vals[i], vals[Parent(hole)]))
  }

  /** The same except perhaps between `hole` and its children. */
  ghost predicate HeapedButDown<T(!new)>(lt: (T, T) -> bool, vals: seq<T>, hole: nat)
  {
    && (forall i :: 0 < i < |vals| && Parent(i) != hole ==> !lt(vals[i], vals[Parent(i)]))
    && (0 < hole < |vals| ==> forall i :: 0 < i < |vals| && Parent(i) == hole ==> !lt(vals[i], vals[Parent(hole)]))
  }

  function Swap<T>(s: seq<T>, i: nat, j: nat): seq<T>
    requires i < |s| && j < |s|
  { s[i := s[j]][j := s[i]] }

  lemma SwapKeeps<T>(s: seq<T>, i: nat, j: nat)
    requires i < |s| && j < |s|
    ensures multiset(Swap(s, i, j)) == multiset(s)
  {
  }

  /** One turn of bubble_up: the child that comes before its parent changes places with it. */
  lemma UpStep<T(!new)>(lt: (T, T) -> bool, vals: seq<T>, hole: nat)
    requires StrictWeak(lt) && HeapedButUp(lt, vals, hole) && 0 < hole < |vals| && lt(vals[hole], vals[Parent(hole)])
    ensures HeapedButUp(lt, Swap(vals, hole, Parent(hole)), Parent(hole))
  {
    var p := Parent(hole);
    var s := Swap(vals, hole, p);
    forall i | 0 < i < |s| && i != p ensures !lt(s[i], s[Parent(i)]) {
      if i == hole {
      } else if Parent(i) == hole {
      } else if Parent(i) == p {
        assert !lt(vals[i], vals[p]);
      }
    }
    if 0 < p {
      forall i | 0 < i < |s| && Parent(i) == p ensures !lt(s[i], s[Parent(p)]) {
        assert !lt(vals[p], vals[Parent(p)]);
        if i != hole {
          assert !lt(vals[i], vals[p]);
        }
      }
    }
  }

  /** One turn of trickle_down: the child chosen changes places with its parent. */
  lemma DownStep<T(!new)>(lt: (T, T) -> bool, vals: seq<T>, hole: nat, j: nat)
    requires StrictWeak(lt) && HeapedButDown(lt, vals, hole) && 0 < j < |vals| && Parent(j) == hole
    requires lt(vals[j], vals[hole])
    requires forall i :: 0 < i < |vals| && Parent(i) == hole ==> !lt(vals[i], vals[j])
    ensures HeapedButDown(lt, Swap(vals, hole, j), j)
  {
    var s := Swap(vals, hole, j);
    forall i | 0 < i < |s| && Parent(i) != j ensures !lt(s[i], s[Parent(i)]) {
      if i == j {
      } else if i == hole {
        assert !lt(vals[j], vals[Parent(hole)]);
      } else if Parent(i) == hole {
        assert !lt(vals[i], vals[j]);
      }
    }
    forall i | 0 < i < |s| && Parent(i) == j ensures !lt(s[i], s[Parent(j)]) {
      assert !lt(vals[i], vals[j]);
    }
  }

  lemma {:induction false} RootIsFirst<T(!new)>(lt: (T, T) -> bool, vals: seq<T>, i: nat)
    requires StrictWeak(lt) && Heaped(lt, vals) && i < |vals|
    ensures !lt(vals[i], vals[0])
  {
    if i > 0 {
      RootIsFirst(lt, vals, Parent(i));
    }
  }

  lemma LastToFront<T>(vals: seq<T>)
    requires vals != []
    ensures
      var n := |vals| - 1;
      multiset(vals) == multiset(vals[0 := vals[n]][..n]) + multiset{vals[0]}
  {
    var n := |vals| - 1;
    var s := vals[0 := vals[n]][..n];
    if n > 0 {
      var mid := vals[1..n];
      assert vals == [vals[0]] + mid + [vals[n]];
      assert s == [vals[n]] + mid;
    } else {
      assert vals == [vals[0]] && s == [];
    }
  }

  lemma LastToRoot<T(!new)>(lt: (T, T) -> bool, vals: seq<T>)
    requires Heaped(lt, vals) && vals != []
    ensures
      var n := |vals| - 1;
      var s := vals[0 := vals[n]][..n];
      HeapedButDown(lt, s, 0) && multiset(vals) == multiset(s) + multiset{vals[0]}
  {
    var n := |vals| - 1;
    var s := vals[0 := vals[n]][..n];
    forall i | 0 < i < |s| && Parent(i) != 0 ensures !lt(s[i], s[Parent(i)]) {
      assert s[i] == vals[i] && s[Parent(i)] == vals[Parent(i)];
    }
    hide Heaped;
    LastToFront(vals);
  }

  ghost predicate Sorted<T(!new)>(lt: (T, T) -> bool, s: seq<T>)
  {
    forall i, j :: 0 <= i < j < |s| ==> !lt(s[j], s[i])
  }

  /** Nothing still to come goes before anything already out. */
  ghost predicate Behind<T(!new)>(lt: (T, T) -> bool, out: seq<T>, vals: seq<T>)
  {
    forall i, x :: 0 <= i < |out| && x in vals ==> !lt(x, out[i])
  }

  lemma OneMoreOut<T(!new)>(lt: (T, T) -> bool, out: seq<T>, before: seq<T>, r: T, vals: seq<T>)
    requires Sorted(lt, out) && Behind(lt, out, before) && multiset(before) == multiset(vals) + multiset{r}
    requires forall i :: 0 <= i < |before| ==> !lt(before[i], r)
    ensures Sorted(lt, out + [r]) && Behind(lt, out + [r], vals)
  {
    assert r in multiset(before) && r in before;
    forall i, j | 0 <= i < j < |out + [r]| ensures !lt((out + [r])[j], (out + [r])[i]) {
      assert j == |out| ==> (out + [r])[j] == r;
    }
    forall i, x | 0 <= i < |out + [r]| && x in vals ensures !lt(x, (out + [r])[i]) {
      assert x in multiset(vals) && x in multiset(before) && x in before;
    }
  }

  lemma NothingOut<T(!new)>(lt: (T, T) -> bool, vals: seq<T>)
    ensures Sorted(lt, []) && Behind(lt, [], vals)
  {
  }

  class Heap<T(!new)> {
    const lt: (T, T) -> bool
    var vals: seq<T>

    constructor (comparator: (T, T) -> bool)
      requires StrictWeak(comparator)
      ensures Valid() && lt == comparator && vals == []
    {
      lt, vals := comparator, [];
    }

    ghost predicate Valid()
      reads this
    { StrictWeak(lt) && Heaped(lt, vals) }

    method BubbleUp(start: nat)
      requires StrictWeak(lt) && start < |vals| && HeapedButUp(lt, vals, start)
      modifies this
      ensures Valid() && multiset(vals) == multiset(old(vals))
    {
      var index: nat := start;
      while index > 0 && lt(vals[index], vals[Parent(index)])
        invariant index < |vals| && HeapedButUp(lt, vals, index) && multiset(vals) == multiset(old(vals))
        decreases index
      {
        var p := Parent(index);
        UpStep(lt, vals, index);
        SwapKeeps(vals, index, p);
        vals := Swap(vals, index, p);
        index := p;
      }
    }

    /** Picks the child to move up, as the source's nested tests do: right if it precedes the parent and
        left does not precede right. */
    method Chosen(index: nat) returns (j: int)
      requires StrictWeak(lt)
      ensures j == -1 || 0 <= j
      ensures j == -1 ==>
        forall i :: 0 < i < |vals| && Parent(i) == index && index < |vals| ==> !lt(vals[i], vals[index])
      ensures j != -1 ==>
        && 0 < j < |vals| && index < |vals| && Parent(j) == index && lt(vals[j], vals[index])
        && forall i :: 0 < i < |vals| && Parent(i) == index ==> !lt(vals[i], vals[j])
    {
      j := -1;
      var r, l := 2 * index + 2, 2 * index + 1;
      assert forall i :: 0 < i && Parent(i) == index ==> i == l || i == r;
      if r < |vals| && lt(vals[r], vals[index]) {
        if lt(vals[l], vals[r]) {
          j := l;
        } else {
          j := r;
        }
      } else {
        if l < |vals| && lt(vals[l], vals[index]) {
          j := l;
        }
      }
    }

    method TrickleDown()
      requires StrictWeak(lt) && HeapedButDown(lt, vals, 0)
      modifies this
      ensures Valid() && multiset(vals) == multiset(old(vals))
    {
      var index := 0;
      while index >= 0
        invariant index == -1 ==> Heaped(lt, vals)
        invariant index != -1 ==> 0 <= index <= |vals| && HeapedButDown(lt, vals, index)
        invariant index >= -1 && |vals| == |old(vals)| && multiset(vals) == multiset(old(vals))
        decreases if index >= 0 then |vals| - index else -1
      {
        var j := Chosen(index);
        if j >= 0 {
          DownStep(lt, vals, index, j);
          SwapKeeps(vals, index, j);
          vals := Swap(vals, index, j);
        }
        index := j;
      }
    }

    method Push(x: T)
      requires Valid()
      modifies this
      ensures Valid() && multiset(vals) == multiset(old(vals)) + multiset{x}
    {
      vals := vals + [x];
      BubbleUp(|vals| - 1);
    }

    /** The element handed out comes first among those held; an empty heap hands out nothing. */
    method Pop() returns (r: Option<T>)
      requires Valid()
      modifies this
      ensures Valid() && (old(vals) == [] ==> r == None && vals == [])
      ensures old(vals) != [] ==>
        && r.Some? && multiset(old(vals)) == multiset(vals) + multiset{r.value}
        && forall i :: 0 <= i < |old(vals)| ==> !lt(old(vals)[i], r.value)
    {
      if |vals| == 0 {
        return None;
      }
      var top := vals[0];
      forall i | 0 <= i < |vals| ensures !lt(vals[i], top) { RootIsFirst(lt, vals, i); }
      var n := |vals| - 1;
      var last := vals[n];
      LastToRoot(lt, vals);
      vals := vals[0 := last];
      vals := vals[..n];
      TrickleDown();
      return Some(top);
    }

    /** Popping until nothing is left hands out everything that was in the heap, in order. */
    method PopAll() returns (out: seq<T>)
      requires Valid()
      modifies this
      ensures Valid() && vals == [] && multiset(out) == multiset(old(vals))
      ensures Sorted(lt, out)
    {
      hide Sorted, Behind;
      out := [];
      assert Sorted(lt, out) && Behind(lt, out, vals) by { NothingOut(lt, vals); }
      while vals != []
        invariant Valid() && multiset(out) + multiset(vals) == multiset(old(vals))
        invariant Sorted(lt, out) && Behind(lt, out, vals)
        decreases |multiset(vals)|
      {
        ghost var before := vals;
        var r := Pop();
        OneMoreOut(lt, out, before, r.value, vals);
        out := out + [r.value];
      }
    }
  }
}
