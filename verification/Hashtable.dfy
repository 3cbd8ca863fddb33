/** kern/lib/hashtable.c: a chained hash table that doubles and halves its array.  Keys are C strings:
    NUL-free, with keylen their length.  The chains are kern/lib/list.c lists with nodes of their own. */
module Hashtable {
  import opened Chains
  import opened Collections
  import opened LinkedList
  import Nonlinear

  type Char = c: int | c != 0 witness 1
  type Key = seq<Char>

  datatype Pair<V> = Pair(key: Key, val: V)

  const LF_MULTIPLE := 2
  const MIN_SIZE := 8
  const W32 := 0x1_0000_0000

  // -------------------------------------------------------------- keys and slots

  /** djb2 over the first `n` characters, in 32-bit arithmetic. */
  function HashPrefix(key: Key, n: nat): (h: nat)
    requires n <= |key|
    ensures h < W32
  {
    if n == 0 then 5381 else (HashPrefix(key, n - 1) * 33 + key[n - 1]) % W32
  }

  function Pow33(n: nat): nat { if n == 0 then 1 else 33 * Pow33(n - 1) }

  /** The characters weighed by powers of 33, the last by 1. */
  function Weighted(key: Key): int { if key == [] then 0 else key[0] * Pow33(|key| - 1) + Weighted(key[1..]) }

  lemma {:induction false} WeightedSnoc(key: Key, c: Char)
    ensures Weighted(key + [c]) == Weighted(key) * 33 + c
  {
    if key == [] {
      assert key + [c] == [c] && [c][1..] == [];
      assert Weighted([c]) == c * Pow33(0) + Weighted([c][1..]);
    } else {
      assert (key + [c])[1..] == key[1..] + [c];
      WeightedSnoc(key[1..], c);
      var p := Pow33(|key| - 1);
      assert key[0] * (33 * p) == key[0] * p * 33;
    }
  }

  lemma WrapStep(x: int, h: int, c: int)
    requires h == x % W32
    ensures (h * 33 + c) % W32 == (x * 33 + c) % W32
  {
    var q := x / W32;
    var y := h * 33 + c;
    assert x * 33 + c == (q * 33) * W32 + y;
    assert y == y / W32 * W32 + y % W32;
    Nonlinear.Distribute(q * 33, y / W32, W32);
    Nonlinear.QuotRem(x * 33 + c, W32, q * 33 + y / W32, y % W32);
  }

  /** djb2 as a polynomial: 5381 and then the characters, weighed by powers of 33, modulo 2^32. */
  lemma {:induction false} HashIsPolynomial(key: Key, n: nat)
    requires n <= |key|
    ensures HashPrefix(key, n) == (5381 * Pow33(n) + Weighted(key[..n])) % W32
  {
    if n > 0 {
      HashIsPolynomial(key, n - 1);
      var x := 5381 * Pow33(n - 1) + Weighted(key[..n - 1]);
      assert key[..n] == key[..n - 1] + [key[n - 1]];
      WeightedSnoc(key[..n - 1], key[n - 1]);
      WrapStep(x, HashPrefix(key, n - 1), key[n - 1]);
    }
  }

  /** The shift and the addition, each in 32 bits, multiply by 33. */
  lemma HashNext(key: Key, n: nat)
    requires n < |key|
    ensures HashPrefix(key, n + 1) == ((HashPrefix(key, n) * 32) % W32 + HashPrefix(key, n) + key[n]) % W32
  {
  }

  method Hash(key: Key) returns (h: nat)
    ensures h == HashPrefix(key, |key|) && h == (5381 * Pow33(|key|) + Weighted(key)) % W32
  {
    HashIsPolynomial(key, |key|);
    assert key[..|key|] == key;
    h := 5381;
    assert HashPrefix(key, 0) == 5381;
    hide Pow33, Weighted, HashPrefix;
    for i := 0 to |key|
      invariant h == HashPrefix(key, i)
    {
      HashNext(key, i);
      h := ((h * 32) % W32 + h + key[i]) % W32;
    }
  }

  function Slot(key: Key, n: nat): (i: nat)
    requires n > 0
    ensures i < n
  {
    HashPrefix(key, |key|) % n
  }

  /** strcmp on NUL-terminated strings: the difference of the first pair that differs. */
  function Strcmp(l: Key, r: Key): int
  {
    if l == [] then (if r == [] then 0 else -r[0])
    else if r == [] then l[0]
    else if l[0] != r[0] then l[0] - r[0]
    else Strcmp(l[1..], r[1..])
  }

  /** key_comparator. */
  function KeyCompare(l: Key, r: Key): int
  {
    if |l| == |r| then Strcmp(l, r) else |l| - |r|
  }

  lemma {:induction false} StrcmpZero(l: Key, r: Key)
    ensures Strcmp(l, r) == 0 <==> l == r
  {
    if l != [] && r != [] {
      assert l == [l[0]] + l[1..] && r == [r[0]] + r[1..];
      if l[0] == r[0] {
        StrcmpZero(l[1..], r[1..]);
      }
    }
  }

  // ---------------------------------------------------------------------- chains

  predicate HasKey<V>(chain: seq<Pair<V>>, key: Key) { exists j :: 0 <= j < |chain| && chain[j].key == key }

  ghost predicate DistinctKeys<V>(chain: seq<Pair<V>>)
  {
    forall i, j :: 0 <= i < j < |chain| ==> chain[i].key != chain[j].key
  }

  /** key_comparator with a query item on the right. */
  function ComparePair<V>(p: Pair<V>, key: Key): int { KeyCompare(p.key, key) }

  lemma SameKey(l: Key, r: Key)
    ensures KeyCompare(l, r) == 0 <==> l == r
  {
    StrcmpZero(l, r);
  }

  /** list_find and list_remove with key_comparator stop at the first pair with the key. */
  lemma FirstWithKey<V>(chain: seq<Pair<V>>, key: Key)
    ensures
      var k := FirstEqual(chain, key, ComparePair);
      && (forall j :: 0 <= j < k ==> chain[j].key != key)
      && (k < |chain| ==> chain[k].key == key)
  {
    hide KeyCompare;
    var k := FirstEqual(chain, key, ComparePair);
    forall j | 0 <= j < k ensures chain[j].key != key {
      SameKey(chain[j].key, key);
    }
    if k < |chain| { SameKey(chain[k].key, key); }
  }

  function Cut<V>(chain: seq<Pair<V>>, k: nat): seq<Pair<V>>
    requires k < |chain|
  {
    chain[..k] + chain[k + 1..]
  }

  lemma CutChain<V>(chain: seq<Pair<V>>, k: nat)
    requires k < |chain| && DistinctKeys(chain)
    ensures DistinctKeys(Cut(chain, k)) && !HasKey(Cut(chain, k), chain[k].key)
    ensures forall key :: key != chain[k].key ==> (HasKey(Cut(chain, k), key) <==> HasKey(chain, key))
    ensures forall j :: 0 <= j < |chain| - 1 ==> Cut(chain, k)[j] in chain
  {
    var c := Cut(chain, k);
    assert forall j :: 0 <= j < |c| ==> c[j] == if j < k then chain[j] else chain[j + 1];
    forall key | key != chain[k].key && HasKey(chain, key) ensures HasKey(c, key) {
      var j :| 0 <= j < |chain| && chain[j].key == key;
      assert c[if j < k then j else j - 1].key == key;
    }
  }

  // ----------------------------------------------------------------- the table

  ghost predicate Placed<V>(vals: seq<seq<Pair<V>>>, m: map<Key, V>, i: nat, p: Pair<V>)
    requires i < |vals|
  {
    Slot(p.key, |vals|) == i && p.key in m && m[p.key] == p.val
  }

  /** Chains that hold exactly the pairs of `m`, each where its key hashes to. */
  ghost predicate InPlace<V>(vals: seq<seq<Pair<V>>>, m: map<Key, V>)
  {
    && (forall i, j :: 0 <= i < |vals| && 0 <= j < |vals[i]| ==> Placed(vals, m, i, vals[i][j]))
    && (forall i :: 0 <= i < |vals| ==> DistinctKeys(vals[i]))
    && (forall key :: key in m ==> |vals| > 0 && HasKey(vals[Slot(key, |vals|)], key))
  }

  /** 8, 16, 32, ... */
  ghost predicate IsArraySize(n: nat)
  {
    n == MIN_SIZE || (n > MIN_SIZE && n % 2 == 0 && IsArraySize(n / 2))
  }

  lemma NotTheKey<V>(chain: seq<Pair<V>>, key: Key, b: nat)
    requires !HasKey(chain, key) && b < |chain|
    ensures chain[b].key != key
  {
  }

  lemma RemovePlaced<V>(vals: seq<seq<Pair<V>>>, m: map<Key, V>, i: nat, k: nat)
    requires InPlace(vals, m) && i < |vals| && k < |vals[i]|
    ensures InPlace(vals[i := Cut(vals[i], k)], m - {vals[i][k].key})
    ensures vals[i][k].key in m && m[vals[i][k].key] == vals[i][k].val && Slot(vals[i][k].key, |vals|) == i
  {
    hide Slot, HasKey, DistinctKeys;
    var key, vals', m' := vals[i][k].key, vals[i := Cut(vals[i], k)], m - {vals[i][k].key};
    assert Placed(vals, m, i, vals[i][k]);
    CutChain(vals[i], k);
    forall a, b | 0 <= a < |vals'| && 0 <= b < |vals'[a]| ensures Placed(vals', m', a, vals'[a][b]) {
      var p := vals'[a][b];
      if a == i {
        var j :| 0 <= j < |vals[i]| && vals[i][j] == p;
        assert Placed(vals, m, i, vals[i][j]);
        NotTheKey(Cut(vals[i], k), key, b);
      } else {
        assert Placed(vals, m, a, vals[a][b]);
      }
    }
  }

  lemma PushChain<V>(chain: seq<Pair<V>>, key: Key, val: V)
    requires DistinctKeys(chain) && forall b :: 0 <= b < |chain| ==> chain[b].key != key
    ensures DistinctKeys(chain + [Pair(key, val)])
    ensures forall k :: HasKey(chain + [Pair(key, val)], k) <==> HasKey(chain, k) || k == key
  {
    var c := chain + [Pair(key, val)];
    assert c[|chain|].key == key;
    forall k | HasKey(chain, k) ensures HasKey(c, k) {
      var j :| 0 <= j < |chain| && chain[j].key == k;
      assert c[j].key == k;
    }
  }

  lemma PushPlaced<V>(vals: seq<seq<Pair<V>>>, m: map<Key, V>, key: Key, val: V)
    requires InPlace(vals, m) && |vals| > 0 && key !in m
    ensures var i := Slot(key, |vals|); InPlace(vals[i := vals[i] + [Pair(key, val)]], m[key := val])
  {
    hide Slot, DistinctKeys, HasKey;
    var i := Slot(key, |vals|);
    var vals', m' := vals[i := vals[i] + [Pair(key, val)]], m[key := val];
    forall a, b | 0 <= a < |vals'| && 0 <= b < |vals'[a]| ensures Placed(vals', m', a, vals'[a][b]) {
      if a != i || b < |vals[i]| {
        assert Placed(vals, m, a, vals[a][b]);
      }
    }
    forall b | 0 <= b < |vals[i]| ensures vals[i][b].key != key {
      assert Placed(vals, m, i, vals[i][b]);
    }
    PushChain(vals[i], key, val);
  }

  /** `(size - 1) * LF_MULTIPLE < arraysize` in unsigned arithmetic. */
  predicate ShrinkTest(size: nat, n: nat) { ((size - 1) % W32) * LF_MULTIPLE % W32 < n }

  /** Under the load factor that test is true of every table but the empty one. */
  lemma ShrinkTestMeaning(size: nat, n: nat)
    requires size * LF_MULTIPLE <= n < W32 - 2
    ensures ShrinkTest(size, n) <==> size > 0
  {
  }

  lemma {:induction false} Nonempty(n: nat)
    requires IsArraySize(n)
    ensures n >= MIN_SIZE
  {
  }

  lemma Absent<V>(vals: seq<seq<Pair<V>>>, m: map<Key, V>, key: Key)
    requires InPlace(vals, m) && |vals| > 0
    requires var c := vals[Slot(key, |vals|)]; forall j :: 0 <= j < |c| ==> c[j].key != key
    ensures key !in m
  {
  }

  lemma MapSizes<V>(m: map<Key, V>, key: Key, val: V)
    ensures |(m - {key})[key := val]| == if key in m then |m| else |m| + 1
    ensures (m - {key})[key := val] == m[key := val]
  {
    assert m[key := val].Keys == m.Keys + {key};
    assert (m - {key})[key := val] == m[key := val];
    assert |m[key := val].Keys| == |m[key := val]| && |m.Keys| == |m|;
  }

  lemma EmptyInPlace<V>(vals: seq<seq<Pair<V>>>)
    requires forall i :: 0 <= i < |vals| ==> vals[i] == []
    ensures InPlace(vals, map[])
  {
  }

  /** `ms` is part moved into `m` already and part still in `rest`. */
  ghost predicate Split<V>(ms: map<Key, V>, m: map<Key, V>, rest: map<Key, V>)
  {
    rest.Keys !! m.Keys && ms == m + rest && |ms| == |m| + |rest|
  }

  lemma NothingMoved<V>(ms: map<Key, V>)
    ensures Split(ms, map[], ms)
  {
    assert map[] + ms == ms;
  }

  lemma Grown<V>(m: map<Key, V>, key: Key, val: V)
    requires key !in m
    ensures |m[key := val]| == |m| + 1
  {
    assert m[key := val].Keys == m.Keys + {key};
    assert |m[key := val].Keys| == |m[key := val]| && |m.Keys| == |m|;
  }

  lemma RemovedSize<V>(m: map<Key, V>, key: Key)
    requires key in m
    ensures |m - {key}| == |m| - 1
  {
    assert (m - {key}).Keys == m.Keys - {key};
    assert |(m - {key}).Keys| == |m - {key}| && |m.Keys| == |m|;
  }

  lemma SameUnion<V>(m: map<Key, V>, rest: map<Key, V>, key: Key)
    requires key in rest
    ensures m[key := rest[key]] + (rest - {key}) == m + rest
  {
    var a, b := m[key := rest[key]] + (rest - {key}), m + rest;
    assert a.Keys == b.Keys;
    assert forall k :: k in b ==> a[k] == b[k];
  }

  lemma MoveOne<V>(ms: map<Key, V>, m: map<Key, V>, rest: map<Key, V>, key: Key)
    requires Split(ms, m, rest) && key in rest
    ensures Split(ms, m[key := rest[key]], rest - {key}) && |m| < |ms| && |m[key := rest[key]]| == |m| + 1
  {
    assert key !in m;
    Grown(m, key, rest[key]);
    RemovedSize(rest, key);
    SameUnion(m, rest, key);
  }

  lemma FiledSomewhere<V>(vals: seq<seq<Pair<V>>>, m: map<Key, V>, key: Key)
    requires InPlace(vals, m) && key in m
    ensures exists i :: 0 <= i < |vals| && vals[i] != []
  {
    var i := Slot(key, |vals|);
    assert HasKey(vals[i], key);
    assert vals[i] != [];
  }

  lemma NothingLeft<V>(vals: seq<seq<Pair<V>>>, m: map<Key, V>)
    requires InPlace(vals, m) && forall i :: 0 <= i < |vals| ==> vals[i] == []
    ensures m == map[]
  {
    if key :| key in m {
      FiledSomewhere(vals, m, key);
    }
  }

  lemma AllMoved<V>(ms: map<Key, V>, m: map<Key, V>, rest: map<Key, V>)
    requires Split(ms, m, rest) && rest == map[]
    ensures ms == m
  {
    assert m + map[] == m;
  }

  class Table<V> {
    var size: nat
    var vals: ListArray<Pair<V>>
    ghost var m: map<Key, V>

    ghost predicate Sound()
      reads this, vals, vals.Repr
    {
      vals.Valid() && this !in vals.Repr && IsArraySize(|vals.lists|) && InPlace(vals.Vals(), m)
    }

    ghost predicate Valid()
      reads this, vals, vals.Repr
    {
      Sound() && size == |m| && size * LF_MULTIPLE <= |vals.lists|
    }

    constructor ()
      ensures Valid() && m == map[] && fresh(vals.Repr)
    {
      size := 0;
      vals := new ListArray<Pair<V>>(MIN_SIZE);
      m := map[];
      new;
      EmptyInPlace(vals.Vals());
    }

    method Find(key: Key) returns (r: Option<V>)
      requires Valid()
      ensures r == if key in m then Some(m[key]) else None
    {
      hide IsArraySize, ListArray.Valid, ListArray.Vals;
      Nonempty(|vals.lists|);
      var h := Hash(key);
      var index := h % |vals.lists|;
      assert index == Slot(key, |vals.lists|);
      ghost var chain := vals.Vals()[index];
      FirstWithKey(chain, key);
      hide FirstEqual, Slot;
      var found := vals.Find(index, key, ComparePair);
      if found.Some? {
        assert Placed(vals.Vals(), m, index, chain[FirstEqual(chain, key, ComparePair)]);
        r := Some(found.value.val);
      } else {
        Absent(vals.Vals(), m, key);
        r := None;
      }
    }

    /** list_remove on the key's chain. */
    method TakeOut(key: Key) returns (removed: Option<V>)
      requires Sound()
      modifies this`m, vals.Repr
      ensures Sound() && vals.Repr == old(vals.Repr) && m == old(m) - {key}
      ensures removed == if key in old(m) then Some(old(m)[key]) else None
    {
      hide IsArraySize, InPlace, ListArray.Valid, ListArray.Vals;
      Nonempty(|vals.lists|);
      var h := Hash(key);
      var index := h % |vals.lists|;
      assert index == Slot(key, |vals.lists|);
      ghost var was := vals.Vals();
      ghost var k := FirstEqual(was[index], key, ComparePair);
      FirstWithKey(was[index], key);
      hide FirstEqual, Slot;
      var item := vals.Remove(index, key, ComparePair);
      removed := None;
      if item.Some? {
        RemovePlaced(was, m, index, k);
        removed := Some(item.value.val);
        m := m - {key};
      } else {
        Absent(was, m, key);
        assert m == m - {key};
      }
    }

    /** list_push_back on the chain of a key that is not in the table. */
    method PutIn(key: Key, val: V)
      requires Sound() && key !in m
      modifies this`m, vals.Repr
      ensures Sound() && fresh(vals.Repr - old(vals.Repr)) && m == old(m)[key := val]
    {
      hide IsArraySize, InPlace, ListArray.Valid, ListArray.Vals;
      Nonempty(|vals.lists|);
      var h := Hash(key);
      var index := h % |vals.lists|;
      assert index == Slot(key, |vals.lists|);
      hide Slot;
      PushPlaced(vals.Vals(), m, key, val);
      vals.PushBack(index, Pair(key, val));
      m := m[key := val];
    }

    /** The part of hashtable_add after any growth: the key's old pair off its chain, the new one on. */
    method Replace(key: Key, val: V)
      requires Valid() && (size + 1) * LF_MULTIPLE <= |vals.lists|
      modifies this`m, this`size, vals.Repr
      ensures Valid() && m == old(m)[key := val] && fresh(vals.Repr - old(vals.Repr))
    {
      hide IsArraySize, InPlace, ListArray.Valid, ListArray.Vals;
      ghost var m0 := m;
      var removed := TakeOut(key);
      PutIn(key, val);
      MapSizes(m0, key, val);
      vals.InRepr();
      if removed.None? {
        size := size + 1;
      }
    }

    /** hashtable_add.  Level 0 is an add that is known not to need a larger array. */
    method Add(key: Key, val: V, ghost level: nat)
      requires Valid() && (level == 0 ==> (size + 1) * LF_MULTIPLE <= |vals.lists|)
      modifies this, vals.Repr
      ensures Valid() && m == old(m)[key := val] && fresh(vals.Repr - old(vals.Repr))
      ensures |vals.lists| ==
        if (old(size) + 1) * LF_MULTIPLE > |old(vals.lists)| then 2 * |old(vals.lists)| else |old(vals.lists)|
      decreases level, 2
    {
      hide IsArraySize, InPlace, ListArray.Valid, ListArray.Vals;
      Nonempty(|vals.lists|);
      if (size + 1) * LF_MULTIPLE > |vals.lists| {
        Grow(level);
      }
      Replace(key, val);
    }

    /** grow: file everything again in an array of twice the size. */
    method Grow(ghost level: nat)
      requires Valid() && level > 0
      modifies this, vals.Repr
      ensures Valid() && m == old(m) && |vals.lists| == 2 * |old(vals.lists)| && size == old(size)
      ensures fresh(vals.Repr - old(vals.Repr))
      decreases level, 1
    {
      hide InPlace, ListArray.Valid, ListArray.Vals;
      Nonempty(|vals.lists|);
      var source := vals;
      ghost var ms := m;
      vals := new ListArray<Pair<V>>(2 * |source.lists|);
      size := 0;
      m := map[];
      EmptyInPlace<V>(vals.Vals());
      Rehash(source, ms, level - 1);
    }

    /** shrink: file everything again in an array of half the size.  When that turns out too small,
        hashtable_add doubles it again on the way. */
    method Shrink()
      requires Valid() && |vals.lists| > MIN_SIZE
      modifies this, vals.Repr
      ensures Valid() && m == old(m) && size == old(size) && fresh(vals.Repr - old(vals.Repr))
      ensures |vals.lists| ==
        if size * LF_MULTIPLE <= |old(vals.lists)| / 2 then |old(vals.lists)| / 2 else |old(vals.lists)|
    {
      hide InPlace, ListArray.Valid, ListArray.Vals;
      var source := vals;
      ghost var ms := m;
      vals := new ListArray<Pair<V>>(|source.lists| / 2);
      size := 0;
      m := map[];
      EmptyInPlace<V>(vals.Vals());
      Rehash(source, ms, 1);
    }

    /** The table and a source array being emptied into it: what has been moved and what is left. */
    ghost predicate Moving(source: ListArray<Pair<V>>, ms: map<Key, V>, rest: map<Key, V>)
      reads this, vals, vals.Repr, source, source.Repr
    {
      && Valid() && source.Valid() && source.Repr !! vals.Repr && this !in source.Repr
      && InPlace(source.Vals(), rest) && Split(ms, m, rest)
    }

    /** One turn of rehash: the first pair of chain i goes into the table and off the chain. */
    method MoveFirst(source: ListArray<Pair<V>>, i: nat, item: Pair<V>, ghost ms: map<Key, V>, ghost rest: map<Key, V>,
        ghost level: nat) returns (ghost rest': map<Key, V>)
      requires Moving(source, ms, rest) && i < |source.lists|
      requires source.Vals()[i] != [] && item == source.Vals()[i][0]
      requires |ms| * LF_MULTIPLE <= |vals.lists| || level > 0
      modifies this, vals.Repr, source.Repr
      ensures Moving(source, ms, rest') && fresh(vals.Repr - old(vals.Repr)) && source.Repr == old(source.Repr)
      ensures source.Vals() == old(source.Vals())[i := old(source.Vals())[i][1..]]
      ensures |m| == |old(m)| + 1 <= |ms|
      ensures |vals.lists| ==
        if |m| * LF_MULTIPLE > |old(vals.lists)| then 2 * |old(vals.lists)| else |old(vals.lists)|
      decreases level, 3
    {
      hide IsArraySize, InPlace, Split, ListArray.Valid, ListArray.Vals;
      ghost var was := source.Vals();
      RemovePlaced(was, rest, i, 0);
      MoveOne(ms, m, rest, item.key);
      source.InRepr();
      Add(item.key, item.val, level);
      assert source.Vals() == was;
      assert Cut(was[i], 0) == was[i][1..];
      vals.InRepr();
      source.PopFront(i);
      rest' := rest - {item.key};
    }

    /** The inner loop of rehash: chain i is emptied into the table. */
    method EmptyChain(source: ListArray<Pair<V>>, i: nat, ghost ms: map<Key, V>, ghost rest: map<Key, V>,
        ghost n: nat, ghost level: nat) returns (ghost rest': map<Key, V>)
      requires Moving(source, ms, rest) && i < |source.lists|
      requires |vals.lists| == if |m| * LF_MULTIPLE <= n then n else 2 * n
      requires |ms| * LF_MULTIPLE <= if level == 0 then n else 2 * n
      modifies this, vals.Repr, source.Repr
      ensures Moving(source, ms, rest') && fresh(vals.Repr - old(vals.Repr)) && source.Repr == old(source.Repr)
      ensures source.Vals() == old(source.Vals())[i := []]
      ensures |vals.lists| == if |m| * LF_MULTIPLE <= n then n else 2 * n
      decreases level, 4
    {
      hide Table.Valid, InPlace, Split, ListArray.Valid, ListArray.Vals;
      rest' := rest;
      var item := source.Front(i);
      while item.Some?
        invariant Moving(source, ms, rest') && source.Repr == old(source.Repr)
        invariant fresh(vals.Repr - old(vals.Repr)) && source.Vals() == old(source.Vals())[i := source.Vals()[i]]
        invariant |vals.lists| == if |m| * LF_MULTIPLE <= n then n else 2 * n
        invariant item == if source.Vals()[i] == [] then None else Some(source.Vals()[i][0])
        decreases |source.Vals()[i]|
      {
        rest' := MoveFirst(source, i, item.value, ms, rest', level);
        item := source.Front(i);
      }
    }

    /** rehash: move every pair of `source` into the table, leaving it empty as the cleanup after it asserts. */
    method Rehash(source: ListArray<Pair<V>>, ghost ms: map<Key, V>, ghost level: nat)
      requires Valid() && m == map[] && source.Valid() && InPlace(source.Vals(), ms)
      requires source.Repr !! vals.Repr && this !in source.Repr
      requires |ms| * LF_MULTIPLE <= if level == 0 then |vals.lists| else 2 * |vals.lists|
      modifies this, vals.Repr, source.Repr
      ensures Valid() && m == ms && fresh(vals.Repr - old(vals.Repr))
      ensures forall a :: 0 <= a < |source.lists| ==> source.Vals()[a] == []
      ensures |vals.lists| ==
        if |ms| * LF_MULTIPLE <= |old(vals.lists)| then |old(vals.lists)| else 2 * |old(vals.lists)|
      decreases level, 5
    {
      hide InPlace, Split, ListArray.Valid, ListArray.Vals, Table.Sound;
      ghost var rest, n := ms, |vals.lists|;
      NothingMoved(ms);
      var i := 0;
      while i < |source.lists|
        invariant 0 <= i <= |source.lists| && Moving(source, ms, rest) && source.Repr == old(source.Repr)
        invariant fresh(vals.Repr - old(vals.Repr))
        invariant forall a :: 0 <= a < i ==> source.Vals()[a] == []
        invariant |vals.lists| == if |m| * LF_MULTIPLE <= n then n else 2 * n
      {
        rest := EmptyChain(source, i, ms, rest, n, level);
        i := i + 1;
      }
      NothingLeft(source.Vals(), rest);
      AllMoved(ms, m, rest);
    }

    /** The pair off its chain and off the count. */
    method TakeAway(key: Key) returns (r: Option<V>)
      requires Valid()
      modifies this`m, this`size, vals.Repr
      ensures Valid() && m == old(m) - {key} && vals.Repr == old(vals.Repr)
      ensures r == if key in old(m) then Some(old(m)[key]) else None
    {
      hide IsArraySize, InPlace, ListArray.Valid, ListArray.Vals;
      ghost var m0 := m;
      r := TakeOut(key);
      vals.InRepr();
      if r.None? {
        assert m == m0;
      } else {
        RemovedSize(m0, key);
        size := size - 1;
      }
    }

    /** hashtable_remove. */
    method Remove(key: Key) returns (r: Option<V>)
      requires Valid()
      modifies this, vals.Repr
      ensures Valid() && m == old(m) - {key} && fresh(vals.Repr - old(vals.Repr))
      ensures r == if key in old(m) then Some(old(m)[key]) else None
      ensures
        var n := |old(vals.lists)|;
        var halved := key in old(m) && n > MIN_SIZE && ShrinkTest(size, n) && size * LF_MULTIPLE <= n / 2;
        |vals.lists| == if halved then n / 2 else n
    {
      hide IsArraySize, InPlace, ShrinkTest, ListArray.Valid, ListArray.Vals;
      r := TakeAway(key);
      if r.None? {
        return;
      }
      if |vals.lists| > MIN_SIZE && ShrinkTest(size, |vals.lists|) {
        Shrink();
      }
    }
  }
}
