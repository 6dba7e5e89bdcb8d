/** lib/hash.cc: a hash table that grows by rehashing, as a finite map. */
module Hashing {
  import opened Sequences

  const INITIAL_BUCKETS := 4
  const RESIZE_RATIO := 3
  const INCREASE_SIZE_BY := 4

  /** The key and hash functions given to the table. */
  datatype Keys<!Key, !T> = Keys(getKey: T -> Key, hash: Key -> nat)

  function Slot<Key, T>(f: Keys<Key, T>, key: Key, size: nat): (b: nat)
    requires size > 0
    ensures b < size
  {
    f.hash(key) % size
  }

  /** Keys share a bucket when their hash values differ by a multiple of the size, and only then. */
  lemma SharedBucket<Key, T>(f: Keys<Key, T>, key: Key, other: Key, size: nat, k: int)
    requires size > 0
    ensures f.hash(key) - f.hash(other) == size * k ==> Slot(f, key, size) == Slot(f, other, size)
    ensures Slot(f, key, size) == Slot(f, other, size) ==> exists q: int :: f.hash(key) - f.hash(other) == size * q
  {
    var x, y := f.hash(key), f.hash(other);
    var p, q := x / size, y / size;
    assert x == size * p + x % size && y == size * q + y % size;
    if x - y == size * k {
      assert x == size * (q + k) + y % size;
      if p > q + k { Apart(size, p - (q + k)); } else if p < q + k { Apart(size, q + k - p); }
    }
    if x % size == y % size { assert x - y == size * (p - q); }
  }

  lemma Apart(d: nat, n: nat)
    requires n >= 1
    ensures d * n >= d
  {
  }

  /** Every item is in the bucket its key hashes to, once, and is the one the map has for its key. */
  predicate Sorted<Key(==), T(==)>(f: Keys<Key, T>, buckets: seq<seq<T>>, contents: map<Key, T>) {
    forall b, x | 0 <= b < |buckets| && x in buckets[b] ::
      Slot(f, f.getKey(x), |buckets|) == b && f.getKey(x) in contents && contents[f.getKey(x)] == x
  }

  predicate Single<T(==)>(buckets: seq<seq<T>>) {
    forall b | 0 <= b < |buckets| :: NoDup(buckets[b])
  }

  predicate Keyed<Key(==), T(==)>(f: Keys<Key, T>, contents: map<Key, T>) {
    forall k | k in contents :: f.getKey(contents[k]) == k
  }

  predicate Complete<Key(==), T(==)>(f: Keys<Key, T>, buckets: seq<seq<T>>, contents: map<Key, T>)
    requires |buckets| > 0
  {
    forall k | k in contents :: contents[k] in buckets[Slot(f, k, |buckets|)]
  }

  /** The buckets represent the map. */
  predicate Represents<Key(==), T(==)>(f: Keys<Key, T>, buckets: seq<seq<T>>, contents: map<Key, T>) {
    |buckets| > 0 && Sorted(f, buckets, contents) && Single(buckets) && Keyed(f, contents)
      && Complete(f, buckets, contents)
  }

  // ---- moving to a larger table ---------------------------------------------

  /** In the middle of ReHash: each item is in the old table or in the new one. */
  predicate Moving<Key(==), T(==)>(f: Keys<Key, T>, from: seq<seq<T>>, to: seq<seq<T>>, contents: map<Key, T>) {
    && |from| > 0 && |to| > 0 && Keyed(f, contents)
    && Sorted(f, from, contents) && Sorted(f, to, contents) && Single(from) && Single(to)
    && forall k | k in contents ::
         contents[k] in to[Slot(f, k, |to|)] <==> contents[k] !in from[Slot(f, k, |from|)]
  }

  function MovedFrom<T>(from: seq<seq<T>>, i: nat): seq<seq<T>>
    requires i < |from| && from[i] != []
  {
    from[i := from[i][1..]]
  }

  function MovedTo<Key, T>(f: Keys<Key, T>, to: seq<seq<T>>, x: T): seq<seq<T>>
    requires |to| > 0
  {
    var b := Slot(f, f.getKey(x), |to|);
    to[b := to[b] + [x]]
  }

  lemma MoveKeeps<Key, T>(f: Keys<Key, T>, from: seq<seq<T>>, to: seq<seq<T>>, contents: map<Key, T>, i: nat)
    requires Moving(f, from, to, contents) && i < |from| && from[i] != []
    ensures Moving(f, MovedFrom(from, i), MovedTo(f, to, from[i][0]), contents)
  {
    var x := from[i][0];
    var key := f.getKey(x);
    var b := Slot(f, key, |to|);
    assert x in from[i] && contents[key] == x;
    assert from[i] == [x] + from[i][1..];
    assert x !in to[b];
  }

  // ---- the items in the order of the iterator -------------------------------

  /** What the iterator has still to visit: from position p of bucket b on. */
  function Remaining<T>(buckets: seq<seq<T>>, b: nat, p: nat): seq<T>
    requires b <= |buckets| && (if b < |buckets| then p <= |buckets[b]| else p == 0)
    decreases |buckets| - b
  {
    if b == |buckets| then [] else buckets[b][p..] + Remaining(buckets, b + 1, 0)
  }

  lemma {:induction false} RemainingMembers<T>(buckets: seq<seq<T>>, b: nat, x: T)
    requires b <= |buckets|
    ensures x in Remaining(buckets, b, 0) <==> exists c | b <= c < |buckets| :: x in buckets[c]
    decreases |buckets| - b
  {
    if b < |buckets| { RemainingMembers(buckets, b + 1, x); }
  }

  lemma {:induction false} RemainingNoDup<Key, T>(f: Keys<Key, T>, buckets: seq<seq<T>>, contents: map<Key, T>, b: nat)
    requires Sorted(f, buckets, contents) && Single(buckets) && b <= |buckets|
    ensures NoDup(Remaining(buckets, b, 0))
    decreases |buckets| - b
  {
    if b < |buckets| {
      RemainingNoDup(f, buckets, contents, b + 1);
      var head, tail := buckets[b], Remaining(buckets, b + 1, 0);
      forall i, j | 0 <= i < |head| && 0 <= j < |tail|
        ensures head[i] != tail[j]
      {
        RemainingMembers(buckets, b + 1, tail[j]);
        assert tail[j] in tail && head[i] in buckets[b];
        var c :| b + 1 <= c < |buckets| && tail[j] in buckets[c];
        assert Slot(f, f.getKey(tail[j]), |buckets|) == c && Slot(f, f.getKey(head[i]), |buckets|) == b;
      }
      assert Remaining(buckets, b, 0) == head + tail;
    }
  }

  /** The iterator's order has every item of the map, and has it once. */
  lemma VisitsEachOnce<Key, T>(f: Keys<Key, T>, buckets: seq<seq<T>>, contents: map<Key, T>)
    requires Represents(f, buckets, contents)
    ensures var all := Remaining(buckets, 0, 0);
      && NoDup(all) && (forall k | k in contents :: contents[k] in all)
      && (forall x | x in all :: f.getKey(x) in contents && contents[f.getKey(x)] == x)
  {
    RemainingNoDup(f, buckets, contents, 0);
    var all := Remaining(buckets, 0, 0);
    forall k | k in contents
      ensures contents[k] in all
    {
      RemainingMembers(buckets, 0, contents[k]);
    }
    forall x | x in all
      ensures f.getKey(x) in contents && contents[f.getKey(x)] == x
    {
      RemainingMembers(buckets, 0, x);
    }
  }

  /** The items in the first n buckets. */
  function Total<T>(buckets: seq<seq<T>>, n: nat): nat
    requires n <= |buckets|
  {
    if n == 0 then 0 else Total(buckets, n - 1) + |buckets[n - 1]|
  }

  lemma {:induction false} TotalIsRemaining<T>(buckets: seq<seq<T>>, n: nat)
    requires n <= |buckets|
    ensures Total(buckets, n) + |Remaining(buckets, n, 0)| == Total(buckets, |buckets|)
    decreases |buckets| - n
  {
    if n < |buckets| { TotalIsRemaining(buckets, n + 1); }
  }

  lemma {:induction false} KeysCount<Key, T>(f: Keys<Key, T>, q: seq<T>)
    requires NoDup(q) && forall x, y | x in q && y in q && f.getKey(x) == f.getKey(y) :: x == y
    ensures |set x | x in q :: f.getKey(x)| == |q|
  {
    if q != [] {
      var rest := q[1..];
      KeysCount(f, rest);
      assert q == [q[0]] + rest;
      var keys := set x | x in rest :: f.getKey(x);
      assert (set x | x in q :: f.getKey(x)) == keys + {f.getKey(q[0])};
      assert f.getKey(q[0]) !in keys;
    }
  }

  /** The sizes of the buckets add up to the size of the map. */
  lemma TotalIsSize<Key, T>(f: Keys<Key, T>, buckets: seq<seq<T>>, contents: map<Key, T>)
    requires Represents(f, buckets, contents)
    ensures Total(buckets, |buckets|) == |contents|
  {
    var all := Remaining(buckets, 0, 0);
    TotalIsRemaining(buckets, 0);
    VisitsEachOnce(f, buckets, contents);
    KeysCount(f, all);
    assert (set x | x in all :: f.getKey(x)) == contents.Keys;
  }

  // ---- insertion and removal ------------------------------------------------

  lemma InsertKeeps<Key, T>(f: Keys<Key, T>, buckets: seq<seq<T>>, contents: map<Key, T>, item: T)
    requires Represents(f, buckets, contents) && f.getKey(item) !in contents
    ensures Represents(f, MovedTo(f, buckets, item), contents[f.getKey(item) := item])
  {
    var key, all := f.getKey(item), contents[f.getKey(item) := item];
    var b := Slot(f, key, |buckets|);
    var bs := MovedTo(f, buckets, item);
    assert item !in buckets[b];
    forall k | k in all
      ensures all[k] in bs[Slot(f, k, |bs|)]
    {
      if k != key { assert contents[k] in buckets[Slot(f, k, |buckets|)]; }
    }
  }

  /** The buckets after an item has been removed from its bucket. */
  function Taken<Key, T(==)>(f: Keys<Key, T>, buckets: seq<seq<T>>, key: Key, x: T): seq<seq<T>>
    requires |buckets| > 0
  {
    var b := Slot(f, key, |buckets|);
    buckets[b := Without(buckets[b], x)]
  }

  lemma RemoveKeeps<Key, T>(f: Keys<Key, T>, buckets: seq<seq<T>>, contents: map<Key, T>, key: Key)
    requires Represents(f, buckets, contents) && key in contents
    ensures Represents(f, Taken(f, buckets, key, contents[key]), contents - {key})
  {
    var x, b := contents[key], Slot(f, key, |buckets|);
    var bs, rest := Taken(f, buckets, key, x), contents - {key};
    WithoutNoDup(buckets[b], x);
    forall y
      ensures y in Without(buckets[b], x) <==> y in buckets[b] && y != x
    {
      WithoutMembers(buckets[b], x, y);
    }
    forall c, y | 0 <= c < |bs| && y in bs[c]
      ensures Slot(f, f.getKey(y), |bs|) == c && f.getKey(y) in rest && rest[f.getKey(y)] == y
    {
      if c == b { WithoutMembers(buckets[b], x, y); }
      assert y in buckets[c];
    }
    forall k | k in rest
      ensures rest[k] in bs[Slot(f, k, |bs|)]
    {
      assert contents[k] in buckets[Slot(f, k, |buckets|)] && f.getKey(contents[k]) == k;
    }
  }

  lemma LoadBound(items: nat, size: nat)
    requires size > 0
    ensures items / size < RESIZE_RATIO <==> items < RESIZE_RATIO * size
  {
    var q := items / size;
    assert items == size * q + items % size;
    if q >= 3 { assert size * q == 3 * size + size * (q - 3) && size * (q - 3) >= 0; }
    else if q == 2 {} else if q == 1 {}
  }

  // ---- the table ------------------------------------------------------------

  class HashTable<Key(==), T(==)> {
    var buckets: array<seq<T>>
    var numBuckets: nat
    var numItems: nat
    const f: Keys<Key, T>
    ghost var contents: map<Key, T>

    ghost predicate Valid()
      reads this, buckets
    {
      && buckets.Length == numBuckets && Represents(f, buckets[..], contents)
      && numItems == |contents| && numItems <= RESIZE_RATIO * numBuckets
    }

    constructor (keys: Keys<Key, T>)
      ensures Valid() && contents == map[] && f == keys && fresh(buckets)
    {
      f, contents, numItems := keys, map[], 0;
      buckets := new seq<T>[INITIAL_BUCKETS](i => []);
      numBuckets := INITIAL_BUCKETS;
    }

    method Find(key: Key) returns (item: Option<T>)
      requires Valid()
      ensures item == if key in contents then Some(contents[key]) else None
    {
      var bucket := Slot(f, key, numBuckets);
      item := FindInBucket(bucket, key);
    }

    method FindInBucket(bucket: nat, key: Key) returns (item: Option<T>)
      requires Valid() && bucket == Slot(f, key, numBuckets)
      ensures item == if key in contents then Some(contents[key]) else None
    {
      var list := buckets[bucket];
      assert list == buckets[..][bucket] && (key in contents ==> contents[key] in list);
      for i := 0 to |list|
        invariant forall j | 0 <= j < i :: f.getKey(list[j]) != key
      {
        assert list[i] in list;
        if f.getKey(list[i]) == key {
          return Some(list[i]);
        }
      }
      item := None;
    }

    /** Move one bucket of the old table into the new one. */
    method MoveBucket(oldTable: array<seq<T>>, i: nat)
      requires oldTable != buckets && buckets.Length == numBuckets && i < oldTable.Length
      requires Moving(f, oldTable[..], buckets[..], contents)
      modifies oldTable, buckets
      ensures Moving(f, oldTable[..], buckets[..], contents)
      ensures oldTable[i] == [] && forall j | 0 <= j < oldTable.Length && j != i :: oldTable[j] == old(oldTable[j])
    {
      while oldTable[i] != []
        invariant Moving(f, oldTable[..], buckets[..], contents)
        invariant forall j | 0 <= j < oldTable.Length && j != i :: oldTable[j] == old(oldTable[j])
        decreases |oldTable[i]|
      {
        ghost var from, to := oldTable[..], buckets[..];
        MoveKeeps(f, from, to, contents, i);
        var item := oldTable[i][0];
        oldTable[i] := oldTable[i][1..];
        var b := Slot(f, f.getKey(item), numBuckets);
        buckets[b] := buckets[b] + [item];
        assert oldTable[..] == MovedFrom(from, i) && buckets[..] == MovedTo(f, to, item);
      }
    }

    /** Move every bucket of the old table. */
    method MoveAll(oldTable: array<seq<T>>)
      requires oldTable != buckets && buckets.Length == numBuckets
      requires Moving(f, oldTable[..], buckets[..], contents)
      modifies oldTable, buckets
      ensures Represents(f, buckets[..], contents)
    {
      for i := 0 to oldTable.Length
        invariant Moving(f, oldTable[..], buckets[..], contents)
        invariant forall j | 0 <= j < i :: oldTable[j] == []
      {
        MoveBucket(oldTable, i);
      }
      AllMoved(f, oldTable[..], buckets[..], contents);
    }

    method ReHash()
      requires Valid()
      modifies this, buckets
      ensures Valid() && contents == old(contents) && numItems == old(numItems)
      ensures numBuckets == INCREASE_SIZE_BY * old(numBuckets) && fresh(buckets)
    {
      var numFound := SanityCheck();
      Grow();
      numFound := SanityCheck();
    }

    /** A larger table, and everything moved into it. */
    method Grow()
      requires Valid()
      modifies this, buckets
      ensures Valid() && contents == old(contents) && numItems == old(numItems)
      ensures numBuckets == INCREASE_SIZE_BY * old(numBuckets) && fresh(buckets)
    {
      var oldTable := buckets;
      numBuckets := numBuckets * INCREASE_SIZE_BY;
      buckets := new seq<T>[numBuckets](i => []);
      StartMoving(f, oldTable[..], buckets[..], contents);
      MoveAll(oldTable);
    }

    /** Every item is in the bucket it hashes to, and the items found are as many as numItems says: the ASSERTs
        of SanityCheck hold. */
    method SanityCheck() returns (numFound: nat)
      requires Valid()
      ensures numFound == Total(buckets[..], numBuckets) == numItems
      ensures forall b, x | 0 <= b < numBuckets && x in buckets[b] :: Slot(f, f.getKey(x), numBuckets) == b
    {
      TotalIsSize(f, buckets[..], contents);
      numFound := 0;
      for i := 0 to numBuckets
        invariant numFound == Total(buckets[..], i)
      {
        numFound := numFound + |buckets[i]|;
        for k := 0 to |buckets[i]|
        {
          assert buckets[i][k] in buckets[..][i];
          assert i == Slot(f, f.getKey(buckets[i][k]), numBuckets);
        }
      }
      assert forall b, x | 0 <= b < numBuckets && x in buckets[b] :: x in buckets[..][b];
    }

    method Insert(item: T)
      requires Valid() && f.getKey(item) !in contents
      modifies this, buckets
      ensures Valid() && contents == old(contents)[f.getKey(item) := item]
      ensures buckets == old(buckets) || fresh(buckets)
      ensures numBuckets == (if old(numItems) >= 3 * old(numBuckets) then 4 else 1) * old(numBuckets)
    {
      LoadBound(numItems, numBuckets);
      if numItems / numBuckets >= RESIZE_RATIO {
        ReHash();
      }
      AppendItem(item);
    }

    /** Put the item into its bucket. */
    method AppendItem(item: T)
      requires Valid() && f.getKey(item) !in contents && numItems < RESIZE_RATIO * numBuckets
      modifies this, buckets
      ensures Valid() && contents == old(contents)[f.getKey(item) := item] && buckets == old(buckets)
      ensures numBuckets == old(numBuckets)
    {
      InsertKeeps(f, buckets[..], contents, item);
      var b := Slot(f, f.getKey(item), numBuckets);
      ghost var was := buckets[..];
      buckets[b] := buckets[b] + [item];
      numItems := numItems + 1;
      contents := contents[f.getKey(item) := item];
      assert buckets[..] == MovedTo(f, was, item);
    }

    method Remove(key: Key) returns (item: T)
      requires Valid() && key in contents
      modifies this, buckets
      ensures Valid() && buckets == old(buckets) && numBuckets == old(numBuckets)
      ensures item == old(contents)[key] && contents == old(contents) - {key}
    {
      var bucket := Slot(f, key, numBuckets);
      var found := FindInBucket(bucket, key);
      item := found.value;
      RemoveKeeps(f, buckets[..], contents, key);
      ghost var was := buckets[..];
      buckets[bucket] := Without(buckets[bucket], item);
      numItems := numItems - 1;
      contents := contents - {key};
      assert buckets[..] == Taken(f, was, key, item);
    }

    method FindNextFullBucket(start: nat) returns (bucket: nat)
      requires Valid() && start <= numBuckets
      ensures start <= bucket <= numBuckets && (bucket < numBuckets ==> buckets[bucket] != [])
      ensures Remaining(buckets[..], start, 0) == Remaining(buckets[..], bucket, 0)
    {
      bucket := start;
      while bucket < numBuckets && buckets[bucket] == []
        invariant start <= bucket <= numBuckets && Remaining(buckets[..], start, 0) == Remaining(buckets[..], bucket, 0)
      {
        bucket := bucket + 1;
      }
    }
  }

  lemma StartMoving<Key, T>(f: Keys<Key, T>, from: seq<seq<T>>, to: seq<seq<T>>, contents: map<Key, T>)
    requires Represents(f, from, contents) && |to| > 0 && forall j | 0 <= j < |to| :: to[j] == []
    ensures Moving(f, from, to, contents)
  {
  }

  lemma AllMoved<Key, T>(f: Keys<Key, T>, from: seq<seq<T>>, to: seq<seq<T>>, contents: map<Key, T>)
    requires Moving(f, from, to, contents) && forall j | 0 <= j < |from| :: from[j] == []
    ensures Represents(f, to, contents)
  {
  }

  /** Steps through a table that is not modified meanwhile. */
  class HashIterator<Key(==), T(==)> {
    const table: HashTable<Key, T>
    var bucket: nat
    var position: nat

    ghost predicate Valid()
      reads this, table, table.buckets
    {
      && table.Valid() && bucket <= table.numBuckets
      && (if bucket < table.numBuckets then position < |table.buckets[bucket]| else position == 0)
    }

    /** The items not yet visited. */
    ghost function ToVisit(): seq<T>
      reads this, table, table.buckets
      requires Valid()
    {
      Remaining(table.buckets[..], bucket, position)
    }

    constructor (t: HashTable<Key, T>)
      requires t.Valid()
      ensures Valid() && table == t && ToVisit() == Remaining(t.buckets[..], 0, 0)
    {
      table := t;
      var b := t.FindNextFullBucket(0);
      bucket, position := b, 0;
    }

    method IsDone() returns (done: bool)
      requires Valid()
      ensures done <==> ToVisit() == []
    {
      done := bucket == table.numBuckets;
    }

    method Item() returns (item: T)
      requires Valid() && ToVisit() != []
      ensures item == ToVisit()[0]
    {
      item := table.buckets[bucket][position];
    }

    method Next()
      requires Valid() && ToVisit() != []
      modifies this
      ensures Valid() && ToVisit() == old(ToVisit())[1..]
    {
      position := position + 1;
      if position == |table.buckets[bucket]| {
        bucket := table.FindNextFullBucket(bucket + 1);
        position := 0;
      }
    }
  }
}
