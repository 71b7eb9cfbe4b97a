/** The resizing hash table: buckets are lists of records, and their number doubles as it fills up. */
module HashTable {
  import opened Options
  import opened Masks

  const INITHASHSIZE := 6
  const MAXHASHSIZE := 11

  /** A bucket record: the key and the data that callers write through the pointer they get. */
  class Node<K, V> {
    const key: K
    var data: V

    constructor (key: K, data: V)
      ensures this.key == key && this.data == data
    {
      this.key := key;
      this.data := data;
    }
  }

  /** A hash function gives a bucket number for each number of bits. */
  ghost predicate Hashes<K(!new)>(hash: (K, nat) -> nat) {
    forall k, bits :: hash(k, bits) < Pow2(bits)
  }

  /** No two records of a list have the same key. */
  ghost predicate DistinctKeys<K, V>(list: seq<Node<K, V>>) {
    forall i, j :: 0 <= i < j < |list| ==> list[i].key != list[j].key
  }

  /** The lists hold exactly the records of `contents`, each in the bucket of its hash. */
  ghost predicate Holds<K, V>(lists: seq<seq<Node<K, V>>>, hash: (K, nat) -> nat, bits: nat, contents: map<K, Node<K,
                              V>>) {
    && |lists| == Pow2(bits)
    && (forall b :: 0 <= b < |lists| ==> DistinctKeys(lists[b]))
    && (forall b, n :: 0 <= b < |lists| && n in lists[b] ==>
          n.key in contents && contents[n.key] == n && hash(n.key, bits) == b)
    && (forall k :: k in contents ==>
          contents[k].key == k && hash(k, bits) < |lists| && contents[k] in lists[hash(k, bits)])
  }

  /** The table is crowded only if it cannot grow any more. */
  predicate NotCrowded(elements: nat, bits: nat) {
    elements <= 4 * Pow2(bits) || bits == MAXHASHSIZE
  }

  /** There are more than four records for each of the 2^bits buckets, and fewer than 2^11 buckets. */
  predicate FillsUp(elements: nat, bits: nat) {
    elements > 4 * Pow2(bits) && bits < 11
  }

  lemma EmptyHolds<K, V>(lists: seq<seq<Node<K, V>>>, hash: (K, nat) -> nat, bits: nat)
    requires |lists| == Pow2(bits) && forall b :: 0 <= b < |lists| ==> lists[b] == []
    ensures Holds(lists, hash, bits, map[])
  {
  }

  /** A new record goes in front of its bucket. */
  lemma AddedHolds<K, V>(lists: seq<seq<Node<K, V>>>, hash: (K, nat) -> nat, bits: nat,
                         contents: map<K, Node<K, V>>, n: Node<K, V>)
    requires Holds(lists, hash, bits, contents) && n.key !in contents
    requires hash(n.key, bits) < |lists|
    ensures var b := hash(n.key, bits);
            Holds(InFront(lists, b, n), hash, bits, contents[n.key := n])
  {
    var b := hash(n.key, bits);
    var lists': seq<seq<Node<K, V>>> := InFront(lists, b, n);
    forall i, j | 0 <= i < j < |lists'[b]| ensures lists'[b][i].key != lists'[b][j].key {
      if i == 0 {
        assert lists'[b][j] in lists[b];
      }
    }
  }

  /** The lists with record `i` of list `b` taken out, and with a record put in front of list `b`. */
  function Without<T>(lists: seq<seq<T>>, b: nat, i: nat): seq<seq<T>>
    requires b < |lists| && i < |lists[b]|
  {
    lists[b := lists[b][..i] + lists[b][i + 1..]]
  }

  function InFront<T>(lists: seq<seq<T>>, b: nat, t: T): seq<seq<T>>
    requires b < |lists|
  {
    lists[b := [t] + lists[b]]
  }

  lemma WithoutFirst<T>(lists: seq<seq<T>>, b: nat)
    requires b < |lists| && |lists[b]| > 0
    ensures Without(lists, b, 0) == lists[b := lists[b][1..]]
  {
    assert lists[b][..0] + lists[b][1..] == lists[b][1..];
  }

  lemma InFrontWithout<T>(lists: seq<seq<T>>, b: nat, t: T)
    requires b < |lists|
    ensures Without(InFront(lists, b, t), b, 0) == lists
  {
    assert ([t] + lists[b])[..0] + ([t] + lists[b])[1..] == lists[b];
  }

  lemma Dropped<K, V>(list: seq<Node<K, V>>, i: nat)
    requires i < |list| && DistinctKeys(list)
    ensures DistinctKeys(list[..i] + list[i + 1..])
    ensures forall m :: m in list[..i] + list[i + 1..] <==> m in list && m.key != list[i].key
  {
    var rest: seq<Node<K, V>> := list[..i] + list[i + 1..];
    forall m | m in rest ensures m in list && m.key != list[i].key {
      var j :| 0 <= j < |rest| && rest[j] == m;
      assert m == list[if j < i then j else j + 1];
    }
    forall m | m in list && m.key != list[i].key ensures m in rest {
      var j :| 0 <= j < |list| && list[j] == m;
      assert rest[if j < i then j else j - 1] == m;
    }
    forall x, y | 0 <= x < y < |rest| ensures rest[x].key != rest[y].key {
      assert rest[x] == list[if x < i then x else x + 1];
      assert rest[y] == list[if y < i then y else y + 1];
    }
  }

  /** A record is taken out of its bucket. */
  lemma RemovedHolds<K, V>(lists: seq<seq<Node<K, V>>>, hash: (K, nat) -> nat, bits: nat,
                           contents: map<K, Node<K, V>>, b: nat, i: nat)
    requires Holds(lists, hash, bits, contents) && b < |lists| && i < |lists[b]|
    ensures lists[b][i].key in contents
    ensures Holds(Without(lists, b, i), hash, bits, contents - {lists[b][i].key})
  {
    Dropped(lists[b], i);
    assert lists[b][i] in lists[b];
  }

  /** Where a key is looked for, there is no other place for it. */
  lemma NotHere<K, V>(lists: seq<seq<Node<K, V>>>, hash: (K, nat) -> nat, bits: nat, contents: map<K, Node<K, V>>, k: K)
    requires Holds(lists, hash, bits, contents) && hash(k, bits) < |lists|
    requires forall n :: n in lists[hash(k, bits)] ==> n.key != k
    ensures k !in contents
  {
  }

  /** The records of `rest` are still in the old buckets, those of `moved` are in the new ones. */
  ghost predicate Moving<K, V>(olds: seq<seq<Node<K, V>>>, news: seq<seq<Node<K, V>>>, hash: (K, nat) -> nat, bits: nat,
                               rest: map<K, Node<K, V>>, moved: map<K, Node<K, V>>) {
    && Holds(olds, hash, bits, rest)
    && Holds(news, hash, bits + 1, moved)
    && rest.Keys !! moved.Keys
  }

  /** What is left and what is moved after the record of `k` went over. */
  lemma StillTogether<K, V>(rest: map<K, V>, moved: map<K, V>, k: K)
    requires rest.Keys !! moved.Keys && k in rest
    ensures (rest - {k}) + moved[k := rest[k]] == rest + moved
  {
  }

  lemma MovedOne<K(!new), V>(olds: seq<seq<Node<K, V>>>, news: seq<seq<Node<K, V>>>, hash: (K, nat) -> nat, bits: nat,
                             rest: map<K, Node<K, V>>, moved: map<K, Node<K, V>>, c: nat)
    requires Moving(olds, news, hash, bits, rest, moved) && Hashes(hash)
    requires c < |olds| && |olds[c]| > 0
    ensures var n: Node<K, V> := olds[c][0];
            var b := hash(n.key, bits + 1);
            n.key in rest && rest[n.key] == n
            && Moving(Without(olds, c, 0), InFront(news, b, n), hash, bits, rest - {n.key}, moved[n.key := n])
  {
    var n: Node<K, V> := olds[c][0];
    assert n in olds[c];
    RemovedHolds(olds, hash, bits, rest, c, 0);
    AddedHolds(news, hash, bits + 1, moved, n);
  }

  /** The first `c` buckets have been moved; all the records together are those of `whole`. */
  ghost predicate MovedUpTo<K, V>(olds: seq<seq<Node<K, V>>>, news: seq<seq<Node<K, V>>>, hash: (K, nat) -> nat,
                                  bits: nat, rest: map<K, Node<K, V>>, moved: map<K, Node<K, V>>,
                                  whole: map<K, Node<K, V>>, c: nat) {
    && c <= |olds| && Moving(olds, news, hash, bits, rest, moved) && rest + moved == whole
    && forall b :: 0 <= b < c ==> olds[b] == []
  }

  /** One more bucket has been moved, and the others are as they were. */
  lemma MovedNext<K(!new), V>(was: seq<seq<Node<K, V>>>, olds: seq<seq<Node<K, V>>>, news: seq<seq<Node<K, V>>>,
                              hash: (K, nat) -> nat, bits: nat, rest: map<K, Node<K, V>>, moved: map<K, Node<K, V>>,
                              whole: map<K, Node<K, V>>, c: nat)
    requires c < |was| == |olds| && (forall b :: 0 <= b < c ==> was[b] == []) && olds[c] == []
    requires forall b :: 0 <= b < |was| && b != c ==> olds[b] == was[b]
    requires Moving(olds, news, hash, bits, rest, moved) && rest + moved == whole
    ensures MovedUpTo(olds, news, hash, bits, rest, moved, whole, c + 1)
  {
  }

  lemma AllMoved<K(!new), V>(olds: seq<seq<Node<K, V>>>, news: seq<seq<Node<K, V>>>, hash: (K, nat) -> nat, bits: nat,
                             rest: map<K, Node<K, V>>, moved: map<K, Node<K, V>>, whole: map<K, Node<K, V>>)
    requires Hashes(hash) && MovedUpTo(olds, news, hash, bits, rest, moved, whole, |olds|)
    ensures Holds(news, hash, bits + 1, whole)
  {
    NothingLeft(olds, hash, bits, rest);
    assert moved == whole;
  }

  lemma NothingLeft<K(!new), V>(olds: seq<seq<Node<K, V>>>, hash: (K, nat) -> nat, bits: nat, rest: map<K, Node<K, V>>)
    requires Hashes(hash) && Holds(olds, hash, bits, rest) && forall b :: 0 <= b < |olds| ==> olds[b] == []
    ensures rest == map[]
  {
    forall k: K ensures k !in rest {
      NotHere(olds, hash, bits, rest, k);
    }
  }

  lemma OneFewer<K, V>(m: map<K, V>, k: K)
    requires k in m
    ensures |m - {k}| == |m| - 1
  {
    assert (m - {k}).Keys == m.Keys - {k};
  }

  /** One bucket is relinked. */
  method Store<T>(buckets: array<seq<T>>, b: nat, list: seq<T>)
    requires b < buckets.Length
    modifies buckets
    ensures buckets[..] == old(buckets[..])[b := list]
  {
    buckets[b] := list;
  }

  /** Moving the first record of an old bucket to the front of the new bucket of its hash. */
  method MoveFirst<K(!new), V>(buckets: array<seq<Node<K, V>>>, c: nat, newBuckets: array<seq<Node<K, V>>>,
                               hash: (K, nat) -> nat, bits: nat,
                               ghost rest: map<K, Node<K, V>>, ghost moved: map<K, Node<K, V>>)
    returns (ghost rest': map<K, Node<K, V>>, ghost moved': map<K, Node<K, V>>)
    requires Hashes(hash) && newBuckets != buckets
    requires Moving(buckets[..], newBuckets[..], hash, bits, rest, moved)
    requires c < buckets.Length && |buckets[c]| > 0
    modifies buckets, newBuckets
    ensures Moving(buckets[..], newBuckets[..], hash, bits, rest', moved')
    ensures rest' + moved' == rest + moved
    ensures |buckets[c]| < |old(buckets[c])|
    ensures forall b :: 0 <= b < buckets.Length && b != c ==> buckets[..][b] == old(buckets[..])[b]
  {
    var it := buckets[c][0];
    var newBucket := hash(it.key, bits + 1);
    MovedOne(buckets[..], newBuckets[..], hash, bits, rest, moved, c);
    StillTogether(rest, moved, it.key);
    rest', moved' := rest - {it.key}, moved[it.key := rest[it.key]];
    ghost var before := buckets[..];
    WithoutFirst(before, c);
    Store(buckets, c, buckets[c][1..]);
    Store(newBuckets, newBucket, [it] + newBuckets[newBucket]);
  }

  /** Moving a whole bucket, record by record. */
  method MoveBucket<K(!new), V>(buckets: array<seq<Node<K, V>>>, c: nat, newBuckets: array<seq<Node<K, V>>>,
                                hash: (K, nat) -> nat, bits: nat,
                                ghost rest: map<K, Node<K, V>>, ghost moved: map<K, Node<K, V>>)
    returns (ghost rest': map<K, Node<K, V>>, ghost moved': map<K, Node<K, V>>)
    requires Hashes(hash) && newBuckets != buckets
    requires Moving(buckets[..], newBuckets[..], hash, bits, rest, moved)
    requires c < buckets.Length
    modifies buckets, newBuckets
    ensures Moving(buckets[..], newBuckets[..], hash, bits, rest', moved')
    ensures rest' + moved' == rest + moved
    ensures buckets[..][c] == []
    ensures forall b :: 0 <= b < buckets.Length && b != c ==> buckets[..][b] == old(buckets[..])[b]
  {
    rest', moved' := rest, moved;
    while |buckets[c]| > 0
      invariant Moving(buckets[..], newBuckets[..], hash, bits, rest', moved')
      invariant rest' + moved' == rest + moved
      invariant forall b :: 0 <= b < buckets.Length && b != c ==> buckets[..][b] == old(buckets[..])[b]
      decreases |buckets[c]|
    {
      rest', moved' := MoveFirst(buckets, c, newBuckets, hash, bits, rest', moved');
    }
  }

  /** Moving the next bucket. */
  method MoveNext<K(!new), V>(buckets: array<seq<Node<K, V>>>, c: nat, newBuckets: array<seq<Node<K, V>>>,
                              hash: (K, nat) -> nat, bits: nat, ghost rest: map<K, Node<K, V>>,
                              ghost moved: map<K, Node<K, V>>, ghost whole: map<K, Node<K, V>>)
    returns (ghost rest': map<K, Node<K, V>>, ghost moved': map<K, Node<K, V>>)
    requires Hashes(hash) && newBuckets != buckets && c < buckets.Length
    requires MovedUpTo(buckets[..], newBuckets[..], hash, bits, rest, moved, whole, c)
    modifies buckets, newBuckets
    ensures MovedUpTo(buckets[..], newBuckets[..], hash, bits, rest', moved', whole, c + 1)
  {
    ghost var was := buckets[..];
    rest', moved' := MoveBucket(buckets, c, newBuckets, hash, bits, rest, moved);
    MovedNext(was, buckets[..], newBuckets[..], hash, bits, rest', moved', whole, c);
  }

  /** Every record is in the bucket of its hash, and all are counted. */
  ghost predicate AllSorted<K(!new), V>(lists: seq<seq<Node<K, V>>>, hash: (K, nat) -> nat, bits: nat,
                                     contents: map<K, Node<K, V>>, elements: nat) {
    Hashes(hash) && Holds(lists, hash, bits, contents) && elements == |contents| && INITHASHSIZE <= bits <= MAXHASHSIZE
  }

  /** Room for empty buckets. */
  method NewBuckets<T>(n: nat) returns (buckets: array<seq<T>>)
    ensures fresh(buckets) && AllEmpty(buckets[..], n)
  {
    buckets := new seq<T>[n](i => []);
  }

  predicate AllEmpty<T>(lists: seq<seq<T>>, n: nat) {
    |lists| == n && forall b :: 0 <= b < n ==> lists[b] == []
  }

  lemma StartMoving<K(!new), V>(olds: seq<seq<Node<K, V>>>, news: seq<seq<Node<K, V>>>, hash: (K, nat) -> nat,
                                bits: nat, contents: map<K, Node<K, V>>, elements: nat)
    requires AllSorted(olds, hash, bits, contents, elements) && AllEmpty(news, Pow2(bits + 1))
    ensures Hashes(hash) && MovedUpTo(olds, news, hash, bits, contents, map[], contents, 0)
    ensures elements == |contents| && INITHASHSIZE <= bits
  {
    EmptyHolds(news, hash, bits + 1);
    assert contents + map[] == contents;
  }

  lemma UnlinkedSorted<K(!new), V>(lists: seq<seq<Node<K, V>>>, hash: (K, nat) -> nat, bits: nat,
                                   contents: map<K, Node<K, V>>, elements: nat, b: nat, i: nat)
    requires AllSorted(lists, hash, bits, contents, elements) && b < |lists| && i < |lists[b]|
    ensures elements > 0 && AllSorted(Without(lists, b, i), hash, bits, contents - {lists[b][i].key}, elements - 1)
  {
    RemovedHolds(lists, hash, bits, contents, b, i);
    OneFewer(contents, lists[b][i].key);
  }

  lemma LinkedSorted<K(!new), V>(lists: seq<seq<Node<K, V>>>, hash: (K, nat) -> nat, bits: nat,
                                 contents: map<K, Node<K, V>>, elements: nat, n: Node<K, V>)
    requires AllSorted(lists, hash, bits, contents, elements) && n.key !in contents
    ensures hash(n.key, bits) < |lists|
    ensures AllSorted(InFront(lists, hash(n.key, bits), n), hash, bits, contents[n.key := n], elements + 1)
  {
    AddedHolds(lists, hash, bits, contents, n);
  }

  lemma BucketThere<K(!new), V>(lists: seq<seq<Node<K, V>>>, hash: (K, nat) -> nat, bits: nat,
                                contents: map<K, Node<K, V>>, elements: nat, k: K)
    requires AllSorted(lists, hash, bits, contents, elements)
    ensures hash(k, bits) < |lists|
  {
  }

  lemma NotStored<K(!new), V>(lists: seq<seq<Node<K, V>>>, hash: (K, nat) -> nat, bits: nat,
                              contents: map<K, Node<K, V>>, elements: nat, k: K)
    requires AllSorted(lists, hash, bits, contents, elements) && hash(k, bits) < |lists|
    requires forall j :: 0 <= j < |lists[hash(k, bits)]| ==> lists[hash(k, bits)][j].key != k
    ensures k !in contents && contents - {k} == contents
  {
    NotHere(lists, hash, bits, contents, k);
  }

  lemma UnlinkedLast<K, V>(before: seq<seq<Node<K, V>>>, b: nat, n: Node<K, V>, contents: map<K, Node<K, V>>)
    requires b < |before| && n.key !in contents
    ensures var lists := InFront(before, b, n);
            && |lists[b]| > 0 && lists[b][0] == n && Without(lists, b, 0) == before
            && contents[n.key := n] - {n.key} == contents
  {
    InFrontWithout(before, b, n);
  }

  /** Moving all the buckets, in order. */
  method MoveAll<K(!new), V>(buckets: array<seq<Node<K, V>>>, newBuckets: array<seq<Node<K, V>>>,
                             hash: (K, nat) -> nat, bits: nat, ghost whole: map<K, Node<K, V>>, ghost count: nat)
    returns (ghost lists: seq<seq<Node<K, V>>>)
    requires AllSorted(buckets[..], hash, bits, whole, count) && bits < MAXHASHSIZE
    requires newBuckets != buckets && AllEmpty(newBuckets[..], Pow2(bits + 1))
    modifies buckets, newBuckets
    ensures newBuckets[..] == lists && AllSorted(lists, hash, bits + 1, whole, count)
  {
    StartMoving(buckets[..], newBuckets[..], hash, bits, whole, count);
    ghost var rest, moved: map<K, Node<K, V>> := whole, map[];
    var c: nat := 0;
    while c != buckets.Length
      invariant c <= buckets.Length
      invariant MovedUpTo(buckets[..], newBuckets[..], hash, bits, rest, moved, whole, c)
    {
      rest, moved := MoveNext(buckets, c, newBuckets, hash, bits, rest, moved, whole);
      c := c + 1;
    }
    AllMoved(buckets[..], newBuckets[..], hash, bits, rest, moved, whole);
    lists := newBuckets[..];
  }

  class Table<K(==, !new), V> {
    var buckets: array<seq<Node<K, V>>>
    var elements: nat
    var bucketBits: nat
    const hash: (K, nat) -> nat
    ghost var contents: map<K, Node<K, V>>

    ghost predicate Sorted()
      reads this, buckets
    {
      AllSorted(buckets[..], hash, bucketBits, contents, elements)
    }

    ghost predicate Valid()
      reads this, buckets
    {
      Sorted() && NotCrowded(elements, bucketBits)
    }

    /** ht_create */
    constructor (hash: (K, nat) -> nat)
      requires Hashes(hash)
      ensures Valid() && contents == map[] && fresh(buckets) && this.hash == hash
      ensures elements == 0 && bucketBits == 6
    {
      this.hash := hash;
      elements, bucketBits := 0, INITHASHSIZE;
      contents := map[];
      var b := NewBuckets<Node<K, V>>(Pow2(INITHASHSIZE));
      buckets := b;
      EmptyHolds(b[..], hash, INITHASHSIZE);
    }

    /** ht_find: the record's data can be reached through the record. */
    method Find(key: K) returns (r: Option<Node<K, V>>)
      requires Valid()
      ensures r == if key in contents then Some(contents[key]) else None
    {
      var bucket := buckets[hash(key, bucketBits)];
      var i := 0;
      while i < |bucket|
        invariant 0 <= i <= |bucket|
        invariant forall j :: 0 <= j < i ==> bucket[j].key != key
      {
        if bucket[i].key == key {
          assert bucket[i] in buckets[..][hash(key, bucketBits)];
          return Some(bucket[i]);
        }
        i := i + 1;
      }
      NotHere(buckets[..], hash, bucketBits, contents, key);
      r := None;
    }

    /** A record is unlinked from its bucket and counted out. */
    method Unlink(index: nat, i: nat)
      requires Sorted() && index < buckets.Length && i < |buckets[index]|
      modifies this`elements, this`contents, buckets
      ensures Sorted() && contents == old(contents) - {old(buckets[index][i].key)}
      ensures old(elements) > 0 && elements == old(elements) - 1
      ensures buckets[..] == Without(old(buckets[..]), index, i)
    {
      ghost var lists := Without(buckets[..], index, i);
      UnlinkedSorted(buckets[..], hash, bucketBits, contents, elements, index, i);
      Relink(index, buckets[index][..i] + buckets[index][i + 1..], elements - 1, contents - {buckets[index][i].key});
      assert buckets[..] == lists;
    }

    /** One bucket, the count, and what the table then holds. */
    method Relink(index: nat, list: seq<Node<K, V>>, count: nat, ghost whole: map<K, Node<K, V>>)
      requires index < buckets.Length
      modifies this`elements, this`contents, buckets
      ensures buckets[..] == old(buckets[..])[index := list] && elements == count && contents == whole
    {
      Store(buckets, index, list);
      elements, contents := count, whole;
    }

    /** A record is linked in front of its bucket and counted in. */
    method Link(elem: Node<K, V>)
      requires Sorted() && elem.key !in contents
      modifies this`elements, this`contents, buckets
      ensures Sorted() && contents == old(contents)[elem.key := elem]
      ensures elements == old(elements) + 1
      ensures var index := hash(elem.key, bucketBits);
              index < buckets.Length && buckets[..] == InFront(old(buckets[..]), index, elem)
    {
      LinkedSorted(buckets[..], hash, bucketBits, contents, elements, elem);
      var index := hash(elem.key, bucketBits);
      Relink(index, [elem] + buckets[index], elements + 1, contents[elem.key := elem]);
    }

    /** The place of the record of `key` in the bucket, or the end of the bucket. */
    method Place(index: nat, key: K) returns (i: nat)
      requires index < buckets.Length
      ensures i <= |buckets[index]| && (i < |buckets[index]| ==> buckets[index][i].key == key)
      ensures forall j :: 0 <= j < i ==> buckets[index][j].key != key
    {
      var bucket := buckets[index];
      i := 0;
      while i < |bucket| && bucket[i].key != key
        invariant i <= |bucket|
        invariant forall j :: 0 <= j < i ==> bucket[j].key != key
      {
        i := i + 1;
      }
    }

    /** ht_remove */
    method Remove(key: K)
      requires Valid()
      modifies this`elements, this`contents, buckets
      ensures Valid() && contents == old(contents) - {key}
    {
      BucketThere(buckets[..], hash, bucketBits, contents, elements, key);
      var index := hash(key, bucketBits);
      var i := Place(index, key);
      if i < |buckets[index]| {
        Unlink(index, i);
      } else {
        NotStored(buckets[..], hash, bucketBits, contents, elements, key);
      }
    }

    /** The record linked last is unlinked again. */
    method Undo(elem: Node<K, V>, ghost before: seq<seq<Node<K, V>>>, ghost contents': map<K, Node<K, V>>)
      requires Sorted() && contents == contents'[elem.key := elem] && elem.key !in contents'
      requires |before| == buckets.Length && hash(elem.key, bucketBits) < buckets.Length
      requires buckets[..] == InFront(before, hash(elem.key, bucketBits), elem)
      modifies this`elements, this`contents, buckets
      ensures Sorted() && contents == contents' && buckets[..] == before
      ensures old(elements) > 0 && elements == old(elements) - 1
    {
      var index := hash(elem.key, bucketBits);
      UnlinkedLast(before, index, elem, contents');
      Unlink(index, 0);
    }

    /** The table takes over buckets that hold its records. */
    method Adopt(newBuckets: array<seq<Node<K, V>>>, bits: nat, ghost lists: seq<seq<Node<K, V>>>)
      requires newBuckets[..] == lists && AllSorted(lists, hash, bits, contents, elements)
      modifies this`buckets, this`bucketBits
      ensures Sorted() && buckets == newBuckets && bucketBits == bits
    {
      buckets, bucketBits := newBuckets, bits;
      assert buckets[..] == lists;
    }

    /** All the records go to the new buckets, which are then those of the table. */
    method MoveTo(newBuckets: array<seq<Node<K, V>>>)
      requires Sorted() && bucketBits < MAXHASHSIZE && newBuckets != buckets
      requires AllEmpty(newBuckets[..], Pow2(bucketBits + 1))
      modifies this`buckets, this`bucketBits, buckets, newBuckets
      ensures Sorted() && buckets == newBuckets && bucketBits == old(bucketBits) + 1
    {
      ghost var lists := MoveAll(buckets, newBuckets, hash, bucketBits, contents, elements);
      Adopt(newBuckets, bucketBits + 1, lists);
    }

    /** double_size; `available` says whether the new buckets can be allocated. */
    method DoubleSize(available: bool) returns (ok: bool)
      requires Sorted() && bucketBits < MAXHASHSIZE
      modifies this`buckets, this`bucketBits, buckets
      ensures ok == available && Sorted()
      ensures ok ==> fresh(buckets) && bucketBits == old(bucketBits) + 1
      ensures !ok ==> buckets == old(buckets) && bucketBits == old(bucketBits) && buckets[..] == old(buckets[..])
    {
      if !available {
        return false;
      }
      var newBuckets := NewBuckets<Node<K, V>>(Pow2(bucketBits + 1));
      MoveTo(newBuckets);
      ok := true;
    }

    /** The end of ht_add: the table doubles if the last record makes it crowded. */
    method Grow(growable: bool) returns (ok: bool)
      requires Sorted() && elements > 0 && NotCrowded(elements - 1, bucketBits)
      modifies this`bucketBits, this`buckets, buckets
      ensures Sorted() && (ok ==> NotCrowded(elements, bucketBits))
      ensures ok <==> growable || NotCrowded(elements, old(bucketBits))
      ensures ok ==> bucketBits == old(bucketBits) + if FillsUp(elements, old(bucketBits)) then 1 else 0
      ensures buckets == old(buckets) || fresh(buckets)
      ensures !ok ==> buckets == old(buckets) && bucketBits == old(bucketBits) && buckets[..] == old(buckets[..])
    {
      ok := true;
      if elements > 4 * Pow2(bucketBits) && bucketBits < MAXHASHSIZE {
        ok := DoubleSize(growable);
      }
    }

    /** ht_add; the flags say whether the record and the larger bucket array can be allocated. */
    method Add(key: K, data: V, available: bool, growable: bool) returns (r: Option<Node<K, V>>)
      requires Valid() && key !in contents
      modifies this`elements, this`bucketBits, this`buckets, this`contents, buckets
      ensures Valid()
      ensures r.None? ==> contents == old(contents) && buckets == old(buckets) && buckets[..] == old(buckets[..])
                          && elements == old(elements) && bucketBits == old(bucketBits)
      ensures r.Some? ==> contents == old(contents)[key := r.value] && r.value.data == data && fresh(r.value)
                          && (buckets == old(buckets) || fresh(buckets))
      ensures r.None? <==> !available || (!growable && FillsUp(old(elements) + 1, old(bucketBits)))
      ensures r.Some? ==> elements == old(elements) + 1
                          && bucketBits == old(bucketBits) + if FillsUp(elements, old(bucketBits)) then 1 else 0
    {
      if !available {
        return None;
      }
      var elem := new Node<K, V>(key, data);
      Link(elem);
      var ok := Grow(growable);
      if !ok {
        Undo(elem, old(buckets[..]), old(contents));
        return None;
      }
      r := Some(elem);
    }
  }
}
