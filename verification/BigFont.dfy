/** Glyph-metric compression of the XF86Bigfont extension: duplicates are found with a chained hash
    table kept in arrays of 16-bit indices. */
module BigFont {
  import opened Cards
  import opened Occurrences

  datatype CharInfo = CharInfo(
    leftSideBearing: Card16,
    rightSideBearing: Card16,
    characterWidth: Card16,
    ascent: Card16,
    descent: Card16,
    attributes: Card16)

  /** The end-of-list mark, (CARD16) -1. */
  const NIL: Card16 := 0xffff

  // ----- the plain meaning of the compression

  /** Every glyph's index leads back to its metrics. */
  ghost predicate LeadsBack(infos: seq<CharInfo>, firsts: seq<nat>, index: seq<nat>) {
    && |index| == |infos|
    && forall k {:trigger index[k]} :: 0 <= k < |index| ==>
         index[k] < |firsts| && firsts[index[k]] < |infos| && infos[firsts[index[k]]] == infos[k]
  }

  /** The outcome of the compression. */
  ghost predicate Compressed(infos: seq<CharInfo>, firsts: seq<nat>, index: seq<nat>) {
    firsts == FirstOccurrences(infos) && LeadsBack(infos, firsts, index)
  }

  /** Unique entries in increasing order and pairwise different. */
  ghost predicate Minimal(infos: seq<CharInfo>, firsts: seq<nat>) {
    && |firsts| <= |infos|
    && (forall u :: 0 <= u < |firsts| ==> firsts[u] < |infos|)
    && (forall u, v :: 0 <= u < v < |firsts| ==> firsts[u] < firsts[v] && infos[firsts[u]] != infos[firsts[v]])
  }

  /** The same promise without the recursion: every glyph has a unique entry at or before it. */
  ghost predicate Promised(infos: seq<CharInfo>, firsts: seq<nat>, index: seq<nat>) {
    && Minimal(infos, firsts)
    && LeadsBack(infos, firsts, index)
    && forall k {:trigger index[k]} :: 0 <= k < |index| ==> firsts[index[k]] <= k
  }

  /** The first occurrences and indices that lead back to them keep the promise. */
  lemma CompressedKeepsPromise(infos: seq<CharInfo>, firsts: seq<nat>, index: seq<nat>)
    requires Compressed(infos, firsts, index)
    ensures Promised(infos, firsts, index)
  {
    forall u, v | 0 <= u < v < |firsts|
      ensures firsts[u] < firsts[v] && infos[firsts[u]] != infos[firsts[v]]
    {
      FirstsDiffer(infos, u, v);
    }
    forall k | 0 <= k < |index| ensures firsts[index[k]] <= k {
      var u := HasFirst(infos, k);
      assert infos[firsts[u]] == infos[firsts[index[k]]];
    }
  }

  /** Every unique entry is a first occurrence: nothing before it has the same metrics. */
  lemma UniqueIsFirst(infos: seq<CharInfo>, firsts: seq<nat>, index: seq<nat>, u: nat, k: nat)
    requires Promised(infos, firsts, index)
    requires u < |firsts| && k < firsts[u]
    ensures infos[k] != infos[firsts[u]]
  {
    var v := index[k];
    assert firsts[v] <= k < firsts[u];
  }

  /** An increasing sequence of numbers below `n` has at most `n` of them. */
  lemma {:induction false} AtMost(s: seq<nat>, n: nat)
    requires forall u, v :: 0 <= u < v < |s| ==> s[u] < s[v]
    requires forall u :: 0 <= u < |s| ==> s[u] < n
    ensures |s| <= n
  {
    if s != [] {
      AtMost(s[..|s| - 1], s[|s| - 1]);
    }
  }

  lemma LastRepeats(infos: seq<CharInfo>, firsts: seq<nat>, index: seq<nat>, k: nat)
    requires Promised(infos, firsts, index) && k < |infos| - 1 && infos[k] == infos[|infos| - 1]
    ensures Promised(infos[..|infos| - 1], firsts, index[..|infos| - 1])
  {
    forall u | 0 <= u < |firsts| ensures firsts[u] != |infos| - 1 {
      if k < firsts[u] {
        UniqueIsFirst(infos, firsts, index, u, k);
      }
    }
    AtMost(firsts, |infos| - 1);
  }

  lemma LastIsNew(infos: seq<CharInfo>, firsts: seq<nat>, index: seq<nat>)
    requires Promised(infos, firsts, index) && infos != []
    requires forall k :: 0 <= k < |infos| - 1 ==> infos[k] != infos[|infos| - 1]
    ensures firsts != [] && firsts[|firsts| - 1] == |infos| - 1
    ensures Promised(infos[..|infos| - 1], firsts[..|firsts| - 1], index[..|infos| - 1])
  {
    var n := |infos| - 1;
    var last := index[n];
    assert firsts[last] == n;
    var top := firsts[|firsts| - 1];
    forall k | 0 <= k < n ensures index[k] < |firsts| - 1 {
      assert firsts[index[k]] <= k;
    }
  }

  /** The promise leaves no choice: the unique entries are the first occurrences. */
  lemma {:induction false} PromiseFixesEntries(infos: seq<CharInfo>, firsts: seq<nat>, index: seq<nat>)
    requires Promised(infos, firsts, index)
    ensures firsts == FirstOccurrences(infos)
  {
    if infos == [] {
    } else {
      var n := |infos| - 1;
      if infos[n] in infos[..n] {
        var k :| 0 <= k < n && infos[k] == infos[n];
        LastRepeats(infos, firsts, index, k);
        PromiseFixesEntries(infos[..n], firsts, index[..n]);
      } else {
        forall k | 0 <= k < n ensures infos[k] != infos[n] {
          assert infos[k] in infos[..n];
        }
        LastIsNew(infos, firsts, index);
        PromiseFixesEntries(infos[..n], firsts[..|firsts| - 1], index[..n]);
        assert firsts == firsts[..|firsts| - 1] + [n];
      }
    }
  }

  // ----- chains

  /** The last of the first `n` entries with bucket number `b`, or -1. */
  function Last(buckets: seq<nat>, n: nat, b: nat): (r: int)
    requires n <= |buckets|
    ensures -1 <= r < n
    ensures r >= 0 ==> buckets[r] == b
    ensures forall i :: r < i < n ==> buckets[i] != b
  {
    if n == 0 then -1
    else if buckets[n - 1] == b then n - 1
    else Last(buckets, n - 1, b)
  }

  /** Entries past the first `n` do not matter. */
  lemma {:induction false} LastAgrees(x: seq<nat>, y: seq<nat>, n: nat, b: nat)
    requires n <= |x| && n <= |y| && forall i :: 0 <= i < n ==> x[i] == y[i]
    ensures Last(x, n, b) == Last(y, n, b)
  {
    if n > 0 {
      LastAgrees(x, y, n - 1, b);
    }
  }

  /** The stored form of an entry number. */
  function Link(r: int): Card16
    requires -1 <= r < 0xffff
  {
    if r == -1 then NIL else r
  }

  /** The bucket numbers of some entries; `bucket` is the hash code under the current modulus. */
  function Buckets(infos: seq<CharInfo>, firsts: seq<nat>, bucket: CharInfo -> nat): (r: seq<nat>)
    requires forall u :: 0 <= u < |firsts| ==> firsts[u] < |infos|
    ensures |r| == |firsts| && forall u :: 0 <= u < |r| ==> r[u] == bucket(infos[firsts[u]])
  {
    seq(|firsts|, u requires 0 <= u < |firsts| => bucket(infos[firsts[u]]))
  }

  /** Each entry's successor is the last one before it in the same bucket. */
  ghost predicate Linked(buckets: seq<nat>, n: nat, next: seq<Card16>) {
    && n <= |buckets| && n <= |next| && n <= 0xffff
    && forall i {:trigger next[i]} :: 0 <= i < n ==> next[i] == Link(Last(buckets, i, buckets[i]))
  }

  /** Each bucket's head is its last entry. */
  ghost predicate Headed(buckets: seq<nat>, n: nat, heads: seq<Card16>, m: nat) {
    && n <= |buckets| && n <= 0xffff && m <= |heads|
    && forall b :: 0 <= b < m ==> heads[b] == Link(Last(buckets, n, b))
  }

  /** The entries met when the links are followed from `i`. Links lead backwards, so this ends. */
  function Chain(next: seq<Card16>, i: Card16): seq<nat>
    requires forall k :: 0 <= k < |next| ==> next[k] == NIL || next[k] < k
    decreases if i == NIL then 0 else i + 1
  {
    if i == NIL || i >= |next| then [] else [i as nat] + Chain(next, next[i])
  }

  /** Links lead backwards. */
  ghost predicate Backward(next: seq<Card16>) {
    forall k :: 0 <= k < |next| ==> next[k] == NIL || next[k] < k
  }

  lemma {:induction false} ChainBounded(next: seq<Card16>, i: Card16, x: nat)
    requires Backward(next) && x in Chain(next, i)
    ensures i != NIL && x <= i
    decreases if i == NIL then 0 else i + 1
  {
    if i != NIL && i < |next| && x != i {
      ChainBounded(next, next[i], x);
    }
  }

  /** A chain descends, so it meets no entry twice. */
  lemma {:induction false} ChainDescends(next: seq<Card16>, i: Card16)
    requires Backward(next)
    ensures forall j, k :: 0 <= j < k < |Chain(next, i)| ==> Chain(next, i)[j] > Chain(next, i)[k]
    decreases if i == NIL then 0 else i + 1
  {
    if i != NIL && i < |next| {
      var rest := Chain(next, next[i]);
      ChainDescends(next, next[i]);
      forall k | 0 <= k < |rest| ensures rest[k] < i {
        assert rest[k] in rest;
        ChainBounded(next, next[i], rest[k]);
      }
    }
  }

  /** Following the links from a bucket's head meets exactly the entries of that bucket: every unique
      entry is reachable, and only from its own bucket. */
  lemma {:induction false} ChainIsBucket(buckets: seq<nat>, next: seq<Card16>, k: nat, b: nat, i: nat)
    requires Linked(buckets, |next|, next) && Backward(next) && k <= |next|
    ensures i in Chain(next, Link(Last(buckets, k, b))) <==> i < k && buckets[i] == b
    decreases k
  {
    var r := Last(buckets, k, b);
    if r >= 0 {
      ChainIsBucket(buckets, next, r, b, i);
      var rest := Chain(next, next[r]);
      assert next[r] == Link(Last(buckets, r, b));
      assert Chain(next, Link(r)) == [r as nat] + rest;
      assert i in [r as nat] + rest <==> i == r || i in rest;
    }
  }

  // ----- the table at work

  /** The windows of one allocation of 4n+1 CARD16s: n, n, n and n+1 elements. */
  class Table {
    const index: array<Card16>
    const firsts: array<Card16>
    const next: array<Card16>
    const heads: array<Card16>
    var modulus: nat
    var count: nat

    constructor (n: nat, m: nat)
      requires 1 <= m <= n + 1
      ensures fresh(index) && fresh(firsts) && fresh(next) && fresh(heads)
      ensures index.Length == firsts.Length == next.Length == n && heads.Length == n + 1
      ensures index.Length + firsts.Length + next.Length + heads.Length == 4 * n + 1
      ensures index != firsts && index != next && index != heads
      ensures firsts != next && firsts != heads && next != heads
      ensures modulus == m && count == 0
      ensures forall b :: 0 <= b < m ==> heads[b] == NIL
    {
      index := new Card16[n];
      firsts := new Card16[n];
      next := new Card16[n];
      heads := new Card16[n + 1];
      modulus, count := m, 0;
      new;
      ClearHeads();
    }

    ghost predicate Shape(infos: seq<CharInfo>)
      reads this
    {
      && index.Length == firsts.Length == next.Length == |infos| && heads.Length == |infos| + 1
      && index != firsts && index != next && index != heads
      && firsts != next && firsts != heads && next != heads
      && 1 <= modulus <= |infos| + 1 && count <= |infos| <= 0x1_0000
    }

    /** The first `count` unique entries are glyphs. */
    ghost predicate InRange(infos: seq<CharInfo>)
      reads this, firsts
      requires Shape(infos)
    {
      forall u :: 0 <= u < count ==> firsts[u] < |infos|
    }

    /** The hash table is right for the first `count` unique entries. */
    ghost predicate Hashed(infos: seq<CharInfo>, bucket: CharInfo -> nat)
      reads this, firsts, next, heads
      requires Shape(infos) && InRange(infos)
    {
      HashedBy(infos, firsts[..count], bucket, modulus, next[..], heads[..])
    }

    /** The table after `k` glyphs. The hash table is right while a look-up can still happen; there is
        room for the unique entries; and the promise is kept for the glyphs so far. */
    ghost predicate Progress(infos: seq<CharInfo>, hash: CharInfo -> Card32, k: nat)
      reads this, index, firsts, next, heads
    {
      && Shape(infos) && count <= k <= |infos| && InRange(infos)
      && (k < |infos| ==> Hashed(infos, BucketOf(hash, modulus)))
      && Roomy(modulus, count, |infos|)
      && Compressed(infos[..k], firsts[..count], index[..k])
    }

    /** The look-up loop. */
    method Lookup(infos: seq<CharInfo>, hash: CharInfo -> Card32, p: CharInfo, ghost bucket: CharInfo -> nat)
      returns (i: Card16)
      requires Shape(infos) && InRange(infos) && Hashed(infos, bucket)
      requires bucket(p) == hash(p) % modulus
      ensures if i == NIL then forall u :: 0 <= u < count ==> infos[firsts[u]] != p
              else i < count && infos[firsts[i]] == p
    {
      ghost var f, nx := firsts[..count], next[..];
      i := heads[hash(p) % modulus];
      LookupStart(infos, f, bucket, modulus, nx, heads[..], p);
      while i != NIL
        invariant Searching(infos, f, bucket, p, i)
        decreases if i == NIL then 0 else i + 1
      {
        if infos[firsts[i]] == p {
          return;
        }
        LookupStep(infos, f, bucket, nx, p, i);
        i := next[i];
      }
    }

    /** The hash table is emptied and filled again for a larger modulus. */
    method Rehash(infos: seq<CharInfo>, hash: CharInfo -> Card32, m: nat)
      requires Shape(infos) && InRange(infos) && 1 <= m <= |infos| + 1 && count <= 0xffff
      modifies this`modulus, heads, next
      ensures modulus == m && Shape(infos) && InRange(infos) && Hashed(infos, BucketOf(hash, m))
    {
      modulus := m;
      ClearHeads();
      ClearLinks();
      FillTable(infos, hash, m);
    }

    /** The entries are entered one by one into the empty table. */
    method FillTable(infos: seq<CharInfo>, hash: CharInfo -> Card32, m: nat)
      requires Shape(infos) && InRange(infos) && modulus == m && count <= 0xffff
      requires forall b :: 0 <= b < m ==> heads[b] == NIL
      modifies heads, next
      ensures Shape(infos) && InRange(infos) && Hashed(infos, BucketOf(hash, m))
    {
      ghost var buckets := Buckets(infos, firsts[..count], BucketOf(hash, m));
      AllEmpty(buckets, heads[..], m);
      var i: nat := 0;
      while i != count
        invariant i <= count
        invariant Linked(buckets, i, next[..]) && Headed(buckets, i, heads[..], m)
      {
        var hashCode := hash(infos[firsts[i]]) % m;
        assert hashCode == buckets[i];
        Push(buckets, i, hashCode, m);
        i := i + 1;
      }
    }

    method ClearLinks()
      requires count <= next.Length
      modifies next
    {
      var i := 0;
      while i < count
        invariant 0 <= i <= count
      {
        next[i] := NIL;
        i := i + 1;
      }
    }

    /** Entry `i` goes in front of its bucket. */
    method Push(ghost buckets: seq<nat>, i: nat, hashCode: nat, ghost m: nat)
      requires i < next.Length && i < 0xffff && i < |buckets| && hashCode == buckets[i] < m <= heads.Length
      requires next != heads
      requires Linked(buckets, i, next[..]) && Headed(buckets, i, heads[..], m)
      modifies heads, next
      ensures Linked(buckets, i + 1, next[..]) && Headed(buckets, i + 1, heads[..], m)
    {
      Pushed(buckets, i, next[..], heads[..], m);
      next[i] := heads[hashCode];
      heads[hashCode] := i;
    }

    method ClearHeads()
      requires modulus <= heads.Length && heads != firsts
      modifies heads
      ensures forall b :: 0 <= b < modulus ==> heads[b] == NIL
    {
      var j := 0;
      while j < modulus
        invariant 0 <= j <= modulus
        invariant forall b :: 0 <= b < j ==> heads[b] == NIL
      {
        heads[j] := NIL;
        j := j + 1;
      }
    }

    /** Glyph `k` becomes a unique entry. If it is the 0x10000th, the mark 0xffff is stored as an
        index, but then `k` is the last glyph and nothing is looked up any more. */
    method Insert(infos: seq<CharInfo>, hash: CharInfo -> Card32, k: nat)
      requires Shape(infos) && InRange(infos) && k < |infos| && count <= k
      requires Hashed(infos, BucketOf(hash, modulus))
      modifies this`count, index, firsts, next, heads
      ensures Shape(infos) && count == old(count) + 1
      ensures firsts[..count] == old(firsts[..count]) + [k] && index[k] == old(count)
      ensures forall j :: 0 <= j < index.Length && j != k ==> index[j] == old(index[j])
      ensures InRange(infos) && (count <= 0xffff ==> Hashed(infos, BucketOf(hash, modulus)))
    {
      var hashCode := hash(infos[k]) % modulus;
      ghost var f, bucket := firsts[..count], BucketOf(hash, modulus);
      ghost var buckets := Buckets(infos, f + [k], bucket);
      Appended(infos, f, k, bucket, modulus, next[..], heads[..]);
      var i := count;
      if i < 0xffff {
        Pushed(buckets, i, next[..], heads[..], modulus);
      }
      count := count + 1;
      next[i] := heads[hashCode];
      heads[hashCode] := i;
      firsts[i] := k;
      index[k] := i;
      assert firsts[..count] == f + [k];
    }
  }

  /** The bucket of a glyph under a modulus. */
  function BucketOf(hash: CharInfo -> Card32, m: nat): (r: CharInfo -> nat)
    requires m > 0
    ensures forall p :: r(p) < m
  {
    p => hash(p) % m
  }

  ghost predicate HashedBy(infos: seq<CharInfo>, firsts: seq<nat>, bucket: CharInfo -> nat, m: nat,
                           next: seq<Card16>, heads: seq<Card16>)
    requires forall u :: 0 <= u < |firsts| ==> firsts[u] < |infos|
  {
    var buckets := Buckets(infos, firsts, bucket);
    Linked(buckets, |firsts|, next) && Headed(buckets, |firsts|, heads, m)
  }

  /** The entries later than `i` have been compared, or are in other buckets. */
  ghost predicate Searching(infos: seq<CharInfo>, firsts: seq<nat>, bucket: CharInfo -> nat, p: CharInfo, i: Card16)
    requires forall u :: 0 <= u < |firsts| ==> firsts[u] < |infos|
  {
    && (i == NIL || (i < |firsts| && bucket(infos[firsts[i]]) == bucket(p)))
    && forall u :: (if i == NIL then 0 else i + 1) <= u < |firsts| ==> infos[firsts[u]] != p
  }

  lemma LookupStart(infos: seq<CharInfo>, firsts: seq<nat>, bucket: CharInfo -> nat, m: nat,
                    next: seq<Card16>, heads: seq<Card16>, p: CharInfo)
    requires forall u :: 0 <= u < |firsts| ==> firsts[u] < |infos|
    requires HashedBy(infos, firsts, bucket, m, next, heads) && bucket(p) < m
    ensures Searching(infos, firsts, bucket, p, heads[bucket(p)])
  {
    var buckets := Buckets(infos, firsts, bucket);
    var r := Last(buckets, |firsts|, bucket(p));
    forall u | r < u < |firsts| ensures infos[firsts[u]] != p {
      assert buckets[u] != bucket(p);
    }
  }

  lemma LookupStep(infos: seq<CharInfo>, firsts: seq<nat>, bucket: CharInfo -> nat,
                   next: seq<Card16>, p: CharInfo, i: Card16)
    requires forall u :: 0 <= u < |firsts| ==> firsts[u] < |infos|
    requires Linked(Buckets(infos, firsts, bucket), |firsts|, next)
    requires i != NIL && Searching(infos, firsts, bucket, p, i) && infos[firsts[i]] != p
    ensures Searching(infos, firsts, bucket, p, next[i])
    ensures next[i] == NIL || next[i] < i
  {
    var buckets := Buckets(infos, firsts, bucket);
    var r := Last(buckets, i, buckets[i]);
    forall u | r < u < |firsts| ensures infos[firsts[u]] != p {
      if u < i {
        assert buckets[u] != bucket(p);
      }
    }
  }

  // ----- the steps on the arrays, seen as sequences

  /** The heads when every bucket is empty. */
  lemma AllEmpty(buckets: seq<nat>, heads: seq<Card16>, m: nat)
    requires m <= |heads| && forall b :: 0 <= b < m ==> heads[b] == NIL
    ensures Headed(buckets, 0, heads, m)
  {
  }

  /** Putting entry `i` in front of its bucket. */
  lemma Pushed(buckets: seq<nat>, i: nat, next: seq<Card16>, heads: seq<Card16>, m: nat)
    requires i < |buckets| && i < |next| && i < 0xffff && buckets[i] < m
    requires Linked(buckets, i, next) && Headed(buckets, i, heads, m)
    ensures Linked(buckets, i + 1, next[i := heads[buckets[i]]])
    ensures Headed(buckets, i + 1, heads[buckets[i] := i], m)
  {
    assert Last(buckets, i + 1, buckets[i]) == i;
    forall b | 0 <= b < m && b != buckets[i]
      ensures Last(buckets, i + 1, b) == Last(buckets, i, b)
    {
    }
  }

  /** Adding a unique entry at the end does not change the earlier links. */
  lemma Appended(infos: seq<CharInfo>, firsts: seq<nat>, f: nat, bucket: CharInfo -> nat, m: nat,
                 next: seq<Card16>, heads: seq<Card16>)
    requires f < |infos| && forall u :: 0 <= u < |firsts| ==> firsts[u] < |infos|
    requires HashedBy(infos, firsts, bucket, m, next, heads)
    ensures var buckets := Buckets(infos, firsts + [f], bucket);
            Linked(buckets, |firsts|, next) && Headed(buckets, |firsts|, heads, m)
            && buckets[|firsts|] == bucket(infos[f])
  {
    var x, y := Buckets(infos, firsts, bucket), Buckets(infos, firsts + [f], bucket);
    forall i | 0 <= i < |firsts|
      ensures next[i] == Link(Last(y, i, y[i]))
    {
      LastAgrees(x, y, i, x[i]);
    }
    forall b | 0 <= b < m
      ensures heads[b] == Link(Last(y, |firsts|, b))
    {
      LastAgrees(x, y, |firsts|, b);
    }
  }

  // ----- growth

  /** `m` buckets are enough for `u` unique entries out of `n` glyphs. */
  predicate Roomy(m: nat, u: nat, n: nat) {
    m >= 2 * u - 1 || m == n + 1
  }

  function Grown(m: nat, u: nat, n: nat): nat {
    if m <= 2 * u && m < n + 1 then (if 2 * m + 1 > n + 1 then n + 1 else 2 * m + 1) else m
  }

  /** The table grows before it gets crowded, and never past its window. */
  lemma GrowthIsEnough(m: nat, u: nat, n: nat)
    requires 1 <= m <= n + 1 && Roomy(m, u, n)
    ensures 1 <= Grown(m, u, n) <= n + 1 && Roomy(Grown(m, u, n), u + 1, n)
  {
  }

  // ----- the compression

  /** The outcome, one glyph further: a repeated glyph. */
  lemma Repeats(infos: seq<CharInfo>, k: nat, firsts: seq<nat>, index: seq<nat>, i: nat)
    requires k < |infos| && Compressed(infos[..k], firsts, index)
    requires i < |firsts| && firsts[i] < k && infos[firsts[i]] == infos[k]
    ensures Compressed(infos[..k + 1], firsts, index + [i])
  {
    assert infos[..k + 1][..k] == infos[..k];
    assert infos[..k][firsts[i]] == infos[k];
  }

  /** The outcome, one glyph further: a new glyph. */
  lemma IsNew(infos: seq<CharInfo>, k: nat, firsts: seq<nat>, index: seq<nat>)
    requires k < |infos| && Compressed(infos[..k], firsts, index)
    requires forall u :: 0 <= u < |firsts| && firsts[u] < |infos| ==> infos[firsts[u]] != infos[k]
    ensures Compressed(infos[..k + 1], firsts + [k], index + [|firsts|])
  {
    assert infos[..k + 1][..k] == infos[..k];
    forall j | 0 <= j < k ensures infos[j] != infos[k] {
      assert infos[..k][firsts[index[j]]] == infos[..k][j];
    }
  }

  /** The de-duplication of a font's glyph metrics; `u` is nUniqCharInfos. */
  method Compress(infos: seq<CharInfo>, hash: CharInfo -> Card32)
    returns (index: array<Card16>, firsts: array<Card16>, u: nat)
    requires |infos| <= 0x1_0000
    ensures fresh(index) && fresh(firsts) && index.Length == firsts.Length == |infos|
    ensures u <= |infos| && Compressed(infos, firsts[..u], index[..])
  {
    var t := Begin(infos, hash);
    CompressAll(t, infos, hash);
    index, firsts, u := t.index, t.firsts, t.count;
  }

  /** The loop over the glyphs. */
  method CompressAll(t: Table, infos: seq<CharInfo>, hash: CharInfo -> Card32)
    requires t.Progress(infos, hash, 0)
    modifies t, t.index, t.firsts, t.next, t.heads
    ensures t.index.Length == t.firsts.Length == |infos| && t.count <= |infos|
    ensures Compressed(infos, t.firsts[..t.count], t.index[..])
  {
    var k := 0;
    while k < |infos|
      invariant 0 <= k <= |infos|
      invariant t.Progress(infos, hash, k)
    {
      Step(t, infos, hash, k);
      k := k + 1;
    }
    WholeIs(infos, t.firsts[..t.count], t.index[..]);
  }

  lemma WholeIs(infos: seq<CharInfo>, firsts: seq<nat>, index: seq<nat>)
    requires |index| == |infos| && Compressed(infos[..|infos|], firsts, index[..|infos|])
    ensures Compressed(infos, firsts, index)
  {
    assert infos[..|infos|] == infos && index[..|infos|] == index;
  }

  method Begin(infos: seq<CharInfo>, hash: CharInfo -> Card32) returns (t: Table)
    requires |infos| <= 0x1_0000
    ensures fresh(t) && fresh(t.index) && fresh(t.firsts) && fresh(t.next) && fresh(t.heads)
    ensures t.Progress(infos, hash, 0)
  {
    var n := |infos|;
    t := new Table(n, if 67 > n + 1 then n + 1 else 67);
    assert t.firsts[..0] == [];
    AllEmpty(Buckets(infos, [], BucketOf(hash, t.modulus)), t.heads[..], t.modulus);
  }

  /** One glyph: it is found, or the table grows if it must and the glyph becomes a unique entry. */
  method Step(t: Table, infos: seq<CharInfo>, hash: CharInfo -> Card32, k: nat)
    requires k < |infos| && t.Progress(infos, hash, k)
    modifies t, t.index, t.firsts, t.next, t.heads
    ensures t.Progress(infos, hash, k + 1)
  {
    var i := t.Lookup(infos, hash, infos[k], BucketOf(hash, t.modulus));
    if i != NIL {
      StepFound(t, infos, hash, k, i);
    } else {
      StepNew(t, infos, hash, k);
    }
  }

  method StepFound(t: Table, infos: seq<CharInfo>, hash: CharInfo -> Card32, k: nat, i: Card16)
    requires k < |infos| && t.Progress(infos, hash, k)
    requires i < t.count && infos[t.firsts[i]] == infos[k]
    modifies t.index
    ensures t.Progress(infos, hash, k + 1)
  {
    ghost var f, ix := t.firsts[..t.count], t.index[..k];
    t.index[k] := i;
    Repeats(infos, k, f, ix, i);
    assert t.index[..k + 1] == ix + [i];
  }

  method StepNew(t: Table, infos: seq<CharInfo>, hash: CharInfo -> Card32, k: nat)
    requires k < |infos| && t.Progress(infos, hash, k)
    requires forall u :: 0 <= u < t.count ==> infos[t.firsts[u]] != infos[k]
    modifies t, t.index, t.firsts, t.next, t.heads
    ensures t.Progress(infos, hash, k + 1)
  {
    ghost var f, ix := t.firsts[..t.count], t.index[..k];
    GrowthIsEnough(t.modulus, t.count, |infos|);
    var m := Grown(t.modulus, t.count, |infos|);
    if m != t.modulus {
      t.Rehash(infos, hash, m);
    }
    assert t.firsts[..t.count] == f;
    IsNew(infos, k, f, ix);
    t.Insert(infos, hash, k);
    assert t.index[..k + 1] == ix + [|f|];
  }

  /** While the table is right, a unique entry is met on the chain of its own bucket and on no other,
      and no chain meets anything twice. */
  lemma ReachableOnce(infos: seq<CharInfo>, firsts: seq<nat>, bucket: CharInfo -> nat, m: nat,
                      next: seq<Card16>, heads: seq<Card16>, i: nat, b: nat)
    requires forall u :: 0 <= u < |firsts| ==> firsts[u] < |infos|
    requires HashedBy(infos, firsts, bucket, m, next, heads)
    requires i < |firsts| && b < m
    ensures |firsts| <= |next| && Backward(next[..|firsts|])
    ensures var chain := Chain(next[..|firsts|], heads[b]);
            && (i in chain <==> b == bucket(infos[firsts[i]]))
            && (forall j, k :: 0 <= j < k < |chain| ==> chain[j] > chain[k])
  {
    var buckets, links := Buckets(infos, firsts, bucket), next[..|firsts|];
    assert Linked(buckets, |links|, links);
    ChainIsBucket(buckets, links, |links|, b, i);
    ChainDescends(links, heads[b]);
  }

  // ----- the reply

  /** Byte order of the client: a swapped client sees each 16-bit field with its bytes exchanged. */
  function Swap(x: Card16): Card16 {
    (x % 256) * 256 + x / 256
  }

  lemma SwapTwice(x: Card16)
    ensures Swap(Swap(x)) == x
  {
    var high, low := x / 256, x % 256;
    Halves(low, high);
    assert Swap(x) / 256 == low && Swap(x) % 256 == high;
  }

  lemma Halves(a: nat, b: nat)
    requires b < 256
    ensures (a * 256 + b) / 256 == a && (a * 256 + b) % 256 == b
  {
  }

  function Wire(x: Card16, swapped: bool): (r: Card16)
    ensures swapped ==> Swap(r) == x
    ensures !swapped ==> r == x
  {
    if swapped then SwapTwice(x); Swap(x) else x
  }

  /** The number of 16-bit words behind the font properties. */
  function BodyLength(n: nat, u: nat): nat {
    u * 6 + (n + 1) / 2 * 2
  }

  /** The client's reading of one word. */
  function Read(body: seq<Card16>, at: nat, swapped: bool): Card16
    requires at < |body|
  {
    if swapped then Swap(body[at]) else body[at]
  }

  function ReadInfo(body: seq<Card16>, u: nat, swapped: bool): CharInfo
    requires 6 * u + 6 <= |body|
  {
    CharInfo(Read(body, 6 * u, swapped), Read(body, 6 * u + 1, swapped), Read(body, 6 * u + 2, swapped),
             Read(body, 6 * u + 3, swapped), Read(body, 6 * u + 4, swapped), Read(body, 6 * u + 5, swapped))
  }

  /** The client's decoding: `n` and `u` are in the reply's header. An index out of range has no
      meaning. */
  function DecodeAt(body: seq<Card16>, n: nat, u: nat, swapped: bool, k: nat): CharInfo
    requires |body| == BodyLength(n, u) && k < n
  {
    var i := Read(body, 6 * u + k, swapped);
    if i < u then ReadInfo(body, i, swapped) else CharInfo(0, 0, 0, 0, 0, 0)
  }

  function Decode(body: seq<Card16>, n: nat, u: nat, swapped: bool): seq<CharInfo>
    requires |body| == BodyLength(n, u)
  {
    seq(n, k requires 0 <= k < n => DecodeAt(body, n, u, swapped, k))
  }

  /** The first `v` unique entries and the first `k` indices are written. */
  ghost predicate Encoded(infos: seq<CharInfo>, firsts: seq<nat>, index: seq<Card16>, body: seq<Card16>,
                          swapped: bool, v: nat, k: nat)
  {
    && |body| == BodyLength(|infos|, |firsts|) && |index| == |infos| && v <= |firsts| && k <= |infos|
    && (forall i :: 0 <= i < |firsts| ==> firsts[i] < |infos|)
    && (forall i :: 0 <= i < v ==> ReadInfo(body, i, swapped) == infos[firsts[i]])
    && (forall j :: 0 <= j < k ==> Read(body, 6 * |firsts| + j, swapped) == index[j])
    && (forall j :: 6 * |firsts| + k <= j < |body| ==> body[j] == 0)
  }

  /** The reply carries the font: what the client decodes is the metrics of every glyph. */
  lemma DecodesBack(infos: seq<CharInfo>, firsts: seq<nat>, index: seq<Card16>, body: seq<Card16>, swapped: bool)
    requires Encoded(infos, firsts, index, body, swapped, |firsts|, |infos|)
    requires LeadsBack(infos, firsts, index)
    ensures Decode(body, |infos|, |firsts|, swapped) == infos
  {
    forall k | 0 <= k < |infos|
      ensures DecodeAt(body, |infos|, |firsts|, swapped, k) == infos[k]
    {
      assert Read(body, 6 * |firsts| + k, swapped) == index[k];
    }
  }

  // ----- the reply as bytes

  type Byte = b: nat | b < 256

  /** The words as they lie in the memory of the server, which is sent as it is. */
  function Bytes(body: seq<Card16>, bigServer: bool): (r: seq<Byte>)
    ensures |r| == 2 * |body|
  {
    seq(2 * |body|, b requires 0 <= b < 2 * |body| =>
      if (b % 2 == 0) == bigServer then body[b / 2] / 256 else body[b / 2] % 256)
  }

  /** The word that a client finds at byte `at`. */
  function Word(bytes: seq<Byte>, at: nat, bigClient: bool): Card16
    requires at + 2 <= |bytes|
  {
    var first: nat, second: nat := bytes[at], bytes[at + 1];
    if bigClient then 256 * first + second else first + 256 * second
  }

  /** An xCharInfo is twelve bytes: six words in this order. */
  predicate HasInfo(bytes: seq<Byte>, at: nat, bigClient: bool, p: CharInfo) {
    && at + 12 <= |bytes|
    && Word(bytes, at, bigClient) == p.leftSideBearing
    && Word(bytes, at + 2, bigClient) == p.rightSideBearing
    && Word(bytes, at + 4, bigClient) == p.characterWidth
    && Word(bytes, at + 6, bigClient) == p.ascent
    && Word(bytes, at + 8, bigClient) == p.descent
    && Word(bytes, at + 10, bigClient) == p.attributes
  }

  /** The bytes carry the font: `u` entries, then for each glyph the number of its entry, then no more than what makes
      the length a multiple of four. */
  predicate CarriesFont(bytes: seq<Byte>, u: nat, bigClient: bool, infos: seq<CharInfo>) {
    && |bytes| % 4 == 0 && 12 * u + 2 * |infos| <= |bytes| < 12 * u + 2 * |infos| + 4
    && forall k :: 0 <= k < |infos| ==> CarriesGlyph(bytes, u, bigClient, k, infos[k])
  }

  predicate CarriesGlyph(bytes: seq<Byte>, u: nat, bigClient: bool, k: nat, p: CharInfo) {
    && 12 * u + 2 * k + 2 <= |bytes|
    && var i := Word(bytes, 12 * u + 2 * k, bigClient);
       i < u && HasInfo(bytes, 12 * i, bigClient, p)
  }

  /** A client that is swapped has the other byte order, and finds the words all the same. */
  lemma WordIsRead(body: seq<Card16>, at: nat, swapped: bool, bigServer: bool)
    requires at < |body|
    ensures Word(Bytes(body, bigServer), 2 * at, bigServer != swapped) == Read(body, at, swapped)
  {
    var bytes, x := Bytes(body, bigServer), body[at];
    assert 2 * at % 2 == 0 && 2 * at / 2 == at && (2 * at + 1) % 2 == 1 && (2 * at + 1) / 2 == at;
    assert bytes[2 * at] == if bigServer then x / 256 else x % 256;
    assert bytes[2 * at + 1] == if bigServer then x % 256 else x / 256;
    assert x == 256 * (x / 256) + x % 256;
  }

  lemma InfoIsRead(body: seq<Card16>, i: nat, swapped: bool, bigServer: bool, p: CharInfo)
    requires 6 * i + 6 <= |body| && ReadInfo(body, i, swapped) == p
    ensures HasInfo(Bytes(body, bigServer), 12 * i, bigServer != swapped, p)
  {
    WordIsRead(body, 6 * i, swapped, bigServer);
    WordIsRead(body, 6 * i + 1, swapped, bigServer);
    WordIsRead(body, 6 * i + 2, swapped, bigServer);
    WordIsRead(body, 6 * i + 3, swapped, bigServer);
    WordIsRead(body, 6 * i + 4, swapped, bigServer);
    WordIsRead(body, 6 * i + 5, swapped, bigServer);
  }

  lemma GlyphCarried(infos: seq<CharInfo>, firsts: seq<nat>, index: seq<Card16>, body: seq<Card16>, swapped: bool,
                     bigServer: bool, k: nat)
    requires Encoded(infos, firsts, index, body, swapped, |firsts|, |infos|)
    requires LeadsBack(infos, firsts, index) && k < |infos|
    ensures CarriesGlyph(Bytes(body, bigServer), |firsts|, bigServer != swapped, k, infos[k])
  {
    var i: nat := index[k];
    assert Read(body, 6 * |firsts| + k, swapped) == i;
    assert ReadInfo(body, i, swapped) == infos[firsts[i]] == infos[k];
    WordIsRead(body, 6 * |firsts| + k, swapped, bigServer);
    InfoIsRead(body, i, swapped, bigServer, infos[k]);
  }

  lemma LengthCarried(n: nat, u: nat)
    ensures 2 * BodyLength(n, u) % 4 == 0 && 12 * u + 2 * n <= 2 * BodyLength(n, u) < 12 * u + 2 * n + 4
  {
    var half := (n + 1) / 2;
    assert 2 * BodyLength(n, u) == 4 * (3 * u + half);
  }

  /** Whatever the byte order of the server, the bytes carry the font to the client. */
  lemma BytesCarry(infos: seq<CharInfo>, firsts: seq<nat>, index: seq<Card16>, body: seq<Card16>, swapped: bool,
                   bigServer: bool)
    requires Encoded(infos, firsts, index, body, swapped, |firsts|, |infos|)
    requires LeadsBack(infos, firsts, index)
    ensures CarriesFont(Bytes(body, bigServer), |firsts|, bigServer != swapped, infos)
  {
    LengthCarried(|infos|, |firsts|);
    var bytes := Bytes(body, bigServer);
    forall k: nat | k < |infos|
      ensures CarriesGlyph(bytes, |firsts|, bigServer != swapped, k, infos[k])
    {
      GlyphCarried(infos, firsts, index, body, swapped, bigServer, k);
    }
  }

  /** One unique entry is written, field by field. */
  method WriteInfo(body: array<Card16>, v: nat, p: CharInfo, swapped: bool)
    requires 6 * v + 6 <= body.Length
    modifies body
    ensures ReadInfo(body[..], v, swapped) == p
    ensures forall j :: 0 <= j < body.Length && !(6 * v <= j < 6 * v + 6) ==> body[j] == old(body[j])
  {
    body[6 * v] := Wire(p.leftSideBearing, swapped);
    body[6 * v + 1] := Wire(p.rightSideBearing, swapped);
    body[6 * v + 2] := Wire(p.characterWidth, swapped);
    body[6 * v + 3] := Wire(p.ascent, swapped);
    body[6 * v + 4] := Wire(p.descent, swapped);
    body[6 * v + 5] := Wire(p.attributes, swapped);
  }

  /** The body of the reply: the unique entries, then the indices, in a buffer of zeros. Nothing is
      written past its end, and it is a whole number of 32-bit units. */
  method EncodeBody(infos: seq<CharInfo>, firsts: seq<nat>, index: seq<Card16>, swapped: bool)
    returns (body: array<Card16>)
    requires LeadsBack(infos, firsts, index) && forall i :: 0 <= i < |firsts| ==> firsts[i] < |infos|
    ensures fresh(body) && body.Length == BodyLength(|infos|, |firsts|) && body.Length % 2 == 0
    ensures Decode(body[..], |infos|, |firsts|, swapped) == infos
    ensures forall bigServer ::
              CarriesFont(Bytes(body[..], bigServer), |firsts|, bigServer != swapped, infos)
  {
    body := new Card16[BodyLength(|infos|, |firsts|)](i => 0);
    var v := 0;
    while v < |firsts|
      invariant 0 <= v <= |firsts| && Encoded(infos, firsts, index, body[..], swapped, v, 0)
    {
      ghost var before := body[..];
      WriteInfo(body, v, infos[firsts[v]], swapped);
      InfoWritten(infos, firsts, index, before, body[..], swapped, v);
      v := v + 1;
    }
    var k := 0;
    while k < |infos|
      invariant 0 <= k <= |infos| && Encoded(infos, firsts, index, body[..], swapped, |firsts|, k)
    {
      ghost var before := body[..];
      body[6 * |firsts| + k] := Wire(index[k], swapped);
      IndexWritten(infos, firsts, index, before, body[..], swapped, k);
      k := k + 1;
    }
    DecodesBack(infos, firsts, index, body[..], swapped);
    BytesCarry(infos, firsts, index, body[..], swapped, true);
    BytesCarry(infos, firsts, index, body[..], swapped, false);
  }

  lemma InfoWritten(infos: seq<CharInfo>, firsts: seq<nat>, index: seq<Card16>, before: seq<Card16>,
                    body: seq<Card16>, swapped: bool, v: nat)
    requires v < |firsts| && Encoded(infos, firsts, index, before, swapped, v, 0)
    requires |body| == |before| && ReadInfo(body, v, swapped) == infos[firsts[v]]
    requires forall j :: 0 <= j < |body| && !(6 * v <= j < 6 * v + 6) ==> body[j] == before[j]
    ensures Encoded(infos, firsts, index, body, swapped, v + 1, 0)
  {
    forall i | 0 <= i < v
      ensures ReadInfo(body, i, swapped) == ReadInfo(before, i, swapped)
    {
    }
  }

  lemma IndexWritten(infos: seq<CharInfo>, firsts: seq<nat>, index: seq<Card16>, before: seq<Card16>,
                     body: seq<Card16>, swapped: bool, k: nat)
    requires k < |infos| && Encoded(infos, firsts, index, before, swapped, |firsts|, k)
    requires body == before[6 * |firsts| + k := Wire(index[k], swapped)]
    ensures Encoded(infos, firsts, index, body, swapped, |firsts|, k + 1)
  {
    forall i | 0 <= i < |firsts|
      ensures ReadInfo(body, i, swapped) == ReadInfo(before, i, swapped)
    {
    }
  }

  /** ProcXF86BigfontQueryFont without shared memory: compress, send, and the client has the font. */
  method QueryFont(infos: seq<CharInfo>, hash: CharInfo -> Card32, swapped: bool) returns (u: nat, body: array<Card16>)
    requires |infos| <= 0x1_0000
    ensures u == |FirstOccurrences(infos)|
    ensures body.Length == BodyLength(|infos|, u)
    ensures Decode(body[..], |infos|, u, swapped) == infos
    ensures forall bigServer :: CarriesFont(Bytes(body[..], bigServer), u, bigServer != swapped, infos)
  {
    var index, firsts;
    index, firsts, u := Compress(infos, hash);
    body := EncodeBody(infos, firsts[..u], index[..], swapped);
  }
}
