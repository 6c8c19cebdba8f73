/**
 * The chained hash table behind the image cache and the table of waiting
 * connections (hash.c, hash.h).
 *
 * The bucket array is an `array` updated in place, as in the source; each
 * bucket's chain, a linked list of entries in the source, is a sequence of
 * entry values here, first element = head of the chain.  The abstract value of
 * a table is the finite map `Contents`; `Valid()` ties it to the buckets.
 */
module JkHash {
  import opened Base
  import opened ElfHashing

  const OK: int := 0
  const ERR: int := -1
  const DUPLICATE_KEY: int := -2

  const BUCKETS_MIN_SIZE: nat := 7
  const BUCKETS_MAX_SIZE: nat := 2147483647

  /** The bucket counts the table grows through (the source ends its array with
      a 0 sentinel, which is not part of this sequence). */
  const BucketsSizes: seq<nat> := [
    7,          13,         31,         61,         127,        251,
    509,        1021,       2039,       4093,       8191,       16381,
    32749,      65521,      131071,     262143,     524287,     1048575,
    2097151,    4194303,    8388607,    16777211,   33554431,   67108863,
    134217727,  268435455,  536870911,  1073741823, 2147483647
  ]

  /** The bucket count a table of `cur` buckets grows to: the first listed size
      strictly larger than `cur`, or the largest listed size when there is none. */
  function NextBucketsSize(cur: nat): (r: nat)
    ensures BUCKETS_MIN_SIZE <= r <= BUCKETS_MAX_SIZE
    ensures r in BucketsSizes
    ensures cur < r || r == BUCKETS_MAX_SIZE
    ensures forall j :: 0 <= j < |BucketsSizes| && cur < BucketsSizes[j] ==> r <= BucketsSizes[j]
  {
    SizeFrom(0, cur)
  }

  /** The search of NextBucketsSize, from position `i` of the size list on;
      every listed size before `i` is at most `cur`. */
  function SizeFrom(i: nat, cur: nat): (r: nat)
    requires i < |BucketsSizes|
    requires forall j :: 0 <= j < i ==> BucketsSizes[j] <= cur
    ensures r in BucketsSizes
    ensures cur < r || r == BUCKETS_MAX_SIZE
    ensures forall j :: 0 <= j < |BucketsSizes| && cur < BucketsSizes[j] ==> r <= BucketsSizes[j]
    decreases |BucketsSizes| - i
  {
    SizesIncrease();
    if cur < BucketsSizes[i] || i == |BucketsSizes| - 1 then BucketsSizes[i]
    else SizeFrom(i + 1, cur)
  }

  /** The listed sizes are strictly increasing. */
  lemma SizesIncrease()
    ensures forall p, q :: 0 <= p < q < |BucketsSizes| ==> BucketsSizes[p] < BucketsSizes[q]
  {
  }

  // ---------------------------------------------------------------------
  // The shape of the buckets.

  /** An entry of a chain: the key's hash value, the key and the stored value. */
  datatype Entry<V> = Entry(hashval: nat, key: Key, data: V)

  /** Some entry of chain `c` has key `k`. */
  ghost predicate InChain<V>(c: seq<Entry<V>>, k: Key)
  {
    exists j :: 0 <= j < |c| && c[j].key == k
  }

  /** Chain `c`, the chain of bucket `i` of `n`, agrees with the map `m` under hash
      function `h`: every entry carries its key's hash value, that value selects
      bucket `i`, the key is in `m` with the entry's value, and no key is on the
      chain twice. */
  ghost predicate ChainOk<V>(c: seq<Entry<V>>, i: nat, n: nat, h: Key -> nat, m: map<Key, V>)
    requires n > 0
  {
    && (forall j | 0 <= j < |c| ::
          && c[j].hashval == h(c[j].key) && c[j].hashval % n == i
          && c[j].key in m && m[c[j].key] == c[j].data)
    && (forall j1, j2 | 0 <= j1 < j2 < |c| :: c[j1].key != c[j2].key)
  }

  /** The first `n` chains of `b` agree with the map `m`. */
  ghost predicate ChainsOkUpTo<V>(b: seq<seq<Entry<V>>>, h: Key -> nat, m: map<Key, V>, n: nat)
    requires 0 < |b| && n <= |b|
    decreases n
  {
    n == 0 || (ChainsOkUpTo(b, h, m, n - 1) && ChainOk(b[n - 1], n - 1, |b|, h, m))
  }

  /** The buckets `b` hold exactly the map `m` under hash function `h`: every chain
      agrees with `m`, and every key of `m` is on the chain of its bucket. */
  ghost predicate Chains<V>(b: seq<seq<Entry<V>>>, h: Key -> nat, m: map<Key, V>)
  {
    && |b| > 0
    && ChainsOkUpTo(b, h, m, |b|)
    && (forall k | k in m :: InChain(b[h(k) % |b|], k))
  }

  lemma {:induction false} ChainsAt<V>(b: seq<seq<Entry<V>>>, h: Key -> nat, m: map<Key, V>, n: nat, i: nat)
    requires 0 < |b| && i < n <= |b| && ChainsOkUpTo(b, h, m, n)
    ensures ChainOk(b[i], i, |b|, h, m)
    decreases n
  {
    if i < n - 1 {
      ChainsAt(b, h, m, n - 1, i);
    }
  }

  lemma {:induction false} ChainsIntro<V>(b: seq<seq<Entry<V>>>, h: Key -> nat, m: map<Key, V>, n: nat)
    requires 0 < |b| && n <= |b|
    requires forall i | 0 <= i < n :: ChainOk(b[i], i, |b|, h, m)
    ensures ChainsOkUpTo(b, h, m, n)
    decreases n
  {
    if n > 0 {
      ChainsIntro(b, h, m, n - 1);
    }
  }

  // Single chains.

  /** A chain that agrees with `m` agrees with `m` extended by a key it cannot hold. */
  lemma ChainOkUpdate<V>(c: seq<Entry<V>>, i: nat, n: nat, h: Key -> nat, m: map<Key, V>, k: Key, v: V)
    requires n > 0 && ChainOk(c, i, n, h, m)
    requires k !in m || h(k) % n != i
    ensures ChainOk(c, i, n, h, m[k := v])
  {
    forall j | 0 <= j < |c| ensures c[j].key != k {
      assert c[j].key in m && c[j].hashval % n == i;
    }
  }

  /** A chain that agrees with `m` agrees with `m` without a key it cannot hold. */
  lemma ChainOkRemove<V>(c: seq<Entry<V>>, i: nat, n: nat, h: Key -> nat, m: map<Key, V>, k: Key)
    requires n > 0 && ChainOk(c, i, n, h, m)
    requires h(k) % n != i
    ensures ChainOk(c, i, n, h, m - {k})
  {
    forall j | 0 <= j < |c| ensures c[j].key != k {
      assert c[j].hashval % n == i;
    }
  }

  lemma ChainOkAppend<V>(c: seq<Entry<V>>, i: nat, n: nat, h: Key -> nat, m: map<Key, V>, e: Entry<V>)
    requires n > 0 && ChainOk(c, i, n, h, m)
    requires e.key !in m && e.hashval == h(e.key) && e.hashval % n == i
    ensures ChainOk(c + [e], i, n, h, m[e.key := e.data])
  {
    ChainOkUpdate(c, i, n, h, m, e.key, e.data);
    var c': seq<Entry<V>> := c + [e];
    forall j1: int, j2: int | 0 <= j1 < j2 < |c'| ensures c'[j1].key != c'[j2].key {
      if j2 == |c| {
        assert c[j1].key in m;
      }
    }
  }

  lemma ChainOkPrepend<V>(c: seq<Entry<V>>, i: nat, n: nat, h: Key -> nat, m: map<Key, V>, e: Entry<V>)
    requires n > 0 && ChainOk(c, i, n, h, m)
    requires e.key !in m && e.hashval == h(e.key) && e.hashval % n == i
    ensures ChainOk([e] + c, i, n, h, m[e.key := e.data])
  {
    ChainOkUpdate(c, i, n, h, m, e.key, e.data);
    var c': seq<Entry<V>> := [e] + c;
    forall j | 0 <= j < |c'|
      ensures c'[j].hashval == h(c'[j].key) && c'[j].hashval % n == i
      ensures c'[j].key in m[e.key := e.data] && m[e.key := e.data][c'[j].key] == c'[j].data
    {
      if j > 0 {
        assert c'[j] == c[j - 1];
      }
    }
    forall j1: int, j2: int | 0 <= j1 < j2 < |c'| ensures c'[j1].key != c'[j2].key {
      assert c'[j2] == c[j2 - 1];
      if j1 == 0 {
        assert c[j2 - 1].key in m;
      } else {
        assert c'[j1] == c[j1 - 1];
      }
    }
  }

  lemma ChainOkReplace<V>(c: seq<Entry<V>>, i: nat, n: nat, h: Key -> nat, m: map<Key, V>, j: nat, v: V)
    requires n > 0 && ChainOk(c, i, n, h, m) && j < |c|
    ensures ChainOk(c[j := c[j].(data := v)], i, n, h, m[c[j].key := v])
  {
    var c': seq<Entry<V>> := c[j := c[j].(data := v)];
    forall p | 0 <= p < |c'|
      ensures c'[p].key in m[c[j].key := v] && m[c[j].key := v][c'[p].key] == c'[p].data
    {
      if p != j {
        assert c[p].key != c[j].key;
      }
    }
  }

  /** `c'` is chain `c` without its entry at position `j`. */
  ghost predicate Dropped<V>(c: seq<Entry<V>>, j: nat, c': seq<Entry<V>>)
  {
    && |c'| + 1 == |c|
    && (forall q | 0 <= q < j && q < |c'| :: c'[q] == c[q])
    && (forall q | j <= q < |c'| :: c'[q] == c[q + 1])
  }

  lemma DroppedSplice<V>(c: seq<Entry<V>>, j: nat)
    requires j < |c|
    ensures Dropped(c, j, c[..j] + c[j + 1..])
  {
  }

  lemma ChainOkDrop<V>(c: seq<Entry<V>>, i: nat, n: nat, h: Key -> nat, m: map<Key, V>, j: nat, c': seq<Entry<V>>)
    requires n > 0 && ChainOk(c, i, n, h, m) && j < |c| && Dropped(c, j, c')
    ensures ChainOk(c', i, n, h, m - {c[j].key})
  {
    forall p | 0 <= p < |c'|
      ensures c'[p].hashval == h(c'[p].key) && c'[p].hashval % n == i
      ensures c'[p].key in m - {c[j].key} && (m - {c[j].key})[c'[p].key] == c'[p].data
    {
      var q := if p < j then p else p + 1;
      assert c'[p] == c[q] && q != j;
    }
    forall p1: int, p2: int | 0 <= p1 < p2 < |c'| ensures c'[p1].key != c'[p2].key {
      var q1 := if p1 < j then p1 else p1 + 1;
      var q2 := if p2 < j then p2 else p2 + 1;
      assert c'[p1] == c[q1] && c'[p2] == c[q2];
    }
  }

  // Whole bucket arrays.

  /** Appending a new key at the tail of its chain keeps the chains consistent with
      the map extended by that key. */
  lemma AppendKeepsChains<V>(b: seq<seq<Entry<V>>>, h: Key -> nat, m: map<Key, V>, e: Entry<V>)
    requires Chains(b, h, m)
    requires e.key !in m && e.hashval == h(e.key)
    ensures Chains(b[e.hashval % |b| := b[e.hashval % |b|] + [e]], h, m[e.key := e.data])
  {
    var idx := e.hashval % |b|;
    var b': seq<seq<Entry<V>>> := b[idx := b[idx] + [e]];
    var m' := m[e.key := e.data];
    forall i | 0 <= i < |b'| ensures ChainOk(b'[i], i, |b'|, h, m') {
      ChainsAt(b, h, m, |b|, i);
      if i == idx {
        ChainOkAppend(b[i], i, |b|, h, m, e);
      } else {
        ChainOkUpdate(b[i], i, |b|, h, m, e.key, e.data);
      }
    }
    ChainsIntro(b', h, m', |b'|);
    forall k | k in m' ensures InChain(b'[h(k) % |b'|], k) {
      if k == e.key {
        assert b'[idx][|b[idx]|].key == k;
      } else {
        var j :| 0 <= j < |b[h(k) % |b|]| && b[h(k) % |b|][j].key == k;
        assert b'[h(k) % |b'|][j].key == k;
      }
    }
  }

  /** Prepending a new key to the chain of its bucket keeps the chains consistent with
      the map extended by that key. */
  lemma PrependKeepsChains<V>(b: seq<seq<Entry<V>>>, h: Key -> nat, m: map<Key, V>, e: Entry<V>)
    requires Chains(b, h, m)
    requires e.key !in m && e.hashval == h(e.key)
    ensures Chains(b[e.hashval % |b| := [e] + b[e.hashval % |b|]], h, m[e.key := e.data])
  {
    var idx := e.hashval % |b|;
    var b': seq<seq<Entry<V>>> := b[idx := [e] + b[idx]];
    var m' := m[e.key := e.data];
    forall i | 0 <= i < |b'| ensures ChainOk(b'[i], i, |b'|, h, m') {
      ChainsAt(b, h, m, |b|, i);
      if i == idx {
        ChainOkPrepend(b[i], i, |b|, h, m, e);
      } else {
        ChainOkUpdate(b[i], i, |b|, h, m, e.key, e.data);
      }
    }
    ChainsIntro(b', h, m', |b'|);
    forall k | k in m' ensures InChain(b'[h(k) % |b'|], k) {
      if k == e.key {
        assert b'[idx][0].key == k;
      } else {
        var j :| 0 <= j < |b[h(k) % |b|]| && b[h(k) % |b|][j].key == k;
        if h(k) % |b| == idx {
          assert b'[idx][j + 1].key == k;
        } else {
          assert b'[h(k) % |b'|][j].key == k;
        }
      }
    }
  }

  /** Storing a new value in the entry of an existing key keeps the chains consistent
      with the updated map. */
  lemma ReplaceKeepsChains<V>(b: seq<seq<Entry<V>>>, h: Key -> nat, m: map<Key, V>, idx: nat, j: nat, v: V)
    requires Chains(b, h, m)
    requires idx < |b| && j < |b[idx]|
    ensures Chains(b[idx := b[idx][j := b[idx][j].(data := v)]], h, m[b[idx][j].key := v])
  {
    var k0 := b[idx][j].key;
    var b': seq<seq<Entry<V>>> := b[idx := b[idx][j := b[idx][j].(data := v)]];
    var m' := m[k0 := v];
    ChainsAt(b, h, m, |b|, idx);
    assert h(k0) % |b| == idx;
    forall i | 0 <= i < |b'| ensures ChainOk(b'[i], i, |b'|, h, m') {
      ChainsAt(b, h, m, |b|, i);
      if i == idx {
        ChainOkReplace(b[i], i, |b|, h, m, j, v);
      } else {
        ChainOkUpdate(b[i], i, |b|, h, m, k0, v);
      }
    }
    ChainsIntro(b', h, m', |b'|);
    forall k | k in m' ensures InChain(b'[h(k) % |b'|], k) {
      var p :| 0 <= p < |b[h(k) % |b|]| && b[h(k) % |b|][p].key == k;
      assert b'[h(k) % |b'|][p].key == k;
    }
  }

  /** Unlinking the entry at position `j` of a chain keeps the chains consistent with
      the map without that entry's key. */
  lemma UnlinkKeepsChains<V>(b: seq<seq<Entry<V>>>, h: Key -> nat, m: map<Key, V>, idx: nat, j: nat, c': seq<Entry<V>>)
    requires Chains(b, h, m)
    requires idx < |b| && j < |b[idx]| && Dropped(b[idx], j, c')
    ensures Chains(b[idx := c'], h, m - {b[idx][j].key})
  {
    var k0 := b[idx][j].key;
    var b': seq<seq<Entry<V>>> := b[idx := c'];
    var m' := m - {k0};
    ChainsAt(b, h, m, |b|, idx);
    assert h(k0) % |b| == idx;
    forall i | 0 <= i < |b'| ensures ChainOk(b'[i], i, |b'|, h, m') {
      ChainsAt(b, h, m, |b|, i);
      if i == idx {
        ChainOkDrop(b[i], i, |b|, h, m, j, c');
      } else {
        ChainOkRemove(b[i], i, |b|, h, m, k0);
      }
    }
    ChainsIntro(b', h, m', |b'|);
    forall k | k in m' ensures InChain(b'[h(k) % |b'|], k) {
      var p :| 0 <= p < |b[h(k) % |b|]| && b[h(k) % |b|][p].key == k;
      if h(k) % |b| == idx {
        assert p != j;
        var q := if p < j then p else p - 1;
        assert c'[q] == b[idx][p];
      } else {
        assert b'[h(k) % |b'|][p].key == k;
      }
    }
  }

  // Flattening, for the rehash.

  /** The entries of all chains, bucket by bucket, each chain from its head. */
  function Flatten<V>(b: seq<seq<Entry<V>>>): seq<Entry<V>>
  {
    if b == [] then [] else Flatten(b[..|b| - 1]) + b[|b| - 1]
  }

  /** Every entry of the first `n` chains, flattened, sits on one of those chains. */
  lemma {:induction false} FlattenFrom<V>(b: seq<seq<Entry<V>>>, n: nat, e: Entry<V>)
    requires n <= |b| && e in Flatten(b[..n])
    ensures exists i, j :: 0 <= i < n && 0 <= j < |b[i]| && b[i][j] == e
    decreases n
  {
    assert n > 0;
    assert b[..n][..n - 1] == b[..n - 1];
    if e in Flatten(b[..n - 1]) {
      FlattenFrom(b, n - 1, e);
    } else {
      var j :| 0 <= j < |b[n - 1]| && b[n - 1][j] == e;
    }
  }

  /** Every entry of the first `n` chains is among their flattened entries. */
  lemma {:induction false} FlattenHas<V>(b: seq<seq<Entry<V>>>, n: nat, i: nat, j: nat)
    requires i < n <= |b| && j < |b[i]|
    ensures b[i][j] in Flatten(b[..n])
    decreases n
  {
    assert b[..n][..n - 1] == b[..n - 1];
    if i < n - 1 {
      FlattenHas(b, n - 1, i, j);
    } else {
      assert b[..n][n - 1] == b[i];
    }
  }

  /** An entry of consistent chains carries its key's hash value, and its key is in
      the map with the entry's value. */
  lemma EntryFacts<V>(b: seq<seq<Entry<V>>>, h: Key -> nat, m: map<Key, V>, i: nat, j: nat)
    requires Chains(b, h, m) && i < |b| && j < |b[i]|
    ensures b[i][j].hashval == h(b[i][j].key) && b[i][j].hashval % |b| == i
    ensures b[i][j].key in m && m[b[i][j].key] == b[i][j].data
  {
    ChainsAt(b, h, m, |b|, i);
  }

  /** No two entries of `es` share a key. */
  ghost predicate KeysDistinct<V>(es: seq<Entry<V>>)
  {
    forall p, q | 0 <= p < q < |es| :: es[p].key != es[q].key
  }

  /** Every entry of `es` carries the hash value of its key. */
  ghost predicate HashesOk<V>(es: seq<Entry<V>>, h: Key -> nat)
  {
    forall p | 0 <= p < |es| :: es[p].hashval == h(es[p].key)
  }

  /** Consistent chains hold each key once over the whole table. */
  lemma {:induction false} FlattenDistinct<V>(b: seq<seq<Entry<V>>>, h: Key -> nat, m: map<Key, V>, n: nat)
    requires Chains(b, h, m) && n <= |b|
    ensures KeysDistinct(Flatten(b[..n]))
    decreases n
  {
    if n > 0 {
      FlattenDistinct(b, h, m, n - 1);
      var l: seq<Entry<V>> := Flatten(b[..n - 1]);
      var c: seq<Entry<V>> := b[n - 1];
      assert b[..n][..n - 1] == b[..n - 1];
      assert Flatten(b[..n]) == l + c;
      ChainsAt(b, h, m, |b|, n - 1);
      forall p: int, q: int | 0 <= p < q < |l + c| ensures (l + c)[p].key != (l + c)[q].key {
        if p < |l| <= q {
          FlattenFrom(b, n - 1, l[p]);
          var i, j :| 0 <= i < n - 1 && 0 <= j < |b[i]| && b[i][j] == l[p];
          EntryFacts(b, h, m, i, j);
          assert c[q - |l|].hashval % |b| == n - 1;
        } else if |l| <= p {
          assert (l + c)[p] == c[p - |l|] && (l + c)[q] == c[q - |l|];
        }
      }
    }
  }

  /** Consistent chains carry the hash value of every key. */
  lemma FlattenHashes<V>(b: seq<seq<Entry<V>>>, h: Key -> nat, m: map<Key, V>)
    requires Chains(b, h, m)
    ensures HashesOk(Flatten(b), h)
  {
    assert b[..|b|] == b;
    forall p | 0 <= p < |Flatten(b)| ensures Flatten(b)[p].hashval == h(Flatten(b)[p].key) {
      FlattenFrom(b, |b|, Flatten(b)[p]);
      var i, j :| 0 <= i < |b| && 0 <= j < |b[i]| && b[i][j] == Flatten(b)[p];
      EntryFacts(b, h, m, i, j);
    }
  }

  /** The map a list of entries stands for, later entries overriding earlier ones. */
  ghost function MapOf<V>(es: seq<Entry<V>>): map<Key, V>
  {
    if es == [] then map[] else MapOf(es[..|es| - 1])[es[|es| - 1].key := es[|es| - 1].data]
  }

  lemma {:induction false} MapOfKeys<V>(es: seq<Entry<V>>, k: Key)
    ensures k in MapOf(es) <==> exists p :: 0 <= p < |es| && es[p].key == k
    decreases |es|
  {
    if es != [] {
      var n := |es| - 1;
      MapOfKeys(es[..n], k);
      if k in MapOf(es[..n]) {
        var p :| 0 <= p < n && es[..n][p].key == k;
        assert es[p].key == k;
      }
      if exists p :: 0 <= p < |es| && es[p].key == k {
        var p :| 0 <= p < |es| && es[p].key == k;
        if p < n {
          assert es[..n][p].key == k;
        }
      }
    }
  }

  lemma {:induction false} MapOfValue<V>(es: seq<Entry<V>>, p: nat)
    requires KeysDistinct(es) && p < |es|
    ensures es[p].key in MapOf(es) && MapOf(es)[es[p].key] == es[p].data
    decreases |es|
  {
    var n := |es| - 1;
    if p < n {
      assert es[..n][p] == es[p];
      MapOfValue(es[..n], p);
    }
  }

  /** Flattened consistent chains stand for exactly the map they hold. */
  lemma FlattenMapOf<V>(b: seq<seq<Entry<V>>>, h: Key -> nat, m: map<Key, V>)
    requires Chains(b, h, m)
    ensures MapOf(Flatten(b)) == m
  {
    var es := Flatten(b);
    assert b[..|b|] == b;
    FlattenDistinct(b, h, m, |b|);
    forall k ensures k in MapOf(es) <==> k in m {
      MapOfKeys(es, k);
      if k in m {
        var j :| 0 <= j < |b[h(k) % |b|]| && b[h(k) % |b|][j].key == k;
        FlattenHas(b, |b|, h(k) % |b|, j);
      }
      if k in MapOf(es) {
        var p :| 0 <= p < |es| && es[p].key == k;
        FlattenFrom(b, |b|, es[p]);
        var i, j :| 0 <= i < |b| && 0 <= j < |b[i]| && b[i][j] == es[p];
        EntryFacts(b, h, m, i, j);
      }
    }
    forall k | k in m ensures MapOf(es)[k] == m[k] {
      MapOfKeys(es, k);
      var p :| 0 <= p < |es| && es[p].key == k;
      MapOfValue(es, p);
      FlattenFrom(b, |b|, es[p]);
      var i, j :| 0 <= i < |b| && 0 <= j < |b[i]| && b[i][j] == es[p];
      EntryFacts(b, h, m, i, j);
    }
  }

  /** A bucket array of `n` empty chains. */
  function Empty<V>(n: nat): (r: seq<seq<Entry<V>>>)
    ensures |r| == n && forall i | 0 <= i < n :: r[i] == []
  {
    seq(n, _ => [])
  }

  /** Pushes `e` at the head of the chain its hash value selects. */
  function Push<V>(nb: seq<seq<Entry<V>>>, e: Entry<V>): (r: seq<seq<Entry<V>>>)
    requires |nb| > 0
    ensures |r| == |nb|
  {
    nb[e.hashval % |nb| := [e] + nb[e.hashval % |nb|]]
  }

  /** Pushes the entries of `es`, first to last, each at the head of its chain. */
  function PushAll<V>(nb: seq<seq<Entry<V>>>, es: seq<Entry<V>>): (r: seq<seq<Entry<V>>>)
    requires |nb| > 0
    ensures |r| == |nb|
  {
    if es == [] then nb else Push(PushAll(nb, es[..|es| - 1]), es[|es| - 1])
  }

  /** Empty chains agree with the empty map. */
  /** The bucket array jk_hash_init allocates: `n` empty chains. */
  method NewBuckets<V>(n: nat) returns (b: array<seq<Entry<V>>>)
    ensures fresh(b) && b[..] == Empty(n)
  {
    b := new seq<Entry<V>>[n](_ => []);
    assert b[..] == Empty(n);
  }

  lemma EmptyChains<V>(n: nat, h: Key -> nat)
    requires n > 0
    ensures Chains(Empty<V>(n), h, map[])
  {
    ChainsIntro(Empty<V>(n), h, map[], n);
  }

  /** Pushing entries with distinct keys and correct hash values into empty chains
      gives chains consistent with the map of those entries. */
  lemma {:induction false} PushAllChains<V>(n: nat, es: seq<Entry<V>>, h: Key -> nat)
    requires n > 0 && KeysDistinct(es) && HashesOk(es, h)
    ensures Chains(PushAll(Empty(n), es), h, MapOf(es))
    decreases |es|
  {
    if es == [] {
      EmptyChains<V>(n, h);
    } else {
      var k := |es| - 1;
      var e := es[k];
      var es' := es[..k];
      PushAllChains(n, es', h);
      MapOfKeys(es', e.key);
      var b := PushAll(Empty(n), es');
      PrependKeepsChains(b, h, MapOf(es'), e);
    }
  }

  /** Moving every entry into `ns` new chains keeps them consistent with the map and
      keeps their number. */
  lemma RehashKeepsChains<V>(b: seq<seq<Entry<V>>>, h: Key -> nat, m: map<Key, V>, ns: nat)
    requires Chains(b, h, m) && ns > 0
    ensures Chains(PushAll(Empty(ns), Flatten(b)), h, m)
  {
    assert b[..|b|] == b;
    FlattenDistinct(b, h, m, |b|);
    FlattenHashes(b, h, m);
    PushAllChains(ns, Flatten(b), h);
    FlattenMapOf(b, h, m);
  }

  // ---------------------------------------------------------------------
  // The table.

  class Table<V> {
    /** The hash function; the default one when the creator gave none. */
    const hash: Key -> nat
    /** Whether a free callback was given: it is handed every value the table drops. */
    const hasFree: bool

    var buckets: array<seq<Entry<V>>>
    var bucketsSize: nat
    var elmNums: nat

    /** The finite map the table stands for. */
    ghost var Contents: map<Key, V>
    /** The values handed to the free callback so far, oldest first. */
    ghost var Freed: seq<V>
    ghost var Repr: set<object>

    ghost predicate Valid()
      reads this, Repr
    {
      && Repr == {this, buckets}
      && buckets.Length == bucketsSize
      && BUCKETS_MIN_SIZE <= bucketsSize <= BUCKETS_MAX_SIZE
      && Chains(buckets[..], hash, Contents)
      && elmNums == |Contents|
    }

    /** jk_hash_init with a successful allocation: the bucket count is clamped into
        [BUCKETS_MIN_SIZE, BUCKETS_MAX_SIZE], every chain is empty, and the default
        hash function stands in for a missing one. */
    constructor (initBuckets: nat, hashFn: Option<Key -> nat>, hasFree: bool)
      ensures Valid() && fresh(Repr)
      ensures bucketsSize == if initBuckets < BUCKETS_MIN_SIZE then BUCKETS_MIN_SIZE
                             else if initBuckets > BUCKETS_MAX_SIZE then BUCKETS_MAX_SIZE
                             else initBuckets
      ensures buckets[..] == Empty(bucketsSize)
      ensures elmNums == 0 && Contents == map[] && Freed == []
      ensures hash == (if hashFn.Some? then hashFn.value else ElfHash)
      ensures this.hasFree == hasFree
    {
      var n := initBuckets;
      if n < BUCKETS_MIN_SIZE {
        n := BUCKETS_MIN_SIZE;
      } else if n > BUCKETS_MAX_SIZE {
        n := BUCKETS_MAX_SIZE;
      }
      var b := NewBuckets<V>(n);
      var h: Key -> nat := ElfHash;
      if hashFn.Some? {
        h := hashFn.value;
      }
      EmptyChains<V>(n, h);
      hash := h;
      this.hasFree := hasFree;
      buckets := b;
      bucketsSize := n;
      elmNums := 0;
      Contents := map[];
      Freed := [];
      Repr := {this, b};
    }

    /** The chain walk shared by jk_hash_find, jk_hash_insert and jk_hash_remove:
        the bucket the key's hash value selects, and the position of the key on
        that chain, or the chain's length when the key is absent. */
    method Locate(key: Key) returns (index: nat, j: nat)
      requires Valid()
      ensures index == hash(key) % bucketsSize && j <= |buckets[index]|
      ensures j < |buckets[index]| <==> key in Contents
      ensures j < |buckets[index]| ==> buckets[index][j].key == key && buckets[index][j].data == Contents[key]
    {
      var hv := hash(key);
      index := hv % bucketsSize;
      ChainsAt(buckets[..], hash, Contents, bucketsSize, index);
      var chain := buckets[index];
      j := 0;
      while j < |chain|
        invariant 0 <= j <= |chain|
        invariant forall p :: 0 <= p < j ==> chain[p].key != key
      {
        var e := chain[j];
        if e.hashval == hv && |e.key| == |key| && e.key == key {
          assert buckets[..][index][j] == e;
          return;
        }
        j := j + 1;
      }
      assert !InChain(buckets[..][index], key);
    }

    /** jk_hash_find: OK and the stored value exactly when the key is in the table. */
    method Find(key: Key) returns (r: int, data: Option<V>)
      requires Valid()
      ensures r == OK || r == ERR
      ensures r == OK <==> key in Contents
      ensures data == if key in Contents then Some(Contents[key]) else None
    {
      var index, j := Locate(key);
      if j < |buckets[index]| {
        return OK, Some(buckets[index][j].data);
      }
      return ERR, None;
    }

    /** jk_hash_insert. An existing key: DUPLICATE_KEY and no change without `replace`;
        with it, the old value goes to the free callback and the new one takes its
        place. A new key: a new entry at the tail of its chain, one more element,
        and a rehash when the element count times 1.5 exceeds the bucket count.
        `allocOk` is the outcome of allocating the entry, `growAllocOk` that of
        allocating the grown bucket array. */
    method Insert(key: Key, data: V, replace: bool, allocOk: bool, growAllocOk: bool) returns (r: int)
      requires Valid()
      modifies Repr
      ensures Valid() && fresh(Repr - old(Repr))
      ensures key in old(Contents) && !replace ==>
                r == DUPLICATE_KEY && Contents == old(Contents) && Freed == old(Freed)
                && buckets == old(buckets) && buckets[..] == old(buckets[..])
      ensures key in old(Contents) && replace ==>
                && r == OK && Contents == old(Contents)[key := data] && elmNums == old(elmNums)
                && Freed == old(Freed) + (if hasFree then [old(Contents)[key]] else [])
                && buckets == old(buckets)
      ensures key !in old(Contents) && !allocOk ==>
                r == ERR && Contents == old(Contents) && Freed == old(Freed)
                && buckets == old(buckets) && buckets[..] == old(buckets[..])
      ensures key !in old(Contents) && allocOk ==>
                && r == OK && Contents == old(Contents)[key := data]
                && elmNums == old(elmNums) + 1 && Freed == old(Freed)
      ensures key !in old(Contents) && allocOk ==>
                var index := hash(key) % old(bucketsSize);
                var appended := old(buckets[..])[index := old(buckets[..])[index] + [Entry(hash(key), key, data)]];
                if 2 * old(bucketsSize) < 3 * elmNums && growAllocOk && old(bucketsSize) < BUCKETS_MAX_SIZE
                then bucketsSize == NextBucketsSize(old(bucketsSize))
                     && buckets[..] == PushAll(Empty(bucketsSize), Flatten(appended))
                else bucketsSize == old(bucketsSize) && buckets == old(buckets) && buckets[..] == appended
    {
      var index, j := Locate(key);
      if j < |buckets[index]| {
        if replace {
          SetData(index, j, data);
          return OK;
        }
        return DUPLICATE_KEY;
      }
      if !allocOk {
        return ERR;
      }
      AddNew(index, Entry(hash(key), key, data), growAllocOk);
      return OK;
    }

    /** The new-key half of jk_hash_insert: links `en` at the tail of chain `index`,
        then rehashes when the element count times 1.5 exceeds the bucket count. */
    method AddNew(index: nat, en: Entry<V>, growAllocOk: bool)
      requires Valid() && index < bucketsSize
      requires en.hashval == hash(en.key) && index == en.hashval % bucketsSize
      requires en.key !in Contents
      modifies buckets, this`buckets, this`bucketsSize, this`Repr, this`Contents, this`elmNums
      ensures Valid() && fresh(Repr - old(Repr)) && Freed == old(Freed)
      ensures Contents == old(Contents)[en.key := en.data] && elmNums == old(elmNums) + 1
      ensures var appended := old(buckets[..])[index := old(buckets[..])[index] + [en]];
              if 2 * old(bucketsSize) < 3 * elmNums && growAllocOk && old(bucketsSize) < BUCKETS_MAX_SIZE
              then bucketsSize == NextBucketsSize(old(bucketsSize))
                   && buckets[..] == PushAll(Empty(bucketsSize), Flatten(appended))
              else bucketsSize == old(bucketsSize) && buckets == old(buckets) && buckets[..] == appended
    {
      Append(index, en);
      if 2 * bucketsSize < 3 * elmNums {
        Rehash(growAllocOk);
      }
    }

    /** Stores `v` in the entry at position `j` of chain `index`; the old value goes to
        the free callback. */
    method SetData(index: nat, j: nat, v: V)
      requires Valid() && index < bucketsSize && j < |buckets[index]|
      modifies buckets, this`Contents, this`Freed
      ensures Valid()
      ensures Contents == old(Contents)[old(buckets[index][j].key) := v]
      ensures Freed == old(Freed) + (if hasFree then [old(buckets[index][j].data)] else [])
      ensures old(buckets[index][j].key) in old(Contents)
      ensures old(Contents)[old(buckets[index][j].key)] == old(buckets[index][j].data)
    {
      var chain := buckets[index];
      var e := chain[j];
      ghost var b := buckets[..];
      ChainsAt(b, hash, Contents, bucketsSize, index);
      assert b[index][j] == e;
      ReplaceKeepsChains(b, hash, Contents, index, j, v);
      if hasFree {
        Freed := Freed + [e.data];
      }
      buckets[index] := chain[j := e.(data := v)];
      assert buckets[..] == b[index := chain[j := e.(data := v)]];
      Contents := Contents[e.key := v];
    }

    /** Links the new entry `en` at the tail of chain `index`. */
    method Append(index: nat, en: Entry<V>)
      requires Valid() && index < bucketsSize
      requires en.hashval == hash(en.key) && index == en.hashval % bucketsSize
      requires en.key !in Contents
      modifies buckets, this`Contents, this`elmNums
      ensures Valid()
      ensures Contents == old(Contents)[en.key := en.data] && elmNums == old(elmNums) + 1
      ensures buckets[..] == old(buckets[..])[index := old(buckets[..])[index] + [en]]
    {
      var chain := buckets[index];
      ghost var b := buckets[..];
      ChainsAt(b, hash, Contents, bucketsSize, index);
      AppendKeepsChains(b, hash, Contents, en);
      buckets[index] := chain + [en];
      assert buckets[..] == b[index := chain + [en]];
      Contents := Contents[en.key := en.data];
      elmNums := elmNums + 1;
    }

    /** jk_hash_remove: a present key is unlinked from its chain, its value goes to
        the free callback and the count drops by one; an absent key gives ERR and
        changes nothing. */
    method Remove(key: Key) returns (r: int)
      requires Valid()
      modifies Repr
      ensures Valid() && Repr == old(Repr)
      ensures buckets == old(buckets) && bucketsSize == old(bucketsSize)
      ensures r == OK || r == ERR
      ensures key in old(Contents) ==>
                && r == OK && Contents == old(Contents) - {key} && elmNums == old(elmNums) - 1
                && Freed == old(Freed) + (if hasFree then [old(Contents)[key]] else [])
      ensures key !in old(Contents) ==>
                r == ERR && Contents == old(Contents) && Freed == old(Freed) && buckets[..] == old(buckets[..])
    {
      var index, j := Locate(key);
      if j == |buckets[index]| {
        return ERR;
      }
      Unlink(index, j);
      return OK;
    }

    /** Unlinks the entry at position `j` of chain `index`; its value goes to the free
        callback. */
    method Unlink(index: nat, j: nat)
      requires Valid() && index < bucketsSize && j < |buckets[index]|
      modifies buckets, this`Contents, this`Freed, this`elmNums
      ensures Valid()
      ensures old(buckets[index][j].key) in old(Contents)
      ensures Contents == old(Contents) - {old(buckets[index][j].key)} && elmNums == old(elmNums) - 1
      ensures Freed == old(Freed) + (if hasFree then [old(Contents)[old(buckets[index][j].key)]] else [])
    {
      var chain := buckets[index];
      var e := chain[j];
      var rest := chain[..j] + chain[j + 1..];
      ghost var b := buckets[..];
      ChainsAt(b, hash, Contents, bucketsSize, index);
      ghost var m := Contents;
      assert b[index] == chain;
      assert e.key in m && m[e.key] == e.data;
      DroppedSplice(chain, j);
      UnlinkKeepsChains(b, hash, m, index, j, rest);
      RemoveCard(m, e.key);
      if hasFree {
        Freed := Freed + [e.data];
      }
      buckets[index] := rest;
      assert buckets[..] == b[index := rest];
      Contents := m - {e.key};
      elmNums := elmNums - 1;
    }

    /** jk_hash_rehash: when a larger size is listed and the new array can be
        allocated (`allocOk`), every entry moves, chain by chain and each chain from its
        head, to the head of its chain in a new array of the next listed size;
        otherwise nothing changes. The map, the count and the freed values stay. */
    method Rehash(allocOk: bool)
      requires Valid()
      modifies this`buckets, this`bucketsSize, this`Repr
      ensures Valid() && fresh(Repr - old(Repr))
      ensures Contents == old(Contents) && elmNums == old(elmNums) && Freed == old(Freed)
      ensures if allocOk && old(bucketsSize) < BUCKETS_MAX_SIZE
              then bucketsSize == NextBucketsSize(old(bucketsSize))
                   && buckets[..] == PushAll(Empty(bucketsSize), Flatten(old(buckets[..])))
              else bucketsSize == old(bucketsSize) && buckets == old(buckets) && buckets[..] == old(buckets[..])
    {
      var ns := NextSize(bucketsSize);
      if ns == bucketsSize || !allocOk {
        return;
      }

      Grow(ns);
    }

    /** Moves every entry into a new array of `ns` chains. */
    method Grow(ns: nat)
      requires Valid() && BUCKETS_MIN_SIZE <= ns <= BUCKETS_MAX_SIZE
      modifies this`buckets, this`bucketsSize, this`Repr
      ensures Valid() && fresh(buckets) && Repr == {this, buckets}
      ensures bucketsSize == ns && buckets[..] == PushAll(Empty(ns), Flatten(old(buckets[..])))
    {
      ghost var b := buckets[..];
      var nb := MoveAll(buckets[..], ns);
      RehashKeepsChains(b, hash, Contents, ns);
      ghost var moved := nb[..];
      assert Chains(moved, hash, Contents);
      buckets := nb;
      bucketsSize := ns;
      Repr := {this, nb};
      assert buckets[..] == moved;
    }
  }

  /** The size search of jk_hash_rehash: the first listed size above `cur`, or the
      largest listed one when there is none. */
  method NextSize(cur: nat) returns (ns: nat)
    ensures ns == NextBucketsSize(cur)
  {
    var s := 0;
    while s < |BucketsSizes| && BucketsSizes[s] <= cur
      invariant 0 <= s <= |BucketsSizes|
      invariant forall p :: 0 <= p < s ==> BucketsSizes[p] <= cur
    {
      s := s + 1;
    }
    if s < |BucketsSizes| {
      ns := BucketsSizes[s];
      SizesIncrease();
    } else {
      ns := BucketsSizes[|BucketsSizes| - 1];
    }
    NextSizeUnique(cur, ns);
  }

  /** The three properties NextBucketsSize promises determine its value. */
  lemma NextSizeUnique(cur: nat, r: nat)
    requires r in BucketsSizes
    requires cur < r || r == BUCKETS_MAX_SIZE
    requires forall j :: 0 <= j < |BucketsSizes| && cur < BucketsSizes[j] ==> r <= BucketsSizes[j]
    ensures r == NextBucketsSize(cur)
  {
    var n := NextBucketsSize(cur);
    if cur < r && cur < n {
      var a :| 0 <= a < |BucketsSizes| && BucketsSizes[a] == r;
      var c :| 0 <= c < |BucketsSizes| && BucketsSizes[c] == n;
      assert n <= r && r <= n;
    }
  }

  /** The moving loop of jk_hash_rehash: a new array of `ns` chains receiving the
      entries of `b`, chain by chain and each chain from its head, each entry pushed
      at the head of the chain its hash value selects. */
  method MoveAll<V>(b: seq<seq<Entry<V>>>, ns: nat) returns (nb: array<seq<Entry<V>>>)
    requires ns > 0
    ensures fresh(nb) && nb[..] == PushAll(Empty(ns), Flatten(b))
  {
    nb := NewBuckets(ns);
    assert b[..0] == [];
    var i := 0;
    while i < |b|
      modifies nb
      invariant 0 <= i <= |b|
      invariant nb[..] == PushAll(Empty(ns), Flatten(b[..i]))
    {
      MoveChain(nb, b[i], Empty(ns), Flatten(b[..i]));
      assert b[..i + 1][..i] == b[..i];
      i := i + 1;
    }
    assert b[..|b|] == b;
  }

  /** The inner loop of jk_hash_rehash: the entries of one chain, from its head,
      each pushed at the head of the chain of `nb` its hash value selects. */
  method MoveChain<V>(nb: array<seq<Entry<V>>>, chain: seq<Entry<V>>, ghost start: seq<seq<Entry<V>>>, ghost done: seq<Entry<V>>)
    requires |start| > 0 && nb[..] == PushAll(start, done)
    modifies nb
    ensures nb[..] == PushAll(start, done + chain)
  {
    var j := 0;
    assert done + chain[..0] == done;
    while j < |chain|
      invariant 0 <= j <= |chain|
      invariant nb[..] == PushAll(start, done + chain[..j])
    {
      var e := chain[j];
      var index := e.hashval % nb.Length;
      PushAllSnoc(start, done + chain[..j], e);
      assert done + chain[..j] + [e] == done + chain[..j + 1];
      nb[index] := [e] + nb[index];
      j := j + 1;
    }
    assert chain[..j] == chain;
  }

  lemma PushAllSnoc<V>(nb: seq<seq<Entry<V>>>, es: seq<Entry<V>>, e: Entry<V>)
    requires |nb| > 0
    ensures PushAll(nb, es + [e]) == Push(PushAll(nb, es), e)
  {
    assert (es + [e])[..|es|] == es;
  }

  /** Dropping a present key from a map leaves one key fewer. */
  lemma RemoveCard<V>(m: map<Key, V>, k: Key)
    requires k in m
    ensures |m - {k}| == |m| - 1
  {
    assert m.Keys == (m - {k}).Keys + {k};
  }

  /** jk_hash_new: a table when both allocations succeed, none otherwise. */
  method New<V>(initBuckets: nat, hashFn: Option<Key -> nat>, hasFree: bool, allocOk: bool)
    returns (t: Table?<V>)
    ensures allocOk <==> t != null
    ensures t != null ==> t.Valid() && fresh(t.Repr) && t.Contents == map[] && t.elmNums == 0
  {
    if !allocOk {
      return null;
    }
    t := new Table(initBuckets, hashFn, hasFree);
  }

  // The bucket index of jk_hash_find, jk_hash_insert and jk_hash_remove is the
  // hash value's C remainder by the bucket count.

  /** As written, the default hash of the one-byte key 0x80 is negative, and so
      is its bucket index in a table of the minimum size: the chain read or
      written lies before the start of the bucket array. */
  lemma SignedByteIndexNegative()
    ensures CRem(DefaultHashAsWritten([128]), BUCKETS_MIN_SIZE) == -6
  {
    SignedByteHashesNegative();
  }

  /** With the default hash reading the key's bytes as unsigned, every key's
      index lies inside the bucket array, whatever its size. */
  lemma DefaultIndexInRange(key: Key, n: nat)
    requires n > 0
    ensures 0 <= CRem(ElfHash(key), n) < n
    ensures CRem(ElfHash(key), n) == ElfHash(key) % n
  {
  }

  // As written, an entry keeps its hash value in an `int` (hash.h:45):
  // hash.c:152 stores the `long` the hash function returns into it, and
  // hash.c:109, 132 and 181 compare the kept `int` with the `long`.  The
  // table above keeps the whole value.

  /** The hash value an entry keeps as written: the `long` cut to 32 bits.  It
      is the value itself exactly when that fits an `int`. */
  function KeptHashval(h: int): (k: int)
    ensures INT_MIN <= k <= INT_MAX
    ensures INT_MIN <= h <= INT_MAX <==> k == h
  {
    Wrap32(h)
  }

  /** An entry as written: the kept hash value, the key and the value. */
  datatype KeptEntry<V> = KeptEntry(hashval: int, key: Key, data: V)

  /** The chain walk of jk_hash_find as written (hash.c:107-118), on a chain
      of entries with kept hash values and the key's `long` hash `h`: the
      value of the first entry whose kept hash equals `h` and whose key is the
      key; none when no entry has both. */
  function ChainFindAsWritten<V>(chain: seq<KeptEntry<V>>, key: Key, h: int): (r: Option<V>)
    ensures r.Some? <==> exists j | 0 <= j < |chain| :: chain[j].hashval == h && chain[j].key == key
    decreases |chain|
  {
    if chain == [] then None
    else if chain[0].hashval == h && chain[0].key == key then Some(chain[0].data)
    else
      var r := ChainFindAsWritten(chain[1..], key, h);
      assert forall j | 1 <= j < |chain| :: chain[j] == chain[1..][j - 1];
      r
  }

  /** As written, a key whose default hash exceeds INT_MAX is lost as soon as
      it is inserted: the entry jk_hash_insert puts on the key's empty chain
      keeps a hash value that jk_hash_find's comparison never equals, so the
      find gives ERR.  Seven bytes 0F and a byte 10 make such a key. */
  lemma TruncatedHashvalLosesKey<V>(d: V)
    ensures var k := Repeat(15, 7) + [16];
            && ElfHash(k) > INT_MAX
            && ChainFindAsWritten([KeptEntry(KeptHashval(ElfHash(k)), k, d)], k, ElfHash(k)).None?
  {
    CarryKept();
  }
}
