/**
 * The cache's eviction pass (gc.c, bolt_gc_process).  Once the cached bytes
 * reach the configured maximum, one pass walks the eviction list from its head,
 * skips the entries some connection still uses, and drops the others from the
 * list and from the cache table until enough bytes are freed.  The pass is one
 * atomic step under the cache lock; the waiting on the condition variable that
 * starts it is not modelled.
 */
module Gc {
  import opened Base
  import opened Bolt

  /** The outcome of a pass over a list: the entries that stay, in list order;
      the entries evicted, in the order they were evicted; and the bytes still
      to free. */
  datatype Pass = Pass(kept: seq<CacheEntry>, evicted: seq<CacheEntry>, left: int)

  /** The total size of some entries. */
  function SizeOf(es: seq<CacheEntry>): int
    reads es
  {
    if es == [] then 0 else es[0].size + SizeOf(es[1..])
  }

  lemma {:induction false} SizeOfAppend(a: seq<CacheEntry>, b: seq<CacheEntry>)
    ensures SizeOf(a + b) == SizeOf(a) + SizeOf(b)
    decreases |a|
  {
    if a != [] {
      assert (a + b)[1..] == a[1..] + b;
      SizeOfAppend(a[1..], b);
    } else {
      assert a + b == b;
    }
  }

  /** `l` interleaves `a` and `b`: it holds exactly their elements, and each
      keeps its order in `l`. */
  ghost predicate Merge<T>(l: seq<T>, a: seq<T>, b: seq<T>)
    decreases |l|
  {
    if l == [] then a == [] && b == []
    else
      || (a != [] && a[0] == l[0] && Merge(l[1..], a[1..], b))
      || (b != [] && b[0] == l[0] && Merge(l[1..], a, b[1..]))
  }

  /** A list interleaves itself with nothing. */
  lemma {:induction false} MergeAll<T>(l: seq<T>)
    ensures Merge(l, l, [])
    decreases |l|
  {
    if l != [] {
      MergeAll(l[1..]);
    }
  }

  /** The bytes the pass sets out to free: what the cache holds beyond the
      threshold share of its maximum (gc.c:54-55), computed without overflow. */
  function GcTarget(memused: int, maxCache: int, gcThreshold: int): int
  {
    memused - CDiv(maxCache * gcThreshold, 100)
  }

  /** The pass over `lru` with `freesize` bytes to free (gc.c:61-84): an entry in
      use is passed over; any other is evicted, and the pass ends right after
      the eviction that brings the bytes to free to zero or below. */
  function Evict(lru: seq<CacheEntry>, freesize: int): Pass
    reads lru
    decreases |lru|
  {
    if lru == [] then Pass([], [], freesize)
    else
      var e := lru[0];
      if e.refcount > 0 then
        var r := Evict(lru[1..], freesize);
        Pass([e] + r.kept, r.evicted, r.left)
      else if freesize - e.size <= 0 then
        Pass(lru[1..], [e], freesize - e.size)
      else
        var r := Evict(lru[1..], freesize - e.size);
        Pass(r.kept, [e] + r.evicted, r.left)
  }

  /** The entries of `es` no connection uses, in list order. */
  function Unused(es: seq<CacheEntry>): seq<CacheEntry>
    reads es
  {
    if es == [] then [] else (if es[0].refcount <= 0 then [es[0]] else []) + Unused(es[1..])
  }

  /** The entries of `es` some connection uses, in list order. */
  function InUse(es: seq<CacheEntry>): seq<CacheEntry>
    reads es
  {
    if es == [] then [] else (if es[0].refcount > 0 then [es[0]] else []) + InUse(es[1..])
  }

  /** The pass walks the list from its head: up to some position `n` it evicts
      exactly the unused entries, in list order, and keeps the used ones; from
      `n` on it keeps everything.  It stops before the end only right after an
      eviction, and only once the target is reached.  Together with
      EvictStopsAtTarget this pins the pass down: `n` is one past the first
      unused entry whose eviction reaches the target, or the end of the list. */
  lemma EvictFromHead(lru: seq<CacheEntry>, freesize: int)
    ensures var r := Evict(lru, freesize);
            exists n | 0 <= n <= |lru| ::
              && r.evicted == Unused(lru[..n])
              && r.kept == InUse(lru[..n]) + lru[n..]
              && (n < |lru| ==> 0 < n && lru[n - 1].refcount <= 0 && r.left <= 0)
  {
    var n := EvictCut(lru, freesize);
  }

  /** Where the pass of EvictFromHead stops walking. */
  lemma {:induction false} EvictCut(lru: seq<CacheEntry>, freesize: int) returns (n: nat)
    ensures var r := Evict(lru, freesize);
            && n <= |lru|
            && r.evicted == Unused(lru[..n])
            && r.kept == InUse(lru[..n]) + lru[n..]
            && (n < |lru| ==> 0 < n && lru[n - 1].refcount <= 0 && r.left <= 0)
    decreases |lru|
  {
    if lru == [] {
      n := 0;
      assert lru[..0] == [] && lru[0..] == [];
    } else {
      var e := lru[0];
      var t := lru[1..];
      if e.refcount <= 0 && freesize - e.size <= 0 {
        n := 1;
        Cons(e, t, 0);
        assert lru == [e] + t;
      } else {
        var f := if e.refcount > 0 then freesize else freesize - e.size;
        var m := EvictCut(t, f);
        n := m + 1;
        Cons(e, t, m);
        assert lru == [e] + t;
        assert lru[n - 1] == if m == 0 then e else t[m - 1];
      }
    }
  }

  /** Cutting a list with a head: the parts are the head followed by the
      parts of the tail. */
  lemma Cons(e: CacheEntry, t: seq<CacheEntry>, m: nat)
    requires m <= |t|
    ensures ([e] + t)[..m + 1] == [e] + t[..m] && ([e] + t)[m + 1..] == t[m..]
    ensures Unused([e] + t[..m]) == (if e.refcount <= 0 then [e] else []) + Unused(t[..m])
    ensures InUse([e] + t[..m]) == (if e.refcount > 0 then [e] else []) + InUse(t[..m])
  {
    assert ([e] + t[..m])[1..] == t[..m];
  }

  /** The pass splits the list: the kept and the evicted entries together are
      the list's entries, each part in list order; only entries no connection
      uses are evicted; and the bytes left to free are the target less the
      evicted sizes. */
  lemma {:induction false} EvictSplits(lru: seq<CacheEntry>, freesize: int)
    ensures var r := Evict(lru, freesize);
            && Merge(lru, r.kept, r.evicted)
            && (forall e | e in r.evicted :: e.refcount <= 0)
            && r.left == freesize - SizeOf(r.evicted)
    decreases |lru|
  {
    if lru != [] {
      var e := lru[0];
      if e.refcount > 0 {
        EvictSplits(lru[1..], freesize);
      } else if freesize - e.size <= 0 {
        MergeAll(lru[1..]);
      } else {
        EvictSplits(lru[1..], freesize - e.size);
      }
    }
  }

  /** An entry some connection still uses is never evicted: it stays on the list. */
  lemma {:induction false} EvictKeepsInUse(lru: seq<CacheEntry>, freesize: int, i: nat)
    requires i < |lru| && lru[i].refcount > 0
    ensures lru[i] in Evict(lru, freesize).kept
    decreases |lru|
  {
    var e := lru[0];
    if i == 0 {
    } else if e.refcount > 0 {
      EvictKeepsInUse(lru[1..], freesize, i - 1);
    } else if freesize - e.size <= 0 {
      assert lru[i] == lru[1..][i - 1];
    } else {
      EvictKeepsInUse(lru[1..], freesize - e.size, i - 1);
    }
  }

  /** The pass ends right after the eviction that reaches the target: every
      eviction but the last leaves some bytes still to free. */
  lemma {:induction false} EvictStopsAtTarget(lru: seq<CacheEntry>, freesize: int)
    ensures var r := Evict(lru, freesize);
            forall j | 0 < j < |r.evicted| :: freesize - SizeOf(r.evicted[..j]) > 0
    decreases |lru|
  {
    if lru != [] {
      var e := lru[0];
      if e.refcount > 0 {
        EvictStopsAtTarget(lru[1..], freesize);
        assert Evict(lru, freesize).evicted == Evict(lru[1..], freesize).evicted;
      } else if freesize - e.size > 0 {
        var r := Evict(lru[1..], freesize - e.size);
        EvictStopsAtTarget(lru[1..], freesize - e.size);
        ghost var f' := freesize - e.size;
        assert forall k | 0 < k < |Evict(lru[1..], f').evicted| :: f' - SizeOf(Evict(lru[1..], f').evicted[..k]) > 0;
        assert forall k | 0 < k < |r.evicted| :: f' - SizeOf(r.evicted[..k]) > 0;
        assert Evict(lru, freesize).evicted == [e] + r.evicted;
        forall j | 0 < j < |r.evicted| + 1
          ensures freesize - SizeOf(([e] + r.evicted)[..j]) > 0
        {
          var p := ([e] + r.evicted)[..j];
          assert p[0] == e && p[1..] == r.evicted[..j - 1];
          assert SizeOf(p) == e.size + SizeOf(r.evicted[..j - 1]);
          if j > 1 {
            assert freesize - e.size - SizeOf(r.evicted[..j - 1]) > 0;
          } else {
            assert r.evicted[..0] == [];
          }
        }
      }
    }
  }

  /** A pass that ends with bytes still to free has walked the whole list and
      evicted every entry not in use. */
  lemma {:induction false} EvictExhausts(lru: seq<CacheEntry>, freesize: int)
    ensures var r := Evict(lru, freesize);
            r.left > 0 ==> forall e | e in r.kept :: e.refcount > 0
    decreases |lru|
  {
    if lru != [] {
      var e := lru[0];
      if e.refcount > 0 {
        EvictExhausts(lru[1..], freesize);
      } else if freesize - e.size > 0 {
        EvictExhausts(lru[1..], freesize - e.size);
      }
    }
  }

  /** When every entry is in use, the pass changes nothing. */
  lemma {:induction false} EvictAllInUse(lru: seq<CacheEntry>, freesize: int)
    requires forall e | e in lru :: e.refcount > 0
    ensures Evict(lru, freesize) == Pass(lru, [], freesize)
    decreases |lru|
  {
    if lru != [] {
      EvictAllInUse(lru[1..], freesize);
    }
  }

  /** With a threshold below 100 and a positive maximum that the cache has
      reached, there is something to free, and no more than the cache holds. */
  lemma GcTargetBounds(memused: int, maxCache: int, gcThreshold: int)
    requires 0 < maxCache <= memused && 0 <= gcThreshold < 100
    ensures 0 < GcTarget(memused, maxCache, gcThreshold) <= memused
  {
    assert maxCache * gcThreshold < maxCache * 100;
  }

  /** The keys of some entries. */
  function KeysOf(es: seq<CacheEntry>): set<Key>
  {
    set e | e in es :: e.key
  }

  /** One pass of bolt_gc_process, started because the cached bytes reached the
      maximum (gc.c:48-50).  The list loses exactly the evicted entries, the cache
      table their keys, and the byte count their sizes; everything else stays. */
  method GcProcess(s: Service, maxCache: int, gcThreshold: int)
    requires s.memused >= maxCache
    modifies s
    ensures var r := old(Evict(s.lru, GcTarget(s.memused, maxCache, gcThreshold)));
            && s.lru == r.kept
            && s.cache == old(s.cache) - KeysOf(r.evicted)
            && s.memused == old(s.memused - SizeOf(r.evicted))
    ensures s.waiting == old(s.waiting) && s.taskQueue == old(s.taskQueue)
    ensures s.wakeupQueue == old(s.wakeupQueue)
  {
    var freesize := GcTarget(s.memused, maxCache, gcThreshold);
    ghost var freed := SizeOf(Evict(s.lru, freesize).evicted);
    var lru, cache, memused := Walk(s.lru, freesize, s.cache, s.memused);
    assert memused == old(s.memused) - freed;
    s.lru := lru;
    s.cache := cache;
    s.memused := memused;
  }

  /** The loop of the pass (gc.c:61-84) over the list `lru` with `freesize` bytes
      to free, the table `cache` and the byte count `memused`: the new list, table
      and count.  The source updates the list, the table and the count entry by
      entry under the cache lock; here they are handed back together. */
  method Walk(lru: seq<CacheEntry>, freesize: int, cache: map<Key, CacheEntry>, memused: int)
    returns (lru': seq<CacheEntry>, cache': map<Key, CacheEntry>, memused': int)
    ensures var r := Evict(lru, freesize);
            && lru' == r.kept
            && cache' == cache - KeysOf(r.evicted)
            && memused' == memused - SizeOf(r.evicted)
  {
    var left := freesize;
    cache' := cache;
    memused' := memused;
    var kept: seq<CacheEntry> := [];
    ghost var evicted: seq<CacheEntry> := [];
    var i := 0;
    while i < |lru|
      invariant 0 <= i <= |lru|
      invariant Evict(lru, freesize) == Glue(kept, evicted, Evict(lru[i..], left))
      invariant cache' == cache - KeysOf(evicted)
      invariant memused' == memused - SizeOf(evicted)
    {
      var e := lru[i];
      if e.refcount > 0 {
        StepKept(lru, freesize, i, kept, evicted, left);
        kept := kept + [e];
      } else {
        cache' := cache' - {e.key};
        memused' := memused' - e.size;
        DropOne(cache, memused, evicted, e);
        if left - e.size <= 0 {
          StepLast(lru, freesize, i, kept, evicted, left);
          lru' := kept + lru[i + 1..];
          return;
        }
        StepEvicted(lru, freesize, i, kept, evicted, left);
        evicted := evicted + [e];
        left := left - e.size;
      }
      i := i + 1;
    }
    StepEnd(lru, freesize, kept, evicted, left);
    lru' := kept;
  }

  /** The outcome of a pass whose first part kept `kept` and evicted `evicted`,
      and whose remaining part came out as `r`. */
  function Glue(kept: seq<CacheEntry>, evicted: seq<CacheEntry>, r: Pass): Pass
  {
    Pass(kept + r.kept, evicted + r.evicted, r.left)
  }

  /** Passing over an entry in use moves it to the kept part. */
  lemma StepKept(lru: seq<CacheEntry>, freesize: int, i: nat, kept: seq<CacheEntry>, evicted: seq<CacheEntry>, left: int)
    requires i < |lru| && lru[i].refcount > 0
    requires Evict(lru, freesize) == Glue(kept, evicted, Evict(lru[i..], left))
    ensures Evict(lru, freesize) == Glue(kept + [lru[i]], evicted, Evict(lru[i + 1..], left))
  {
    var rest := lru[i..];
    assert rest[0] == lru[i] && rest[1..] == lru[i + 1..];
    var r := Evict(lru[i + 1..], left);
    assert Evict(rest, left) == Pass([lru[i]] + r.kept, r.evicted, r.left);
    assert kept + ([lru[i]] + r.kept) == (kept + [lru[i]]) + r.kept;
  }

  /** Evicting an entry short of the target moves it to the evicted part. */
  lemma StepEvicted(lru: seq<CacheEntry>, freesize: int, i: nat, kept: seq<CacheEntry>, evicted: seq<CacheEntry>, left: int)
    requires i < |lru| && lru[i].refcount <= 0 && left - lru[i].size > 0
    requires Evict(lru, freesize) == Glue(kept, evicted, Evict(lru[i..], left))
    ensures Evict(lru, freesize) == Glue(kept, evicted + [lru[i]], Evict(lru[i + 1..], left - lru[i].size))
  {
    var rest := lru[i..];
    assert rest[0] == lru[i] && rest[1..] == lru[i + 1..];
    var r := Evict(lru[i + 1..], left - lru[i].size);
    assert Evict(rest, left) == Pass(r.kept, [lru[i]] + r.evicted, r.left);
    assert evicted + ([lru[i]] + r.evicted) == (evicted + [lru[i]]) + r.evicted;
  }

  /** The eviction that reaches the target ends the pass with the rest of the
      list kept. */
  lemma StepLast(lru: seq<CacheEntry>, freesize: int, i: nat, kept: seq<CacheEntry>, evicted: seq<CacheEntry>, left: int)
    requires i < |lru| && lru[i].refcount <= 0 && left - lru[i].size <= 0
    requires Evict(lru, freesize) == Glue(kept, evicted, Evict(lru[i..], left))
    ensures Evict(lru, freesize) == Pass(kept + lru[i + 1..], evicted + [lru[i]], left - lru[i].size)
  {
    var rest := lru[i..];
    assert rest[0] == lru[i] && rest[1..] == lru[i + 1..];
    assert Evict(rest, left) == Pass(lru[i + 1..], [lru[i]], left - lru[i].size);
  }

  /** A pass that reaches the end of the list is what its parts add up to. */
  lemma StepEnd(lru: seq<CacheEntry>, freesize: int, kept: seq<CacheEntry>, evicted: seq<CacheEntry>, left: int)
    requires Evict(lru, freesize) == Glue(kept, evicted, Evict(lru[|lru|..], left))
    ensures Evict(lru, freesize) == Pass(kept, evicted, left)
  {
    assert lru[|lru|..] == [];
    assert kept + [] == kept && evicted + [] == evicted;
  }

  /** Dropping one more entry removes its key and its size. */
  lemma DropOne(cache: map<Key, CacheEntry>, memused: int, evicted: seq<CacheEntry>, e: CacheEntry)
    ensures cache - KeysOf(evicted + [e]) == (cache - KeysOf(evicted)) - {e.key}
    ensures memused - SizeOf(evicted + [e]) == memused - SizeOf(evicted) - e.size
  {
    SizeOfAppend(evicted, [e]);
    assert KeysOf(evicted + [e]) == KeysOf(evicted) + {e.key};
  }

  // gc.c:54-55 as written: `max_cache * gc_threshold` is an `int` product and
  // overflows once the maximum exceeds INT_MAX / gc_threshold bytes.

  /** The byte target as the source computes it, in 32-bit `int` arithmetic. */
  function GcTargetAsWritten(memused: int, maxCache: int, gcThreshold: int): int
  {
    Wrap32(memused - CDiv(Wrap32(maxCache * gcThreshold), 100))
  }

  /** With a 32 MiB maximum and the default threshold of 80, a full cache is told
      to free more bytes than it holds, instead of the 20% above the threshold. */
  lemma GcTargetOverflow()
    ensures GcTargetAsWritten(33554432, 33554432, 80) == 49660559
    ensures GcTarget(33554432, 33554432, 80) == 6710887
  {
  }
}
