/**
 * The concurrent FIFO cache: `CacheState` keeps a key-to-entry map consistent with the FIFO
 * queue of entries, and `ConcurrentFIFOExoCache` is the facade that checks keys, turns the
 * live time into an expiration time and swaps the state on a clear. Operations are atomic
 * and sequential; the clock is the `now` parameter; each listener notification is recorded
 * once in the ghost log `events`.
 */
module FifoCache {
  import opened Wrappers
  import opened Seqs
  import opened JavaLang
  import opened ObjectRefs
  import opened Queue

  const DEFAULT_MAX_SIZE: int := 50

  /** A notification handed to the cache listeners. */
  datatype CacheEvent<K, V> =
    | OnGet(key: K, value: V)
    | OnPut(key: K, value: V)
    | OnRemove(key: K, value: V)
    | OnExpire(key: K, value: V)

  /** A registered listener; the cache only stores it. */
  datatype Listener = Listener(id: int)

  // ---------------------------------------------------------------- the index and the queue

  /**
   * `m` indexes the queue `q`: every mapped entry carries its own key and is queued, and every
   * queued entry is the one its key maps to.
   */
  ghost predicate Indexes<K(!new), V>(m: map<K, SimpleObjectRef<K, V>>, q: seq<SimpleObjectRef<K, V>>) {
    (forall k :: k in m ==> m[k].name == k && m[k] in q) &&
    (forall i :: 0 <= i < |q| ==> q[i].name in m && m[q[i].name] == q[i])
  }

  /** The queue after `ref` is put: `ref` first, then the old queue without the key's previous entry. */
  function Promoted<K(==,!new), V>(q: seq<SimpleObjectRef<K, V>>, m: map<K, SimpleObjectRef<K, V>>,
                                   ref: SimpleObjectRef<K, V>): seq<SimpleObjectRef<K, V>> {
    [ref] + (if ref.name in m then Without(q, m[ref.name]) else q)
  }

  /** The entries a trim to `n` keeps: the `n` newest. */
  function Kept<E>(q: seq<E>, n: nat): (r: seq<E>)
    ensures |r| <= n || r == q
  {
    if |q| > n then q[..n] else q
  }

  /** The entries a trim to `n` evicts, oldest first. */
  function Evicted<E>(q: seq<E>, n: nat): seq<E> {
    if |q| > n then Reversed(q[n..]) else []
  }

  /** One expiration notification per evicted entry, in eviction order. */
  function ExpireEvents<K, V>(es: seq<SimpleObjectRef<K, V>>): (r: seq<CacheEvent<K, V>>)
    ensures |r| == |es|
  {
    seq(|es|, j requires 0 <= j < |es| => OnExpire(es[j].name, es[j].obj))
  }

  /** What a lookup of `k` at time `now` returns: the value of a valid entry, else null. */
  function Lookup<K(==,!new), V>(m: map<K, SimpleObjectRef<K, V>>, k: K, now: int): Option<V> {
    if k in m && m[k].IsValid(now) then Some(m[k].obj) else None
  }

  /** The values of the valid entries, visiting the keys in the order `ks`. */
  function ValidObjects<K(==,!new), V>(m: map<K, SimpleObjectRef<K, V>>, ks: seq<K>, now: int): (r: seq<V>)
    ensures |r| <= |ks|
  {
    if ks == [] then []
    else (if ks[0] in m && m[ks[0]].IsValid(now) then [m[ks[0]].obj] else []) + ValidObjects(m, ks[1..], now)
  }

  /** The expiration time of an entry put at `now`: `now + liveTimeMillis` as a Java long, or Long.MAX_VALUE. */
  function ExpirationTime(liveTimeMillis: int, now: int): (t: int)
    ensures IsLong(t)
    ensures liveTimeMillis <= 0 ==> t == LONG_MAX
    ensures liveTimeMillis > 0 && IsLong(now + liveTimeMillis) ==> t == now + liveTimeMillis
  {
    if liveTimeMillis > 0 then WrapLong(now + liveTimeMillis) else LONG_MAX
  }

  /** Without overflow, an entry is valid at the time it is put (for a positive or unlimited live time). */
  lemma FreshEntryValid(liveTimeMillis: int, now: int)
    requires liveTimeMillis > 0 || liveTimeMillis == -1
    requires IsLong(now) && IsLong(now + liveTimeMillis) && now < LONG_MAX
    ensures now < ExpirationTime(liveTimeMillis, now)
  {
  }

  /** The long addition wraps: a put just before Long.MAX_VALUE yields an entry that is already expired. */
  lemma ExpirationWraps()
    ensures ExpirationTime(2, LONG_MAX - 1) == LONG_MIN
    ensures ExpirationTime(2, LONG_MAX - 1) < LONG_MAX - 1
  {
  }

  /** The hit and miss counters are Java ints: one more hit or miss after Integer.MAX_VALUE gives Integer.MIN_VALUE. */
  lemma CounterWraps(count: int)
    requires IsInt(count)
    ensures count < INT_MAX ==> WrapInt(count + 1) == count + 1
    ensures count == INT_MAX ==> WrapInt(count + 1) == INT_MIN
  {
  }

  /** With live time 0 the expiration time is Long.MAX_VALUE; `putMap` stores such entries while `put` does not. */
  lemma ZeroLiveTimeNeverExpires(now: int)
    ensures ExpirationTime(0, now) == LONG_MAX
  {
  }

  /** Dropping an entry's key and unqueueing the entry keeps the index. */
  lemma IndexesRemove<K(!new), V>(m: map<K, SimpleObjectRef<K, V>>, q: seq<SimpleObjectRef<K, V>>, k: K)
    requires Indexes(m, q) && Distinct(q) && k in m
    ensures Indexes(m - {k}, Without(q, m[k]))
    ensures Distinct(Without(q, m[k]))
  {
    var e := m[k];
    var w := Without(q, e);
    WithoutDistinct(q, e);
    WithoutMembers(q, e);
    forall k2 | k2 in m - {k} ensures (m - {k})[k2].name == k2 && (m - {k})[k2] in w {
      var i :| 0 <= i < |q| && q[i] == m[k2];
      assert q[i] != e;
    }
    forall i | 0 <= i < |w| ensures w[i].name in m - {k} && (m - {k})[w[i].name] == w[i] {
      assert w[i] in w;
      assert w[i] in q && w[i] != e;
      var j :| 0 <= j < |q| && q[j] == w[i];
    }
  }

  /** A distinct queue indexed by a map is exactly as long as the map is large. */
  lemma {:induction false} IndexesSize<K(!new), V>(m: map<K, SimpleObjectRef<K, V>>, q: seq<SimpleObjectRef<K, V>>)
    requires Indexes(m, q) && Distinct(q)
    ensures |m| == |q|
    decreases |q|
  {
    if q == [] {
      assert forall k :: k !in m;
      assert m == map[];
    } else {
      var e := q[0];
      DistinctSplit(q, 1);
      assert q[1..] == q[..][1..];
      WithoutAbsent(q[1..], e);
      assert Without(q, e) == q[1..];
      IndexesRemove(m, q, e.name);
      IndexesSize(m - {e.name}, q[1..]);
      assert |m - {e.name}| == |m| - 1;
    }
  }

  /** Putting a new entry keeps the index and the distinctness of the queue. */
  lemma IndexesPut<K(!new), V>(m: map<K, SimpleObjectRef<K, V>>, q: seq<SimpleObjectRef<K, V>>, ref: SimpleObjectRef<K, V>)
    requires Indexes(m, q) && Distinct(q) && ref !in q
    ensures Indexes(m[ref.name := ref], Promoted(q, m, ref))
    ensures Distinct(Promoted(q, m, ref))
  {
    var rest := if ref.name in m then Without(q, m[ref.name]) else q;
    if ref.name in m {
      IndexesRemove(m, q, ref.name);
      WithoutMembers(q, m[ref.name]);
    } else {
      assert m - {ref.name} == m;
    }
    assert ref !in rest;
    DistinctCons(ref, rest);
    IndexesCons(m - {ref.name}, rest, ref);
    assert (m - {ref.name})[ref.name := ref] == m[ref.name := ref];
  }

  /** A new entry for an unmapped key, queued in front, extends the index. */
  lemma IndexesCons<K(!new), V>(m: map<K, SimpleObjectRef<K, V>>, q: seq<SimpleObjectRef<K, V>>, ref: SimpleObjectRef<K, V>)
    requires Indexes(m, q) && ref.name !in m && ref !in q
    ensures Indexes(m[ref.name := ref], [ref] + q)
  {
    var p := [ref] + q;
    forall i | 0 <= i < |p| ensures p[i].name in m[ref.name := ref] && m[ref.name := ref][p[i].name] == p[i] {
      if i > 0 {
        assert p[i] == q[i - 1];
      }
    }
  }

  /**
   * An entry among the `p` newest that is not the replaced one is, after a put and a trim to
   * `n > p`, among the `p + 1` newest.
   */
  lemma PutKeepsRecent<K(!new), V>(q: seq<SimpleObjectRef<K, V>>, m: map<K, SimpleObjectRef<K, V>>,
                                     ref: SimpleObjectRef<K, V>, n: nat, p: nat, x: SimpleObjectRef<K, V>)
    requires x in Take(q, p) && p < n
    requires ref.name in m ==> x != m[ref.name]
    ensures x in Take(Kept(Promoted(q, m, ref), n), p + 1)
  {
    var rest := if ref.name in m then Without(q, m[ref.name]) else q;
    if ref.name in m {
      WithoutKeepsPrefix(q, m[ref.name], x, p);
    }
    assert x in Take(rest, p);
    var i :| 0 <= i < |Take(rest, p)| && Take(rest, p)[i] == x;
    var pr := Promoted(q, m, ref);
    assert pr[i + 1] == x;
    assert Take(Kept(pr, n), p + 1)[i + 1] == x;
  }

  /**
   * The keys of `done` are stored with their values from `m` and expiration `et`, and their
   * entries are among the `|done|` newest of the queue.
   */
  ghost predicate StoredRecent<K(!new), V>(entries: map<K, SimpleObjectRef<K, V>>, items: seq<SimpleObjectRef<K, V>>,
                                           m: map<Option<K>, V>, done: set<K>, et: int) {
    forall k :: k in done ==>
      Some(k) in m && k in entries && entries[k].obj == m[Some(k)] &&
      entries[k].expirationTime == et && entries[k] in Take(items, |done|)
  }

  /** One put of `putAll` into a cache with room for all keys keeps the keys put so far stored and recent. */
  lemma PutMapStep<K(!new), V>(m0: map<K, SimpleObjectRef<K, V>>, q0: seq<SimpleObjectRef<K, V>>,
                               m1: map<K, SimpleObjectRef<K, V>>, q1: seq<SimpleObjectRef<K, V>>,
                               ref: SimpleObjectRef<K, V>, n: nat,
                               m: map<Option<K>, V>, done: set<K>, k: K, et: int)
    requires Indexes(m0, q0) && Indexes(m1, q1)
    requires StoredRecent(m0, q0, m, done, et) && k !in done && |done| < n
    requires ref.name == k && Some(k) in m && ref.obj == m[Some(k)] && ref.expirationTime == et
    requires q1 == Kept(Promoted(q0, m0, ref), n) && q1[0] == ref && k in m1 && m1[k] == ref
    ensures StoredRecent(m1, q1, m, done + {k}, et)
  {
    assert |done + {k}| == |done| + 1;
    forall k2 | k2 in done + {k}
      ensures Some(k2) in m && k2 in m1 && m1[k2].obj == m[Some(k2)] &&
              m1[k2].expirationTime == et && m1[k2] in Take(q1, |done| + 1)
    {
      if k2 == k {
        assert Take(q1, |done| + 1)[0] == ref;
      } else {
        var x := m0[k2];
        PutKeepsRecent(q0, m0, ref, n, |done|, x);
        assert x in q1;
      }
    }
  }

  /** After a put and a trim, the key's previous entry is no longer queued, and a non-zero capacity keeps the new entry first. */
  lemma PromotedDropsPrevious<K(!new), V>(q: seq<SimpleObjectRef<K, V>>, m: map<K, SimpleObjectRef<K, V>>,
                                          ref: SimpleObjectRef<K, V>, n: nat)
    requires Indexes(m, q) && Distinct(q) && ref !in q
    ensures ref.name in m ==> m[ref.name] !in Kept(Promoted(q, m, ref), n)
    ensures n > 0 ==> Kept(Promoted(q, m, ref), n)[0] == ref
  {
    if ref.name in m {
      var old0 := m[ref.name];
      WithoutMembers(q, old0);
      assert old0 != ref;
      assert old0 !in Promoted(q, m, ref);
    }
  }

  /** A trim splits the queue into the kept prefix and the reversed evicted suffix. */
  lemma TrimSplit<E>(q: seq<E>, n: nat)
    requires |q| > n
    ensures q[..n] + Reversed(Reversed(q[n..])) == q
  {
    ReversedReversed(q[n..]);
  }

  /** Dropping the key of the next evicted entry, the oldest still indexed, keeps the index on the rest. */
  lemma EvictStep<K(!new), V>(m: map<K, SimpleObjectRef<K, V>>, kept: seq<SimpleObjectRef<K, V>>,
                              ev: seq<SimpleObjectRef<K, V>>, i: nat)
    requires i < |ev|
    requires Indexes(m, kept + Reversed(ev[i..])) && Distinct(kept + Reversed(ev[i..]))
    ensures ev[i].name in m && m[ev[i].name] == ev[i]
    ensures Indexes(m - {ev[i].name}, kept + Reversed(ev[i + 1..]))
    ensures Distinct(kept + Reversed(ev[i + 1..]))
  {
    var cur := kept + Reversed(ev[i..]);
    ReversedSuffix(ev, i + 1);
    assert cur == (kept + Reversed(ev[i + 1..])) + [ev[i]];
    assert cur[|cur| - 1] == ev[i];
    WithoutLast(cur);
    IndexesRemove(m, cur, ev[i].name);
  }

  /** Java's `map.remove(key, entry)`: drops the entry's key only if the map still binds it to that entry. */
  function ConditionalRemove<K(!new), V>(m: map<K, SimpleObjectRef<K, V>>, e: SimpleObjectRef<K, V>): map<K, SimpleObjectRef<K, V>> {
    if e.name in m && m[e.name] == e then m - {e.name} else m
  }

  /** The map after conditionally removing each of `es`, in order. */
  function EvictFrom<K(!new), V>(m: map<K, SimpleObjectRef<K, V>>, es: seq<SimpleObjectRef<K, V>>): map<K, SimpleObjectRef<K, V>> {
    if es == [] then m else ConditionalRemove(EvictFrom(m, es[..|es| - 1]), es[|es| - 1])
  }

  /**
   * Evicting the oldest `i` entries beyond the `n` newest keeps the map indexing the queue that
   * remains; in particular every conditional removal succeeds.
   */
  lemma {:induction false} EvictFromIndexes<K(!new), V>(m: map<K, SimpleObjectRef<K, V>>, q1: seq<SimpleObjectRef<K, V>>,
                                                       n: nat, i: nat)
    requires |q1| > n && Indexes(m, q1) && Distinct(q1)
    requires i <= |Reversed(q1[n..])|
    ensures var ev := Reversed(q1[n..]);
      Indexes(EvictFrom(m, ev[..i]), q1[..n] + Reversed(ev[i..])) && Distinct(q1[..n] + Reversed(ev[i..]))
  {
    var ev := Reversed(q1[n..]);
    if i == 0 {
      TrimSplit(q1, n);
      assert ev[..0] == [] && ev[0..] == ev;
    } else {
      EvictFromIndexes(m, q1, n, i - 1);
      var mi := EvictFrom(m, ev[..i - 1]);
      EvictStep(mi, q1[..n], ev, i - 1);
      assert ev[..i][..i - 1] == ev[..i - 1];
      assert EvictFrom(m, ev[..i]) == ConditionalRemove(mi, ev[i - 1]);
    }
  }

  lemma ExpireEventsSnoc<K, V>(ev: seq<SimpleObjectRef<K, V>>, i: nat)
    requires i < |ev|
    ensures ExpireEvents(ev[..i + 1]) == ExpireEvents(ev[..i]) + [OnExpire(ev[i].name, ev[i].obj)]
  {
  }

  /** Visiting one more key appends that key's value when its entry is valid. */
  lemma {:induction false} ValidObjectsSnoc<K(!new), V>(m: map<K, SimpleObjectRef<K, V>>, ks: seq<K>, k: K, now: int)
    ensures ValidObjects(m, ks + [k], now) ==
            ValidObjects(m, ks, now) + (if k in m && m[k].IsValid(now) then [m[k].obj] else [])
  {
    if ks == [] {
      assert ValidObjects(m, [k], now) == (if k in m && m[k].IsValid(now) then [m[k].obj] else []) + ValidObjects(m, [], now);
    } else {
      assert (ks + [k])[1..] == ks[1..] + [k];
      ValidObjectsSnoc(m, ks[1..], k, now);
    }
  }

  /** Every collected value belongs to a valid entry, and every valid visited key contributes its value. */
  lemma {:induction false} ValidObjectsSound<K(!new), V>(m: map<K, SimpleObjectRef<K, V>>, ks: seq<K>, now: int)
    ensures forall v :: v in ValidObjects(m, ks, now) ==> exists k :: k in ks && k in m && m[k].IsValid(now) && m[k].obj == v
    ensures forall k :: k in ks && k in m && m[k].IsValid(now) ==> m[k].obj in ValidObjects(m, ks, now)
  {
    if ks != [] {
      ValidObjectsSound(m, ks[1..], now);
      forall v | v in ValidObjects(m, ks, now)
        ensures exists k :: k in ks && k in m && m[k].IsValid(now) && m[k].obj == v
      {
        if v in ValidObjects(m, ks[1..], now) {
          var k :| k in ks[1..] && k in m && m[k].IsValid(now) && m[k].obj == v;
          assert k in ks;
        } else {
          assert ks[0] in ks;
        }
      }
    }
  }

  // ---------------------------------------------------------------- CacheState

  /**
   * The cache state: a key-to-entry map and the FIFO queue of the same entries. The owning
   * cache, whose counters and notifications the state updates, is passed to each operation.
   */
  class CacheState<K(==,!new), V> {
    var entries: map<K, SimpleObjectRef<K, V>>
    const queue: SynchronizedQueue<SimpleObjectRef<K, V>>

    /** The quiescent invariant: the map indexes the queue, and no trim is in progress. */
    ghost predicate Valid()
      reads this, queue
    {
      queue.Valid() && !queue.trimming && Indexes(entries, queue.items)
    }

    constructor ()
      ensures Valid() && fresh(queue)
      ensures entries == map[] && queue.items == []
    {
      entries := map[];
      queue := new SynchronizedQueue();
    }

    /** Checks the queue's cached size and then that the map and the queue have the same size. */
    method AssertConsistency() returns (r: Outcome)
      ensures r == Pass <==> queue.queueSize == |queue.items| && |entries| == queue.queueSize
      ensures r != Pass ==> r == Fail(AssertionError)
    {
      r := queue.AssertConsistency();
      if r == Pass {
        var mapSize := |entries|;
        var effectiveQueueSize := queue.Size();
        if effectiveQueueSize != mapSize {
          r := Fail(AssertionError);
        }
      }
    }

    /**
     * Looks up `name`. A valid entry counts a hit and is returned, the queue order untouched.
     * An expired entry counts a miss and is dropped from the map and the queue. An absent key
     * changes nothing.
     */
    method Get(config: ConcurrentFIFOExoCache<K, V>, name: K, now: int) returns (r: Option<V>)
      requires Valid()
      modifies this, queue, config`hits, config`misses, config`events
      ensures Valid()
      ensures r == Lookup(old(entries), name, now)
      ensures name !in old(entries) ==>
                entries == old(entries) && queue.items == old(queue.items) && config.hits == old(config.hits) &&
                config.misses == old(config.misses) && config.events == old(config.events)
      ensures name in old(entries) && old(entries[name]).IsValid(now) ==>
                entries == old(entries) && queue.items == old(queue.items) &&
                config.hits == WrapInt(old(config.hits) + 1) && config.misses == old(config.misses) &&
                config.events == old(config.events) + [OnGet(name, old(entries[name]).obj)]
      ensures name in old(entries) && !old(entries[name]).IsValid(now) ==>
                entries == old(entries) - {name} && queue.items == Without(old(queue.items), old(entries[name])) &&
                config.hits == old(config.hits) && config.misses == WrapInt(old(config.misses) + 1) &&
                config.events == old(config.events) + [OnExpire(name, old(entries[name]).obj)]
    {
      if name in entries {
        var entry := entries[name];
        var o := entry.GetObject();
        if entry.IsValid(now) {
          config.hits := WrapInt(config.hits + 1);
          config.OnGet(entry.name, o);
          return Some(o);
        } else {
          config.misses := WrapInt(config.misses + 1);
          if name in entries && entries[name] == entry {
            IndexesRemove(entries, queue.items, name);
            entries := entries - {name};
            var _ := queue.Remove(entry);
          }
          config.OnExpire(entry.name, o);
        }
      }
      return None;
    }

    /**
     * Binds `name` to a fresh entry, unqueues the key's previous entry, queues the new one as the
     * newest, then evicts the oldest entries beyond `config.maxSize`, notifying an expiration
     * for each, and finally notifies the put.
     */
    method Put(config: ConcurrentFIFOExoCache<K, V>, expirationTime: int, name: K, obj: V)
      returns (ghost ref: SimpleObjectRef<K, V>)
      requires Valid() && config.maxSize >= 0
      modifies this, queue, config`events
      ensures Valid()
      ensures fresh(ref) && ref.name == name && ref.obj == obj && ref.expirationTime == expirationTime
      ensures queue.items == Kept(Promoted(old(queue.items), old(entries), ref), config.maxSize)
      ensures config.events == old(config.events) +
                ExpireEvents(Evicted(Promoted(old(queue.items), old(entries), ref), config.maxSize)) +
                [OnPut(name, obj)]
      ensures entries == EvictFrom(old(entries)[name := ref], Evicted(Promoted(old(queue.items), old(entries), ref), config.maxSize))
      ensures config.maxSize > 0 ==> queue.items[0] == ref && name in entries && entries[name] == ref
      ensures name in old(entries) ==> old(entries[name]) !in queue.items
      ensures |queue.items| <= config.maxSize
    {
      var nextRef := new SimpleObjectRef(expirationTime, name, obj);
      ref := nextRef;
      ghost var q1 := Promoted(queue.items, entries, nextRef);
      ghost var m1 := entries[name := nextRef];
      ghost var n: nat := config.maxSize;
      Promote(nextRef);
      var evictedRefs := queue.Trim(config.maxSize);
      if evictedRefs.Some? {
        EvictAll(config, evictedRefs.value, q1, n);
        assert Evicted(q1, n) == evictedRefs.value;
      } else {
        assert Evicted(q1, n) == [];
        assert entries == EvictFrom(m1, []);
      }
      config.OnPut(name, obj);
      PromotedDropsPrevious(old(queue.items), old(entries), nextRef, n);
      if n > 0 {
        assert queue.items[0] == ref;
      }
    }

    /** The first half of `Put`: binds the entry's key to it, unqueues the key's previous entry and queues the entry as the newest. */
    method Promote(nextRef: SimpleObjectRef<K, V>)
      requires Valid() && nextRef !in queue.items
      modifies this, queue
      ensures queue.Valid() && !queue.trimming
      ensures entries == old(entries)[nextRef.name := nextRef]
      ensures queue.items == Promoted(old(queue.items), old(entries), nextRef)
      ensures Indexes(entries, queue.items) && Distinct(queue.items)
    {
      ghost var q1 := Promoted(queue.items, entries, nextRef);
      IndexesPut(entries, queue.items, nextRef);
      var name := nextRef.name;
      var previousRef := if name in entries then Some(entries[name]) else None;
      entries := entries[name := nextRef];
      if previousRef.Some? {
        WithoutMembers(queue.items, previousRef.value);
        var _ := queue.Remove(previousRef.value);
      }
      queue.Add(nextRef);
      assert queue.items == q1;
    }

    /** The eviction loop of `Put`: drops the key of each evicted entry that the map still binds to it, and notifies the expiration. */
    method EvictAll(config: ConcurrentFIFOExoCache<K, V>, ev: seq<SimpleObjectRef<K, V>>,
                    ghost q1: seq<SimpleObjectRef<K, V>>, ghost n: nat)
      requires |q1| > n && ev == Reversed(q1[n..])
      requires queue.Valid() && !queue.trimming && queue.items == q1[..n]
      requires Indexes(entries, q1) && Distinct(q1)
      modifies this, config`events
      ensures Valid()
      ensures entries == EvictFrom(old(entries), ev)
      ensures config.events == old(config.events) + ExpireEvents(ev)
    {
      ghost var m0 := entries;
      ghost var e0 := config.events;
      var i := 0;
      while i < |ev|
        invariant 0 <= i <= |ev|
        invariant entries == EvictFrom(m0, ev[..i])
        invariant config.events == e0 + ExpireEvents(ev[..i])
      {
        var evictedRef := ev[i];
        assert ev[..i + 1][..i] == ev[..i];
        if evictedRef.name in entries && entries[evictedRef.name] == evictedRef {
          entries := entries - {evictedRef.name};
        }
        config.OnExpire(evictedRef.name, evictedRef.GetObject());
        ExpireEventsSnoc(ev, i);
        i := i + 1;
      }
      assert ev[..i] == ev;
      EvictFromIndexes(m0, q1, n, |ev|);
      assert ev[|ev|..] == [];
      assert q1[..n] + Reversed(ev[|ev|..]) == q1[..n];
    }

    /**
     * Removes `name`. A present entry leaves the map and the queue; its value is returned, with a
     * removal notification, when it was queued and is still valid, and otherwise null is
     * returned with an expiration notification. An absent key gives null and no notification.
     */
    method Remove(config: ConcurrentFIFOExoCache<K, V>, name: K, now: int) returns (r: Option<V>)
      requires Valid()
      modifies this, queue, config`events
      ensures Valid()
      ensures r == Lookup(old(entries), name, now)
      ensures name !in old(entries) ==>
                entries == old(entries) && queue.items == old(queue.items) && config.events == old(config.events)
      ensures name in old(entries) ==>
                entries == old(entries) - {name} && queue.items == Without(old(queue.items), old(entries[name])) &&
                config.events == old(config.events) +
                  [if old(entries[name]).IsValid(now) then OnRemove(name, old(entries[name]).obj)
                   else OnExpire(name, old(entries[name]).obj)]
    {
      if name in entries {
        var item := entries[name];
        IndexesRemove(entries, queue.items, name);
        entries := entries - {name};
        var removed := queue.Remove(item);
        var valid := removed && item.IsValid(now);
        var obj := item.GetObject();
        if valid {
          config.OnRemove(item.name, obj);
          return Some(obj);
        } else {
          config.OnExpire(item.name, obj);
          return None;
        }
      }
      return None;
    }
  }

  /** In the quiescent state the entries, the queue and the cached size agree, so the consistency check passes. */
  lemma ConsistentWhenValid<K(!new), V>(s: CacheState<K, V>)
    requires s.Valid()
    ensures |s.entries| == s.queue.queueSize == |s.queue.items|
  {
    IndexesSize(s.entries, s.queue.items);
  }

  // ---------------------------------------------------------------- the facade

  class ConcurrentFIFOExoCache<K(==,!new), V> {
    var liveTimeMillis: int
    var maxSize: int
    var listeners: seq<Listener>
    var state: CacheState<K, V>
    var hits: int
    var misses: int
    var cacheLabel: Option<string>
    var name: Option<string>
    var logEnabled: bool
    /** Every notification handed to the listeners, oldest first. */
    ghost var events: seq<CacheEvent<K, V>>

    /** The state is quiescent and the live time is -1 (unlimited) or a number of milliseconds. */
    ghost predicate Valid()
      reads this, state, state.queue
    {
      state.Valid() && liveTimeMillis >= -1
    }

    /** A cache with the given name and maximum size, an unlimited live time, no listeners and no entries. */
    constructor (name: Option<string>, maxSize: int)
      ensures Valid() && fresh(state) && fresh(state.queue)
      ensures this.name == name && this.maxSize == maxSize && liveTimeMillis == -1
      ensures listeners == [] && hits == 0 && misses == 0 && cacheLabel == None && !logEnabled && events == []
      ensures state.entries == map[] && state.queue.items == []
    {
      this.maxSize := maxSize;
      this.name := name;
      state := new CacheState();
      liveTimeMillis := -1;
      listeners := [];
      hits := 0;
      misses := 0;
      cacheLabel := None;
      logEnabled := false;
      events := [];
    }

    /** The no-argument constructor: no name and the default maximum size 50. */
    constructor Default()
      ensures Valid() && fresh(state) && fresh(state.queue)
      ensures name == None && maxSize == DEFAULT_MAX_SIZE && liveTimeMillis == -1
      ensures listeners == [] && hits == 0 && misses == 0 && cacheLabel == None && !logEnabled && events == []
      ensures state.entries == map[] && state.queue.items == []
    {
      maxSize := DEFAULT_MAX_SIZE;
      name := None;
      state := new CacheState();
      liveTimeMillis := -1;
      listeners := [];
      hits := 0;
      misses := 0;
      cacheLabel := None;
      logEnabled := false;
      events := [];
    }

    /** The constructor taking only a maximum size. */
    constructor OfMaxSize(maxSize: int)
      ensures Valid() && fresh(state) && fresh(state.queue)
      ensures name == None && this.maxSize == maxSize && liveTimeMillis == -1
      ensures listeners == [] && hits == 0 && misses == 0 && cacheLabel == None && !logEnabled && events == []
      ensures state.entries == map[] && state.queue.items == []
    {
      this.maxSize := maxSize;
      name := None;
      state := new CacheState();
      liveTimeMillis := -1;
      listeners := [];
      hits := 0;
      misses := 0;
      cacheLabel := None;
      logEnabled := false;
      events := [];
    }

    ghost method OnExpire(key: K, obj: V)
      modifies this`events
      ensures events == old(events) + [CacheEvent.OnExpire(key, obj)]
    {
      events := events + [CacheEvent.OnExpire(key, obj)];
    }

    ghost method OnRemove(key: K, obj: V)
      modifies this`events
      ensures events == old(events) + [CacheEvent.OnRemove(key, obj)]
    {
      events := events + [CacheEvent.OnRemove(key, obj)];
    }

    ghost method OnPut(key: K, obj: V)
      modifies this`events
      ensures events == old(events) + [CacheEvent.OnPut(key, obj)]
    {
      events := events + [CacheEvent.OnPut(key, obj)];
    }

    ghost method OnGet(key: K, obj: V)
      modifies this`events
      ensures events == old(events) + [CacheEvent.OnGet(key, obj)]
    {
      events := events + [CacheEvent.OnGet(key, obj)];
    }

    method AssertConsistent() returns (r: Outcome)
      ensures r == Pass <==>
                state.queue.queueSize == |state.queue.items| && |state.entries| == state.queue.queueSize
      ensures Valid() ==> r == Pass
    {
      if Valid() {
        ConsistentWhenValid(state);
      }
      r := state.AssertConsistency();
    }

    method SetName(s: Option<string>)
      modifies this`name
      ensures name == s
    {
      name := s;
    }

    method SetLabel(s: Option<string>)
      modifies this`cacheLabel
      ensures cacheLabel == s
    {
      cacheLabel := s;
    }

    /**
     * The cacheLabel, or when none is set: a null name throws; a name longer than 30 characters gives
     * (and stores as the cacheLabel) the text after its last '.'; a shorter name is returned as is.
     */
    method GetLabel() returns (r: Result<string>)
      modifies this`cacheLabel
      ensures old(cacheLabel).Some? ==> r == Success(old(cacheLabel).value) && cacheLabel == old(cacheLabel)
      ensures old(cacheLabel).None? && name.None? ==> r == Failure(NullPointer) && cacheLabel == None
      ensures old(cacheLabel).None? && name.Some? && |name.value| <= 30 ==> r == Success(name.value) && cacheLabel == None
      ensures old(cacheLabel).None? && name.Some? && |name.value| > 30 ==>
                r.Success? && cacheLabel == Some(r.value) && '.' !in r.value && EndsWith(name.value, r.value) &&
                (|r.value| < |name.value| ==> name.value[|name.value| - |r.value| - 1] == '.')
    {
      if cacheLabel.None? {
        if name.None? {
          return Failure(NullPointer);
        }
        var n := name.value;
        if |n| > 30 {
          var shortLabel := n[LastIndexOf(n, '.') + 1..];
          AfterLastIndexOf(n, '.');
          SetLabel(Some(shortLabel));
          return Success(shortLabel);
        }
        return Success(n);
      }
      return Success(cacheLabel.value);
    }

    /** The live time in whole seconds, or -1 when unlimited. */
    function GetLiveTime(): (t: int)
      reads this
      ensures liveTimeMillis == -1 ==> t == -1
      ensures liveTimeMillis >= 0 ==> t >= 0 && t * 1000 <= liveTimeMillis < (t + 1) * 1000
    {
      var tmp := GetLiveTimeMillis();
      if tmp == -1 then -1 else JavaDiv(tmp, 1000)
    }

    function GetLiveTimeMillis(): int
      reads this
    {
      liveTimeMillis
    }

    /** Sets the live time in milliseconds; any negative value means unlimited (-1). */
    method SetLiveTimeMillis(l: int)
      modifies this`liveTimeMillis
      ensures l < 0 ==> liveTimeMillis == -1
      ensures l >= 0 ==> liveTimeMillis == l
    {
      var v := l;
      if v < 0 {
        v := -1;
      }
      liveTimeMillis := v;
    }

    /** Sets the live time in seconds: `period * 1000` as a Java long, clamped like `SetLiveTimeMillis`. */
    method SetLiveTime(period: int)
      modifies this`liveTimeMillis
      ensures liveTimeMillis == (if WrapLong(period * 1000) < 0 then -1 else WrapLong(period * 1000))
      ensures 0 <= period && IsLong(period * 1000) ==> GetLiveTime() == period
      ensures period < 0 && IsLong(period * 1000) ==> GetLiveTime() == -1
    {
      SetLiveTimeMillis(WrapLong(period * 1000));
    }

    method SetMaxSize(max: int)
      modifies this`maxSize
      ensures maxSize == max
    {
      maxSize := max;
    }

    method SetLogEnabled(b: bool)
      modifies this`logEnabled
      ensures logEnabled == b
    {
      logEnabled := b;
    }

    /** A null listener throws; any other is appended to the listeners. */
    method AddCacheListener(listener: Option<Listener>) returns (r: Outcome)
      modifies this`listeners
      ensures listener.None? ==> r == Fail(NullPointer) && listeners == old(listeners)
      ensures listener.Some? ==> r == Pass && listeners == old(listeners) + [listener.value]
    {
      if listener.None? {
        return Fail(NullPointer);
      }
      listeners := listeners + [listener.value];
      return Pass;
    }

    /**
     * A null key gives null and changes nothing; any other key is looked up in the state, with
     * the hit or miss counted (as a Java int) and the matching notification.
     */
    method Get(name: Option<K>, now: int) returns (r: Option<V>)
      requires Valid()
      modifies this`hits, this`misses, this`events, state, state.queue
      ensures Valid() && state == old(state)
      ensures r == (if name.Some? then Lookup(old(state.entries), name.value, now) else None)
      ensures name.None? || name.value !in old(state.entries) ==>
                state.entries == old(state.entries) && state.queue.items == old(state.queue.items) &&
                hits == old(hits) && misses == old(misses) && events == old(events)
      ensures name.Some? && name.value in old(state.entries) && old(state.entries[name.value]).IsValid(now) ==>
                state.entries == old(state.entries) && state.queue.items == old(state.queue.items) &&
                hits == WrapInt(old(hits) + 1) && misses == old(misses) &&
                events == old(events) + [CacheEvent.OnGet(name.value, old(state.entries[name.value]).obj)]
      ensures name.Some? && name.value in old(state.entries) && !old(state.entries[name.value]).IsValid(now) ==>
                state.entries == old(state.entries) - {name.value} &&
                state.queue.items == Without(old(state.queue.items), old(state.entries[name.value])) &&
                hits == old(hits) && misses == WrapInt(old(misses) + 1) &&
                events == old(events) + [CacheEvent.OnExpire(name.value, old(state.entries[name.value]).obj)]
    {
      if name.None? {
        return None;
      }
      r := state.Get(this, name.value, now);
    }

    /**
     * A null key throws. With live time 0 nothing is stored. Otherwise the key is bound to a fresh
     * newest entry `ref` expiring at `ExpirationTime(liveTimeMillis, now)`, the key's previous
     * entry is unqueued, and the oldest entries beyond `maxSize` are evicted with one expiration
     * notification each, before the put is notified.
     */
    method Put(name: Option<K>, obj: V, now: int) returns (r: Outcome, ghost ref: SimpleObjectRef?<K, V>)
      requires Valid() && maxSize >= 0
      modifies this`events, state, state.queue
      ensures Valid() && state == old(state)
      ensures name.None? ==> r == Fail(NullPointer)
      ensures name.Some? ==> r == Pass
      ensures name.None? || liveTimeMillis == 0 ==>
                state.entries == old(state.entries) && state.queue.items == old(state.queue.items) && events == old(events)
      ensures name.Some? && liveTimeMillis != 0 ==>
                ref != null && fresh(ref) && ref.name == name.value && ref.obj == obj &&
                ref.expirationTime == ExpirationTime(liveTimeMillis, now) &&
                state.queue.items == Kept(Promoted(old(state.queue.items), old(state.entries), ref), maxSize) &&
                state.entries == EvictFrom(old(state.entries)[name.value := ref],
                                           Evicted(Promoted(old(state.queue.items), old(state.entries), ref), maxSize)) &&
                events == old(events) + ExpireEvents(Evicted(Promoted(old(state.queue.items), old(state.entries), ref), maxSize)) +
                          [CacheEvent.OnPut(name.value, obj)]
      ensures name.Some? && liveTimeMillis != 0 ==>
                |state.queue.items| <= maxSize &&
                (maxSize > 0 ==>
                   name.value in state.entries && state.entries[name.value] == ref && state.queue.items[0] == ref)
      ensures name.Some? && liveTimeMillis != 0 && maxSize > 0 && now < ExpirationTime(liveTimeMillis, now) ==>
                Lookup(state.entries, name.value, now) == Some(obj)
    {
      ref := null;
      if name.None? {
        return Fail(NullPointer), ref;
      }
      if liveTimeMillis != 0 {
        var expirationTime := ExpirationTime(liveTimeMillis, now);
        ref := state.Put(this, expirationTime, name.value, obj);
      }
      return Pass, ref;
    }

    /**
     * A null map throws NullPointerException and a null key IllegalArgumentException, both before
     * anything is stored. Otherwise every entry is put, in the map's unspecified order, with one
     * expiration time computed up front (without `put`'s live-time-0 guard). When the entries fit
     * in `maxSize` they are all present afterwards.
     */
    method PutMap(objs: Option<map<Option<K>, V>>, now: int) returns (r: Outcome)
      requires Valid() && maxSize >= 0
      modifies this`events, state, state.queue
      ensures Valid() && state == old(state)
      ensures objs.None? ==> r == Fail(NullPointer)
      ensures objs.Some? && None in objs.value ==> r == Fail(IllegalArgument)
      ensures objs.Some? && None !in objs.value ==> r == Pass
      ensures r != Pass ==>
                state.entries == old(state.entries) && state.queue.items == old(state.queue.items) && events == old(events)
      ensures r == Pass && |objs.value| <= maxSize ==>
                forall key :: key in objs.value ==>
                  key.Some? && key.value in state.entries && state.entries[key.value].obj == objs.value[key] &&
                  state.entries[key.value].expirationTime == ExpirationTime(liveTimeMillis, now)
    {
      if objs.None? {
        return Fail(NullPointer);
      }
      var m := objs.value;
      var expirationTime := ExpirationTime(liveTimeMillis, now);
      if None in m {
        return Fail(IllegalArgument);
      }
      var keys := m.Keys;
      ghost var done: set<K> := {};
      while keys != {}
        invariant Valid() && state == old(state)
        invariant keys <= m.Keys
        invariant forall key :: key in m ==> key in keys || key.value in done
        invariant forall k :: k in done ==> Some(k) in m && Some(k) !in keys
        invariant |done| + |keys| == |m|
        invariant |m| <= maxSize ==> StoredRecent(state.entries, state.queue.items, m, done, expirationTime)
        decreases |keys|
      {
        var key :| key in keys;
        var k := key.value;
        ghost var q0 := state.queue.items;
        ghost var m0 := state.entries;
        assert k !in done;
        ghost var ref := state.Put(this, expirationTime, k, m[key]);
        if |m| <= maxSize {
          PutMapStep(m0, q0, state.entries, state.queue.items, ref, maxSize, m, done, k, expirationTime);
        }
        keys := keys - {key};
        done := done + {k};
      }
      if |m| <= maxSize {
        forall key | key in m
          ensures key.Some? && key.value in state.entries && state.entries[key.value].obj == m[key] &&
                  state.entries[key.value].expirationTime == expirationTime
        {
          assert key.value in done;
        }
      }
      r := Pass;
    }

    /**
     * A null key throws and changes nothing. Any other key is removed from the state: a valid
     * entry gives its value with a removal notification, an expired one null with an expiration
     * notification, and an absent key null with no notification.
     */
    method Remove(name: Option<K>, now: int) returns (r: Result<Option<V>>)
      requires Valid()
      modifies this`events, state, state.queue
      ensures Valid() && state == old(state)
      ensures name.None? ==>
                r == Failure(NullPointer) && state.entries == old(state.entries) &&
                state.queue.items == old(state.queue.items) && events == old(events)
      ensures name.Some? ==> r == Success(Lookup(old(state.entries), name.value, now))
      ensures name.Some? && name.value !in old(state.entries) ==>
                state.entries == old(state.entries) && state.queue.items == old(state.queue.items) && events == old(events)
      ensures name.Some? && name.value in old(state.entries) ==>
                state.entries == old(state.entries) - {name.value} &&
                state.queue.items == Without(old(state.queue.items), old(state.entries[name.value])) &&
                events == old(events) +
                  [if old(state.entries[name.value]).IsValid(now) then CacheEvent.OnRemove(name.value, old(state.entries[name.value]).obj)
                   else CacheEvent.OnExpire(name.value, old(state.entries[name.value]).obj)]
    {
      if name.None? {
        return Failure(NullPointer);
      }
      var v := state.Remove(this, name.value, now);
      return Success(v);
    }

    /** The values of the entries valid at `now`, in the map's unspecified iteration order `order`. */
    method GetCachedObjects(now: int) returns (list: seq<V>, ghost order: seq<K>)
      ensures multiset(order) == multiset(state.entries.Keys)
      ensures list == ValidObjects(state.entries, order, now)
    {
      list := [];
      order := [];
      var keys := state.entries.Keys;
      while keys != {}
        invariant keys <= state.entries.Keys
        invariant multiset(order) + multiset(keys) == multiset(state.entries.Keys)
        invariant list == ValidObjects(state.entries, order, now)
        decreases |keys|
      {
        var k :| k in keys;
        var objectRef := state.entries[k];
        var obj := objectRef.GetObject();
        ValidObjectsSnoc(state.entries, order, k, now);
        if objectRef.IsValid(now) {
          list := list + [obj];
        }
        order := order + [k];
        keys := keys - {k};
      }
    }

    /** The values of the valid entries, then a clear. */
    method RemoveCachedObjects(now: int) returns (list: seq<V>, ghost order: seq<K>)
      modifies this`state
      ensures multiset(order) == multiset(old(state.entries).Keys)
      ensures list == ValidObjects(old(state.entries), order, now)
      ensures fresh(state) && fresh(state.queue) && state.Valid()
      ensures state.entries == map[] && state.queue.items == []
    {
      list, order := GetCachedObjects(now);
      ClearCache();
    }

    /** Swaps in an empty state; the hit and miss counters are kept. */
    method ClearCache()
      modifies this`state
      ensures fresh(state) && fresh(state.queue) && state.Valid()
      ensures state.entries == map[] && state.queue.items == []
    {
      state := new CacheState();
    }

    /** The number of queued entries, which in the quiescent state is the number of mapped keys. */
    function GetCacheSize(): (n: int)
      reads this, state, state.queue
      ensures Valid() ==> n == |state.queue.items|
    {
      state.queue.Size()
    }

    function GetCacheHit(): int
      reads this
    {
      hits
    }

    function GetCacheMiss(): int
      reads this
    {
      misses
    }
  }

  /** In the quiescent state the reported cache size is the number of mapped keys. */
  lemma CacheSizeIsMapSize<K(!new), V>(c: ConcurrentFIFOExoCache<K, V>)
    requires c.Valid()
    ensures c.GetCacheSize() == |c.state.entries|
  {
    ConsistentWhenValid(c.state);
  }

  /** After a clear, the size is 0 and every lookup misses. */
  lemma ClearedCacheEmpty<K(!new), V>(c: ConcurrentFIFOExoCache<K, V>, k: K, now: int)
    requires c.Valid() && c.state.entries == map[] && c.state.queue.items == []
    ensures c.GetCacheSize() == 0
    ensures Lookup(c.state.entries, k, now) == None
  {
  }
}
