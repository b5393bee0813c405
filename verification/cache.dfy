/**
 The expiring cache that backs the event-pair correlation: a key -> (value,
 timestamp) map with a fixed time-to-live, swept for stale entries.

 The model is sequential. The concurrent dictionary becomes an immutable
 `map`, every operation a pure function from the old state to the new one,
 and the clock (`DateTime.UtcNow`) an explicit `now` argument.
 */
module ExpiringCache {
  import opened Wrappers
  import opened Time

  /** What the cache stores per key: the value and the time it was stored. */
  datatype Entry<V> = Entry(value: V, timeStamp: Ticks)

  /** The cache: its entries, its time-to-live and whether the background
      sweep has been asked to stop. */
  datatype Cache<K, V> = Cache(entries: map<K, Entry<V>>, expireItemsAfter: Ticks, cancelled: bool)

  /** The constructor parameter an argument exception names. */
  datatype Parameter = ExpireItemsAfter | Capacity

  /** The exceptions construction throws: a zero time-to-live, then a
      negative capacity hint rejected by the underlying dictionary. */
  datatype CacheError =
    | ArgumentNull(paramName: Parameter)
    | ArgumentOutOfRange(paramName: Parameter)

  /** Every operation keeps the configured time-to-live nonzero. */
  predicate Valid<K, V>(c: Cache<K, V>) {
    c.expireItemsAfter != 0
  }

  /** Constructs an empty cache. Only a zero time-to-live is rejected; a
      negative one is accepted. The time-to-live is tested first; only then
      does the dictionary reject a negative capacity hint. A valid hint
      leaves no trace in the model's state. */
  function New<K, V>(expireItemsAfter: Ticks, initialCapacity: int): (r: Result<Cache<K, V>, CacheError>)
    ensures r.Failure? <==> expireItemsAfter == 0 || initialCapacity < 0
    ensures expireItemsAfter == 0 ==> r == Failure(ArgumentNull(ExpireItemsAfter))
    ensures expireItemsAfter != 0 && initialCapacity < 0 ==> r == Failure(ArgumentOutOfRange(Capacity))
    ensures r.Success? ==> Valid(r.value) && r.value.entries == map[]
    ensures r.Success? ==> r.value.expireItemsAfter == expireItemsAfter && !r.value.cancelled
  {
    if expireItemsAfter == 0 then Failure(ArgumentNull(ExpireItemsAfter))
    else if initialCapacity < 0 then Failure(ArgumentOutOfRange(Capacity))
    else Success(Cache(map[], expireItemsAfter, false))
  }

  /** The stored entry: the supplied timestamp, or the current time when
      none is supplied. */
  function MakeEntry<V>(value: V, timeStamp: Option<Ticks>, now: Ticks): (e: Entry<V>)
    ensures e.value == value
    ensures timeStamp.None? ==> e.timeStamp == now
    ensures timeStamp.Some? ==> e.timeStamp == timeStamp.value
  {
    match timeStamp
    case Some(t) => Entry(value, t)
    case None => Entry(value, now)
  }

  /** The dictionary's add-if-absent primitive: whether it added, and the map after. */
  function TryAdd<K, V>(m: map<K, Entry<V>>, key: K, e: Entry<V>): (r: (bool, map<K, Entry<V>>))
    ensures r.0 <==> key !in m
    ensures r.0 ==> r.1 == m[key := e]
    ensures !r.0 ==> r.1 == m
  {
    if key in m then (false, m) else (true, m[key := e])
  }

  /** Inserts or overwrites. The source first tries to add; if the key is
      already there it removes the old entry and adds again. */
  function Set<K, V>(c: Cache<K, V>, key: K, value: V, timeStamp: Option<Ticks>, now: Ticks): (r: Cache<K, V>)
    ensures r.entries.Keys == c.entries.Keys + {key}
    ensures r.entries[key].value == value
    ensures r.entries[key].timeStamp == (if timeStamp.Some? then timeStamp.value else now)
    ensures forall k :: k in c.entries && k != key ==> k in r.entries && r.entries[k] == c.entries[k]
    ensures r.expireItemsAfter == c.expireItemsAfter && r.cancelled == c.cancelled
  {
    var entry := MakeEntry(value, timeStamp, now);
    var (added, m) := TryAdd(c.entries, key, entry);
    if added then c.(entries := m)
    else
      var (_, m') := TryAdd(c.entries - {key}, key, entry);
      c.(entries := m')
  }

  /** The result of a lookup: the flag and the two out-parameters. The value
      out-parameter is nullable, so a miss reports `None`. */
  datatype Probe<V> = Probe(found: bool, value: Option<V>, timeStamp: Ticks)

  /** Non-mutating lookup. */
  function TryGetValue<K, V>(c: Cache<K, V>, key: K): (r: Probe<V>)
    ensures r.found <==> key in c.entries
    ensures r.found ==> r.value == Some(c.entries[key].value) && r.timeStamp == c.entries[key].timeStamp
    ensures !r.found ==> r.value == None && r.timeStamp == DefaultTimeStamp
  {
    if key in c.entries then Probe(true, Some(c.entries[key].value), c.entries[key].timeStamp)
    else Probe(false, None, DefaultTimeStamp)
  }

  /** The result of a removal: the cache after it, the flag and the two
      out-parameters. */
  datatype Removal<K, V> = Removal(cache: Cache<K, V>, found: bool, value: V, timeStamp: Ticks)

  /** Remove-and-return. `zero` is `default(TValue)`, reported on a miss
      (the value type has no default in the model, so the caller supplies it). */
  function TryRemove<K, V>(c: Cache<K, V>, key: K, zero: V): (r: Removal<K, V>)
    ensures r.found <==> key in c.entries
    ensures r.cache.entries.Keys == c.entries.Keys - {key}
    ensures forall k :: k in r.cache.entries ==> r.cache.entries[k] == c.entries[k]
    ensures r.found ==> r.value == c.entries[key].value && r.timeStamp == c.entries[key].timeStamp
    ensures !r.found ==> r.cache == c && r.value == zero && r.timeStamp == DefaultTimeStamp
    ensures r.cache.expireItemsAfter == c.expireItemsAfter && r.cache.cancelled == c.cancelled
  {
    if key in c.entries then
      Removal(c.(entries := c.entries - {key}), true, c.entries[key].value, c.entries[key].timeStamp)
    else
      Removal(c, false, zero, DefaultTimeStamp)
  }

  /** Stops the background sweep: only the cancellation flag changes. */
  function Dispose<K, V>(c: Cache<K, V>): (r: Cache<K, V>)
    ensures r.cancelled
    ensures r.entries == c.entries && r.expireItemsAfter == c.expireItemsAfter
  {
    c.(cancelled := true)
  }

  /** The oldest timestamp a sweep at `now` keeps. */
  function EarliestAddedTime<K, V>(c: Cache<K, V>, now: Ticks): Ticks {
    now - c.expireItemsAfter
  }

  /** An entry is stale when it is strictly older than the boundary. */
  predicate Expired<V>(e: Entry<V>, earliestAddedTime: Ticks) {
    e.timeStamp < earliestAddedTime
  }

  /** What a sweep at `now` leaves behind: every entry that is not stale. */
  function Sweep<K, V>(c: Cache<K, V>, now: Ticks): (r: Cache<K, V>)
    ensures r.entries.Keys <= c.entries.Keys
    ensures forall k :: k in r.entries ==> r.entries[k] == c.entries[k]
    ensures forall k :: k in c.entries ==>
              (k in r.entries <==> c.entries[k].timeStamp >= now - c.expireItemsAfter)
    ensures r.expireItemsAfter == c.expireItemsAfter && r.cancelled == c.cancelled
  {
    var earliest := EarliestAddedTime(c, now);
    c.(entries := map k | k in c.entries && !Expired(c.entries[k], earliest) :: c.entries[k])
  }

  /** The sweep as the source performs it: over a snapshot of the keys, look
      each one up again and remove it when it is stale. It leaves exactly the
      entries `Sweep` leaves. */
  method CleanupExpiredValues<K, V>(c: Cache<K, V>, now: Ticks) returns (r: Cache<K, V>)
    ensures forall k :: k in r.entries <==> k in c.entries && c.entries[k].timeStamp >= now - c.expireItemsAfter
    ensures forall k :: k in r.entries ==> r.entries[k] == c.entries[k]
    ensures r.expireItemsAfter == c.expireItemsAfter && r.cancelled == c.cancelled
  {
    var earliestAddedTime := EarliestAddedTime(c, now);
    var entries := c.entries;
    var keys := c.entries.Keys;
    while keys != {}
      invariant keys <= entries.Keys
      invariant forall k :: k in entries ==> k in c.entries && entries[k] == c.entries[k]
      invariant forall k :: k in c.entries && k !in keys ==> (k in entries <==> !Expired(c.entries[k], earliestAddedTime))
      decreases keys
    {
      var key :| key in keys;
      keys := keys - {key};
      if key in entries && Expired(entries[key], earliestAddedTime) {
        entries := entries - {key};
      }
    }
    r := c.(entries := entries);
  }

  // Properties relating several operations.

  /** The loop's characterisation pins the result down: a cache with the same
      settings whose entries are exactly the non-stale ones is `Sweep(c, now)`,
      so `CleanupExpiredValues` computes `Sweep`. */
  lemma SweepDeterminedByEntries<K, V>(c: Cache<K, V>, now: Ticks, r: Cache<K, V>)
    requires forall k :: k in r.entries <==> k in c.entries && c.entries[k].timeStamp >= now - c.expireItemsAfter
    requires forall k :: k in r.entries ==> r.entries[k] == c.entries[k]
    requires r.expireItemsAfter == c.expireItemsAfter && r.cancelled == c.cancelled
    ensures r == Sweep(c, now)
  {
  }

  /** The source's sweep loop computes the declarative sweep. */
  method CleanupComputesSweep<K, V>(c: Cache<K, V>, now: Ticks) returns (r: Cache<K, V>)
    ensures r == Sweep(c, now)
  {
    r := CleanupExpiredValues(c, now);
    SweepDeterminedByEntries(c, now, r);
  }

  /** After a `Set`, a lookup of that key finds exactly what was written,
      whether the key was absent or present before. */
  lemma SetThenGet<K, V>(c: Cache<K, V>, key: K, value: V, timeStamp: Option<Ticks>, now: Ticks)
    ensures TryGetValue(Set(c, key, value, timeStamp, now), key)
            == Probe(true, Some(value), MakeEntry(value, timeStamp, now).timeStamp)
    ensures timeStamp.None? ==> TryGetValue(Set(c, key, value, timeStamp, now), key).timeStamp == now
  {
  }

  /** A `Set` on one key is invisible to lookups of every other key. */
  lemma SetLeavesOtherKeys<K, V>(c: Cache<K, V>, key: K, value: V, timeStamp: Option<Ticks>, now: Ticks, other: K)
    requires other != key
    ensures TryGetValue(Set(c, key, value, timeStamp, now), other) == TryGetValue(c, other)
  {
  }

  /** Two writes to the same key: the second one wins outright. */
  lemma LastWriteWins<K, V>(c: Cache<K, V>, key: K, v1: V, t1: Option<Ticks>, now1: Ticks,
                            v2: V, t2: Option<Ticks>, now2: Ticks)
    ensures Set(Set(c, key, v1, t1, now1), key, v2, t2, now2) == Set(c, key, v2, t2, now2)
  {
  }

  /** Removing a key just written returns the written entry and leaves the
      cache as it was before the write, minus that key. */
  lemma SetThenRemove<K, V>(c: Cache<K, V>, key: K, value: V, timeStamp: Ticks, now: Ticks, zero: V)
    ensures TryRemove(Set(c, key, value, Some(timeStamp), now), key, zero)
            == Removal(c.(entries := c.entries - {key}), true, value, timeStamp)
  {
  }

  /** A removal consumes the entry: removing the same key again misses and
      reports the defaults. */
  lemma RemoveTwice<K, V>(c: Cache<K, V>, key: K, zero: V)
    ensures var first := TryRemove(c, key, zero);
            TryRemove(first.cache, key, zero) == Removal(first.cache, false, zero, DefaultTimeStamp)
  {
  }

  /** Sweeping twice at the same time removes nothing the first sweep kept. */
  lemma SweepIdempotent<K, V>(c: Cache<K, V>, now: Ticks)
    ensures Sweep(Sweep(c, now), now) == Sweep(c, now)
  {
  }

  /** A later sweep subsumes an earlier one: the earlier one makes no difference. */
  lemma LaterSweepSubsumes<K, V>(c: Cache<K, V>, earlier: Ticks, later: Ticks)
    requires earlier <= later
    ensures Sweep(Sweep(c, earlier), later) == Sweep(c, later)
  {
  }

  /** The eviction boundary: an entry written at `timeStamp` survives a sweep
      at `now` exactly when it is not older than `now` minus the time-to-live,
      so an entry exactly at the boundary stays. */
  lemma SweepBoundary<K, V>(c: Cache<K, V>, key: K, value: V, timeStamp: Ticks, setAt: Ticks, now: Ticks)
    ensures var swept := Sweep(Set(c, key, value, Some(timeStamp), setAt), now);
            TryGetValue(swept, key).found <==> timeStamp >= now - c.expireItemsAfter
    ensures var swept := Sweep(Set(c, key, value, Some(timeStamp), setAt), now);
            TryGetValue(swept, key).found ==> TryGetValue(swept, key) == Probe(true, Some(value), timeStamp)
  {
  }

  /** Disposing twice is the same as disposing once. */
  lemma DisposeIdempotent<K, V>(c: Cache<K, V>)
    ensures Dispose(Dispose(c)) == Dispose(c)
  {
  }

  /** Writes after disposal do not revive the sweep, and what they store
      stays visible. */
  lemma SetAfterDispose<K, V>(c: Cache<K, V>, key: K, value: V, timeStamp: Option<Ticks>, now: Ticks)
    ensures Set(Dispose(c), key, value, timeStamp, now).cancelled
    ensures TryGetValue(Set(Dispose(c), key, value, timeStamp, now), key).found
  {
  }

  /** No operation after construction changes the time-to-live, so every
      reachable cache keeps it nonzero. */
  lemma OperationsKeepValid<K, V>(c: Cache<K, V>, key: K, value: V, timeStamp: Option<Ticks>, now: Ticks, zero: V)
    requires Valid(c)
    ensures Valid(Set(c, key, value, timeStamp, now))
    ensures Valid(TryRemove(c, key, zero).cache)
    ensures Valid(Sweep(c, now))
    ensures Valid(Dispose(c))
  {
  }
}
