/**
 Sequences of cache operations, each at its own time, and the invariants
 every such sequence keeps.
 */
module CacheTrace {
  import opened Wrappers
  import opened Time
  import opened ExpiringCache

  /** One call on the cache. A removal discards its out-parameters. */
  datatype Op<K, V> =
    | SetOp(key: K, value: V, timeStamp: Option<Ticks>)
    | RemoveOp(key: K)
    | SweepOp
    | DisposeOp

  /** An operation and the clock reading when it runs. */
  datatype TimedOp<K, V> = TimedOp(op: Op<K, V>, now: Ticks)

  /** The cache after one operation; `zero` is `default(TValue)`. */
  function Apply<K, V>(c: Cache<K, V>, t: TimedOp<K, V>, zero: V): Cache<K, V> {
    match t.op
    case SetOp(key, value, timeStamp) => Set(c, key, value, timeStamp, t.now)
    case RemoveOp(key) => TryRemove(c, key, zero).cache
    case SweepOp => Sweep(c, t.now)
    case DisposeOp => Dispose(c)
  }

  /** The cache after a sequence of operations, applied in order. */
  function Run<K, V>(c: Cache<K, V>, ops: seq<TimedOp<K, V>>, zero: V): Cache<K, V>
    decreases |ops|
  {
    if |ops| == 0 then c else Run(Apply(c, ops[0], zero), ops[1..], zero)
  }

  /** The entry a `Set` at position `i` of `ops` stores for `key`, if it is one. */
  ghost predicate WrittenAt<K, V>(ops: seq<TimedOp<K, V>>, i: int, key: K, e: Entry<V>)
    requires 0 <= i < |ops|
  {
    && ops[i].op.SetOp?
    && ops[i].op.key == key
    && e == MakeEntry(ops[i].op.value, ops[i].op.timeStamp, ops[i].now)
  }

  /** Once disposed, a cache stays disposed whatever follows: later writes,
      removals and sweeps never restart the background sweep. */
  lemma {:induction false} DisposalIsPermanent<K, V>(c: Cache<K, V>, ops: seq<TimedOp<K, V>>, zero: V)
    requires c.cancelled
    ensures Run(c, ops, zero).cancelled
    decreases |ops|
  {
    if |ops| > 0 {
      DisposalIsPermanent(Apply(c, ops[0], zero), ops[1..], zero);
    }
  }

  /** No sequence of operations changes the time-to-live, so a cache that was
      validly constructed stays valid. */
  lemma {:induction false} RunKeepsTimeToLive<K, V>(c: Cache<K, V>, ops: seq<TimedOp<K, V>>, zero: V)
    ensures Run(c, ops, zero).expireItemsAfter == c.expireItemsAfter
    ensures Valid(c) ==> Valid(Run(c, ops, zero))
    decreases |ops|
  {
    if |ops| > 0 {
      RunKeepsTimeToLive(Apply(c, ops[0], zero), ops[1..], zero);
    }
  }

  /** Entries are never altered in place: every entry after a sequence of
      operations is either one that was there at the start or exactly the
      value-and-timestamp pair some `Set` in the sequence stored for its key. */
  lemma {:induction false} EntriesComeFromWrites<K, V>(c: Cache<K, V>, ops: seq<TimedOp<K, V>>, zero: V, key: K)
    requires key in Run(c, ops, zero).entries
    ensures var e := Run(c, ops, zero).entries[key];
            (key in c.entries && e == c.entries[key])
            || exists i :: 0 <= i < |ops| && WrittenAt(ops, i, key, e)
    decreases |ops|
  {
    if |ops| > 0 {
      var c' := Apply(c, ops[0], zero);
      var e := Run(c, ops, zero).entries[key];
      assert Run(c, ops, zero) == Run(c', ops[1..], zero);
      EntriesComeFromWrites(c', ops[1..], zero, key);
      if key in c'.entries && e == c'.entries[key] {
        if !(key in c.entries && e == c.entries[key]) {
          assert WrittenAt(ops, 0, key, e);
        }
      } else {
        var j :| 0 <= j < |ops[1..]| && WrittenAt(ops[1..], j, key, e);
        assert WrittenAt(ops, j + 1, key, e);
      }
    }
  }

  /** A sweep at `now` leaves nothing strictly older than `now` minus the
      time-to-live, whatever ran before it. */
  lemma NothingStaleAfterSweep<K, V>(c: Cache<K, V>, ops: seq<TimedOp<K, V>>, zero: V, now: Ticks)
    ensures var r := Run(c, ops + [TimedOp(SweepOp, now)], zero);
            forall k :: k in r.entries ==> r.entries[k].timeStamp >= now - c.expireItemsAfter
  {
    RunSplits(c, ops, [TimedOp(SweepOp, now)], zero);
    RunKeepsTimeToLive(c, ops, zero);
  }

  /** Running two sequences one after the other is running their concatenation. */
  lemma {:induction false} RunSplits<K, V>(c: Cache<K, V>, ops1: seq<TimedOp<K, V>>, ops2: seq<TimedOp<K, V>>, zero: V)
    ensures Run(c, ops1 + ops2, zero) == Run(Run(c, ops1, zero), ops2, zero)
    decreases |ops1|
  {
    if |ops1| > 0 {
      assert (ops1 + ops2)[1..] == ops1[1..] + ops2;
      RunSplits(Apply(c, ops1[0], zero), ops1[1..], ops2, zero);
    } else {
      assert ops1 + ops2 == ops2;
    }
  }
}
