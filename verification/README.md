# Expiring cache and native-runtime event dispatch, in Dafny

This project models two sequential pieces of the runtime-metrics collector.

- **The expiring cache** (`ExpiringCache`, `cache.dfy`) stores key → (value, timestamp) with a fixed time-to-live. It is the storage behind the start/end correlation of runtime events. The state is an immutable `map` plus the time-to-live and the cancellation flag. `Set`, `TryGetValue`, `TryRemove`, `Dispose` and the sweep are pure functions of it. The clock is an explicit `now` argument, and timestamps and spans are integer ticks. The sweep is also written as the source's loop, `CleanupExpiredValues`: one pass over a snapshot of the keys, proved to compute the declarative `Sweep`. `CacheTrace` (`cache_trace.dfy`) runs sequences of timed operations. It proves invariants that hold over every such sequence.
- **The native-runtime event dispatcher** (`NativeRuntimeEventParser`, `native_runtime_event_parser.dfy`) covers `ProcessEvent`. Its input is one event (`NativeEvents`, `native_events.dfy`) with typed payload fields, plus the reading its pair timer would report. Its result is a `Step`: the timer consulted and under which correlation key, if any, and the single callback raised, if any. Because `Step` holds an `Option`, "at most one callback per event" holds by the type itself.

`wrappers.dfy` holds `Option`/`Result`. `time.dfy` holds the tick type and `default(DateTime)`.

Two behaviours of the code are easy to miss, and the model keeps both:
- The constructor rejects only a time-to-live of exactly zero. A negative one is accepted. The exception thrown is `ArgumentNullException`. A negative capacity hint is rejected afterwards, by the dictionary, with `ArgumentOutOfRangeException`.
- The contention flag byte is tested after the timer has been consulted. So a contention event from native code still goes to the contention timer, even though it raises nothing.

## Model

| member | source | states |
|---|---|---|
| ExpiringCache.New | System.Diagnostics.Runtime/Util/Cache.cs:15-21 | construction fails exactly when the time-to-live is zero (argument-null, tested first) or the capacity hint is negative (argument-out-of-range, from the dictionary); otherwise the cache is empty, not cancelled, and keeps that time-to-live |
| ExpiringCache.MakeEntry | System.Diagnostics.Runtime/Util/Cache.cs:77-81 | the stored timestamp is the supplied one, or the current time when none is supplied |
| ExpiringCache.Set | System.Diagnostics.Runtime/Util/Cache.cs:34-44 | after add-or-remove-then-add, the key is present with the new value and timestamp, the key set grows by that key only, and every other entry is unchanged |
| ExpiringCache.TryGetValue | System.Diagnostics.Runtime/Util/Cache.cs:46-59 | found iff the key is present, with its stored value and timestamp; on a miss the value is null and the timestamp is the default |
| ExpiringCache.TryRemove | System.Diagnostics.Runtime/Util/Cache.cs:61-73 | found iff the key is present; it returns the stored entry and removes only that key; on a miss the cache is unchanged and the outputs are the defaults |
| ExpiringCache.Dispose | System.Diagnostics.Runtime/Util/Cache.cs:87-90 | only the cancellation flag changes, and it becomes set |
| ExpiringCache.Sweep | System.Diagnostics.Runtime/Util/Cache.cs:92-104 | a key survives iff its timestamp is at or after now minus the time-to-live; surviving entries are unaltered and no key is added |
| ExpiringCache.CleanupExpiredValues | System.Diagnostics.Runtime/Util/Cache.cs:92-104 | the snapshot loop with its re-lookup and strict `<` test keeps a key iff its timestamp is at or after now minus the time-to-live, leaves survivors unaltered and keeps the settings |
| ExpiringCache.SweepDeterminedByEntries | System.Diagnostics.Runtime/Util/Cache.cs:92-104 | any cache meeting the sweep loop's postcondition equals `Sweep`, so the loop and the declarative sweep agree |
| ExpiringCache.CleanupComputesSweep | System.Diagnostics.Runtime/Util/Cache.cs:92-104 | the snapshot loop leaves exactly the cache the declarative `Sweep` describes |
| ExpiringCache.SetThenGet | System.Diagnostics.Runtime/Util/Cache.cs:34-59 | after `Set`, a lookup of that key finds the written value and timestamp, and the current time when no timestamp was given |
| ExpiringCache.SetLeavesOtherKeys | System.Diagnostics.Runtime/Util/Cache.cs:37-43 | a `Set` does not change the lookup result of any other key |
| ExpiringCache.LastWriteWins | System.Diagnostics.Runtime/Util/Cache.cs:37-43 | two writes to one key leave the same cache as the second write alone |
| ExpiringCache.SetThenRemove | System.Diagnostics.Runtime/Util/Cache.cs:34-73 | removing a key just written returns the written value and timestamp and leaves the earlier cache minus that key |
| ExpiringCache.RemoveTwice | System.Diagnostics.Runtime/Util/Cache.cs:61-73 | a second removal of the same key misses and reports the default value and timestamp |
| ExpiringCache.SweepIdempotent | System.Diagnostics.Runtime/Util/Cache.cs:92-104 | two sweeps at the same time have the effect of one |
| ExpiringCache.LaterSweepSubsumes | System.Diagnostics.Runtime/Util/Cache.cs:92-104 | an earlier sweep followed by a later one has the effect of the later one alone |
| ExpiringCache.SweepBoundary | System.Diagnostics.Runtime/Util/Cache.cs:94-102 | an entry written at time t survives a sweep at now iff t >= now - ttl, so the boundary itself is kept, and a survivor keeps its value and timestamp |
| ExpiringCache.DisposeIdempotent | System.Diagnostics.Runtime/Util/Cache.cs:87-90 | disposing twice is the same as disposing once |
| ExpiringCache.SetAfterDispose | System.Diagnostics.Runtime/Util/Cache.cs:34-44 | a write after disposal leaves the cache cancelled, and the written key can be found |
| ExpiringCache.OperationsKeepValid | System.Diagnostics.Runtime/Util/Cache.cs:12-19 | no operation changes the time-to-live, so it stays nonzero after construction |
| CacheTrace.DisposalIsPermanent | System.Diagnostics.Runtime/Util/Cache.cs:87-90 | once disposed, the cache stays disposed after any sequence of sets, removals, sweeps and disposals |
| CacheTrace.RunKeepsTimeToLive | System.Diagnostics.Runtime/Util/Cache.cs:12-19 | no sequence of operations changes the time-to-live, so a validly constructed cache stays valid |
| CacheTrace.EntriesComeFromWrites | System.Diagnostics.Runtime/Util/Cache.cs:75-85 | after any sequence of operations, every entry is either unchanged from the start or exactly the value and timestamp that some `Set` in the sequence stored for that key |
| CacheTrace.NothingStaleAfterSweep | System.Diagnostics.Runtime/Util/Cache.cs:92-104 | whatever ran before, a sweep at now leaves no entry older than now minus the time-to-live |
| NativeRuntimeEventParser.TimerRouting | System.Diagnostics.Runtime/EventListening/Parsers/NativeRuntimeEventParser.cs:14-28 | an event id routes to a timer iff it is that timer's start or end event, and no timer's start event is its end event |
| NativeRuntimeEventParser.CorrelationKeys | System.Diagnostics.Runtime/EventListening/Parsers/NativeRuntimeEventParser.cs:14-28 | contention keys are equal iff the OS threads are equal, GC keys iff the payload[0] counts are equal, and every pause event has the key 1 |
| NativeRuntimeEventParser.ProcessEvent | System.Diagnostics.Runtime/EventListening/Parsers/NativeRuntimeEventParser.cs:50-111 | an id outside the switch consults no timer and raises nothing; a consulted timer is the one routed for the id, under that timer's key; a callback is raised only by its own event family; a timed callback carries the timer's final, positive duration |
| NativeRuntimeEventParser.ReadingIgnoredWithoutTimer | System.Diagnostics.Runtime/EventListening/Parsers/NativeRuntimeEventParser.cs:52-111 | when no timer is consulted, the outcome does not depend on the timer reading |
| NativeRuntimeEventParser.ContentionEndRaised | System.Diagnostics.Runtime/EventListening/Parsers/NativeRuntimeEventParser.cs:66-75 | the contention timer is always consulted under the thread id; contention-end is raised, with the duration, iff the reading is final, the duration is positive and the flag byte is zero |
| NativeRuntimeEventParser.NonGcSuspensionDiscarded | System.Diagnostics.Runtime/EventListening/Parsers/NativeRuntimeEventParser.cs:77-83 | a SuspendEE consults the pause timer iff its reason has a bit of 0x1 or 0x6 set; otherwise nothing happens |
| NativeRuntimeEventParser.RestartEEEndConsultsPauseTimer | System.Diagnostics.Runtime/EventListening/Parsers/NativeRuntimeEventParser.cs:77-83 | a RestartEEEnd always consults the pause timer under key 1 |
| NativeRuntimeEventParser.PauseCompleteRaised | System.Diagnostics.Runtime/EventListening/Parsers/NativeRuntimeEventParser.cs:77-87 | pause-complete is raised, with the duration, iff the pause timer was consulted and gave a final reading with a positive duration |
| NativeRuntimeEventParser.GcCallbacks | System.Diagnostics.Runtime/EventListening/Parsers/NativeRuntimeEventParser.cs:90-104 | the GC timer is consulted under payload[0]; `Start` raises collection-start with payload[1..3]; a final reading with a positive duration raises collection-complete with payload[1] and the duration; every other reading raises nothing |
| NativeRuntimeEventParser.LargeObjectHeapBit | System.Diagnostics.Runtime/EventListening/Parsers/NativeRuntimeEventParser.cs:56-58 | the large-object flag test on bit 0x1 holds iff the allocation kind is odd |
| NativeRuntimeEventParser.AllocationTickRaised | System.Diagnostics.Runtime/EventListening/Parsers/NativeRuntimeEventParser.cs:54-61 | an allocation tick consults no timer and raises allocation-tick with payload[0], and its large-object flag is set iff payload[1] is odd |
| NativeRuntimeEventParser.HeapStatsForwarded | System.Diagnostics.Runtime/EventListening/Parsers/NativeRuntimeEventParser.cs:62-65 | heap statistics consult no timer and raise the heap-stats callback on the event itself |
| NativeRuntimeEventParser.ThreadPoolAdjustedForwarded | System.Diagnostics.Runtime/EventListening/Parsers/NativeRuntimeEventParser.cs:105-109 | a thread-pool adjustment consults no timer and raises thread-pool-adjusted with payload[1] and payload[2] |
| NativeRuntimeEventParser.Keywords | System.Diagnostics.Runtime/EventListening/Parsers/NativeRuntimeEventParser.cs:45-48 | the subscribed keywords are exactly the keywords of the events the switch handles |

## Left out

- The background sweep loop (`Task.Run`, `Task.Delay`, the cancellation check; Cache.cs:24-31) is asynchronous scheduling. The sweep is an explicit operation, and disposal only sets a flag.
- Concurrency of the concurrent dictionary is not modelled. The model is sequential. It omits the window between the remove and the re-add in `Set`, and writers interleaving with a sweep. In the model the sweep's re-lookup always succeeds.
- `DateTime.UtcNow` is a `now` parameter. The dictionary's concurrency level (`Environment.ProcessorCount`) is ignored; it is always at least one, so it never makes the constructor throw. A capacity hint that is not negative leaves no trace in the model's state. `DateTime` range limits are not modelled, so the exception `Subtract` could throw near `DateTime.MinValue` is absent.
- `EventPairTimer` is not part of this model. Its `(DurationResult, duration)` is an input to the dispatcher. The model's `DurationResult` has the outcomes `Start`, `FinalWithDuration` and `Unmatched`.
- NativeRuntimeEventParser.ProcessEvent: it requires that the GC timer not call a GcEnd a start. A GcEnd payload has no reason or type at payload[2..3], so the source would throw there. Malformed payloads, which make the source's unchecked casts throw, are excluded by `WellFormed` in the same way.
- `NativeRuntimeEventSource` is not part of this model. Event ids and keywords are symbolic, not their numeric values. The keyword of each event follows the runtime's event manifest: GC events under GC, contention under Contention, thread-pool adjustment under Threading.
- `EventWrittenEventArgs` boxing and the construction of `HeapStatsEvent(e)` are not modelled. Payload fields arrive as typed integers, and the heap-stats callback carries the event unchanged.
- Multicast delegate invocation and subscription are not modelled: a raised callback is a returned value.
- The `#if` variants for .NET 7 and later (no pause timer) and for .NET Framework are not modelled.
- The thread-pool scheduling parser forwards two event ids to parameterless callbacks. There is nothing in it to verify.
