/**
 The native-runtime event dispatcher: from one event, and from what its pair
 timer reports when it is consulted, decide which timer is consulted (and
 under which correlation key) and which single callback, if any, is raised.

 The pair timer is not modelled: its reading is an input. A raised callback
 is a returned value instead of a delegate invocation. The build modelled is
 the one before .NET 7, which has the pause timer.
 */
module NativeRuntimeEventParser {
  import opened Wrappers
  import opened Time
  import opened NativeEvents

  /** Suspension reasons that count as a GC pause: 0x1 (garbage collection)
      and 0x6 (preparation for garbage collection). */
  const SuspendGcReasons: bv32 := 0x1 | 0x6

  /** The allocation-kind bit of a large-object-heap allocation. */
  const LohHeapFlag: bv32 := 0x1

  /** The parser's three pair timers. */
  datatype PairTimer = ContentionTimer | GcTimer | PauseTimer

  /** The start event each timer is constructed with. */
  function StartEventOf(t: PairTimer): EventId {
    match t
    case ContentionTimer => ContentionStart
    case GcTimer => GcStart
    case PauseTimer => SuspendEE
  }

  /** The end event each timer is constructed with. */
  function EndEventOf(t: PairTimer): EventId {
    match t
    case ContentionTimer => ContentionStop
    case GcTimer => GcEnd
    case PauseTimer => RestartEEEnd
  }

  /** The timer the switch consults for an event id, if any. */
  function TimerOf(id: EventId): Option<PairTimer> {
    match id
    case ContentionStart => Some(ContentionTimer)
    case ContentionStop => Some(ContentionTimer)
    case SuspendEE => Some(PauseTimer)
    case RestartEEEnd => Some(PauseTimer)
    case GcStart => Some(GcTimer)
    case GcEnd => Some(GcTimer)
    case _ => None
  }

  /** The key selector each timer is constructed with. Suspensions and
      resumptions never overlap, so the pause timer uses one constant key. */
  function CorrelationKey(t: PairTimer, e: Event): int
    requires WellFormed(e) && TimerOf(e.id) == Some(t)
  {
    match t
    case ContentionTimer => e.osThreadId
    case GcTimer => e.payload.count as int
    case PauseTimer => 1
  }

  /** What a pair timer reports about one event. */
  datatype DurationResult = Start | FinalWithDuration | Unmatched

  /** A timer's report: the classification and the duration out-parameter. */
  datatype TimerReading = TimerReading(result: DurationResult, duration: Ticks)

  /** A consultation of one timer under one correlation key. */
  datatype TimerQuery = TimerQuery(timer: PairTimer, key: int)

  /** The callbacks the parser raises, with the fields it passes. */
  datatype NativeEvent =
    | AllocationTickEvent(allocatedBytes: uint32, isLargeObjectHeap: bool)
    | HeapStatsEvent(source: Event)
    | ContentionEndEvent(contentionDuration: Ticks)
    | PauseCompleteEvent(pauseDuration: Ticks)
    | CollectionStartEvent(generation: uint32, gcReason: uint32, gcType: uint32)
    | CollectionCompleteEvent(generation: uint32, gcDuration: Ticks)
    | ThreadPoolAdjustedReasonEvent(numThreads: uint32, adjustmentReason: uint32)

  /** The outcome of dispatching one event: the timer consulted, if any, and
      the callback raised, if any. At most one callback by construction. */
  datatype Step = Step(consulted: Option<TimerQuery>, raised: Option<NativeEvent>)

  /** The event ids the switch has a case for. */
  const HandledEventIds: set<EventId> :=
    {AllocTick, HeapStats, ContentionStart, ContentionStop, SuspendEE, RestartEEEnd,
     GcStart, GcEnd, ThreadPoolAdjustment}

  /** A suspension is kept only when its reason has a GC pause bit set. */
  predicate IsGcSuspension(reason: uint32) {
    (reason as bv32) & SuspendGcReasons != 0
  }

  /** The large-object flag of an allocation tick. */
  predicate IsLargeObjectHeap(allocationKind: uint32) {
    (allocationKind as bv32) & LohHeapFlag == LohHeapFlag
  }

  /** The inputs the dispatcher can be given without the source throwing: a
      well-formed event, and a GC timer that does not call a GcEnd a start
      (a GcEnd payload has no reason or type to report). */
  predicate Admissible(e: Event, reading: TimerReading) {
    WellFormed(e) && (e.id == GcEnd ==> reading.result != Start)
  }

  /** Which events can raise which callback. */
  predicate RaisedBy(n: NativeEvent, id: EventId) {
    match n
    case AllocationTickEvent(_, _) => id == AllocTick
    case HeapStatsEvent(_) => id == HeapStats
    case ContentionEndEvent(_) => id == ContentionStart || id == ContentionStop
    case PauseCompleteEvent(_) => id == SuspendEE || id == RestartEEEnd
    case CollectionStartEvent(_, _, _) => id == GcStart
    case CollectionCompleteEvent(_, _) => id == GcStart || id == GcEnd
    case ThreadPoolAdjustedReasonEvent(_, _) => id == ThreadPoolAdjustment
  }

  /** The duration a timed callback carries. */
  function TimedDuration(n: NativeEvent): Option<Ticks> {
    match n
    case ContentionEndEvent(d) => Some(d)
    case PauseCompleteEvent(d) => Some(d)
    case CollectionCompleteEvent(_, d) => Some(d)
    case _ => None
  }

  /** The contention case: the timer is always consulted; the callback needs
      a final reading, a positive duration and managed contention (flags 0). */
  function ContentionCase(e: Event, reading: TimerReading): Step
    requires Admissible(e, reading) && (e.id == ContentionStart || e.id == ContentionStop)
  {
    var query := Some(TimerQuery(ContentionTimer, CorrelationKey(ContentionTimer, e)));
    if reading.result == FinalWithDuration && reading.duration > 0 && e.payload.contentionFlags == 0
    then Step(query, Some(ContentionEndEvent(reading.duration)))
    else Step(query, None)
  }

  /** The pause case: a suspension for a reason other than GC is discarded
      before the timer is consulted. */
  function PauseCase(e: Event, reading: TimerReading): Step
    requires Admissible(e, reading) && (e.id == SuspendEE || e.id == RestartEEEnd)
  {
    if e.id == SuspendEE && !IsGcSuspension(e.payload.reason) then
      Step(None, None)
    else
      var query := Some(TimerQuery(PauseTimer, CorrelationKey(PauseTimer, e)));
      if reading.result == FinalWithDuration && reading.duration > 0
      then Step(query, Some(PauseCompleteEvent(reading.duration)))
      else Step(query, None)
  }

  /** The GC case: a start raises the collection-start callback, a final
      reading with a positive duration the collection-complete one. */
  function GcCase(e: Event, reading: TimerReading): Step
    requires Admissible(e, reading) && (e.id == GcStart || e.id == GcEnd)
  {
    var query := Some(TimerQuery(GcTimer, CorrelationKey(GcTimer, e)));
    match reading.result
    case Start =>
      Step(query, Some(CollectionStartEvent(e.payload.depth, e.payload.reason, e.payload.gcType)))
    case FinalWithDuration =>
      if reading.duration > 0
      then Step(query, Some(CollectionCompleteEvent(e.payload.depth, reading.duration)))
      else Step(query, None)
    case Unmatched =>
      Step(query, None)
  }

  /** Dispatches one event. Each timer is consulted only from its own case,
      under its own key; every timed callback carries the timer's positive
      duration; an id outside the switch does nothing. */
  function ProcessEvent(e: Event, reading: TimerReading): (s: Step)
    requires Admissible(e, reading)
    ensures e.id !in HandledEventIds ==> s == Step(None, None)
    ensures s.consulted.Some? ==>
              TimerOf(e.id) == Some(s.consulted.value.timer)
              && s.consulted.value.key == CorrelationKey(s.consulted.value.timer, e)
    ensures s.raised.Some? ==> RaisedBy(s.raised.value, e.id)
    ensures s.raised.Some? && TimedDuration(s.raised.value).Some? ==>
              && s.consulted.Some?
              && reading.result == FinalWithDuration
              && TimedDuration(s.raised.value).value == reading.duration
              && reading.duration > 0
  {
    match e.id
    case AllocTick =>
      Step(None, Some(AllocationTickEvent(e.payload.allocationAmount, IsLargeObjectHeap(e.payload.allocationKind))))
    case HeapStats =>
      Step(None, Some(HeapStatsEvent(e)))
    case ContentionStart | ContentionStop =>
      ContentionCase(e, reading)
    case SuspendEE | RestartEEEnd =>
      PauseCase(e, reading)
    case GcStart | GcEnd =>
      GcCase(e, reading)
    case ThreadPoolAdjustment =>
      Step(None, Some(ThreadPoolAdjustedReasonEvent(e.payload.newWorkerThreadCount, e.payload.adjustmentReason)))
    case OtherEvent(_) =>
      Step(None, None)
  }

  /** The event-source keywords the parser's events are published under. */
  datatype Keyword = GC | Contention | Threading

  /** The keyword each handled event is published under. */
  function KeywordOf(id: EventId): Keyword
    requires id in HandledEventIds
  {
    match id
    case ContentionStart => Contention
    case ContentionStop => Contention
    case ThreadPoolAdjustment => Threading
    case _ => GC
  }

  /** The keywords the parser subscribes to: exactly those of the events its
      switch handles, so none is missing and none is superfluous. */
  function Keywords(): (ks: set<Keyword>)
    ensures ks == set id | id in HandledEventIds :: KeywordOf(id)
  {
    {Contention, GC, Threading}
  }

  // Properties of the dispatcher, one callback at a time.

  /** The large-object flag in arithmetic terms: the allocation kind is odd. */
  lemma LargeObjectHeapBit(allocationKind: uint32)
    ensures IsLargeObjectHeap(allocationKind) <==> allocationKind % 2 == 1
  {
  }

  /** Each event id routes to exactly one timer: the one constructed with it
      as its start or its end event. No id is both a start and an end. */
  lemma TimerRouting(id: EventId, t: PairTimer)
    ensures TimerOf(id) == Some(t) <==> id == StartEventOf(t) || id == EndEventOf(t)
    ensures StartEventOf(t) != EndEventOf(t)
  {
  }

  /** The three key selectors: contention events correlate by OS thread,
      GC events by their count, and all pause events share one key. */
  lemma CorrelationKeys(e1: Event, e2: Event, t: PairTimer)
    requires WellFormed(e1) && TimerOf(e1.id) == Some(t)
    requires WellFormed(e2) && TimerOf(e2.id) == Some(t)
    ensures t == ContentionTimer ==> (CorrelationKey(t, e1) == CorrelationKey(t, e2) <==> e1.osThreadId == e2.osThreadId)
    ensures t == GcTimer ==> (CorrelationKey(t, e1) == CorrelationKey(t, e2) <==> e1.payload.count == e2.payload.count)
    ensures t == PauseTimer ==> CorrelationKey(t, e1) == CorrelationKey(t, e2) == 1
  {
  }

  /** The timer's reading matters only when a timer is consulted. */
  lemma ReadingIgnoredWithoutTimer(e: Event, r1: TimerReading, r2: TimerReading)
    requires Admissible(e, r1) && Admissible(e, r2)
    requires ProcessEvent(e, r1).consulted.None?
    ensures ProcessEvent(e, r1) == ProcessEvent(e, r2)
  {
  }

  /** Contention: the timer is consulted under the thread id, and the
      contention-end callback is raised, with the timer's duration, exactly
      when the reading is final, the duration positive and the flags zero. */
  lemma ContentionEndRaised(e: Event, reading: TimerReading)
    requires Admissible(e, reading) && (e.id == ContentionStart || e.id == ContentionStop)
    ensures ProcessEvent(e, reading).consulted == Some(TimerQuery(ContentionTimer, e.osThreadId))
    ensures ProcessEvent(e, reading).raised.Some? <==>
              && reading.result == FinalWithDuration
              && reading.duration > 0
              && e.payload.contentionFlags == 0
    ensures ProcessEvent(e, reading).raised.Some? ==>
              ProcessEvent(e, reading).raised.value == ContentionEndEvent(reading.duration)
  {
  }

  /** A suspension for a reason outside the GC pause mask is dropped before
      the pause timer sees it, so no pause start is recorded. */
  lemma NonGcSuspensionDiscarded(e: Event, reading: TimerReading)
    requires Admissible(e, reading) && e.id == SuspendEE
    ensures ProcessEvent(e, reading).consulted.Some? <==> IsGcSuspension(e.payload.reason)
    ensures !IsGcSuspension(e.payload.reason) ==> ProcessEvent(e, reading) == Step(None, None)
  {
  }

  /** A resumption always consults the pause timer, under the constant key. */
  lemma RestartEEEndConsultsPauseTimer(e: Event, reading: TimerReading)
    requires Admissible(e, reading) && e.id == RestartEEEnd
    ensures ProcessEvent(e, reading).consulted == Some(TimerQuery(PauseTimer, 1))
  {
  }

  /** Pauses: the pause-complete callback is raised, with the timer's
      duration, exactly when the pause timer was consulted and reported a
      final reading with a positive duration. */
  lemma PauseCompleteRaised(e: Event, reading: TimerReading)
    requires Admissible(e, reading) && (e.id == SuspendEE || e.id == RestartEEEnd)
    ensures ProcessEvent(e, reading).raised.Some? <==>
              && ProcessEvent(e, reading).consulted.Some?
              && reading.result == FinalWithDuration
              && reading.duration > 0
    ensures ProcessEvent(e, reading).raised.Some? ==>
              ProcessEvent(e, reading).raised.value == PauseCompleteEvent(reading.duration)
  {
  }

  /** Collections: the GC timer is consulted under the count; a start raises
      collection-start with depth, reason and type; a final reading with a
      positive duration raises collection-complete with depth and duration;
      anything else raises nothing. */
  lemma GcCallbacks(e: Event, reading: TimerReading)
    requires Admissible(e, reading) && (e.id == GcStart || e.id == GcEnd)
    ensures ProcessEvent(e, reading).consulted == Some(TimerQuery(GcTimer, e.payload.count as int))
    ensures reading.result == Start ==>
              ProcessEvent(e, reading).raised
              == Some(CollectionStartEvent(e.payload.depth, e.payload.reason, e.payload.gcType))
    ensures reading.result == FinalWithDuration && reading.duration > 0 ==>
              ProcessEvent(e, reading).raised
              == Some(CollectionCompleteEvent(e.payload.depth, reading.duration))
    ensures !(reading.result == Start || (reading.result == FinalWithDuration && reading.duration > 0)) ==>
              ProcessEvent(e, reading).raised.None?
  {
  }

  /** Allocation ticks: no timer; the callback carries the amount, and the
      large-object flag is set exactly when the allocation kind is odd. */
  lemma AllocationTickRaised(e: Event, reading: TimerReading)
    requires Admissible(e, reading) && e.id == AllocTick
    ensures ProcessEvent(e, reading).consulted.None?
    ensures ProcessEvent(e, reading).raised.Some?
    ensures ProcessEvent(e, reading).raised.value.AllocationTickEvent?
    ensures ProcessEvent(e, reading).raised.value.allocatedBytes == e.payload.allocationAmount
    ensures ProcessEvent(e, reading).raised.value.isLargeObjectHeap <==> e.payload.allocationKind % 2 == 1
  {
    LargeObjectHeapBit(e.payload.allocationKind);
  }

  /** Heap statistics are forwarded whole, without a timer. */
  lemma HeapStatsForwarded(e: Event, reading: TimerReading)
    requires Admissible(e, reading) && e.id == HeapStats
    ensures ProcessEvent(e, reading) == Step(None, Some(HeapStatsEvent(e)))
  {
  }

  /** Thread-pool adjustments are forwarded without a timer, with the new
      worker count and the reason. */
  lemma ThreadPoolAdjustedForwarded(e: Event, reading: TimerReading)
    requires Admissible(e, reading) && e.id == ThreadPoolAdjustment
    ensures ProcessEvent(e, reading).consulted.None?
    ensures ProcessEvent(e, reading).raised
            == Some(ThreadPoolAdjustedReasonEvent(e.payload.newWorkerThreadCount, e.payload.adjustmentReason))
  {
  }
}
