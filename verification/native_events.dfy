/**
 The runtime events the native-runtime parser receives, with the payload
 fields it reads already decoded to typed integers.

 The event source's numeric event ids and keyword bits are not part of this
 model; ids and keywords are symbolic.
 */
module NativeEvents {

  newtype uint8 = x: int | 0 <= x < 0x100
  newtype uint32 = x: int | 0 <= x < 0x1_0000_0000

  /** The event ids the parser's switch names, and every other id. */
  datatype EventId =
    | AllocTick
    | HeapStats
    | ContentionStart
    | ContentionStop
    | SuspendEE
    | RestartEEEnd
    | GcStart
    | GcEnd
    | ThreadPoolAdjustment
    | OtherEvent(code: int)

  /** The payload fields the parser reads, by event; the comment on each field
      gives its payload index. */
  datatype Payload =
    | AllocTickPayload(
        allocationAmount: uint32,    // [0]
        allocationKind: uint32)      // [1], bit 0x1 marks the large-object heap
    | ContentionPayload(
        contentionFlags: uint8)      // [0], 0 for managed contention
    | SuspendPayload(
        reason: uint32)              // [0]
    | GcStartPayload(
        count: uint32,               // [0]
        depth: uint32,               // [1]
        reason: uint32,              // [2]
        gcType: uint32)              // [3]
    | GcEndPayload(
        count: uint32,               // [0]
        depth: uint32)               // [1]
    | ThreadPoolAdjustmentPayload(
        newWorkerThreadCount: uint32, // [1]
        adjustmentReason: uint32)     // [2]
    | NoFieldsRead

  /** One event as delivered: its id, the emitting OS thread and its payload. */
  datatype Event = Event(id: EventId, osThreadId: int, payload: Payload)

  /** The payload carries the fields the parser reads for this id. The source
      casts payload slots unchecked, so an event that breaks this would make
      it throw; the model does not admit such events. */
  predicate WellFormed(e: Event) {
    match e.id
    case AllocTick => e.payload.AllocTickPayload?
    case ContentionStart => e.payload.ContentionPayload?
    case ContentionStop => e.payload.ContentionPayload?
    case SuspendEE => e.payload.SuspendPayload?
    case GcStart => e.payload.GcStartPayload?
    case GcEnd => e.payload.GcEndPayload?
    case ThreadPoolAdjustment => e.payload.ThreadPoolAdjustmentPayload?
    case _ => true
  }
}
