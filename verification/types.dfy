/** Shared vocabulary of the event bus: event ids, opaque references, Option. */
module Types {

  /** Kotlin's `Int`: event ids are 32-bit signed integers. */
  newtype Int32 = x: int | -0x8000_0000 <= x < 0x8000_0000

  /** An event is identified by an integer. */
  type Event = Int32

  /** `Int.MIN_VALUE`, the "no event" marker of a pooled payload. */
  const Unset: Event := -0x8000_0000

  /** Opaque reference to an ECS entity (the bus never looks inside it). */
  type Entity = nat

  /** Opaque reference to a payload body (the bus only copies it around). */
  type Body = nat

  /** Identity of an `EventData` object. */
  type PayloadId = nat

  /** Identity of an `EventListener` object. */
  type ListenerId = nat

  /** Kotlin's nullable references. */
  datatype Option<+T> = None | Some(value: T)
}
