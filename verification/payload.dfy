/** `EventData` (the pooled payload) and `EventTimer` (a delayed queue entry). */
module Payload {
  import opened Types

  /** A payload: the event it was last emitted with, a target and a body. */
  datatype EventData = EventData(event: Event, target: Option<Entity>, body: Option<Body>)

  /** What the constructor `EventData()` builds: every field at its default. */
  function Fresh(): (r: EventData)
    ensures r.event == Unset && r.target == None && r.body == None
  {
    EventData(Unset, None, None)
  }

  /** `EventData.reset`: puts every field back to the constructor defaults. */
  function Reset(d: EventData): (r: EventData)
    ensures r == Fresh()
  {
    d.(event := Unset, target := None, body := None)
  }

  /** A delayed entry: the time still to wait, the event, and its payload. */
  datatype EventTimer = EventTimer(timer: real, event: Event, data: PayloadId)

  /** The payload a delayed entry carries. */
  function TimerData(t: EventTimer): PayloadId { t.data }
}
