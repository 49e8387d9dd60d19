/**
 * The state of an `EventBus` and its producer-side operations:
 * `createEventData`, the three `emit` overloads, `emitData`, both `emitLater`
 * overloads, `register` and `registers`. None of them dispatches anything.
 */
module EventBus {
  import opened Types
  import opened Seqs
  import opened Payload
  import Pool
  import opened Registry

  /** An entry of the immediate queue: `Pair<Event, EventData>`. */
  datatype Emitted = Emitted(event: Event, data: PayloadId)

  /**
   * The pool (with every payload object), the listener registry, the
   * immediate queue `emitter` and the delayed queue `emitterLatter`.
   */
  datatype Bus = Bus(pool: Pool.Store, listeners: Table, emitter: seq<Emitted>, later: seq<EventTimer>)

  function EmittedData(x: Emitted): PayloadId { x.data }

  /**
   * A bus right after construction: no listener, both queues empty, no
   * payload built yet; it satisfies the ownership invariant.
   */
  function New(): (r: Bus)
    ensures r.listeners == map[] && r.emitter == [] && r.later == []
    ensures Queued(r) == multiset{} && r.pool.heap == map[] && r.pool.free == []
    ensures Valid(r)
  {
    Bus(Pool.Empty(), map[], [], [])
  }

  /** The payloads held by the two queues, with multiplicity. */
  function Queued(b: Bus): multiset<PayloadId> {
    multiset(Map(b.emitter, EmittedData)) + multiset(Map(b.later, TimerData))
  }

  /** The payload exists. */
  predicate Holds(b: Bus, p: PayloadId) {
    p in b.pool.heap
  }

  /** On a valid bus neither queue holds a payload twice. */
  lemma ValidQueuesDistinct(b: Bus)
    requires Valid(b)
    ensures Distinct(Map(b.emitter, EmittedData)) && Distinct(Map(b.later, TimerData))
  {
    var e, l := multiset(Map(b.emitter, EmittedData)), multiset(Map(b.later, TimerData));
    forall x ensures e[x] <= 1 && l[x] <= 1 {
      if x in Queued(b) { assert Queued(b)[x] == e[x] + l[x]; }
    }
  }

  /** Every queue entry names an existing payload. */
  predicate Closed(b: Bus) {
    && (forall i :: 0 <= i < |b.emitter| ==> Holds(b, b.emitter[i].data))
    && (forall i :: 0 <= i < |b.later| ==> Holds(b, b.later[i].data))
  }

  /** The ownership invariant implies that no queue entry dangles. */
  lemma ValidClosed(b: Bus)
    requires Valid(b)
    ensures Closed(b)
  {
    forall i | 0 <= i < |b.emitter| ensures Holds(b, b.emitter[i].data) {
      MapIndex(b.emitter, EmittedData, i);
      assert b.emitter[i].data in Queued(b);
    }
    forall i | 0 <= i < |b.later| ensures Holds(b, b.later[i].data) {
      MapIndex(b.later, TimerData, i);
      assert b.later[i].data in Queued(b);
    }
  }

  /**
   * The payload belongs to the caller: it exists, the pool does not hold it
   * and no queue holds it (what a producer must guarantee when it hands a
   * payload to `emit`).
   */
  ghost predicate Owned(b: Bus, p: PayloadId) {
    p in b.pool.heap && p !in b.pool.free && p !in Queued(b)
  }

  /**
   * The payload comes out of the pool: it was pooled, or `newObject` builds
   * it. On a valid bus no payload a caller owns or a queue holds is drawn.
   */
  predicate Drawn(b: Bus, p: PayloadId) {
    p in b.pool.free || p >= b.pool.created
  }

  /**
   * Ownership invariant: the pool is valid and every queued payload is held
   * by exactly one queue entry and not by the pool.
   */
  ghost predicate Valid(b: Bus) {
    && Pool.Valid(b.pool)
    && forall p :: p in Queued(b) ==> Queued(b)[p] == 1 && p in b.pool.heap && p !in b.pool.free
  }

  /** On a valid bus no two entries of the immediate queue share a payload. */
  lemma ValidEmitterDistinct(b: Bus, i: nat, j: nat)
    requires Valid(b) && i < j < |b.emitter|
    ensures b.emitter[i].data != b.emitter[j].data
  {
    var ids := Map(b.emitter, EmittedData);
    MapIndex(b.emitter, EmittedData, i);
    MapIndex(b.emitter, EmittedData, j);
    forall x ensures multiset(ids)[x] <= 1 {
      if x in multiset(ids) { assert x in Queued(b); }
    }
    DistinctIndex(ids, i, j);
  }

  /** Overwrites the fields of payload `p`. */
  function Touch(b: Bus, p: PayloadId, d: EventData): (r: Bus)
    requires Holds(b, p)
    ensures r == b.(pool := r.pool) && r.pool.free == b.pool.free && r.pool.created == b.pool.created
    ensures r.pool.heap == b.pool.heap[p := d]
  {
    b.(pool := b.pool.(heap := b.pool.heap[p := d]))
  }

  lemma TouchValid(b: Bus, p: PayloadId, d: EventData)
    requires Valid(b) && Holds(b, p) && p !in b.pool.free
    ensures Valid(Touch(b, p, d))
  {
    var r := Touch(b, p, d);
    assert Queued(r) == Queued(b);
    forall i | 0 <= i < |r.pool.free| ensures r.pool.heap[r.pool.free[i]] == Fresh() {
      assert r.pool.free[i] != p;
    }
  }

  /** `createEventData()`: a payload from the pool. */
  function CreateEventData(b: Bus): (r: (Bus, PayloadId))
    ensures r.0 == b.(pool := r.0.pool)
    ensures Holds(r.0, r.1) && b.pool.heap.Keys <= r.0.pool.heap.Keys
    ensures r.0.pool.free <= b.pool.free && b.pool.created <= r.0.pool.created
    ensures forall q :: q in b.pool.heap && q !in b.pool.free && q != r.1 ==> r.0.pool.heap[q] == b.pool.heap[q]
    ensures Drawn(b, r.1)
  {
    var (s, p) := Pool.Obtain(b.pool);
    (b.(pool := s), p)
  }

  /**
   * On a valid bus, the payload handed out is in its reset state, now
   * belongs to the caller, and was pooled or is brand new.
   */
  lemma CreateEventDataValid(b: Bus)
    requires Valid(b)
    ensures var (b', p) := CreateEventData(b);
            && Valid(b') && Owned(b', p) && b'.pool.heap[p] == Fresh()
            && (p in b.pool.free || p !in b.pool.heap)
  {
    Pool.ObtainValid(b.pool);
    var (b', p) := CreateEventData(b);
    assert Queued(b') == Queued(b);
  }

  /** The default argument `data: EventData = createEventData()`. */
  function Resolve(b: Bus, data: Option<PayloadId>): (r: (Bus, PayloadId))
    requires data.Some? ==> Holds(b, data.value)
    ensures Holds(r.0, r.1)
    ensures data.Some? ==> r.0 == b && r.1 == data.value
    ensures data.None? ==> && r.0 == b.(pool := r.0.pool) && Drawn(b, r.1)
                           && b.pool.heap.Keys <= r.0.pool.heap.Keys
                           && r.0.pool.free <= b.pool.free && b.pool.created <= r.0.pool.created
  {
    match data
    case Some(p) => (b, p)
    case None => CreateEventData(b)
  }

  /** Appends an entry to the immediate queue. */
  function Enqueue(b: Bus, x: Emitted): (r: Bus)
    ensures r.emitter == b.emitter + [x]
    ensures r.pool == b.pool && r.later == b.later && r.listeners == b.listeners
  {
    b.(emitter := b.emitter + [x])
  }

  /** Appends an entry to the delayed queue. */
  function Schedule(b: Bus, t: EventTimer): (r: Bus)
    ensures r.later == b.later + [t]
    ensures r.pool == b.pool && r.emitter == b.emitter && r.listeners == b.listeners
  {
    b.(later := b.later + [t])
  }

  /**
   * Enqueueing hands the payload to the bus: the bus holds it once more, it is
   * no longer the caller's, and every other payload keeps its owner.
   */
  lemma EnqueueHands(b: Bus, x: Emitted)
    ensures Queued(Enqueue(b, x)) == Queued(b) + multiset{x.data}
    ensures !Owned(Enqueue(b, x), x.data)
    ensures forall p :: p != x.data ==> (Owned(Enqueue(b, x), p) <==> Owned(b, p))
  {
    MapConcat(b.emitter, [x], EmittedData);
    assert Queued(Enqueue(b, x)) == Queued(b) + multiset{x.data};
  }

  /**
   * Scheduling hands the payload to the bus: the bus holds it once more, it is
   * no longer the caller's, and every other payload keeps its owner.
   */
  lemma ScheduleHands(b: Bus, t: EventTimer)
    ensures Queued(Schedule(b, t)) == Queued(b) + multiset{t.data}
    ensures !Owned(Schedule(b, t), t.data)
    ensures forall p :: p != t.data ==> (Owned(Schedule(b, t), p) <==> Owned(b, p))
  {
    MapConcat(b.later, [t], TimerData);
    assert Queued(Schedule(b, t)) == Queued(b) + multiset{t.data};
  }

  lemma EnqueueValid(b: Bus, x: Emitted)
    requires Valid(b) && Owned(b, x.data)
    ensures Valid(Enqueue(b, x))
    ensures Queued(Enqueue(b, x)) == Queued(b) + multiset{x.data}
  {
    var r := Enqueue(b, x);
    EnqueueHands(b, x);
    forall p | p in Queued(r) ensures Queued(r)[p] == 1 && p in r.pool.heap && p !in r.pool.free {
      if p != x.data { assert p in Queued(b); }
    }
  }

  lemma ScheduleValid(b: Bus, t: EventTimer)
    requires Valid(b) && Owned(b, t.data)
    ensures Valid(Schedule(b, t))
    ensures Queued(Schedule(b, t)) == Queued(b) + multiset{t.data}
  {
    var r := Schedule(b, t);
    ScheduleHands(b, t);
    forall p | p in Queued(r) ensures Queued(r)[p] == 1 && p in r.pool.heap && p !in r.pool.free {
      if p != t.data { assert p in Queued(b); }
    }
  }

  /**
   * `emit(event, data)`: stamps the payload with `event` and appends
   * `(event, data)` at the end of the immediate queue; the delayed queue and
   * the registry do not change.
   */
  function Emit(b: Bus, event: Event, data: Option<PayloadId>): (r: Bus)
    requires data.Some? ==> Holds(b, data.value)
    ensures |r.emitter| == |b.emitter| + 1 && r.emitter[..|b.emitter|] == b.emitter
    ensures var x := r.emitter[|b.emitter|];
            x.event == event && Holds(r, x.data) && r.pool.heap[x.data].event == event
    ensures data.Some? ==> && r.emitter[|b.emitter|].data == data.value
                           && r.pool.free == b.pool.free
                           && r.pool.heap == b.pool.heap[data.value := b.pool.heap[data.value].(event := event)]
    ensures data.None? ==> Drawn(b, r.emitter[|b.emitter|].data)
    ensures r.later == b.later && r.listeners == b.listeners
    ensures b.pool.heap.Keys <= r.pool.heap.Keys
    ensures r.pool.free <= b.pool.free && b.pool.created <= r.pool.created
  {
    var (b1, p) := Resolve(b, data);
    Enqueue(Touch(b1, p, b1.pool.heap[p].(event := event)), Emitted(event, p))
  }

  /** `emit` keeps the ownership invariant when the caller owns the payload it passes. */
  lemma EmitValid(b: Bus, event: Event, data: Option<PayloadId>)
    requires Valid(b)
    requires data.Some? ==> Owned(b, data.value)
    ensures Valid(Emit(b, event, data))
    ensures data.None? ==> Emit(b, event, data).pool.heap[Emit(b, event, data).emitter[|b.emitter|].data]
                           == Fresh().(event := event)
  {
    if data.None? { CreateEventDataValid(b); }
    var (b1, p) := Resolve(b, data);
    TouchValid(b1, p, b1.pool.heap[p].(event := event));
    EnqueueValid(Touch(b1, p, b1.pool.heap[p].(event := event)), Emitted(event, p));
  }

  /** `emit(event, entity, data)`: sets the payload's target, then `emit(event, data)`. */
  function EmitTo(b: Bus, event: Event, entity: Entity, data: Option<PayloadId>): (r: Bus)
    requires data.Some? ==> Holds(b, data.value)
    ensures |r.emitter| == |b.emitter| + 1 && r.emitter[..|b.emitter|] == b.emitter
    ensures var x := r.emitter[|b.emitter|];
            && x.event == event && Holds(r, x.data)
            && r.pool.heap[x.data].event == event && r.pool.heap[x.data].target == Some(entity)
    ensures data.Some? ==> && r.emitter[|b.emitter|].data == data.value
                           && r.pool.free == b.pool.free
                           && r.pool.heap == b.pool.heap[data.value := b.pool.heap[data.value].(event := event, target := Some(entity))]
    ensures data.None? ==> Drawn(b, r.emitter[|b.emitter|].data)
    ensures r.later == b.later && r.listeners == b.listeners
    ensures b.pool.heap.Keys <= r.pool.heap.Keys
    ensures r.pool.free <= b.pool.free && b.pool.created <= r.pool.created
  {
    var (b1, p) := Resolve(b, data);
    Emit(Touch(b1, p, b1.pool.heap[p].(target := Some(entity))), event, Some(p))
  }

  lemma EmitToValid(b: Bus, event: Event, entity: Entity, data: Option<PayloadId>)
    requires Valid(b)
    requires data.Some? ==> Owned(b, data.value)
    ensures Valid(EmitTo(b, event, entity, data))
  {
    if data.None? { CreateEventDataValid(b); }
    var (b1, p) := Resolve(b, data);
    var b2 := Touch(b1, p, b1.pool.heap[p].(target := Some(entity)));
    TouchValid(b1, p, b1.pool.heap[p].(target := Some(entity)));
    assert Queued(b2) == Queued(b1);
    EmitValid(b2, event, Some(p));
  }

  /**
   * One round of the broadcast loop: a payload from the pool takes the body
   * of `src` and is emitted to `entity`. The three writes the round makes
   * (body, then target, then event) cover every field of the payload, so the
   * round is written here as one write of the final value; `CopyToSteps`
   * shows it equals the step-by-step sequence.
   */
  function CopyTo(b: Bus, event: Event, entity: Entity, src: PayloadId): (r: (Bus, PayloadId))
    requires Holds(b, src)
    ensures r.0.emitter == b.emitter + [Emitted(event, r.1)]
    ensures r.0.later == b.later && r.0.listeners == b.listeners
    ensures b.pool.heap.Keys <= r.0.pool.heap.Keys && r.1 in r.0.pool.heap
    ensures r.0.pool.free <= b.pool.free && b.pool.created <= r.0.pool.created
    ensures r.0.pool.heap[r.1] == EventData(event, Some(entity), b.pool.heap[src].body)
    ensures r.1 in b.pool.free || (r.1 == b.pool.created && r.0.pool.created == b.pool.created + 1)
  {
    var (s, cpy) := Pool.Obtain(b.pool);
    var d := EventData(event, Some(entity), b.pool.heap[src].body);
    (Enqueue(b.(pool := s.(heap := s.heap[cpy := d])), Emitted(event, cpy)), cpy)
  }

  /**
   * The round as the source writes it: `createEventData()`, copy the body of
   * `src`, then `emit(event, entity, copy)`.
   */
  lemma CopyToSteps(b: Bus, event: Event, entity: Entity, src: PayloadId)
    requires Pool.Valid(b.pool) && Holds(b, src)
    ensures var (b1, cpy) := CreateEventData(b);
            var b2 := Touch(b1, cpy, b1.pool.heap[cpy].(body := b1.pool.heap[src].body));
            CopyTo(b, event, entity, src) == (EmitTo(b2, event, entity, Some(cpy)), cpy)
  {
    var (b1, cpy) := CreateEventData(b);
    var b2 := Touch(b1, cpy, b1.pool.heap[cpy].(body := b1.pool.heap[src].body));
    var b3 := EmitTo(b2, event, entity, Some(cpy));
    var c := CopyTo(b, event, entity, src);
    assert b1.pool.heap[src] == b.pool.heap[src];
    assert b3.pool.heap == c.0.pool.heap;
    assert b3.emitter == c.0.emitter by {
      assert b3.emitter == b3.emitter[..|b2.emitter|] + [b3.emitter[|b2.emitter|]];
    }
  }

  /** The immediate-queue entries for the payloads `ids`, all with `event`. */
  function Stamp(event: Event, ids: seq<PayloadId>): (r: seq<Emitted>)
    ensures |r| == |ids|
    ensures forall k :: 0 <= k < |ids| ==> r[k] == Emitted(event, ids[k])
  {
    seq(|ids|, k requires 0 <= k < |ids| => Emitted(event, ids[k]))
  }

  lemma StampSnoc(event: Event, ids: seq<PayloadId>, p: PayloadId)
    ensures Stamp(event, ids + [p]) == Stamp(event, ids) + [Emitted(event, p)]
  {
    assert |Stamp(event, ids + [p])| == |Stamp(event, ids) + [Emitted(event, p)]|;
    forall k | 0 <= k <= |ids|
      ensures Stamp(event, ids + [p])[k] == (Stamp(event, ids) + [Emitted(event, p)])[k]
    {
      if k < |ids| { assert (ids + [p])[k] == ids[k]; }
    }
  }

  /** The payloads of the entries `Stamp` builds are `ids` again. */
  lemma StampData(event: Event, ids: seq<PayloadId>)
    ensures Map(Stamp(event, ids), EmittedData) == ids
  {
    var m := Map(Stamp(event, ids), EmittedData);
    forall k | 0 <= k < |ids| ensures m[k] == ids[k] {
      MapIndex(Stamp(event, ids), EmittedData, k);
    }
  }

  /**
   * The pool side of the first `n` rounds of the broadcast loop: each round
   * takes an object from the pool and writes it with `event`, that round's
   * entity as target and the body `src` has at that point; returns the pool
   * and the objects handed out, in order.
   */
  function Copies(s: Pool.Store, event: Event, entities: seq<Entity>, src: PayloadId, n: nat): (r: (Pool.Store, seq<PayloadId>))
    requires src in s.heap && n <= |entities|
    ensures |r.1| == n
    ensures s.heap.Keys <= r.0.heap.Keys
    ensures r.0.free <= s.free && s.created <= r.0.created
    ensures forall k :: 0 <= k < n ==> r.1[k] in r.0.heap
  {
    if n == 0 then (s, [])
    else
      var (s1, ids) := Copies(s, event, entities, src, n - 1);
      var (s2, p) := Pool.Obtain(s1);
      var d := EventData(event, Some(entities[n - 1]), s1.heap[src].body);
      (s2.(heap := s2.heap[p := d]), ids + [p])
  }

  /**
   * What the broadcast loop leaves of a pool `s`: a valid pool `s'` whose
   * free list is a prefix of the old one, that built no object twice, and
   * that kept every object outside the old free list as it was.
   */
  ghost predicate Kept(s: Pool.Store, s': Pool.Store) {
    && Pool.Valid(s')
    && s'.free <= s.free && s.created <= s'.created
    && forall q :: q in s.heap && q !in s.free ==> q in s'.heap && s'.heap[q] == s.heap[q]
  }

  /**
   * The objects `ids`, pairwise distinct, were pooled or not yet built in
   * `s` and are objects of `s'` outside its free list.
   */
  ghost predicate Taken(s: Pool.Store, s': Pool.Store, ids: seq<PayloadId>) {
    && Distinct(ids)
    && forall k :: 0 <= k < |ids| ==>
         && (ids[k] in s.free || ids[k] >= s.created)
         && ids[k] in s'.heap && ids[k] !in s'.free
  }

  /** In `s'` the k-th object of `ids` carries `event`, the k-th entity and `body`. */
  ghost predicate Written(s': Pool.Store, ids: seq<PayloadId>, event: Event, entities: seq<Entity>, body: Option<Body>) {
    && |ids| <= |entities|
    && forall k :: 0 <= k < |ids| ==> ids[k] in s'.heap && s'.heap[ids[k]] == EventData(event, Some(entities[k]), body)
  }

  /** The three facts above, for the loop so far. */
  ghost predicate Loop(s: Pool.Store, s': Pool.Store, ids: seq<PayloadId>, event: Event, entities: seq<Entity>, body: Option<Body>) {
    Kept(s, s') && Taken(s, s', ids) && Written(s', ids, event, entities, body)
  }

  /**
   * One round on the pool side (take an object, write `d` into it) keeps the
   * pool as `Kept` says, and the object it takes was pooled or not yet built
   * in `s` and is not pooled afterwards.
   */
  lemma CopyKept(s: Pool.Store, s1: Pool.Store, s2: Pool.Store, p: PayloadId, d: EventData, s': Pool.Store)
    requires Kept(s, s1)
    requires (s2, p) == Pool.Obtain(s1) && s' == s2.(heap := s2.heap[p := d])
    ensures Kept(s, s') && (p in s.free || p >= s.created) && p !in s'.free
  {
    Pool.ObtainValid(s1);
    Pool.ObtainWriteValid(s1, d);
    forall q | q in s.heap && q !in s.free ensures q in s'.heap && s'.heap[q] == s.heap[q] {
      NotInPrefix(s1.free, s.free, q);
      if p in s1.free { InPrefix(s1.free, s.free, p); }
    }
    if p in s1.free { InPrefix(s1.free, s.free, p); }
  }

  /** The object a round takes joins the objects taken before it. */
  lemma CopyTaken(s: Pool.Store, s1: Pool.Store, ids: seq<PayloadId>, s2: Pool.Store, p: PayloadId, d: EventData, s': Pool.Store)
    requires Kept(s, s1) && Taken(s, s1, ids)
    requires (s2, p) == Pool.Obtain(s1) && s' == s2.(heap := s2.heap[p := d])
    ensures Taken(s, s', ids + [p])
  {
    CopyKept(s, s1, s2, p, d, s');
    Pool.ObtainValid(s1);
    forall k | 0 <= k < |ids| ensures ids[k] != p && ids[k] in s'.heap && ids[k] !in s'.free {
      NotInPrefix(s2.free, s1.free, ids[k]);
    }
    DistinctPush(ids, p);
    var all := ids + [p];
    assert forall k :: 0 <= k < |ids| ==> all[k] == ids[k];
  }

  /** A round writes its own object and leaves the objects taken before it alone. */
  lemma CopyWritten(s: Pool.Store, s1: Pool.Store, ids: seq<PayloadId>, event: Event, entities: seq<Entity>, body: Option<Body>,
                    s2: Pool.Store, p: PayloadId, s': Pool.Store)
    requires Kept(s, s1) && Taken(s, s1, ids) && Written(s1, ids, event, entities, body) && |ids| < |entities|
    requires (s2, p) == Pool.Obtain(s1)
    requires s' == s2.(heap := s2.heap[p := EventData(event, Some(entities[|ids|]), body)])
    ensures Written(s', ids + [p], event, entities, body)
  {
    Pool.ObtainValid(s1);
    forall k | 0 <= k < |ids| ensures ids[k] != p && s'.heap[ids[k]] == s1.heap[ids[k]] {
      NotInPrefix(s2.free, s1.free, ids[k]);
    }
    var all := ids + [p];
    assert forall k :: 0 <= k < |ids| ==> all[k] == ids[k];
  }

  /** One round of the loop, on the pool side, keeps the three facts above. */
  lemma CopyStep(s: Pool.Store, s1: Pool.Store, ids: seq<PayloadId>, event: Event, entities: seq<Entity>, body: Option<Body>,
                 s2: Pool.Store, p: PayloadId, s': Pool.Store)
    requires Loop(s, s1, ids, event, entities, body) && |ids| < |entities|
    requires (s2, p) == Pool.Obtain(s1)
    requires s' == s2.(heap := s2.heap[p := EventData(event, Some(entities[|ids|]), body)])
    ensures Loop(s, s', ids + [p], event, entities, body)
  {
    var d := EventData(event, Some(entities[|ids|]), body);
    CopyKept(s, s1, s2, p, d, s');
    CopyTaken(s, s1, ids, s2, p, d, s');
    CopyWritten(s, s1, ids, event, entities, body, s2, p, s');
  }

  /**
   * On a valid pool, with `src` outside it, the broadcast loop keeps the
   * pool valid and every object outside the old free list as it was; the
   * objects it hands out are pairwise distinct, were pooled or not yet
   * built, are no longer pooled, and the k-th carries `event`, the k-th
   * entity as target and the body of `src`.
   */
  lemma {:induction false} CopiesSpec(s: Pool.Store, event: Event, entities: seq<Entity>, src: PayloadId, n: nat)
    requires Pool.Valid(s) && src in s.heap && src !in s.free && n <= |entities|
    ensures Loop(s, Copies(s, event, entities, src, n).0, Copies(s, event, entities, src, n).1, event, entities, s.heap[src].body)
  {
    if n > 0 {
      CopiesSpec(s, event, entities, src, n - 1);
      CopiesNext(s, event, entities, src, n);
    }
  }

  /** The inductive step of `CopiesSpec`. */
  lemma CopiesNext(s: Pool.Store, event: Event, entities: seq<Entity>, src: PayloadId, n: nat)
    requires Pool.Valid(s) && src in s.heap && src !in s.free && 0 < n <= |entities|
    requires Loop(s, Copies(s, event, entities, src, n - 1).0, Copies(s, event, entities, src, n - 1).1, event, entities, s.heap[src].body)
    ensures Loop(s, Copies(s, event, entities, src, n).0, Copies(s, event, entities, src, n).1, event, entities, s.heap[src].body)
  {
    var (s1, ids) := Copies(s, event, entities, src, n - 1);
    var (s2, p) := Pool.Obtain(s1);
    var s' := s2.(heap := s2.heap[p := EventData(event, Some(entities[n - 1]), s.heap[src].body)]);
    assert Copies(s, event, entities, src, n) == (s', ids + [p]);
    CopyStep(s, s1, ids, event, entities, s.heap[src].body, s2, p, s');
  }

  /** The immediate queue after appending one stamped entry per payload of `ids`. */
  lemma AppendStamped(es: seq<Emitted>, event: Event, ids: seq<PayloadId>, r: seq<Emitted>)
    requires r == es + Stamp(event, ids)
    ensures |r| == |es| + |ids| && r[..|es|] == es
    ensures forall i :: |es| <= i < |r| ==> r[i] == Emitted(event, ids[i - |es|])
  {
  }

  /**
   * The loop of the broadcast `emit`: for each entity, in order, a payload
   * from the pool whose body is the body of `src`, emitted to that entity.
   * Each round only takes from the pool and appends to the immediate queue,
   * so the loop is written as its pool side followed by the appends;
   * `EmitCopiesRounds` shows it equals the round-by-round loop.
   */
  function EmitCopies(b: Bus, event: Event, entities: seq<Entity>, src: PayloadId, n: nat): (r: Bus)
    requires Holds(b, src) && n <= |entities|
    ensures |r.emitter| == |b.emitter| + n && r.emitter[..|b.emitter|] == b.emitter
    ensures forall i :: |b.emitter| <= i < |r.emitter| ==> r.emitter[i].event == event && Holds(r, r.emitter[i].data)
    ensures r.later == b.later && r.listeners == b.listeners
    ensures b.pool.heap.Keys <= r.pool.heap.Keys
    ensures r.pool.free <= b.pool.free && b.pool.created <= r.pool.created
  {
    var (s, ids) := Copies(b.pool, event, entities, src, n);
    var r := b.(pool := s, emitter := b.emitter + Stamp(event, ids));
    AppendStamped(b.emitter, event, ids, r.emitter);
    r
  }

  /** The broadcast loop, round by round: no round at first, then one `CopyTo` per entity. */
  lemma EmitCopiesRounds(b: Bus, event: Event, entities: seq<Entity>, src: PayloadId, n: nat)
    requires Holds(b, src) && n < |entities|
    ensures EmitCopies(b, event, entities, src, 0) == b
    ensures EmitCopies(b, event, entities, src, n + 1)
            == CopyTo(EmitCopies(b, event, entities, src, n), event, entities[n], src).0
  {
    assert b.emitter + Stamp(event, []) == b.emitter;
    var (s1, ids) := Copies(b.pool, event, entities, src, n);
    var (s2, p) := Pool.Obtain(s1);
    StampSnoc(event, ids, p);
    ConcatAssoc(b.emitter, Stamp(event, ids), [Emitted(event, p)]);
  }

  /**
   * Appending entries for objects just taken from the pool keeps the
   * ownership invariant.
   */
  lemma StampValid(b: Bus, r: Bus, event: Event, ids: seq<PayloadId>)
    requires Valid(b) && Kept(b.pool, r.pool) && Taken(b.pool, r.pool, ids)
    requires r.emitter == b.emitter + Stamp(event, ids) && r.later == b.later
    ensures Valid(r)
  {
    MapConcat(b.emitter, Stamp(event, ids), EmittedData);
    StampData(event, ids);
    assert Queued(r) == Queued(b) + multiset(ids);
    forall p | p in Queued(r) ensures Queued(r)[p] == 1 && p in r.pool.heap && p !in r.pool.free {
      if p in ids {
        var k :| 0 <= k < |ids| && ids[k] == p;
        assert p in b.pool.free || p !in b.pool.heap;
      } else {
        assert p in Queued(b);
        NotInPrefix(r.pool.free, b.pool.free, p);
      }
    }
  }

  /** On a valid bus the broadcast loop keeps the ownership invariant. */
  lemma EmitCopiesValid(b: Bus, event: Event, entities: seq<Entity>, src: PayloadId, n: nat)
    requires Valid(b) && Holds(b, src) && src !in b.pool.free && n <= |entities|
    ensures Valid(EmitCopies(b, event, entities, src, n))
  {
    CopiesSpec(b.pool, event, entities, src, n);
    var (s, ids) := Copies(b.pool, event, entities, src, n);
    StampValid(b, EmitCopies(b, event, entities, src, n), event, ids);
  }

  /**
   * `emit(event, *entities, data)`: enqueues one payload per entity, in
   * argument order; `data` only lends its body. The default `data` is taken
   * from the pool before the loop and never enqueued.
   */
  function EmitAll(b: Bus, event: Event, entities: seq<Entity>, data: Option<PayloadId>): (r: Bus)
    requires data.Some? ==> Holds(b, data.value)
    ensures |r.emitter| == |b.emitter| + |entities| && r.emitter[..|b.emitter|] == b.emitter
    ensures forall i :: |b.emitter| <= i < |r.emitter| ==> r.emitter[i].event == event && Holds(r, r.emitter[i].data)
    ensures r.later == b.later && r.listeners == b.listeners
    ensures b.pool.heap.Keys <= r.pool.heap.Keys
    ensures r.pool.free <= b.pool.free && b.pool.created <= r.pool.created
  {
    var (b1, src) := Resolve(b, data);
    EmitCopies(b1, event, entities, src, |entities|)
  }

  lemma EmitAllValid(b: Bus, event: Event, entities: seq<Entity>, data: Option<PayloadId>)
    requires Valid(b)
    requires data.Some? ==> Holds(b, data.value) && data.value !in b.pool.free
    ensures Valid(EmitAll(b, event, entities, data))
  {
    if data.None? { CreateEventDataValid(b); }
    var (b1, src) := Resolve(b, data);
    EmitCopiesValid(b1, event, entities, src, |entities|);
  }

  /**
   * The payloads the broadcast `emit` enqueues, on a valid pool: the
   * objects the loop hands out, which `CopiesSpec` describes.
   */
  lemma EmitAllCopies(b: Bus, event: Event, entities: seq<Entity>, data: Option<PayloadId>)
    requires Pool.Valid(b.pool)
    requires data.Some? ==> Holds(b, data.value) && data.value !in b.pool.free
    ensures var r := EmitAll(b, event, entities, data);
            var body := if data.Some? then b.pool.heap[data.value].body else None;
            exists ids: seq<PayloadId> ::
              && r.emitter == b.emitter + Stamp(event, ids)
              && Taken(b.pool, r.pool, ids)
              && Written(r.pool, ids, event, entities, body)
  {
    if data.None? { Pool.ObtainValid(b.pool); }
    var (b1, src) := Resolve(b, data);
    CopiesSpec(b1.pool, event, entities, src, |entities|);
    var (s, ids) := Copies(b1.pool, event, entities, src, |entities|);
    forall k | 0 <= k < |ids| ensures ids[k] in b.pool.free || ids[k] >= b.pool.created {
      if ids[k] in b1.pool.free { InPrefix(b1.pool.free, b.pool.free, ids[k]); }
    }
    var r := EmitAll(b, event, entities, data);
    assert r.emitter == b.emitter + Stamp(event, ids) && r.pool == s;
    assert Taken(b.pool, r.pool, ids);
  }

  /**
   * On a valid pool, the i-th payload the broadcast `emit` enqueues was
   * pooled or brand new before the call (so it is neither `data` nor a
   * payload already queued) and carries `event`, the i-th entity as target
   * and the body of `data` (none for the default `data`).
   */
  lemma EmitAllContents(b: Bus, event: Event, entities: seq<Entity>, data: Option<PayloadId>, i: nat)
    requires Pool.Valid(b.pool)
    requires data.Some? ==> Holds(b, data.value) && data.value !in b.pool.free
    requires i < |entities|
    ensures var r := EmitAll(b, event, entities, data);
            var p := r.emitter[|b.emitter| + i].data;
            var body := if data.Some? then b.pool.heap[data.value].body else None;
            && Drawn(b, p)
            && r.pool.heap[p] == EventData(event, Some(entities[i]), body)
  {
    EmitAllCopies(b, event, entities, data);
    var r := EmitAll(b, event, entities, data);
    var body := if data.Some? then b.pool.heap[data.value].body else None;
    var ids: seq<PayloadId> :| r.emitter == b.emitter + Stamp(event, ids) && Taken(b.pool, r.pool, ids) && Written(r.pool, ids, event, entities, body);
    assert r.emitter[|b.emitter| + i].data == ids[i];
  }

  /** On a valid pool, every payload the broadcast `emit` enqueues comes out of the pool. */
  lemma EmitAllDrawn(b: Bus, event: Event, entities: seq<Entity>, data: Option<PayloadId>)
    requires Pool.Valid(b.pool)
    requires data.Some? ==> Holds(b, data.value) && data.value !in b.pool.free
    ensures var r := EmitAll(b, event, entities, data);
            forall i :: |b.emitter| <= i < |r.emitter| ==> Drawn(b, r.emitter[i].data)
  {
    EmitAllCopies(b, event, entities, data);
    var r := EmitAll(b, event, entities, data);
    var body := if data.Some? then b.pool.heap[data.value].body else None;
    var ids: seq<PayloadId> :| r.emitter == b.emitter + Stamp(event, ids) && Taken(b.pool, r.pool, ids) && Written(r.pool, ids, event, entities, body);
    forall i | |b.emitter| <= i < |r.emitter| ensures Drawn(b, r.emitter[i].data) {
      assert r.emitter[i].data == ids[i - |b.emitter|];
    }
  }

  /** Every entity of the broadcast `emit` gets a payload of its own. */
  lemma EmitAllDistinct(b: Bus, event: Event, entities: seq<Entity>, data: Option<PayloadId>, i: nat, j: nat)
    requires Pool.Valid(b.pool)
    requires data.Some? ==> Holds(b, data.value) && data.value !in b.pool.free
    requires i < j < |entities|
    ensures var r := EmitAll(b, event, entities, data);
            r.emitter[|b.emitter| + i].data != r.emitter[|b.emitter| + j].data
  {
    EmitAllCopies(b, event, entities, data);
    var r := EmitAll(b, event, entities, data);
    var body := if data.Some? then b.pool.heap[data.value].body else None;
    var ids: seq<PayloadId> :| r.emitter == b.emitter + Stamp(event, ids) && Taken(b.pool, r.pool, ids) && Written(r.pool, ids, event, entities, body);
    assert r.emitter[|b.emitter| + i].data == ids[i];
    assert r.emitter[|b.emitter| + j].data == ids[j];
    DistinctIndex(ids, i, j);
  }

  /**
   * `emitData(event) { body }`: a payload from the pool carrying the body
   * (evaluated once, at call time), emitted with `event`.
   */
  function EmitData(b: Bus, event: Event, body: Option<Body>): (r: Bus)
    ensures |r.emitter| == |b.emitter| + 1 && r.emitter[..|b.emitter|] == b.emitter
    ensures var x := r.emitter[|b.emitter|];
            && x.event == event && Holds(r, x.data)
            && r.pool.heap[x.data].event == event && r.pool.heap[x.data].body == body
    ensures Drawn(b, r.emitter[|b.emitter|].data)
    ensures r.later == b.later && r.listeners == b.listeners
    ensures b.pool.heap.Keys <= r.pool.heap.Keys
    ensures r.pool.free <= b.pool.free && b.pool.created <= r.pool.created
  {
    var (b1, p) := CreateEventData(b);
    Emit(Touch(b1, p, b1.pool.heap[p].(body := body)), event, Some(p))
  }

  lemma EmitDataValid(b: Bus, event: Event, body: Option<Body>)
    requires Valid(b)
    ensures Valid(EmitData(b, event, body))
    ensures var r := EmitData(b, event, body);
            r.pool.heap[r.emitter[|b.emitter|].data] == EventData(event, None, body)
  {
    CreateEventDataValid(b);
    var (b1, p) := CreateEventData(b);
    var d := b1.pool.heap[p].(body := body);
    TouchValid(b1, p, d);
    assert Queued(Touch(b1, p, d)) == Queued(b1);
    EmitValid(Touch(b1, p, d), event, Some(p));
  }

  /**
   * `emitLater(delay, event, data)`: stamps the payload with `event` and
   * appends `EventTimer(delay, event, data)` at the end of the delayed queue;
   * the immediate queue and the registry do not change.
   */
  function EmitLater(b: Bus, delay: real, event: Event, data: Option<PayloadId>): (r: Bus)
    requires data.Some? ==> Holds(b, data.value)
    ensures |r.later| == |b.later| + 1 && r.later[..|b.later|] == b.later
    ensures var t := r.later[|b.later|];
            && t.timer == delay && t.event == event && Holds(r, t.data)
            && r.pool.heap[t.data].event == event
    ensures data.Some? ==> && r.later[|b.later|].data == data.value
                           && r.pool.free == b.pool.free
                           && r.pool.heap == b.pool.heap[data.value := b.pool.heap[data.value].(event := event)]
    ensures data.None? ==> Drawn(b, r.later[|b.later|].data)
    ensures r.emitter == b.emitter && r.listeners == b.listeners
    ensures b.pool.heap.Keys <= r.pool.heap.Keys
    ensures r.pool.free <= b.pool.free && b.pool.created <= r.pool.created
  {
    var (b1, p) := Resolve(b, data);
    Schedule(Touch(b1, p, b1.pool.heap[p].(event := event)), EventTimer(delay, event, p))
  }

  lemma EmitLaterValid(b: Bus, delay: real, event: Event, data: Option<PayloadId>)
    requires Valid(b)
    requires data.Some? ==> Owned(b, data.value)
    ensures Valid(EmitLater(b, delay, event, data))
  {
    if data.None? { CreateEventDataValid(b); }
    var (b1, p) := Resolve(b, data);
    TouchValid(b1, p, b1.pool.heap[p].(event := event));
    ScheduleValid(Touch(b1, p, b1.pool.heap[p].(event := event)), EventTimer(delay, event, p));
  }

  /** `emitLater(delay, event, entity, data)`: sets the target, then `emitLater`. */
  function EmitLaterTo(b: Bus, delay: real, event: Event, entity: Entity, data: Option<PayloadId>): (r: Bus)
    requires data.Some? ==> Holds(b, data.value)
    ensures |r.later| == |b.later| + 1 && r.later[..|b.later|] == b.later
    ensures var t := r.later[|b.later|];
            && t.timer == delay && t.event == event && Holds(r, t.data)
            && r.pool.heap[t.data].event == event && r.pool.heap[t.data].target == Some(entity)
    ensures data.Some? ==> && r.later[|b.later|].data == data.value
                           && r.pool.free == b.pool.free
                           && r.pool.heap == b.pool.heap[data.value := b.pool.heap[data.value].(event := event, target := Some(entity))]
    ensures data.None? ==> Drawn(b, r.later[|b.later|].data)
    ensures r.emitter == b.emitter && r.listeners == b.listeners
    ensures b.pool.heap.Keys <= r.pool.heap.Keys
    ensures r.pool.free <= b.pool.free && b.pool.created <= r.pool.created
  {
    var (b1, p) := Resolve(b, data);
    EmitLater(Touch(b1, p, b1.pool.heap[p].(target := Some(entity))), delay, event, Some(p))
  }

  lemma EmitLaterToValid(b: Bus, delay: real, event: Event, entity: Entity, data: Option<PayloadId>)
    requires Valid(b)
    requires data.Some? ==> Owned(b, data.value)
    ensures Valid(EmitLaterTo(b, delay, event, entity, data))
  {
    if data.None? { CreateEventDataValid(b); }
    var (b1, p) := Resolve(b, data);
    var b2 := Touch(b1, p, b1.pool.heap[p].(target := Some(entity)));
    TouchValid(b1, p, b1.pool.heap[p].(target := Some(entity)));
    assert Queued(b2) == Queued(b1);
    EmitLaterValid(b2, delay, event, Some(p));
  }

  /** `register(listener, *events)` on the bus. */
  function RegisterOn(b: Bus, l: ListenerId, events: seq<Event>): (r: Bus)
    ensures r == b.(listeners := r.listeners)
    ensures r.listeners.Keys == b.listeners.Keys + Named(events)
  {
    b.(listeners := Register(b.listeners, l, events))
  }

  /** `registers { ... }` on the bus; returns the same bus. */
  function RegistersOn(b: Bus, pairs: seq<Binding>): (r: Bus)
    ensures r == b.(listeners := r.listeners)
    ensures forall e :: e in r.listeners <==>
                        e in b.listeners || exists i :: 0 <= i < |pairs| && e in pairs[i].events
  {
    RegistersKeys(b.listeners, pairs);
    b.(listeners := Registers(b.listeners, pairs))
  }
}
