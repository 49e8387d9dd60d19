/**
 * `update(delta)`: one frame of the bus. The delayed queue is ticked; the
 * delayed entries whose timer fell below zero and then every entry of the
 * immediate queue are dispatched, each batch sorted by event id; the
 * dispatched entries are taken out of the queues and their payloads go back
 * to the pool.
 *
 * A listener may call back into the bus while it is being invoked. Those
 * calls are the `Action`s a `react` function returns for each invocation.
 * Dispatch reads only the two sorted snapshots and the registry, and no
 * action changes either of them, so applying the actions after the trace is
 * known, in trace order, ends in the same state as interleaving them.
 */
module Frame {
  import opened Types
  import opened Seqs
  import opened Payload
  import Pool
  import opened Registry
  import opened StableSort
  import opened EventBus
  import opened Timers
  import opened Dispatch

  /** A call a listener makes on the bus while it is being invoked. */
  datatype Action =
    | Send(event: Event, data: Option<PayloadId>)                                    // emit(event, data)
    | SendTo(event: Event, entity: Entity, data: Option<PayloadId>)                  // emit(event, entity, data)
    | SendAll(event: Event, entities: seq<Entity>, data: Option<PayloadId>)          // emit(event, *entities, data)
    | SendData(event: Event, body: Option<Body>)                                     // emitData(event) { body }
    | SendLater(delay: real, event: Event, data: Option<PayloadId>)                  // emitLater(delay, event, data)
    | SendLaterTo(delay: real, event: Event, entity: Entity, data: Option<PayloadId>) // emitLater(delay, event, entity, data)

  /** The payload an action passes explicitly; `None` lets the bus take one from the pool. */
  function Carried(a: Action): Option<PayloadId> {
    match a
    case Send(_, d) => d
    case SendTo(_, _, d) => d
    case SendAll(_, _, d) => d
    case SendData(_, _) => None
    case SendLater(_, _, d) => d
    case SendLaterTo(_, _, _, d) => d
  }

  /** The payload an action passes exists. */
  predicate Refers(b: Bus, a: Action) {
    Carried(a).Some? ==> Holds(b, Carried(a).value)
  }

  /** How many queue entries an action adds. */
  function Adds(a: Action): nat {
    if a.SendAll? then |a.entities| else 1
  }

  /** The actions that go to the delayed queue. */
  predicate Deferred(a: Action) {
    a.SendLater? || a.SendLaterTo?
  }

  /** Performs one action. */
  function Apply(b: Bus, a: Action): (r: Bus)
    requires Refers(b, a)
    ensures r.listeners == b.listeners
    ensures b.emitter <= r.emitter && b.later <= r.later
    ensures Deferred(a) ==> r.emitter == b.emitter && |r.later| == |b.later| + 1
    ensures !Deferred(a) ==> r.later == b.later && |r.emitter| == |b.emitter| + Adds(a)
    ensures forall i :: |b.emitter| <= i < |r.emitter| ==> Holds(r, r.emitter[i].data)
    ensures forall i :: |b.later| <= i < |r.later| ==> Holds(r, r.later[i].data)
    ensures b.pool.heap.Keys <= r.pool.heap.Keys
    ensures r.pool.free <= b.pool.free && b.pool.created <= r.pool.created
  {
    if Deferred(a) then ApplyLater(b, a) else ApplyNow(b, a)
  }

  /** `emit`, `emitData` and the broadcast `emit`: entries for the immediate queue. */
  function ApplyNow(b: Bus, a: Action): (r: Bus)
    requires Refers(b, a) && !Deferred(a)
    ensures r.listeners == b.listeners && r.later == b.later
    ensures |r.emitter| == |b.emitter| + Adds(a) && r.emitter[..|b.emitter|] == b.emitter
    ensures forall i :: |b.emitter| <= i < |r.emitter| ==> Holds(r, r.emitter[i].data)
    ensures b.pool.heap.Keys <= r.pool.heap.Keys
    ensures r.pool.free <= b.pool.free && b.pool.created <= r.pool.created
  {
    match a
    case Send(e, d) => Emit(b, e, d)
    case SendTo(e, x, d) => EmitTo(b, e, x, d)
    case SendAll(e, xs, d) => EmitAll(b, e, xs, d)
    case SendData(e, body) => EmitData(b, e, body)
  }

  /** `emitLater`: an entry for the delayed queue. */
  function ApplyLater(b: Bus, a: Action): (r: Bus)
    requires Refers(b, a) && Deferred(a)
    ensures r.listeners == b.listeners && r.emitter == b.emitter
    ensures |r.later| == |b.later| + 1 && r.later[..|b.later|] == b.later
    ensures Holds(r, r.later[|b.later|].data)
    ensures b.pool.heap.Keys <= r.pool.heap.Keys
    ensures r.pool.free <= b.pool.free && b.pool.created <= r.pool.created
  {
    match a
    case SendLater(t, e, d) => EmitLater(b, t, e, d)
    case SendLaterTo(t, e, x, d) => EmitLaterTo(b, t, e, x, d)
  }

  /**
   * The payload an action puts in a queue as it is: the one it passes,
   * except for the broadcast, which only copies the body of what it passes.
   */
  function Handed(a: Action): Option<PayloadId> {
    if a.SendAll? then None else Carried(a)
  }

  /**
   * What a listener guarantees about one action: a payload it hands to a
   * queue belongs to it, and a payload a broadcast copies from exists and
   * is not pooled.
   */
  ghost predicate Fits(b: Bus, a: Action) {
    && (Handed(a).Some? ==> Owned(b, Handed(a).value))
    && (a.SendAll? && a.data.Some? ==> Holds(b, a.data.value) && a.data.value !in b.pool.free)
  }

  /** An action that fits keeps the ownership invariant. */
  lemma ApplyValid(b: Bus, a: Action)
    requires Valid(b) && Fits(b, a)
    ensures Valid(Apply(b, a))
  {
    if Deferred(a) { ApplyLaterValid(b, a); } else { ApplyNowValid(b, a); }
  }

  lemma ApplyNowValid(b: Bus, a: Action)
    requires Valid(b) && Fits(b, a) && !Deferred(a)
    ensures Valid(ApplyNow(b, a))
  {
    match a
    case Send(e, d) => EmitValid(b, e, d);
    case SendTo(e, x, d) => EmitToValid(b, e, x, d);
    case SendAll(e, xs, d) => EmitAllValid(b, e, xs, d);
    case SendData(e, body) => EmitDataValid(b, e, body);
  }

  lemma ApplyLaterValid(b: Bus, a: Action)
    requires Valid(b) && Fits(b, a) && Deferred(a)
    ensures Valid(ApplyLater(b, a))
  {
    match a
    case SendLater(t, e, d) => EmitLaterValid(b, t, e, d);
    case SendLaterTo(t, e, x, d) => EmitLaterToValid(b, t, e, x, d);
  }

  /**
   * The pool facts an owned payload `q` satisfies, and what an action needs
   * to run: then no payload the action draws from the pool is `q`.
   */
  predicate Apart(b: Bus, a: Action, q: PayloadId) {
    && Refers(b, a)
    && (a.SendAll? && a.data.Some? ==> a.data.value !in b.pool.free)
    && q < b.pool.created && q !in b.pool.free
    && Handed(a) != Some(q)
  }

  /** The entries an action appends carry no owned payload but the one it hands over. */
  lemma ApplyAppendsOthers(b: Bus, a: Action, q: PayloadId)
    requires Pool.Valid(b.pool) && Apart(b, a, q)
    ensures var r := Apply(b, a);
            && (forall i :: |b.emitter| <= i < |r.emitter| ==> r.emitter[i].data != q)
            && (forall i :: |b.later| <= i < |r.later| ==> r.later[i].data != q)
  {
    if Deferred(a) {
      LaterOthers(b, a, q);
    } else {
      NowOthers(b, a, q);
    }
  }

  lemma NowOthers(b: Bus, a: Action, q: PayloadId)
    requires Pool.Valid(b.pool) && Apart(b, a, q) && !Deferred(a)
    ensures var r := ApplyNow(b, a);
            forall i :: |b.emitter| <= i < |r.emitter| ==> r.emitter[i].data != q
  {
    if a.SendAll? {
      BroadcastOthers(b, a.event, a.entities, a.data, q);
    } else {
      var r := ApplyNow(b, a);
      assert r.emitter[|b.emitter|].data != q;
    }
  }

  lemma BroadcastOthers(b: Bus, event: Event, entities: seq<Entity>, data: Option<PayloadId>, q: PayloadId)
    requires Pool.Valid(b.pool) && (data.Some? ==> Holds(b, data.value) && data.value !in b.pool.free)
    requires q < b.pool.created && q !in b.pool.free
    ensures var r := EmitAll(b, event, entities, data);
            forall i :: |b.emitter| <= i < |r.emitter| ==> r.emitter[i].data != q
  {
    EmitAllDrawn(b, event, entities, data);
  }

  lemma LaterOthers(b: Bus, a: Action, q: PayloadId)
    requires Apart(b, a, q) && Deferred(a)
    ensures var r := ApplyLater(b, a);
            forall i :: |b.later| <= i < |r.later| ==> r.later[i].data != q
  {
    var r := ApplyLater(b, a);
    assert r.later[|b.later|].data != q;
  }

  /**
   * A payload the caller owns stays owned when entries with other payloads
   * are appended, nothing leaves the heap and the pool only hands objects out.
   */
  lemma OwnedStays(b: Bus, r: Bus, q: PayloadId)
    requires Owned(b, q) && b.emitter <= r.emitter && b.later <= r.later
    requires b.pool.heap.Keys <= r.pool.heap.Keys && r.pool.free <= b.pool.free
    requires forall i :: |b.emitter| <= i < |r.emitter| ==> r.emitter[i].data != q
    requires forall i :: |b.later| <= i < |r.later| ==> r.later[i].data != q
    ensures Owned(r, q)
  {
    var addE, addL := r.emitter[|b.emitter|..], r.later[|b.later|..];
    assert r.emitter == b.emitter + addE && r.later == b.later + addL;
    MapConcat(b.emitter, addE, EmittedData);
    MapConcat(b.later, addL, TimerData);
    forall k | 0 <= k < |addE| ensures Map(addE, EmittedData)[k] != q {
      MapIndex(addE, EmittedData, k);
    }
    forall k | 0 <= k < |addL| ensures Map(addL, TimerData)[k] != q {
      MapIndex(addL, TimerData, k);
    }
    assert q !in multiset(Map(addE, EmittedData)) && q !in multiset(Map(addL, TimerData));
    NotInPrefix(r.pool.free, b.pool.free, q);
  }

  /** A payload the caller owns and an action does not hand over stays the caller's. */
  lemma ApplyKeepsOwned(b: Bus, a: Action, q: PayloadId)
    requires Valid(b) && Fits(b, a) && Owned(b, q) && Handed(a) != Some(q)
    ensures Owned(Apply(b, a), q)
  {
    assert Apart(b, a, q);
    ApplyAppendsOthers(b, a, q);
    OwnedStays(b, Apply(b, a), q);
  }

  /** Performs the actions in order. */
  function ApplyAll(b: Bus, acts: seq<Action>): (r: Bus)
    requires forall i :: 0 <= i < |acts| ==> Refers(b, acts[i])
    ensures r.listeners == b.listeners
    ensures b.emitter <= r.emitter && b.later <= r.later
    ensures b.pool.heap.Keys <= r.pool.heap.Keys
    ensures r.pool.free <= b.pool.free && b.pool.created <= r.pool.created
    ensures Closed(b) ==> Closed(r)
    decreases |acts|
  {
    if acts == [] then b
    else
      var b1 := Apply(b, acts[0]);
      RefersGrows(b, b1, acts);
      ClosedGrows(b, b1);
      ApplyAll(b1, acts[1..])
  }

  /** A payload that exists keeps existing: later actions still refer to existing payloads. */
  lemma RefersGrows(b: Bus, r: Bus, acts: seq<Action>)
    requires b.pool.heap.Keys <= r.pool.heap.Keys && |acts| > 0
    requires forall i :: 0 <= i < |acts| ==> Refers(b, acts[i])
    ensures forall i :: 0 <= i < |acts[1..]| ==> Refers(r, acts[1..][i])
  {
    forall i | 0 <= i < |acts[1..]| ensures Refers(r, acts[1..][i]) {
      assert acts[1..][i] == acts[i + 1];
      assert Refers(b, acts[i + 1]);
    }
  }

  /** Entries appended for existing payloads keep a bus closed. */
  lemma ClosedGrows(b: Bus, r: Bus)
    requires b.emitter <= r.emitter && b.later <= r.later && b.pool.heap.Keys <= r.pool.heap.Keys
    requires forall i :: |b.emitter| <= i < |r.emitter| ==> Holds(r, r.emitter[i].data)
    requires forall i :: |b.later| <= i < |r.later| ==> Holds(r, r.later[i].data)
    ensures Closed(b) ==> Closed(r)
  {
    if Closed(b) {
      forall i | 0 <= i < |b.emitter| ensures Holds(r, r.emitter[i].data) {
        assert r.emitter[i] == b.emitter[i];
      }
      forall i | 0 <= i < |b.later| ensures Holds(r, r.later[i].data) {
        assert r.later[i] == b.later[i];
      }
    }
  }

  /** Dropping entries, with no payload taken out of the heap, keeps a bus closed. */
  lemma ClosedShrinks(b: Bus, r: Bus)
    requires Closed(b) && b.pool.heap.Keys <= r.pool.heap.Keys
    requires forall x :: x in r.emitter ==> x in b.emitter
    requires forall t :: t in r.later ==> t in b.later
    ensures Closed(r)
  {
    forall i | 0 <= i < |r.emitter| ensures Holds(r, r.emitter[i].data) {
      assert r.emitter[i] in b.emitter;
    }
    forall i | 0 <= i < |r.later| ensures Holds(r, r.later[i].data) {
      assert r.later[i] in b.later;
    }
  }

  /**
   * What the listeners of a frame guarantee: every action fits the bus as it
   * was when the frame started, and no payload is handed to a queue twice.
   */
  ghost predicate Owns(b: Bus, acts: seq<Action>) {
    && (forall i :: 0 <= i < |acts| ==> Fits(b, acts[i]))
    && (forall i, j :: 0 <= i < j < |acts| && Handed(acts[i]).Some? ==> Handed(acts[j]) != Handed(acts[i]))
  }

  /** An action that fits passes an existing payload, if any. */
  lemma OwnsRefers(b: Bus, acts: seq<Action>)
    requires Owns(b, acts)
    ensures forall i :: 0 <= i < |acts| ==> Refers(b, acts[i])
  {
  }

  /** After the first action, the remaining actions still fit. */
  lemma OwnsRest(b: Bus, acts: seq<Action>)
    requires Valid(b) && Owns(b, acts) && |acts| > 0
    ensures Refers(b, acts[0]) && Owns(Apply(b, acts[0]), acts[1..])
  {
    var b1 := Apply(b, acts[0]);
    var rest := acts[1..];
    forall i | 0 <= i < |rest| ensures Fits(b1, rest[i]) {
      var a := acts[i + 1];
      assert rest[i] == a && Fits(b, a);
      if Handed(a).Some? {
        ApplyKeepsOwned(b, acts[0], Handed(a).value);
      }
      if a.SendAll? && a.data.Some? {
        NotInPrefix(b1.pool.free, b.pool.free, a.data.value);
      }
    }
    forall i, j | 0 <= i < j < |rest| && Handed(rest[i]).Some? ensures Handed(rest[j]) != Handed(rest[i]) {
      assert rest[i] == acts[i + 1] && rest[j] == acts[j + 1];
    }
  }

  /** Actions that fit, none handing over a payload twice, keep the ownership invariant. */
  lemma {:induction false} ApplyAllValid(b: Bus, acts: seq<Action>)
    requires Valid(b) && Owns(b, acts)
    ensures Valid(ApplyAll(b, acts))
    decreases |acts|
  {
    if acts != [] {
      ApplyValid(b, acts[0]);
      OwnsRest(b, acts);
      ApplyAllValid(Apply(b, acts[0]), acts[1..]);
    }
  }

  /**
   * The delayed batch: `emitterLatterMirror`, the fired entries sorted by
   * event id, each fired once.
   */
  function Delayed(b: Bus, delta: real): (r: seq<Emitted>)
    ensures SortedBy(r, EmittedKey)
    ensures multiset(r) == multiset(Map(Due(Tick(b.later, delta)), Fire))
  {
    var due := Due(Tick(b.later, delta));
    var sorted := SortBy(due, TimerKey);
    FireSorted(sorted);
    MapPermutes(sorted, due, Fire);
    Map(sorted, Fire)
  }

  /**
   * The immediate batch: `emitterMirror`, the immediate queue sorted by
   * event id; entries with one id keep their queue order.
   */
  function Immediate(b: Bus): (r: seq<Emitted>)
    ensures SortedBy(r, EmittedKey) && multiset(r) == multiset(b.emitter)
    ensures forall k :: WithKey(r, EmittedKey, k) == WithKey(b.emitter, EmittedKey, k)
  {
    SortBy(b.emitter, EmittedKey)
  }

  /**
   * The listener calls of one frame: the delayed batch first, then the
   * immediate one. Every call goes to a listener registered for its event
   * and carries a fired delayed entry or an immediate entry.
   */
  function Calls(b: Bus, delta: real): (r: seq<Invocation>)
    ensures forall c :: c in r ==> c.listener in Lookup(b.listeners, c.event)
    ensures forall c :: c in r ==>
              Emitted(c.event, c.data) in Map(Due(Tick(b.later, delta)), Fire) || Emitted(c.event, c.data) in b.emitter
  {
    var del, imm := Delayed(b, delta), Immediate(b);
    CallsFrom(b.listeners, del, imm, Map(Due(Tick(b.later, delta)), Fire), b.emitter);
    InvokeAll(b.listeners, del) + InvokeAll(b.listeners, imm)
  }

  /** `Calls`' contract, over batches that permute the two queues. */
  lemma CallsFrom(t: Table, del: seq<Emitted>, imm: seq<Emitted>, fired: seq<Emitted>, queued: seq<Emitted>)
    requires multiset(del) == multiset(fired) && multiset(imm) == multiset(queued)
    ensures forall c :: c in InvokeAll(t, del) + InvokeAll(t, imm) ==>
              c.listener in Lookup(t, c.event) && (Emitted(c.event, c.data) in fired || Emitted(c.event, c.data) in queued)
  {
    forall c | c in InvokeAll(t, del) + InvokeAll(t, imm)
      ensures c.listener in Lookup(t, c.event) && (Emitted(c.event, c.data) in fired || Emitted(c.event, c.data) in queued)
    {
      var x := Emitted(c.event, c.data);
      if c in InvokeAll(t, del) {
        assert x in multiset(del);
      } else {
        assert x in multiset(imm);
      }
    }
  }

  /**
   * What the listeners do: the calls on the bus the listener of the call at
   * a given position of the frame's trace makes while it runs. The position
   * lets two equal calls of one frame act differently.
   */
  type Behaviour = (nat, Invocation) -> seq<Action>

  /** What the listeners do, call by call, in trace order. */
  function Reactions(calls: seq<Invocation>, react: Behaviour): (r: seq<Action>)
    ensures (forall i :: 0 <= i < |calls| ==> react(i, calls[i]) == []) ==> r == []
    decreases |calls|
  {
    if calls == [] then []
    else
      var n := |calls| - 1;
      assert forall i :: 0 <= i < n ==> calls[..n][i] == calls[i];
      Reactions(calls[..n], react) + react(n, calls[n])
  }

  /**
   * The listeners run one after another: what the first `n` invocations of
   * the trace do comes first, and the `n`-th invocation's calls follow it.
   */
  lemma {:induction false} ReactionsPrefix(calls: seq<Invocation>, react: Behaviour, n: nat)
    requires n < |calls|
    ensures Reactions(calls[..n], react) + react(n, calls[n]) <= Reactions(calls, react)
    decreases |calls|
  {
    var m := |calls| - 1;
    if n < m {
      ReactionsPrefix(calls[..m], react, n);
      assert calls[..m][..n] == calls[..n] && calls[..m][n] == calls[n];
    } else {
      assert calls[..n] == calls[..m];
    }
  }

  /** Every payload the listeners pass to the bus during the frame exists. */
  predicate Admissible(b: Bus, delta: real, react: Behaviour) {
    var acts := Reactions(Calls(b, delta), react);
    forall i :: 0 <= i < |acts| ==> Refers(b, acts[i])
  }

  /** The bus right after dispatch: ticked, with everything the listeners queued. */
  function Reacted(b: Bus, delta: real, react: Behaviour): (r: Bus)
    requires Admissible(b, delta, react)
    ensures Closed(b) ==> Closed(r)
  {
    var b0 := b.(later := Tick(b.later, delta));
    TickClosed(b, delta);
    ApplyAll(b0, Reactions(Calls(b, delta), react))
  }

  /** Ticking changes no payload: a closed bus stays closed. */
  lemma TickClosed(b: Bus, delta: real)
    ensures Closed(b) ==> Closed(b.(later := Tick(b.later, delta)))
  {
    var b0 := b.(later := Tick(b.later, delta));
    forall i | 0 <= i < |b0.later| ensures b0.later[i].data == b.later[i].data { }
  }

  /**
   * `eventDataToReset`: the payloads of the fired entries, in queue order,
   * then those of the immediate batch: each dispatched payload once.
   */
  function Freed(b: Bus, delta: real): (r: seq<PayloadId>)
    ensures |r| == |Due(Tick(b.later, delta))| + |b.emitter|
    ensures multiset(r) == multiset(Map(Due(Tick(b.later, delta)), TimerData)) + multiset(Map(b.emitter, EmittedData))
  {
    var imm := Immediate(b);
    MapPermutes(imm, b.emitter, EmittedData);
    assert |imm| == |b.emitter| by { assert |multiset(imm)| == |multiset(b.emitter)|; }
    Map(Due(Tick(b.later, delta)), TimerData) + Map(imm, EmittedData)
  }

  /** The payloads `update` frees exist. */
  lemma FreedHeld(b: Bus, delta: real, s: Pool.Store)
    requires Closed(b) && b.pool.heap.Keys <= s.heap.Keys
    ensures forall i :: 0 <= i < |Freed(b, delta)| ==> Freed(b, delta)[i] in s.heap
  {
    var due, imm := Due(Tick(b.later, delta)), Immediate(b);
    assert forall i :: 0 <= i < |b.later| ==> b.later[i].data in s.heap;
    DueHeld(b.later, delta, due, s.heap);
    PermutedHeld(b.emitter, imm, s.heap);
    assert Freed(b, delta) == Map(due, TimerData) + Map(imm, EmittedData);
    ConcatHeld(due, imm, Freed(b, delta), s.heap);
  }

  /** A permutation of a queue whose entries all refer to `heap` refers to it too. */
  lemma PermutedHeld(queue: seq<Emitted>, batch: seq<Emitted>, heap: map<PayloadId, EventData>)
    requires multiset(batch) == multiset(queue)
    requires forall i :: 0 <= i < |queue| ==> queue[i].data in heap
    ensures forall i :: 0 <= i < |batch| ==> batch[i].data in heap
  {
    forall i | 0 <= i < |batch| ensures batch[i].data in heap {
      assert batch[i] in multiset(queue);
    }
  }

  /** The fired entries of a queue whose entries all refer to `heap` refer to it too. */
  lemma DueHeld(later: seq<EventTimer>, delta: real, due: seq<EventTimer>, heap: map<PayloadId, EventData>)
    requires forall i :: 0 <= i < |later| ==> later[i].data in heap
    requires due == Due(Tick(later, delta))
    ensures forall i :: 0 <= i < |due| ==> due[i].data in heap
  {
    var ticked := Tick(later, delta);
    forall i | 0 <= i < |due| ensures due[i].data in heap {
      DueMembers(ticked, due[i]);
      var j :| 0 <= j < |ticked| && ticked[j] == due[i];
      assert due[i].data == later[j].data;
    }
  }

  /** The payloads of two batches whose entries all refer to `heap`. */
  lemma ConcatHeld(due: seq<EventTimer>, imm: seq<Emitted>, r: seq<PayloadId>, heap: map<PayloadId, EventData>)
    requires forall i :: 0 <= i < |due| ==> due[i].data in heap
    requires forall i :: 0 <= i < |imm| ==> imm[i].data in heap
    requires r == Map(due, TimerData) + Map(imm, EmittedData)
    ensures forall i :: 0 <= i < |r| ==> r[i] in heap
  {
    var m, n := Map(due, TimerData), Map(imm, EmittedData);
    forall i | 0 <= i < |m + n| ensures (m + n)[i] in heap {
      if i < |m| {
        MapIndex(due, TimerData, i);
      } else {
        MapIndex(imm, EmittedData, i - |m|);
      }
    }
  }


  /**
   * `update(delta)`: returns the bus after the frame and the listener calls
   * made, in order.
   */
  function Update(b: Bus, delta: real, react: Behaviour): (r: (Bus, seq<Invocation>))
    requires Closed(b) && Admissible(b, delta, react)
    ensures r.0.listeners == b.listeners
    ensures Closed(r.0)
  {
    var b1 := Reacted(b, delta, react);
    var b2 := b1.(emitter := RemoveAll(b1.emitter, Immediate(b)),
                  later := RemoveAll(b1.later, Due(Tick(b.later, delta))));
    FreedHeld(b, delta, b2.pool);
    var r := b2.(pool := Pool.ReleaseAll(b2.pool, Freed(b, delta)));
    ClosedShrinks(b1, r);
    (r, Calls(b, delta))
  }

  /**
   * Exactly once per registration: in one frame a listener is called with an
   * event and a payload as often as it is registered for the event, times the
   * number of fired delayed entries and immediate entries carrying them.
   */
  lemma CallsCount(b: Bus, delta: real, c: Invocation)
    ensures var e := Emitted(c.event, c.data);
            var regs := multiset(Lookup(b.listeners, c.event))[c.listener];
            multiset(Calls(b, delta))[c]
            == regs * multiset(Map(Due(Tick(b.later, delta)), Fire))[e] + regs * multiset(b.emitter)[e]
  {
    var due := Due(Tick(b.later, delta));
    MapPermutes(SortBy(due, TimerKey), due, Fire);
    BatchCount(b.listeners, Delayed(b, delta), Map(due, Fire), c);
    BatchCount(b.listeners, Immediate(b), b.emitter, c);
    var d, i := InvokeAll(b.listeners, Delayed(b, delta)), InvokeAll(b.listeners, Immediate(b));
    assert multiset(d + i)[c] == multiset(d)[c] + multiset(i)[c];
  }

  /** The count of a call in a rearranged batch. */
  lemma BatchCount(t: Table, xs: seq<Emitted>, ys: seq<Emitted>, c: Invocation)
    requires multiset(xs) == multiset(ys)
    ensures multiset(InvokeAll(t, xs))[c]
            == multiset(Lookup(t, c.event))[c.listener] * multiset(ys)[Emitted(c.event, c.data)]
  {
    InvokeAllCount(t, xs, c);
  }

  /**
   * Dispatch order: the delayed batch is dispatched before the immediate one;
   * each is in ascending event-id order, and the calls for one event id
   * follow the queue order of their entries.
   */
  lemma CallsOrder(b: Bus, delta: real)
    ensures var d := InvokeAll(b.listeners, Delayed(b, delta));
            var trace := Calls(b, delta);
            && d <= trace
            && SortedBy(d, CallKey) && SortedBy(trace[|d|..], CallKey)
            && (forall k :: WithKey(d, CallKey, k)
                            == InvokeAll(b.listeners, Map(WithKey(Due(Tick(b.later, delta)), TimerKey, k), Fire)))
            && (forall k :: WithKey(trace[|d|..], CallKey, k)
                            == InvokeAll(b.listeners, WithKey(b.emitter, EmittedKey, k)))
  {
    var due := Due(Tick(b.later, delta));
    var d, i := InvokeAll(b.listeners, Delayed(b, delta)), InvokeAll(b.listeners, Immediate(b));
    assert (d + i)[|d|..] == i;
    FireSorted(SortBy(due, TimerKey));
    InvokeAllSorted(b.listeners, Delayed(b, delta));
    InvokeAllSorted(b.listeners, Immediate(b));
    forall k ensures WithKey(d, CallKey, k) == InvokeAll(b.listeners, Map(WithKey(due, TimerKey, k), Fire)) {
      InvokeAllWithKey(b.listeners, Delayed(b, delta), k);
      FireWithKey(SortBy(due, TimerKey), k);
    }
    forall k ensures WithKey(i, CallKey, k) == InvokeAll(b.listeners, WithKey(b.emitter, EmittedKey, k)) {
      InvokeAllWithKey(b.listeners, Immediate(b), k);
    }
  }

  /**
   * Removal is by value: after a frame no queue entry equals a dispatched
   * one, not even an entry a listener queued during the frame (re-emitting
   * the payload it was handed, with the same event, is undone).
   */
  lemma UpdateRemovesDispatched(b: Bus, delta: real, react: Behaviour)
    requires Closed(b) && Admissible(b, delta, react)
    ensures var r := Update(b, delta, react).0;
            && (forall x :: x in r.emitter ==> x !in b.emitter)
            && (forall t :: t in r.later ==> t !in Due(Tick(b.later, delta)))
  {
    var r := Update(b, delta, react).0;
    forall x | x in r.emitter ensures x !in b.emitter {
      assert x !in Immediate(b);
      assert x !in multiset(Immediate(b));
    }
  }

  /** Ticking keeps the payloads of the delayed queue and so the ownership invariant. */
  lemma TickValid(b: Bus, delta: real)
    requires Valid(b)
    ensures Valid(b.(later := Tick(b.later, delta)))
  {
    TickData(b.later, delta);
    assert Queued(b.(later := Tick(b.later, delta))) == Queued(b);
  }

  /**
   * Removing the immediate batch (a rearrangement of the prior immediate queue)
   * by value leaves exactly the entries added during dispatch, because their
   * payloads differ from every prior entry's.
   */
  lemma ImmediateRemoved(prior: seq<Emitted>, add: seq<Emitted>, imm: seq<Emitted>)
    requires Distinct(Map(prior + add, EmittedData)) && multiset(imm) == multiset(prior)
    ensures RemoveAll(prior + add, imm) == add
  {
    RemoveAllConcat(prior, add, imm);
    forall i | 0 <= i < |prior| ensures prior[i] in imm {
      assert prior[i] in multiset(prior);
    }
    RemoveAllCovered(prior, imm);
    forall i | 0 <= i < |add| ensures add[i] !in imm {
      DistinctSplit(prior, add, EmittedData, add[i]);
      assert add[i] !in multiset(prior);
    }
    RemoveAllNone(add, imm);
  }

  /**
   * Removing the fired entries by value leaves the waiting ones and the
   * entries added during dispatch.
   */
  lemma DelayedRemoved(ticked: seq<EventTimer>, add: seq<EventTimer>)
    requires Distinct(Map(ticked + add, TimerData))
    ensures RemoveAll(ticked + add, Due(ticked)) == Waiting(ticked) + add
  {
    var due := Due(ticked);
    RemoveAllConcat(ticked, add, due);
    forall t | t in ticked ensures t in due <==> Fired(t) {
      DueMembers(ticked, t);
    }
    RemoveDue(ticked, due);
    forall i | 0 <= i < |add| ensures add[i] !in due {
      DistinctSplit(ticked, add, TimerData, add[i]);
      DueMembers(ticked, add[i]);
    }
    RemoveAllNone(add, due);
  }

  /** The bus after dispatch is valid and its queues extend the (ticked) queues before. */
  lemma ReactedShape(b: Bus, delta: real, react: Behaviour)
    requires Valid(b) && Owns(b, Reactions(Calls(b, delta), react))
    ensures var b1 := Reacted(b, delta, react);
            && Valid(b1)
            && b1.emitter == b.emitter + b1.emitter[|b.emitter|..]
            && b1.later == Tick(b.later, delta) + b1.later[|b.later|..]
  {
    var b0 := b.(later := Tick(b.later, delta));
    var b1 := Reacted(b, delta, react);
    TickValid(b, delta);
    OwnsTick(b, delta, Reactions(Calls(b, delta), react));
    ApplyAllValid(b0, Reactions(Calls(b, delta), react));
    PrefixSplit(b0.emitter, b1.emitter);
    PrefixSplit(b0.later, b1.later);
  }

  /** Ticking changes no payload, so what fits a bus fits it ticked. */
  lemma OwnsTick(b: Bus, delta: real, acts: seq<Action>)
    requires Owns(b, acts)
    ensures Owns(b.(later := Tick(b.later, delta)), acts)
  {
    TickData(b.later, delta);
    assert Queued(b.(later := Tick(b.later, delta))) == Queued(b);
  }

  lemma PrefixSplit<T>(a: seq<T>, b: seq<T>)
    requires a <= b
    ensures b == a + b[|a|..]
  {
  }

  /**
   * Deferral: after a frame the immediate queue holds exactly what the
   * listeners emitted during it, and the delayed queue the entries that did
   * not fire followed by what the listeners scheduled; nothing queued during
   * dispatch is dispatched in the same frame.
   */
  lemma UpdateQueues(b: Bus, delta: real, react: Behaviour)
    requires Valid(b) && Closed(b) && Owns(b, Reactions(Calls(b, delta), react))
    ensures var b1 := Reacted(b, delta, react);
            var r := Update(b, delta, react).0;
            && r.emitter == b1.emitter[|b.emitter|..]
            && r.later == Pending(b.later, delta) + b1.later[|b.later|..]
  {
    var b1 := Reacted(b, delta, react);
    ReactedShape(b, delta, react);
    ValidQueuesDistinct(b1);
    ImmediateRemoved(b.emitter, b1.emitter[|b.emitter|..], Immediate(b));
    DelayedRemoved(Tick(b.later, delta), b1.later[|b.later|..]);
  }

  /**
   * Recycling: after a frame the pool holds, after what it held, the payload
   * of every fired delayed entry and of every immediate entry, each once and
   * in its reset state.
   */
  lemma UpdateRecycles(b: Bus, delta: real, react: Behaviour)
    requires Closed(b) && Admissible(b, delta, react)
    ensures var r := Update(b, delta, react).0;
            && r.pool.free == Reacted(b, delta, react).pool.free + Freed(b, delta)
            && (forall i :: 0 <= i < |Freed(b, delta)| ==>
                  Freed(b, delta)[i] in r.pool.heap && r.pool.heap[Freed(b, delta)[i]] == Fresh())
            && multiset(Freed(b, delta))
               == multiset(Map(Due(Tick(b.later, delta)), TimerData)) + multiset(Map(b.emitter, EmittedData))
  {
    var imm := Immediate(b);
    FreedHeld(b, delta, Reacted(b, delta, react).pool);
    MapPermutes(imm, b.emitter, EmittedData);
    assert multiset(Freed(b, delta))
           == multiset(Map(Due(Tick(b.later, delta)), TimerData)) + multiset(Map(imm, EmittedData));
  }

  /** The dispatched payloads and what stays queued account for everything queued after dispatch. */
  lemma FreedAccounts(b1: Bus, r: Bus, prior: seq<Emitted>, addE: seq<Emitted>, ticked: seq<EventTimer>,
                      addL: seq<EventTimer>, imm: seq<Emitted>, freed: seq<PayloadId>)
    requires b1.emitter == prior + addE && b1.later == ticked + addL
    requires r.emitter == addE && r.later == Waiting(ticked) + addL
    requires multiset(imm) == multiset(prior)
    requires freed == Map(Due(ticked), TimerData) + Map(imm, EmittedData)
    ensures multiset(freed) + Queued(r) == Queued(b1)
  {
    MapConcat(prior, addE, EmittedData);
    MapConcat(ticked, addL, TimerData);
    MapConcat(Waiting(ticked), addL, TimerData);
    MapPermutes(imm, prior, EmittedData);
    DueWaitingSplit(ticked);
  }

  /** Freeing payloads that were queued once and stay queued no more keeps the invariant. */
  lemma ReleaseKeeps(b1: Bus, freed: seq<PayloadId>, r: Bus)
    requires Valid(b1) && forall i :: 0 <= i < |freed| ==> freed[i] in b1.pool.heap
    requires r.pool == Pool.ReleaseAll(b1.pool, freed) && multiset(freed) + Queued(r) == Queued(b1)
    ensures Valid(r)
  {
    FreedDistinct(b1, freed);
    forall p | p in Queued(r) ensures Queued(r)[p] == 1 && p in r.pool.heap && p !in r.pool.free {
      assert p in Queued(b1);
      assert p !in multiset(freed);
    }
  }

  /** Queued payloads are not pooled, so freeing each of them once leaves no object pooled twice. */
  lemma FreedDistinct(b1: Bus, freed: seq<PayloadId>)
    requires Valid(b1) && multiset(freed) <= Queued(b1)
    ensures Distinct(b1.pool.free + freed)
  {
    var s := b1.pool;
    assert multiset(s.free + freed) == multiset(s.free) + multiset(freed);
    forall x ensures multiset(s.free + freed)[x] <= 1 {
      if x in multiset(freed) {
        assert x in Queued(b1) && x !in s.free;
      }
    }
  }

  /**
   * A frame keeps the ownership invariant when the listeners take every
   * payload they emit from the pool.
   */
  lemma UpdateValid(b: Bus, delta: real, react: Behaviour)
    requires Valid(b) && Closed(b) && Owns(b, Reactions(Calls(b, delta), react))
    ensures Valid(Update(b, delta, react).0)
  {
    var b1 := Reacted(b, delta, react);
    var r := Update(b, delta, react).0;
    var ticked := Tick(b.later, delta);
    ReactedShape(b, delta, react);
    UpdateQueues(b, delta, react);
    FreedAccounts(b1, r, b.emitter, b1.emitter[|b.emitter|..], ticked, b1.later[|b.later|..],
                  Immediate(b), Freed(b, delta));
    FreedHeld(b, delta, b1.pool);
    ReleaseKeeps(b1, Freed(b, delta), r);
  }

  /** Listeners that make no call on the bus. */
  function Quiet(k: nat, c: Invocation): seq<Action> { [] }

  /**
   * A frame whose listeners make no call empties the immediate queue and
   * leaves the delayed queue ticked, without the entries that fired.
   */
  lemma UpdateQuiet(b: Bus, delta: real)
    requires Closed(b)
    ensures var r := Update(b, delta, Quiet).0;
            && r.emitter == [] && r.later == Pending(b.later, delta)
            && r.pool.heap.Keys == b.pool.heap.Keys
  {
    var imm := Immediate(b);
    forall i | 0 <= i < |b.emitter| ensures b.emitter[i] in imm {
      assert b.emitter[i] in multiset(b.emitter);
    }
    RemoveAllCovered(b.emitter, imm);
    var ticked := Tick(b.later, delta);
    forall t | t in ticked ensures t in Due(ticked) <==> Fired(t) {
      DueMembers(ticked, t);
    }
    RemoveDue(ticked, Due(ticked));
  }

  /** One quiet frame per elapsed time of `ds`, in order. */
  function Run(b: Bus, ds: seq<real>): (r: Bus)
    requires Closed(b)
    ensures Closed(r) && r.listeners == b.listeners
    decreases |ds|
  {
    if ds == [] then b else Run(Update(b, ds[0], Quiet).0, ds[1..])
  }

  /** Over quiet frames the delayed queue evolves as the timers alone say. */
  lemma {:induction false} RunLater(b: Bus, ds: seq<real>)
    requires Closed(b)
    ensures Run(b, ds).later == Elapse(b.later, ds)
    decreases |ds|
  {
    if ds != [] {
      UpdateQuiet(b, ds[0]);
      RunLater(Update(b, ds[0], Quiet).0, ds[1..]);
    }
  }

  /**
   * Delay accuracy over frames: an entry scheduled with delay `t.timer` that
   * has not fired during the quiet frames `ds` fires in the next frame exactly
   * when the total elapsed time strictly exceeds its delay.
   */
  lemma RunFires(b: Bus, ds: seq<real>, delta: real, t: EventTimer)
    requires Closed(b) && t in b.later
    requires forall j :: 0 <= j <= |ds| ==> Sum(ds[..j]) <= t.timer
    ensures var u := t.(timer := t.timer - Sum(ds) - delta);
            u in Due(Tick(Run(b, ds).later, delta)) <==> Sum(ds) + delta > t.timer
  {
    RunLater(b, ds);
    DelayAccuracy(b.later, ds, delta, t);
  }

  /**
   * A delayed entry that does not fire in a frame stays queued, its timer
   * decreased by the elapsed time, whatever the listeners do during the frame.
   */
  lemma UpdateKeepsWaiting(b: Bus, delta: real, react: Behaviour, t: EventTimer)
    requires Closed(b) && Admissible(b, delta, react)
    requires t in b.later && t.timer - delta >= 0.0
    ensures t.(timer := t.timer - delta) in Update(b, delta, react).0.later
  {
    var w := t.(timer := t.timer - delta);
    var ticked := Tick(b.later, delta);
    var i :| 0 <= i < |b.later| && b.later[i] == t;
    assert ticked[i] == w;
    var b1 := Reacted(b, delta, react);
    assert ticked <= b1.later;
    assert w in b1.later;
    DueMembers(ticked, w);
    assert w in RemoveAll(b1.later, Due(ticked));
  }

  /** `b'` is the bus after a frame of `delta` in which the listeners act as `react` says. */
  ghost predicate Step(b: Bus, delta: real, react: Behaviour, b': Bus) {
    Closed(b) && Admissible(b, delta, react) && b' == Update(b, delta, react).0
  }

  /**
   * `bs` is the bus before and after each of a run of frames: frame `k`
   * lasts `ds[k]` and its listeners act as `reacts[k]` says.
   */
  ghost predicate Frames(bs: seq<Bus>, ds: seq<real>, reacts: seq<Behaviour>) {
    && |bs| == |ds| + 1 && |reacts| == |ds|
    && forall k {:trigger Step(bs[k], ds[k], reacts[k], bs[k + 1])} :: 0 <= k < |ds| ==> Step(bs[k], ds[k], reacts[k], bs[k + 1])
  }

  /** What does not fire in a frame survives it. */
  lemma StepSurvives(b: Bus, delta: real, react: Behaviour, b': Bus)
    requires Step(b, delta, react, b')
    ensures Survives(b.later, b'.later, delta)
  {
    forall w | w in b.later && w.timer - delta >= 0.0 ensures w.(timer := w.timer - delta) in b'.later {
      UpdateKeepsWaiting(b, delta, react, w);
    }
  }

  /** The delayed queues of a run of frames, one per frame boundary. */
  function LaterQueues(bs: seq<Bus>): (r: seq<seq<EventTimer>>)
    ensures |r| == |bs| && forall k :: 0 <= k < |bs| ==> r[k] == bs[k].later
  {
    seq(|bs|, k requires 0 <= k < |bs| => bs[k].later)
  }

  /**
   * Over any run of frames, whatever the listeners do, a delayed entry waits
   * as long as the elapsed time has not gone past its delay, and its timer
   * is then the delay minus the elapsed time.
   */
  lemma FramesKeep(bs: seq<Bus>, ds: seq<real>, reacts: seq<Behaviour>, t: EventTimer)
    requires Frames(bs, ds, reacts) && t in bs[0].later
    requires forall j :: 0 <= j <= |ds| ==> Sum(ds[..j]) <= t.timer
    ensures t.(timer := t.timer - Sum(ds)) in bs[|ds|].later
  {
    FramesPersist(bs, ds, reacts);
    PersistsKeep(LaterQueues(bs), ds, t);
  }

  /** The delayed queues of a run of frames form a history in which what does not fire survives. */
  lemma FramesPersist(bs: seq<Bus>, ds: seq<real>, reacts: seq<Behaviour>)
    requires Frames(bs, ds, reacts)
    ensures Persists(LaterQueues(bs), ds)
  {
    var ls := LaterQueues(bs);
    forall k | 0 <= k < |ds| ensures Survives(ls[k], ls[k + 1], ds[k]) {
      StepSurvives(bs[k], ds[k], reacts[k], bs[k + 1]);
    }
  }

  /**
   * Delay accuracy over any run of frames: an entry scheduled with delay
   * `t.timer` that has not fired during the frames `ds` fires in the next
   * frame exactly when the total elapsed time strictly exceeds its delay,
   * whatever the listeners do meanwhile.
   */
  lemma FramesFire(bs: seq<Bus>, ds: seq<real>, reacts: seq<Behaviour>, delta: real, t: EventTimer)
    requires Frames(bs, ds, reacts) && t in bs[0].later
    requires forall j :: 0 <= j <= |ds| ==> Sum(ds[..j]) <= t.timer
    ensures var u := t.(timer := t.timer - Sum(ds) - delta);
            u in Due(Tick(bs[|ds|].later, delta)) <==> Sum(ds) + delta > t.timer
  {
    var ls := LaterQueues(bs);
    FramesPersist(bs, ds, reacts);
    PersistsFire(ls, ds, delta, t);
  }
}
