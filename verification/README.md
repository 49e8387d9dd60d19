# Event bus of ashley-addons, in Dafny

This project models the per-frame event bus of `EventBus.kt` (libgdx-addons,
ashley-addons) as a functional state machine, and proves properties of the model.
The bus has four parts:

- a **pool** of `EventData` payload objects, recycled through libGDX's `Pool`;
- an **immediate queue** (`emitter`), filled by `emit` and `emitData`;
- a **delayed queue** (`emitterLatter`), filled by `emitLater`;
- a **listener registry**, filled by `register` and `registers { onEvents(...) }`.

Once per frame, `update(delta)` does the following:

1. It ticks every delayed timer.
2. It picks the entries whose timer is now below zero.
3. It stable-sorts the fired delayed entries and the immediate queue by event id.
4. It dispatches the fired delayed entries first, then the immediate entries.
5. It removes the dispatched entries from the live queues.
6. It hands their payloads back to the pool.

How the model represents this:

- **Payloads.** They are ids into a heap map (`Pool.Store`). Aliasing, ownership and
  recycling can therefore be stated. The pool is a LIFO free list:
  - `obtain` pops the most recently freed object, or builds a new one;
  - `free` resets an object and pushes it.
- **Listeners.** They are opaque ids. Dispatch yields a trace of
  `Invocation(listener, event, payload)`.
- **Re-entrant emits.** A listener may call back into the bus while it is being
  invoked. These calls are the `Frame.Action`s returned by a `react` parameter of
  `Frame.Update`. `react` receives the invocation and its position in the frame's
  trace, so two identical invocations in one frame may act differently, as two
  runs of a stateful listener can. Dispatch reads only the two sorted snapshots and the registry,
  and no action changes either. So applying the actions in trace order after the
  trace is known ends in the same state as interleaving them.

Modules, one file each:

| file | module | what it holds |
|---|---|---|
| `types.dfy` | `Types` | event ids (32-bit), entities, bodies, `Option` |
| `seqs.dfy` | `Seqs` | sequence helpers: `Map`, `RemoveAll` (Kotlin `removeAll` by value), `Distinct` |
| `stable_sort.dfy` | `StableSort` | `sortBy` as an insertion sort: sorted, permutation, stable |
| `payload.dfy` | `Payload` | `EventData`, `reset`, `EventTimer` |
| `pool.dfy` | `Pool` | the payload pool |
| `registry.dfy` | `Registry` | `register`, `registers`/`toMap`, `invoke` |
| `bus.dfy` | `EventBus` | the bus state and every producer call |
| `timers.dfy` | `Timers` | ticking and the firing test of the delayed queue |
| `dispatch.dfy` | `Dispatch` | dispatching a sorted batch |
| `frame.dfy` | `Frame` | `update` with re-entrant listener calls |

Two invariants appear throughout:

- **Ownership**, `EventBus.Valid`. Each queued payload is held by exactly one queue
  entry, exists, and is not pooled. On top of that, the pool is valid: no object
  is pooled twice, and every pooled object is in its reset state.
- **Closedness**, `EventBus.Closed`. Every queued payload exists. Together with
  `Frame.Admissible` (each listener call passes a payload that exists, or takes
  one from the pool), this is what `update` needs in order to be defined.

A payload is **owned** (`EventBus.Owned`) by whoever obtained it with
`createEventData` and has not yet passed it to the bus: it exists, is not pooled
and is not queued. A frame's listener calls **fit** the bus (`Frame.Owns`) when
each call either lets the bus take a payload from the pool or passes a payload
it owns, and no two calls pass the same one.

## Model

Paths are relative to the repository root. `EventBus.kt` stands for
`ashley-addons/src/main/kotlin/com/github/dwursteisen/libgdx/ashley/EventBus.kt`
in the prose, but each cell gives the full path.

| member | source | states |
|---|---|---|
| Payload.Reset | ashley-addons/src/main/kotlin/com/github/dwursteisen/libgdx/ashley/EventBus.kt:18-24 | `reset` returns a payload equal to a freshly constructed one (`Payload.Fresh`, the constructor at line 18 that the pool's `newObject` calls): event is the `Int.MIN_VALUE` sentinel, and target and body are null |
| Pool.Empty | ashley-addons/src/main/kotlin/com/github/dwursteisen/libgdx/ashley/EventBus.kt:40-42 | the pool of a new bus holds nothing and has built nothing, and is valid |
| Pool.Obtain | ashley-addons/src/main/kotlin/com/github/dwursteisen/libgdx/ashley/EventBus.kt:40-42 | `obtain` pops the last pooled object, or else builds a new object in its reset state under a brand-new id; no object outside the pool changes |
| Pool.ObtainValid | ashley-addons/src/main/kotlin/com/github/dwursteisen/libgdx/ashley/EventBus.kt:124 | on a valid pool, `obtain` keeps the pool valid and hands out an object in its reset state that the pool no longer holds, which was pooled or is brand new |
| Pool.ObtainWriteValid | ashley-addons/src/main/kotlin/com/github/dwursteisen/libgdx/ashley/EventBus.kt:124 | writing the object just obtained keeps the pool valid |
| Pool.Release | ashley-addons/src/main/kotlin/com/github/dwursteisen/libgdx/ashley/EventBus.kt:204 | `free` resets exactly that object and appends it to the free list; freeing an object not pooled keeps the pool valid |
| Pool.ReleaseAll | ashley-addons/src/main/kotlin/com/github/dwursteisen/libgdx/ashley/EventBus.kt:199-204 | freeing a list appends it to the free list and resets each listed object; all other objects are unchanged; validity is kept when nothing ends up pooled twice |
| Pool.ObtainAfterRelease | ashley-addons/src/main/kotlin/com/github/dwursteisen/libgdx/ashley/EventBus.kt:124 | round trip: after `free(p)`, `obtain` returns `p` in its reset state and the free list is as before |
| Registry.Register | ashley-addons/src/main/kotlin/com/github/dwursteisen/libgdx/ashley/EventBus.kt:162-167 | `register` adds exactly the listed ids as keys |
| Registry.RegisterAppends | ashley-addons/src/main/kotlin/com/github/dwursteisen/libgdx/ashley/EventBus.kt:162-167 | `register(l, *events)` appends to each id's list one `l` per time the id is listed (duplicates kept); other ids keep their list |
| Registry.Invoke | ashley-addons/src/main/kotlin/com/github/dwursteisen/libgdx/ashley/EventBus.kt:210-212 | `invoke` calls each registered listener of the id, in registration order and once per registration; nothing is called for an unregistered id, because `Registry.Lookup` (the `listeners[it] ?: emptyList()` of lines 164 and 211) is empty for it |
| Registry.InvokeEachCount | ashley-addons/src/main/kotlin/com/github/dwursteisen/libgdx/ashley/EventBus.kt:210-212 | `invoke(e, p)` makes a given call exactly as often as the listener is registered for `e` |
| Registry.Put | ashley-addons/src/main/kotlin/com/github/dwursteisen/libgdx/ashley/EventBus.kt:170 | a map put keeps the keys unique and rebinds only the key that was put |
| Registry.PutPositions | ashley-addons/src/main/kotlin/com/github/dwursteisen/libgdx/ashley/EventBus.kt:170 | a put of an id list already present keeps every key in its position; a put of a new id list appends it at the end, as a `LinkedHashMap` does |
| Registry.FirstAt | ashley-addons/src/main/kotlin/com/github/dwursteisen/libgdx/ashley/EventBus.kt:170 | the position of the first `onEvents` line naming an id list: that line names it and no earlier one does |
| Registry.BoundFirst | ashley-addons/src/main/kotlin/com/github/dwursteisen/libgdx/ashley/EventBus.kt:170 | an id list is bound in the map exactly when some line names it |
| Registry.ToMap | ashley-addons/src/main/kotlin/com/github/dwursteisen/libgdx/ashley/EventBus.kt:48-52 | `Listeners.toMap()` keeps each id list once, bound to the listener of its last `onEvents` line, and drops no listed id list |
| Registry.ToMapOrder | ashley-addons/src/main/kotlin/com/github/dwursteisen/libgdx/ashley/EventBus.kt:48-52 | the id lists of `toMap()` are in the order of the first `onEvents` line naming each, so a list named again keeps its first position |
| Registry.ToMapPair | ashley-addons/src/main/kotlin/com/github/dwursteisen/libgdx/ashley/EventBus.kt:48-52 | two `onEvents` lines with different id lists both survive `toMap()`, in line order |
| Registry.RegisterAllAppends | ashley-addons/src/main/kotlin/com/github/dwursteisen/libgdx/ashley/EventBus.kt:169-181 | registering bindings in turn appends to each id's list the listeners of the bindings naming it, binding by binding |
| Registry.RegisterAll | ashley-addons/src/main/kotlin/com/github/dwursteisen/libgdx/ashley/EventBus.kt:170-180 | the `forEach` over the `toMap()` entries: every id already present stays a key, and every id an entry names becomes one |
| Registry.Registers | ashley-addons/src/main/kotlin/com/github/dwursteisen/libgdx/ashley/EventBus.kt:169-181 | `registers` never drops an id; what it registers is stated by `Registry.RegistersAppends`, `Registry.ToMap` and `Registry.ToMapOrder`: each distinct id list once, in first-line order, with its last line's callback |
| Registry.RegistersAppends | ashley-addons/src/main/kotlin/com/github/dwursteisen/libgdx/ashley/EventBus.kt:169-181 | after `registers`, each id's list ends with the callbacks of the `toMap()` entries naming it, once per occurrence, in `toMap()` order |
| Registry.RegistersKeys | ashley-addons/src/test/kotlin/com/github/dwursteisen/libgdx/ashley/EventBusTest.kt:25-33 | after `registers { ... }`, an id is a key exactly when it was a key before or some `onEvents` line names it |
| Registry.RegistersCollapse | ashley-addons/src/main/kotlin/com/github/dwursteisen/libgdx/ashley/EventBus.kt:169-181 | two `onEvents` lines with the same id list register only the second listener |
| Registry.RegistersInLineOrder | ashley-addons/src/main/kotlin/com/github/dwursteisen/libgdx/ashley/EventBus.kt:169-181 | lines naming `[1]` then `[1, 2]` give id 1 both listeners in line order and id 2 only the second |
| EventBus.New | ashley-addons/src/main/kotlin/com/github/dwursteisen/libgdx/ashley/EventBus.kt:115-121 | a new bus has no listeners, two empty queues and an empty pool, and keeps the ownership invariant |
| EventBus.CreateEventData | ashley-addons/src/main/kotlin/com/github/dwursteisen/libgdx/ashley/EventBus.kt:124 | `createEventData` changes only the pool, and hands out an existing object that was pooled or is new |
| EventBus.CreateEventDataValid | ashley-addons/src/main/kotlin/com/github/dwursteisen/libgdx/ashley/EventBus.kt:124 | on a valid bus, the payload handed out is in reset state and now belongs to the caller: it exists, is not pooled and is not queued |
| EventBus.Resolve | ashley-addons/src/main/kotlin/com/github/dwursteisen/libgdx/ashley/EventBus.kt:131 | the default argument `data = createEventData()`: a passed payload is used as is and the bus is unchanged; otherwise only the pool changes, and the payload was pooled or is brand new |
| EventBus.EnqueueHands | ashley-addons/src/main/kotlin/com/github/dwursteisen/libgdx/ashley/EventBus.kt:134 | `emitter.add(event to data)` hands the payload to the bus: the queued payloads grow by exactly that one, it stops being the caller's, and every other payload keeps its owner |
| EventBus.ScheduleHands | ashley-addons/src/main/kotlin/com/github/dwursteisen/libgdx/ashley/EventBus.kt:159 | `emitterLatter.add(timer)` hands the payload to the bus: the queued payloads grow by exactly that one, it stops being the caller's, and every other payload keeps its owner |
| EventBus.Emit | ashley-addons/src/main/kotlin/com/github/dwursteisen/libgdx/ashley/EventBus.kt:131-135 | `emit` stamps the payload with the event and appends exactly one `(event, data)` to the immediate queue; the passed payload is used as is; the delayed queue and registry are untouched |
| EventBus.EmitValid | ashley-addons/src/main/kotlin/com/github/dwursteisen/libgdx/ashley/EventBus.kt:131-135 | `emit` of an owned payload keeps the ownership invariant; the default payload is a reset object carrying only the event |
| EventBus.EmitTo | ashley-addons/src/main/kotlin/com/github/dwursteisen/libgdx/ashley/EventBus.kt:126-129 | the entity overload also sets the target before emitting |
| EventBus.EmitToValid | ashley-addons/src/main/kotlin/com/github/dwursteisen/libgdx/ashley/EventBus.kt:126-129 | the entity overload keeps the ownership invariant |
| EventBus.CopyTo | ashley-addons/src/main/kotlin/com/github/dwursteisen/libgdx/ashley/EventBus.kt:138-142 | one broadcast round appends a pool object carrying the event, the entity and the source body |
| EventBus.CopyToSteps | ashley-addons/src/main/kotlin/com/github/dwursteisen/libgdx/ashley/EventBus.kt:138-142 | one round equals the source's steps: `createEventData`, copy the body, then `emit(event, entity, cpy)` |
| EventBus.EmitCopies | ashley-addons/src/main/kotlin/com/github/dwursteisen/libgdx/ashley/EventBus.kt:138-142 | the first `n` rounds of the broadcast loop append `n` entries, each with the event and an existing payload, keeping the queue's prefix, the delayed queue and the registry |
| EventBus.EmitCopiesRounds | ashley-addons/src/main/kotlin/com/github/dwursteisen/libgdx/ashley/EventBus.kt:137-143 | the broadcast loop is one round per entity, in argument order, starting from the unchanged bus |
| EventBus.EmitAll | ashley-addons/src/main/kotlin/com/github/dwursteisen/libgdx/ashley/EventBus.kt:137-143 | broadcast `emit` appends one entry per entity (none for zero entities) and leaves the delayed queue and registry untouched |
| EventBus.EmitAllValid | ashley-addons/src/main/kotlin/com/github/dwursteisen/libgdx/ashley/EventBus.kt:137-143 | broadcast `emit` keeps the ownership invariant |
| EventBus.EmitAllCopies | ashley-addons/src/main/kotlin/com/github/dwursteisen/libgdx/ashley/EventBus.kt:137-143 | the broadcast appends the entries for the objects it took from the pool, written with the event, the entities and the source body |
| EventBus.EmitAllContents | ashley-addons/src/main/kotlin/com/github/dwursteisen/libgdx/ashley/EventBus.kt:137-143 | the i-th payload enqueued was pooled or brand new, so it is never the passed `data`; it carries the event, the i-th entity and the body of `data` |
| EventBus.EmitAllDrawn | ashley-addons/src/main/kotlin/com/github/dwursteisen/libgdx/ashley/EventBus.kt:137-143 | every payload the broadcast enqueues was pooled or is brand new |
| EventBus.EmitAllDistinct | ashley-addons/src/main/kotlin/com/github/dwursteisen/libgdx/ashley/EventBus.kt:137-143 | every entity gets a payload of its own |
| EventBus.EmitData | ashley-addons/src/main/kotlin/com/github/dwursteisen/libgdx/ashley/EventBus.kt:145-149 | `emitData` takes a payload from the pool, writes the body computed at call time into it, and appends one entry carrying the event; the payload was pooled or is brand new |
| EventBus.EmitDataValid | ashley-addons/src/main/kotlin/com/github/dwursteisen/libgdx/ashley/EventBus.kt:145-149 | `emitData` keeps the ownership invariant; the payload holds exactly the event and the body, with no target |
| EventBus.EmitLater | ashley-addons/src/main/kotlin/com/github/dwursteisen/libgdx/ashley/EventBus.kt:156-160 | `emitLater` stamps the payload and appends `EventTimer(delay, event, data)` to the delayed queue; the immediate queue and registry are untouched |
| EventBus.EmitLaterValid | ashley-addons/src/main/kotlin/com/github/dwursteisen/libgdx/ashley/EventBus.kt:156-160 | `emitLater` of an owned payload keeps the ownership invariant |
| EventBus.EmitLaterTo | ashley-addons/src/main/kotlin/com/github/dwursteisen/libgdx/ashley/EventBus.kt:151-154 | the entity overload of `emitLater` also sets the target; a passed payload is the one queued, only its event and target change, and the free list is untouched |
| EventBus.EmitLaterToValid | ashley-addons/src/main/kotlin/com/github/dwursteisen/libgdx/ashley/EventBus.kt:151-154 | the entity overload of `emitLater` keeps the ownership invariant |
| EventBus.RegisterOn | ashley-addons/src/main/kotlin/com/github/dwursteisen/libgdx/ashley/EventBus.kt:162-167 | `register` on the bus changes only the registry, adding the listed ids as keys |
| EventBus.RegistersOn | ashley-addons/src/main/kotlin/com/github/dwursteisen/libgdx/ashley/EventBus.kt:169-181 | `registers` on the bus changes only the registry; its new keys are exactly the ids named on some `onEvents` line |
| EventBus.ValidClosed | ashley-addons/src/main/kotlin/com/github/dwursteisen/libgdx/ashley/EventBus.kt:115-121 | a bus that keeps the ownership invariant has every queued payload in the heap |
| EventBus.ValidQueuesDistinct | ashley-addons/src/main/kotlin/com/github/dwursteisen/libgdx/ashley/EventBus.kt:117-121 | under the ownership invariant, no queue holds a payload twice |
| StableSort.SortBy | ashley-addons/src/main/kotlin/com/github/dwursteisen/libgdx/ashley/EventBus.kt:188-192 | `sortBy` yields a list sorted by key that is a rearrangement of its input; the elements of each key keep their input order |
| StableSort.InsertStable | ashley-addons/src/main/kotlin/com/github/dwursteisen/libgdx/ashley/EventBus.kt:189 | inserting an element keeps the order among equal keys, and puts it first among its key |
| Timers.Tick | ashley-addons/src/main/kotlin/com/github/dwursteisen/libgdx/ashley/EventBus.kt:185 | each timer is decreased by the elapsed time; entries and order are otherwise the same |
| Timers.Fired | ashley-addons/src/main/kotlin/com/github/dwursteisen/libgdx/ashley/EventBus.kt:186 | the firing test `it.timer < 0` is strict: a timer at exactly zero does not fire |
| Timers.Due | ashley-addons/src/main/kotlin/com/github/dwursteisen/libgdx/ashley/EventBus.kt:186 | every entry `filter { it.timer < 0 }` keeps has fired, and it keeps at most the queued entries |
| Timers.TickTwice | ashley-addons/src/main/kotlin/com/github/dwursteisen/libgdx/ashley/EventBus.kt:185 | two ticks in a row equal one tick by their sum |
| Timers.TickData | ashley-addons/src/main/kotlin/com/github/dwursteisen/libgdx/ashley/EventBus.kt:185 | ticking keeps every entry's payload in place |
| Timers.DueMembers | ashley-addons/src/main/kotlin/com/github/dwursteisen/libgdx/ashley/EventBus.kt:186 | an entry fires exactly when its timer is strictly below zero |
| Timers.WaitingMembers | ashley-addons/src/main/kotlin/com/github/dwursteisen/libgdx/ashley/EventBus.kt:186 | an entry waits exactly when its timer is not below zero |
| Timers.DueWaitingSplit | ashley-addons/src/main/kotlin/com/github/dwursteisen/libgdx/ashley/EventBus.kt:186-201 | every queued payload either fires or waits, never both |
| Timers.RemoveDue | ashley-addons/src/main/kotlin/com/github/dwursteisen/libgdx/ashley/EventBus.kt:201 | removing the fired entries by value leaves the waiting entries, in their original order |
| Timers.ElapseKeeps | ashley-addons/src/main/kotlin/com/github/dwursteisen/libgdx/ashley/EventBus.kt:185-186 | an entry waits while the elapsed time has not passed its delay; its timer is then the delay minus the elapsed time |
| Timers.DelayAccuracy | ashley-addons/src/main/kotlin/com/github/dwursteisen/libgdx/ashley/EventBus.kt:185-186 | an entry fires in the first frame where the total elapsed time strictly exceeds its delay |
| Timers.KeptFires | ashley-addons/src/main/kotlin/com/github/dwursteisen/libgdx/ashley/EventBus.kt:185-186 | an entry still queued after `elapsed` fires in the next frame exactly when `elapsed + delta` strictly exceeds its delay |
| Timers.PersistsKeep | ashley-addons/src/main/kotlin/com/github/dwursteisen/libgdx/ashley/EventBus.kt:185-186 | along any history of delayed queues in which each frame keeps its unfired ticked entries, an entry waits while the elapsed time has not passed its delay, with timer delay minus elapsed time |
| Timers.PersistsFire | ashley-addons/src/main/kotlin/com/github/dwursteisen/libgdx/ashley/EventBus.kt:185-186 | along such a history an entry fires in the next frame exactly when the total elapsed time strictly exceeds its delay |
| Dispatch.InvokeAll | ashley-addons/src/main/kotlin/com/github/dwursteisen/libgdx/ashley/EventBus.kt:196-197 | each call of a dispatched batch goes to a listener registered for its event and carries the event and payload of a batch entry |
| Dispatch.InvokeAllConcat | ashley-addons/src/main/kotlin/com/github/dwursteisen/libgdx/ashley/EventBus.kt:196-197 | dispatching two batches in a row gives the first batch's calls followed by the second's |
| Dispatch.InvokeAllCount | ashley-addons/src/main/kotlin/com/github/dwursteisen/libgdx/ashley/EventBus.kt:196-197 | exactly once per registration: a call count is registrations times matching batch entries |
| Dispatch.InvokeAllMembers | ashley-addons/src/main/kotlin/com/github/dwursteisen/libgdx/ashley/EventBus.kt:210-212 | a call happens exactly when a batch entry carries its event and payload and the listener is registered for the event |
| Dispatch.InvokeAllSorted | ashley-addons/src/main/kotlin/com/github/dwursteisen/libgdx/ashley/EventBus.kt:192-197 | a batch sorted by event id is dispatched in ascending event-id order |
| Dispatch.InvokeAllWithKey | ashley-addons/src/main/kotlin/com/github/dwursteisen/libgdx/ashley/EventBus.kt:192-197 | the calls for one event id are those for the batch entries with that id, in batch order |
| Dispatch.FireWithKey | ashley-addons/src/main/kotlin/com/github/dwursteisen/libgdx/ashley/EventBus.kt:196 | `invoke(it.event, it.data)` is called with the delayed entry's own event id and payload (`Dispatch.Fire`), so selecting by id commutes with firing |
| Dispatch.FireSorted | ashley-addons/src/main/kotlin/com/github/dwursteisen/libgdx/ashley/EventBus.kt:188-196 | a delayed batch sorted by event id stays sorted once fired |
| Frame.Apply | ashley-addons/src/main/kotlin/com/github/dwursteisen/libgdx/ashley/EventBus.kt:126-160 | a call a listener makes appends to exactly one queue: the delayed queue for `emitLater`, else the immediate queue, by one entry or one per entity; the registry is untouched |
| Frame.ApplyNow | ashley-addons/src/main/kotlin/com/github/dwursteisen/libgdx/ashley/EventBus.kt:126-149 | `emit`, `emitData` and broadcast `emit` keep the immediate queue's prefix and add one entry per target, each for an existing payload |
| Frame.ApplyLater | ashley-addons/src/main/kotlin/com/github/dwursteisen/libgdx/ashley/EventBus.kt:151-160 | `emitLater` keeps the delayed queue's prefix and adds one entry for an existing payload |
| Frame.ApplyValid | ashley-addons/src/main/kotlin/com/github/dwursteisen/libgdx/ashley/EventBus.kt:126-160 | a call that takes its payload from the pool or passes one it owns keeps the ownership invariant |
| Frame.ApplyAppendsOthers | ashley-addons/src/main/kotlin/com/github/dwursteisen/libgdx/ashley/EventBus.kt:126-160 | a call adds no entry carrying a payload that exists, is not pooled and is not the one the call passes |
| Frame.ApplyKeepsOwned | ashley-addons/src/main/kotlin/com/github/dwursteisen/libgdx/ashley/EventBus.kt:126-160 | a fitting call leaves every owned payload it does not pass owned |
| Frame.ApplyAll | ashley-addons/src/main/kotlin/com/github/dwursteisen/libgdx/ashley/EventBus.kt:126-160 | a run of calls only extends the queues, keeps the registry, and keeps a closed bus closed |
| Frame.ApplyAllValid | ashley-addons/src/main/kotlin/com/github/dwursteisen/libgdx/ashley/EventBus.kt:126-160 | a run of calls that fit the bus keeps the ownership invariant |
| Frame.OwnsRest | ashley-addons/src/main/kotlin/com/github/dwursteisen/libgdx/ashley/EventBus.kt:126-160 | after the first of a run of fitting calls, the remaining calls still fit the bus |
| Frame.OwnsTick | ashley-addons/src/main/kotlin/com/github/dwursteisen/libgdx/ashley/EventBus.kt:185 | ticking the timers does not change which calls fit the bus |
| Frame.Delayed | ashley-addons/src/main/kotlin/com/github/dwursteisen/libgdx/ashley/EventBus.kt:186-189 | `emitterLatterMirror`: sorted by event id, and exactly the fired entries, each once |
| Frame.Immediate | ashley-addons/src/main/kotlin/com/github/dwursteisen/libgdx/ashley/EventBus.kt:191-192 | `emitterMirror`: sorted by event id, a rearrangement of the immediate queue in which the entries of one id keep their queue order |
| Frame.Calls | ashley-addons/src/main/kotlin/com/github/dwursteisen/libgdx/ashley/EventBus.kt:196-197 | every call of a frame goes to a listener registered for its event and carries a fired delayed entry or an immediate entry |
| Frame.Freed | ashley-addons/src/main/kotlin/com/github/dwursteisen/libgdx/ashley/EventBus.kt:199 | `eventDataToReset` holds one payload per fired delayed entry and one per immediate entry, with multiplicity |
| Frame.FreedHeld | ashley-addons/src/main/kotlin/com/github/dwursteisen/libgdx/ashley/EventBus.kt:199-204 | every payload the frame frees exists |
| Frame.Reactions | ashley-addons/src/main/kotlin/com/github/dwursteisen/libgdx/ashley/EventBus.kt:196-197 | listeners that make no call during their invocations queue nothing |
| Frame.ReactionsPrefix | ashley-addons/src/main/kotlin/com/github/dwursteisen/libgdx/ashley/EventBus.kt:196-197 | listeners run one at a time in trace order: the calls of the first `n` invocations come first, followed by those of the `n`-th |
| Frame.Reacted | ashley-addons/src/main/kotlin/com/github/dwursteisen/libgdx/ashley/EventBus.kt:185-197 | the bus after ticking and dispatch stays closed |
| Frame.Update | ashley-addons/src/main/kotlin/com/github/dwursteisen/libgdx/ashley/EventBus.kt:183-208 | `update` never changes the registry and leaves a closed bus closed |
| Frame.CallsCount | ashley-addons/src/main/kotlin/com/github/dwursteisen/libgdx/ashley/EventBus.kt:188-197 | exactly once per registration and occurrence: per frame, a call count is registrations times (fired delayed entries + immediate entries) carrying that event and payload |
| Frame.CallsOrder | ashley-addons/src/main/kotlin/com/github/dwursteisen/libgdx/ashley/EventBus.kt:188-197 | the delayed batch's calls come first; each batch is in ascending event-id order; calls for one id follow queue order |
| Frame.UpdateRemovesDispatched | ashley-addons/src/main/kotlin/com/github/dwursteisen/libgdx/ashley/EventBus.kt:201-202 | removal is by value: after a frame, no queued entry equals a dispatched one, even one a listener re-queued during dispatch |
| Frame.ImmediateRemoved | ashley-addons/src/main/kotlin/com/github/dwursteisen/libgdx/ashley/EventBus.kt:202 | removing the sorted snapshot by value leaves exactly the entries added during dispatch, when no payload is queued twice |
| Frame.DelayedRemoved | ashley-addons/src/main/kotlin/com/github/dwursteisen/libgdx/ashley/EventBus.kt:201 | removing the fired entries by value leaves the waiting entries, then those added during dispatch, when no payload is queued twice |
| Frame.ReactedShape | ashley-addons/src/main/kotlin/com/github/dwursteisen/libgdx/ashley/EventBus.kt:185-197 | when the listener calls fit the bus, after dispatch the queues are the (ticked) queues before it, extended, and ownership holds |
| Frame.UpdateQueues | ashley-addons/src/main/kotlin/com/github/dwursteisen/libgdx/ashley/EventBus.kt:183-208 | deferral, when the listener calls fit the bus: after a frame, the immediate queue is exactly what listeners emitted during it; the delayed queue is the unfired ticked entries, then what listeners scheduled (not ticked) |
| Frame.UpdateRecycles | ashley-addons/src/main/kotlin/com/github/dwursteisen/libgdx/ashley/EventBus.kt:199-204 | every fired delayed payload, then every immediate payload, is appended to the free list in reset state; they are exactly the dispatched payloads, with multiplicity |
| Frame.FreedAccounts | ashley-addons/src/main/kotlin/com/github/dwursteisen/libgdx/ashley/EventBus.kt:199-202 | the freed payloads plus those still queued are exactly those queued after dispatch |
| Frame.FreedDistinct | ashley-addons/src/main/kotlin/com/github/dwursteisen/libgdx/ashley/EventBus.kt:204 | queued payloads are not pooled, so freeing them leaves no object pooled twice |
| Frame.UpdateValid | ashley-addons/src/main/kotlin/com/github/dwursteisen/libgdx/ashley/EventBus.kt:183-208 | a frame keeps the ownership invariant when the listener calls fit the bus: each takes its payload from the pool or passes one it owns, never the same one twice |
| Frame.UpdateQuiet | ashley-addons/src/main/kotlin/com/github/dwursteisen/libgdx/ashley/EventBus.kt:183-208 | a frame whose listeners make no call empties the immediate queue, leaves the unfired ticked entries, and builds and drops no object (the heap's ids are unchanged; the dispatched payloads are reset) |
| Frame.Run | ashley-addons/src/main/kotlin/com/github/dwursteisen/libgdx/ashley/EventBus.kt:183-208 | quiet frames in a row keep the registry and closedness |
| Frame.RunLater | ashley-addons/src/main/kotlin/com/github/dwursteisen/libgdx/ashley/EventBus.kt:185-201 | over quiet frames, the delayed queue evolves as the timers alone dictate |
| Frame.RunFires | ashley-addons/src/main/kotlin/com/github/dwursteisen/libgdx/ashley/EventBus.kt:185-186 | over quiet frames, a scheduled entry fires in the first frame whose total elapsed time strictly exceeds its delay |
| Frame.UpdateKeepsWaiting | ashley-addons/src/main/kotlin/com/github/dwursteisen/libgdx/ashley/EventBus.kt:185-201 | whatever the listeners do, an entry that does not fire in a frame stays queued with its timer decreased by the elapsed time |
| Frame.StepSurvives | ashley-addons/src/main/kotlin/com/github/dwursteisen/libgdx/ashley/EventBus.kt:185-201 | every frame keeps the unfired ticked entries of the delayed queue |
| Frame.FramesPersist | ashley-addons/src/main/kotlin/com/github/dwursteisen/libgdx/ashley/EventBus.kt:185-201 | the delayed queues of any run of frames form a history in which each frame keeps its unfired ticked entries |
| Frame.FramesKeep | ashley-addons/src/main/kotlin/com/github/dwursteisen/libgdx/ashley/EventBus.kt:185-201 | over any run of frames, with any listener calls, an entry waits while the elapsed time has not passed its delay, with timer delay minus elapsed time |
| Frame.FramesFire | ashley-addons/src/main/kotlin/com/github/dwursteisen/libgdx/ashley/EventBus.kt:185-186 | over any run of frames, with any listener calls, a scheduled entry fires in the first frame whose total elapsed time strictly exceeds its delay |

## Behaviour of the code worth noting

- **Firing rule.** `update` tests `it.timer < 0` (`EventBus.kt` line 186). An
  entry fires in the first frame after which the total elapsed time strictly
  exceeds its delay; an entry whose delay has elapsed *exactly* waits one more
  frame (`Timers.Fired`, `Timers.DelayAccuracy`, `Frame.FramesFire`).
- **`registers` and `toMap()`.** `toMap()` turns the `onEvents` lines into a
  `LinkedHashMap` keyed by id list. Two lines with an identical id list therefore
  collapse to the last callback, which keeps the first line's position
  (`Registry.ToMap`, `Registry.ToMapOrder`, `Registry.PutPositions`,
  `Registry.RegistersCollapse`).
- **Broadcast default payload.** The broadcast `emit` with its default argument
  obtains a payload from the pool. That payload is never enqueued and never
  freed, so the pool loses track of it. The model keeps that object in the heap,
  out of the pool and out of every queue.
- **Removal by value.** `update` removes dispatched entries with `removeAll`, which
  compares values. The comparison uses `Pair` equality for the immediate queue
  and `EventTimer` data-class equality for the delayed queue. Suppose a listener
  re-emits, during dispatch, the very payload it was handed, with the same event.
  That new entry equals a dispatched one and is removed too
  (`Frame.UpdateRemovesDispatched`).
- **Re-emit with another event.** A listener may instead re-emit the payload it was
  handed under a different event. That entry survives the removal, but its payload
  is still freed at the end of the frame, so a live queue entry refers to a pooled
  object. The ownership invariant (`EventBus.Valid`) rules this out. This is why
  `Frame.UpdateValid` assumes that the listener calls fit the bus: a listener
  passes only payloads it owns, never the one it is handed.

## Left out

- `EventInputProcessor`, `resetInputProcessor`, `clearInputProcessor` and the
  `init` block: they read and write the global libGDX `Gdx.input`, which is I/O.
- `debug { ... }` logging and the `eventMapper` lookups: they are diagnostic and do
  not affect control flow.
- `Float` arithmetic on timers: time is `real`, so rounding is not modelled.
- libGDX `Pool` internals (the max-size cap and peak tracking): the pool is an
  unbounded LIFO free list.
- `Pool.Obtain`: it has a fallback for a pooled id missing from the heap, to keep
  the function total. This case cannot occur on a valid pool.
- Listener bodies: a listener is an opaque id. Its effect on the bus is the list of
  `Frame.Action`s it returns. Other effects are left out: writing fields of the
  payload it is handed, registering listeners while it is being invoked
  (`register` during dispatch), and calling `update` itself during dispatch,
  which would change the mirror lists being iterated (lines 187-197).
- The body lambda of `emitData`: it is modelled by its value, evaluated once at
  call time. Its side effects are outside the bus.
- Payload bodies and entities: they are opaque values (`Types.Body`,
  `Types.Entity`).
- Listener identity: `registers` wraps each `toMap()` callback in a new
  `object : EventListener`, while the model registers the callback's id itself.
  No call can tell the two apart, since nothing unregisters, but the contents of
  the `internal` `listeners` map are modelled only up to that wrapping.
- `ServiceLocator.kt`, `EngineExts.kt`, `EntityExts.kt` and the Gradle plugins: they
  are not part of the bus.
- Frame.UpdateValid: proved only for frames whose listener calls fit the bus
  (`Frame.Owns`). A listener that passes the payload it is handed, or one that
  is queued or pooled, can break ownership in the code itself (see above).
- Frame.ReactedShape: stated under the same restriction (`Frame.Owns`), because
  it also concludes the ownership invariant.
- Frame.UpdateQueues: stated under the same restriction (`Frame.Owns`). It
  also needs the ownership invariant, because removal by value may take out a
  re-queued entry.
- Frame.RunFires: stated for quiet frames only; `Frame.FramesFire` states the
  same for frames in which the listeners make any calls.
- Timers.Due: its contract says only that the entries kept have fired. That an
  entry is kept exactly when it is queued and has fired is `Timers.DueMembers`.
- Payloads a listener builds during dispatch: a listener may pass only payloads
  that exist before the frame. Obtaining a payload with `createEventData`,
  writing its fields and then emitting it inside a listener is modelled only in
  its `emitData` form (`Frame.SendData`: obtain, write the body, emit).
  Writing a target or scheduling such a payload with `emitLater` is not.
- Exceptions: a listener that throws aborts `update` midway (lines 188-207).
  The queues are then not cleaned and no payload is freed. In the model every
  listener returns.
- `EventData` objects built with the public constructor (line 18) rather than
  taken from the pool: the model's heap holds only objects the pool built
  (`Pool.Valid` ties the ids to the pool's counter). Passing such an object to
  `emit` is not representable, nor is its joining the pool when `update` frees
  it.
- Frame.Update: its own contract states only that the registry is unchanged and
  that closedness is kept. What a frame does is stated by `Frame.CallsCount`,
  `Frame.CallsOrder`, `Frame.UpdateQueues`, `Frame.UpdateRecycles` and
  `Frame.UpdateRemovesDispatched`.
