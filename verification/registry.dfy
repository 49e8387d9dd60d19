/**
 * The listener registry of the bus (`listeners: MutableMap<Event, List<EventListener>>`),
 * `register`, the `registers { onEvents(...) { ... } }` builder, and `invoke`.
 */
module Registry {
  import opened Types
  import Seqs

  /** Event id to listeners, in registration order. */
  type Table = map<Event, seq<ListenerId>>

  /** The listeners of `e`; an id nobody registered for has none. */
  function Lookup(t: Table, e: Event): (r: seq<ListenerId>)
    ensures r != [] ==> e in t
    ensures e in t ==> r == t[e]
  {
    if e in t then t[e] else []
  }

  /** `n` copies of `l`. */
  function Repeat(l: ListenerId, n: nat): (r: seq<ListenerId>)
    ensures |r| == n
    ensures forall i :: 0 <= i < n ==> r[i] == l
  {
    if n == 0 then [] else [l] + Repeat(l, n - 1)
  }

  /** The ids named by `events`. */
  function Named(events: seq<Event>): set<Event> {
    set e | e in events
  }

  /** `register(l, *events)`: appends `l` to the list of each listed id, in order. */
  function Register(t: Table, l: ListenerId, events: seq<Event>): (r: Table)
    ensures r.Keys == t.Keys + Named(events)
    decreases |events|
  {
    if events == [] then t
    else
      var e := events[0];
      assert Named(events) == {e} + Named(events[1..]);
      Register(t[e := Lookup(t, e) + [l]], l, events[1..])
  }

  /**
   * After `register(l, *events)` the list of every id ends with one extra `l`
   * per time the id is listed (duplicates are kept); ids not listed keep
   * their list.
   */
  lemma {:induction false} RegisterAppends(t: Table, l: ListenerId, events: seq<Event>, e: Event)
    ensures Lookup(Register(t, l, events), e) == Lookup(t, e) + Repeat(l, multiset(events)[e])
    decreases |events|
  {
    if events != [] {
      var e0, rest := events[0], events[1..];
      var t' := t[e0 := Lookup(t, e0) + [l]];
      RegisterAppends(t', l, rest, e);
      assert Register(t, l, events) == Register(t', l, rest);
      CountCons(events);
      AppendsStep(Lookup(t, e), Lookup(t', e), Lookup(Register(t', l, rest), e), l,
                  multiset(rest)[e], multiset(events)[e], e == e0);
    }
  }

  /** The first listed id counts once more than in the rest of the list. */
  lemma CountCons(events: seq<Event>)
    requires events != []
    ensures multiset(events) == multiset{events[0]} + multiset(events[1..])
  {
    assert events == [events[0]] + events[1..];
  }

  /** One step of `RegisterAppends`: the first listed id gets one more `l`, the others none. */
  lemma AppendsStep(base: seq<ListenerId>, mid: seq<ListenerId>, got: seq<ListenerId>,
                    l: ListenerId, n: nat, k: nat, listed: bool)
    requires got == mid + Repeat(l, n)
    requires listed ==> mid == base + [l] && k == n + 1
    requires !listed ==> mid == base && k == n
    ensures got == base + Repeat(l, k)
  {
    if listed {
      assert Repeat(l, n + 1) == [l] + Repeat(l, n);
      Seqs.ConcatAssoc(base, [l], Repeat(l, n));
    }
  }

  /** One listener call made by the dispatcher: `listener.onEvent(event, data)`. */
  datatype Invocation = Invocation(listener: ListenerId, event: Event, data: PayloadId)

  function InvokeEach(ls: seq<ListenerId>, e: Event, p: PayloadId): (r: seq<Invocation>)
    ensures |r| == |ls|
    ensures forall i :: 0 <= i < |ls| ==> r[i] == Invocation(ls[i], e, p)
  {
    if ls == [] then [] else [Invocation(ls[0], e, p)] + InvokeEach(ls[1..], e, p)
  }

  /**
   * `invoke(event, data)`: every listener of `event` once per registration, in
   * registration order; nothing for an id without listeners.
   */
  function Invoke(t: Table, e: Event, p: PayloadId): (r: seq<Invocation>)
    ensures |r| == |Lookup(t, e)|
    ensures forall i :: 0 <= i < |r| ==> r[i] == Invocation(Lookup(t, e)[i], e, p)
    ensures e !in t ==> r == []
  {
    InvokeEach(Lookup(t, e), e, p)
  }

  /** How often `invoke(e, p)` calls listener `l` with a given event and payload. */
  lemma {:induction false} InvokeEachCount(ls: seq<ListenerId>, e: Event, p: PayloadId, c: Invocation)
    ensures multiset(InvokeEach(ls, e, p))[c]
            == if c.event == e && c.data == p then multiset(ls)[c.listener] else 0
    decreases |ls|
  {
    if ls != [] {
      var h := Invocation(ls[0], e, p);
      var t: seq<ListenerId> := ls[1..];
      var rest := InvokeEach(t, e, p);
      InvokeEachCount(t, e, p, c);
      assert InvokeEach(ls, e, p) == [h] + rest;
      assert multiset([h] + rest)[c] == multiset([h])[c] + multiset(rest)[c];
      var first: seq<ListenerId> := [ls[0]];
      assert ls == first + t;
      assert multiset(ls)[c.listener] == multiset(first)[c.listener] + multiset(t)[c.listener];
      if c.event == e && c.data == p {
        assert (h == c) == (ls[0] == c.listener);
      } else {
        assert h != c;
      }
    }
  }

  /** One `onEvents(*events) { callback }` line of a `registers` block. */
  datatype Binding = Binding(events: seq<Event>, listener: ListenerId)

  /** The listener bound last to the id list `ks`, if any. */
  function Bound(m: seq<Binding>, ks: seq<Event>): Option<ListenerId> {
    if m == [] then None
    else
      var later := Bound(m[1..], ks);
      if later.Some? then later
      else if m[0].events == ks then Some(m[0].listener)
      else None
  }

  /** The position of the first binding of the id list `ks`; `|m|` when there is none. */
  function FirstAt(m: seq<Binding>, ks: seq<Event>): (r: nat)
    ensures r <= |m|
    ensures r < |m| ==> m[r].events == ks
    ensures forall i :: 0 <= i < r ==> m[i].events != ks
    decreases |m|
  {
    if m == [] then 0
    else if m[0].events == ks then 0
    else
      var r := 1 + FirstAt(m[1..], ks);
      assert forall i :: 1 <= i < r ==> m[i] == m[1..][i - 1];
      r
  }

  /** Appending a binding leaves the first position of every id list already bound. */
  lemma {:induction false} FirstAtSnoc(m: seq<Binding>, b: Binding, ks: seq<Event>)
    ensures FirstAt(m, ks) < |m| ==> FirstAt(m + [b], ks) == FirstAt(m, ks)
    ensures FirstAt(m, ks) == |m| ==> FirstAt(m + [b], ks) == if b.events == ks then |m| else |m| + 1
    decreases |m|
  {
    if m == [] {
      assert ([b])[1..] == [];
    } else {
      assert (m + [b])[0] == m[0] && (m + [b])[1..] == m[1..] + [b];
      FirstAtSnoc(m[1..], b, ks);
    }
  }

  /** An id list is bound exactly when it has a first binding. */
  lemma {:induction false} BoundFirst(m: seq<Binding>, ks: seq<Event>)
    ensures Bound(m, ks).Some? <==> FirstAt(m, ks) < |m|
    decreases |m|
  {
    if m != [] {
      BoundFirst(m[1..], ks);
    }
  }

  /** No id list is bound twice. */
  predicate UniqueKeys(m: seq<Binding>) {
    forall i, j :: 0 <= i < j < |m| ==> m[i].events != m[j].events
  }

  /**
   * `LinkedHashMap.put`: a list already present keeps its position and takes
   * the new listener; a new list goes at the end.
   */
  function Put(m: seq<Binding>, b: Binding): (r: seq<Binding>)
    requires UniqueKeys(m)
    ensures forall i :: 0 <= i < |r| ==> r[i] == b || (r[i] in m && r[i].events != b.events)
    ensures UniqueKeys(r)
    ensures forall ks :: Bound(r, ks) == if ks == b.events then Some(b.listener) else Bound(m, ks)
  {
    if m == [] then
      [b]
    else if m[0].events == b.events then
      var r := [b] + m[1..];
      assert r[1..] == m[1..];
      BoundAbsent(m[1..], b.events);
      r
    else
      var tail := Put(m[1..], b);
      var r := [m[0]] + tail;
      assert r[1..] == tail;
      r
  }

  /**
   * `put` keeps the order of the map: a list already present keeps its
   * position, a new list goes after all the others.
   */
  lemma {:induction false} PutPositions(m: seq<Binding>, b: Binding)
    requires UniqueKeys(m)
    ensures FirstAt(m, b.events) < |m| ==> |Put(m, b)| == |m| && forall i :: 0 <= i < |m| ==> Put(m, b)[i].events == m[i].events
    ensures FirstAt(m, b.events) == |m| ==> Put(m, b) == m + [b]
    decreases |m|
  {
    if m != [] && m[0].events != b.events {
      var tail := Put(m[1..], b);
      PutPositions(m[1..], b);
      assert Put(m, b) == [m[0]] + tail;
      assert m == [m[0]] + m[1..];
      assert forall i :: 1 <= i < |m| ==> m[i] == m[1..][i - 1];
    }
  }

  lemma {:induction false} BoundAbsent(m: seq<Binding>, ks: seq<Event>)
    requires forall i :: 0 <= i < |m| ==> m[i].events != ks
    ensures Bound(m, ks) == None
    decreases |m|
  {
    if m != [] { BoundAbsent(m[1..], ks); }
  }

  lemma {:induction false} BoundSnoc(m: seq<Binding>, b: Binding, ks: seq<Event>)
    ensures Bound(m + [b], ks) == if ks == b.events then Some(b.listener) else Bound(m, ks)
    decreases |m|
  {
    if m == [] {
      assert ([b])[1..] == [];
    } else {
      assert (m + [b])[1..] == m[1..] + [b];
      BoundSnoc(m[1..], b, ks);
    }
  }

  /**
   * `Listeners.toMap()`: each id list appears once, bound to the listener of
   * its last `onEvents` line; every listed id list survives.
   */
  function ToMap(pairs: seq<Binding>): (r: seq<Binding>)
    ensures UniqueKeys(r)
    ensures forall i :: 0 <= i < |r| ==> Bound(pairs, r[i].events) == Some(r[i].listener)
    ensures forall i :: 0 <= i < |pairs| ==> Bound(r, pairs[i].events).Some?
    decreases |pairs|
  {
    if pairs == [] then []
    else
      var init, last := pairs[..|pairs| - 1], pairs[|pairs| - 1];
      assert pairs == init + [last];
      var m := ToMap(init);
      var r := Put(m, last);
      assert forall ks :: Bound(pairs, ks) == if ks == last.events then Some(last.listener) else Bound(init, ks) by {
        forall ks ensures Bound(pairs, ks) == if ks == last.events then Some(last.listener) else Bound(init, ks) {
          BoundSnoc(init, last, ks);
        }
      }
      assert forall i :: 0 <= i < |init| ==> init[i] == pairs[i];
      r
  }

  /** The id lists of `m` appear in the order of their first binding in `pairs`. */
  predicate InFirstOrder(m: seq<Binding>, pairs: seq<Binding>) {
    forall i, j :: 0 <= i < j < |m| ==> FirstAt(pairs, m[i].events) < FirstAt(pairs, m[j].events)
  }

  /**
   * `toMap()` builds a `LinkedHashMap`: the id lists appear in the order of
   * their first `onEvents` line, so a list named again keeps its first position.
   */
  lemma {:induction false} ToMapOrder(pairs: seq<Binding>)
    ensures InFirstOrder(ToMap(pairs), pairs)
    decreases |pairs|
  {
    if pairs != [] {
      var init, last := pairs[..|pairs| - 1], pairs[|pairs| - 1];
      assert pairs == init + [last];
      var m := ToMap(init);
      assert ToMap(pairs) == Put(m, last);
      ToMapOrder(init);
      PutPositions(m, last);
      forall i | 0 <= i < |m| ensures FirstAt(init, m[i].events) < |init| {
        BoundFirst(init, m[i].events);
      }
      forall i | 0 <= i < |init| ensures FirstAt(m, init[i].events) < |m| {
        BoundFirst(m, init[i].events);
      }
      OrderStep(init, last, m, Put(m, last));
    }
  }

  /** The inductive step of `ToMapOrder`, with `m` the map of the lines before `last`. */
  lemma OrderStep(init: seq<Binding>, last: Binding, m: seq<Binding>, r: seq<Binding>)
    requires InFirstOrder(m, init)
    requires forall i :: 0 <= i < |m| ==> FirstAt(init, m[i].events) < |init|
    requires forall i :: 0 <= i < |init| ==> FirstAt(m, init[i].events) < |m|
    requires FirstAt(m, last.events) < |m| ==> |r| == |m| && forall i :: 0 <= i < |m| ==> r[i].events == m[i].events
    requires FirstAt(m, last.events) == |m| ==> r == m + [last]
    ensures InFirstOrder(r, init + [last])
  {
    FirstsKept(init, last, m);
    if FirstAt(m, last.events) == |m| {
      FirstAtSnoc(init, last, last.events);
      OrderAppended(init + [last], m, last);
    } else {
      OrderKept(init + [last], m, r);
    }
  }

  /** The lines of `m` keep their first positions once `last` is appended. */
  lemma FirstsKept(init: seq<Binding>, last: Binding, m: seq<Binding>)
    requires forall i :: 0 <= i < |m| ==> FirstAt(init, m[i].events) < |init|
    ensures forall i :: 0 <= i < |m| ==> FirstAt(init + [last], m[i].events) == FirstAt(init, m[i].events) < |init|
  {
    forall i | 0 <= i < |m| ensures FirstAt(init + [last], m[i].events) == FirstAt(init, m[i].events) {
      FirstAtSnoc(init, last, m[i].events);
    }
  }

  /** Replacing listeners in place keeps the order. */
  lemma OrderKept(pairs: seq<Binding>, m: seq<Binding>, r: seq<Binding>)
    requires InFirstOrder(m, pairs)
    requires |r| == |m| && forall i :: 0 <= i < |m| ==> r[i].events == m[i].events
    ensures InFirstOrder(r, pairs)
  {
    forall i, j | 0 <= i < j < |r| ensures FirstAt(pairs, r[i].events) < FirstAt(pairs, r[j].events) {
      assert r[i].events == m[i].events && r[j].events == m[j].events;
    }
  }

  /** Appending a list whose first line comes after every line of `m` keeps the order. */
  lemma OrderAppended(pairs: seq<Binding>, m: seq<Binding>, last: Binding)
    requires InFirstOrder(m, pairs)
    requires forall i :: 0 <= i < |m| ==> FirstAt(pairs, m[i].events) < FirstAt(pairs, last.events)
    ensures InFirstOrder(m + [last], pairs)
  {
    var r := m + [last];
    forall i, j | 0 <= i < j < |r| ensures FirstAt(pairs, r[i].events) < FirstAt(pairs, r[j].events) {
      assert r[i] == m[i];
      if j < |m| { assert r[j] == m[j]; }
    }
  }

  /** Registers the bindings one after the other. */
  function RegisterAll(t: Table, bs: seq<Binding>): (r: Table)
    ensures t.Keys <= r.Keys
    ensures forall i :: 0 <= i < |bs| ==> Named(bs[i].events) <= r.Keys
    decreases |bs|
  {
    if bs == [] then t else RegisterAll(Register(t, bs[0].listener, bs[0].events), bs[1..])
  }

  /** What registering the bindings adds to the list of `e`, in order. */
  function Contributions(bs: seq<Binding>, e: Event): seq<ListenerId> {
    if bs == [] then []
    else Repeat(bs[0].listener, multiset(bs[0].events)[e]) + Contributions(bs[1..], e)
  }

  /**
   * Registering bindings one after the other appends, to the list of each
   * id, the listeners of the bindings naming it, binding by binding.
   */
  lemma {:induction false} RegisterAllAppends(t: Table, bs: seq<Binding>, e: Event)
    ensures Lookup(RegisterAll(t, bs), e) == Lookup(t, e) + Contributions(bs, e)
    decreases |bs|
  {
    if bs != [] {
      var t' := Register(t, bs[0].listener, bs[0].events);
      RegisterAppends(t, bs[0].listener, bs[0].events, e);
      RegisterAllAppends(t', bs[1..], e);
      var own := Repeat(bs[0].listener, multiset(bs[0].events)[e]);
      var rest := Contributions(bs[1..], e);
      assert Lookup(t', e) == Lookup(t, e) + own;
      assert RegisterAll(t, bs) == RegisterAll(t', bs[1..]);
      assert Contributions(bs, e) == own + rest;
      Seqs.ConcatAssoc(Lookup(t, e), own, rest);
    }
  }

  /** `registers { ... }`: `register` once per entry of `toMap()`. */
  function Registers(t: Table, pairs: seq<Binding>): (r: Table)
    ensures t.Keys <= r.Keys
  {
    RegisterAll(t, ToMap(pairs))
  }

  /**
   * After `registers { ... }` the list of every id ends with the callbacks of
   * the `toMap()` entries naming it, in `toMap()` order.
   */
  lemma RegistersAppends(t: Table, pairs: seq<Binding>, e: Event)
    ensures Lookup(Registers(t, pairs), e) == Lookup(t, e) + Contributions(ToMap(pairs), e)
  {
    RegisterAllAppends(t, ToMap(pairs), e);
  }

  /** The ids named anywhere in a list of bindings. */
  function NamedBy(bs: seq<Binding>): set<Event> {
    if bs == [] then {} else Named(bs[0].events) + NamedBy(bs[1..])
  }

  lemma {:induction false} RegisterAllKeys(t: Table, bs: seq<Binding>)
    ensures RegisterAll(t, bs).Keys == t.Keys + NamedBy(bs)
    decreases |bs|
  {
    if bs != [] {
      RegisterAllKeys(Register(t, bs[0].listener, bs[0].events), bs[1..]);
    }
  }

  lemma {:induction false} NamedByContains(bs: seq<Binding>, e: Event)
    ensures e in NamedBy(bs) <==> exists i :: 0 <= i < |bs| && e in bs[i].events
    decreases |bs|
  {
    if bs != [] {
      NamedByContains(bs[1..], e);
      if e in NamedBy(bs[1..]) {
        var i :| 0 <= i < |bs[1..]| && e in bs[1..][i].events;
        assert e in bs[i + 1].events;
      }
      if exists i :: 0 <= i < |bs| && e in bs[i].events {
        var i :| 0 <= i < |bs| && e in bs[i].events;
        if i > 0 { assert e in bs[1..][i - 1].events; }
      }
    }
  }

  lemma BoundSome(m: seq<Binding>, ks: seq<Event>)
    requires Bound(m, ks).Some?
    ensures exists i :: 0 <= i < |m| && m[i].events == ks
    decreases |m|
  {
    if Bound(m[1..], ks).Some? {
      BoundSome(m[1..], ks);
      var i :| 0 <= i < |m[1..]| && m[1..][i].events == ks;
      assert m[i + 1].events == ks;
    }
  }

  /**
   * After `registers { ... }` the registry has a key for every id named on
   * any `onEvents` line, and no other new key.
   */
  lemma RegistersKeys(t: Table, pairs: seq<Binding>)
    ensures forall e :: e in Registers(t, pairs) <==>
                        e in t || exists i :: 0 <= i < |pairs| && e in pairs[i].events
  {
    var m := ToMap(pairs);
    RegisterAllKeys(t, m);
    forall e ensures e in NamedBy(m) <==> exists i :: 0 <= i < |pairs| && e in pairs[i].events {
      NamedByContains(m, e);
      NamedByContains(pairs, e);
      if e in NamedBy(m) {
        var i :| 0 <= i < |m| && e in m[i].events;
        BoundSome(pairs, m[i].events);
      }
      if exists i :: 0 <= i < |pairs| && e in pairs[i].events {
        var i :| 0 <= i < |pairs| && e in pairs[i].events;
        BoundSome(m, pairs[i].events);
      }
    }
  }

  /** Two lines with different id lists stay two entries, in line order. */
  lemma ToMapPair(x: Binding, y: Binding)
    requires x.events != y.events
    ensures ToMap([x, y]) == [x, y]
  {
    assert [x, y][..1] == [x] && [x][..0] == [];
    assert ToMap([x]) == Put(ToMap([]), x) == [x];
    assert ToMap([x, y]) == Put([x], y);
    assert Put([x], y) == [x] + Put([], y);
  }

  /**
   * Lines with different id lists register in line order: after
   * `onEvents(1) { a }` and `onEvents(1, 2) { b }` id 1 calls `a`, then `b`.
   */
  lemma RegistersInLineOrder(t: Table, a: ListenerId, b: ListenerId)
    requires 1 !in t && 2 !in t
    ensures Lookup(Registers(t, [Binding([1], a), Binding([1, 2], b)]), 1) == [a, b]
    ensures Lookup(Registers(t, [Binding([1], a), Binding([1, 2], b)]), 2) == [b]
  {
    var first, second := Binding([1], a), Binding([1, 2], b);
    ToMapPair(first, second);
    RegisterAllAppends(t, [first, second], 1);
    RegisterAllAppends(t, [first, second], 2);
    var ids1, ids12: seq<Event> := [1], [1, 2];
    assert multiset(ids1)[1] == 1 && multiset(ids1)[2] == 0;
    assert multiset(ids12) == multiset{1, 2};
    assert [first, second][1..] == [second] && [second][1..] == [];
    assert Contributions([second], 1) == Repeat(b, 1) && Contributions([second], 2) == Repeat(b, 1);
    assert Contributions([first, second], 1) == Repeat(a, 1) + Repeat(b, 1);
    assert Contributions([first, second], 2) == Repeat(a, 0) + Repeat(b, 1);
  }

  /**
   * Two `onEvents` lines with the same id list collapse: only the listener of
   * the second one gets registered.
   */
  lemma RegistersCollapse(t: Table, ks: seq<Event>, first: ListenerId, second: ListenerId)
    ensures Registers(t, [Binding(ks, first), Binding(ks, second)]) == Register(t, second, ks)
  {
    var pairs := [Binding(ks, first), Binding(ks, second)];
    assert pairs[..1] == [Binding(ks, first)];
    assert ToMap(pairs[..1]) == Put([], Binding(ks, first));
    assert ToMap(pairs) == Put([Binding(ks, first)], Binding(ks, second));
    assert ToMap(pairs) == [Binding(ks, second)];
    assert RegisterAll(t, [Binding(ks, second)]) == RegisterAll(Register(t, second, ks), []);
  }
}
