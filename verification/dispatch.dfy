/**
 * Dispatching a batch during `update`: the batch is sorted by event id
 * (`sortBy`, stable) and each entry is handed to `invoke(event, data)`.
 */
module Dispatch {
  import opened Types
  import opened Seqs
  import opened Payload
  import opened Registry
  import opened StableSort
  import opened EventBus

  /** The sort key of the delayed mirror: `sortBy { it.event }`. */
  function TimerKey(t: EventTimer): int { t.event as int }

  /** The sort key of the immediate mirror: `sortBy { it.first }`. */
  function EmittedKey(x: Emitted): int { x.event as int }

  /** The event id of a listener call. */
  function CallKey(c: Invocation): int { c.event as int }

  /** What `invoke(it.event, it.data)` receives for a fired delayed entry. */
  function Fire(t: EventTimer): (r: Emitted)
    ensures EmittedKey(r) == TimerKey(t) && EmittedData(r) == TimerData(t)
  {
    Emitted(t.event, t.data)
  }

  /** `batch.forEach { invoke(event, data) }`: the listener calls, in order. */
  function InvokeAll(t: Table, xs: seq<Emitted>): (r: seq<Invocation>)
    ensures forall c :: c in r ==> Emitted(c.event, c.data) in xs && c.listener in Lookup(t, c.event)
    decreases |xs|
  {
    if xs == [] then []
    else
      var head, rest := Invoke(t, xs[0].event, xs[0].data), InvokeAll(t, xs[1..]);
      InvokeCons(t, xs, head, rest);
      head + rest
  }

  /** One step of `InvokeAll`'s contract: the calls for the first entry, then the rest. */
  lemma InvokeCons(t: Table, xs: seq<Emitted>, head: seq<Invocation>, rest: seq<Invocation>)
    requires |xs| > 0 && head == Invoke(t, xs[0].event, xs[0].data)
    requires forall c :: c in rest ==> Emitted(c.event, c.data) in xs[1..] && c.listener in Lookup(t, c.event)
    ensures forall c :: c in head + rest ==> Emitted(c.event, c.data) in xs && c.listener in Lookup(t, c.event)
  {
    forall c | c in head + rest ensures Emitted(c.event, c.data) in xs && c.listener in Lookup(t, c.event) {
      if c in head {
        var i :| 0 <= i < |head| && head[i] == c;
      } else {
        assert c in rest;
      }
    }
  }

  /** The calls for two batches in a row are the calls for the first, then for the second. */
  lemma {:induction false} InvokeAllConcat(t: Table, xs: seq<Emitted>, ys: seq<Emitted>)
    ensures InvokeAll(t, xs + ys) == InvokeAll(t, xs) + InvokeAll(t, ys)
    decreases |xs|
  {
    if xs == [] {
      assert xs + ys == ys;
    } else {
      assert (xs + ys)[1..] == xs[1..] + ys;
      InvokeAllConcat(t, xs[1..], ys);
      ConcatAssoc(Invoke(t, xs[0].event, xs[0].data), InvokeAll(t, xs[1..]), InvokeAll(t, ys));
    }
  }

  /**
   * Exactly once per registration: a listener is called with an event and a
   * payload as often as it is registered for the event times the number of
   * entries of the batch carrying that event and payload.
   */
  lemma {:induction false} InvokeAllCount(t: Table, xs: seq<Emitted>, c: Invocation)
    ensures multiset(InvokeAll(t, xs))[c]
            == multiset(Lookup(t, c.event))[c.listener] * multiset(xs)[Emitted(c.event, c.data)]
    decreases |xs|
  {
    if xs != [] {
      var x, tail := xs[0], xs[1..];
      var e := Emitted(c.event, c.data);
      var regs := multiset(Lookup(t, c.event))[c.listener];
      var inv, rest := Invoke(t, x.event, x.data), InvokeAll(t, tail);
      InvokeAllCount(t, tail, c);
      InvokeEachCount(Lookup(t, x.event), x.event, x.data, c);
      assert InvokeAll(t, xs) == inv + rest;
      assert multiset(inv + rest)[c] == multiset(inv)[c] + multiset(rest)[c];
      assert xs == [x] + tail;
      assert multiset(xs)[e] == multiset([x])[e] + multiset(tail)[e];
      var one := multiset([x])[e];
      assert multiset(inv)[c] == if one == 1 then regs else 0 by {
        if x == e { assert one == 1; } else { assert one == 0; }
      }
      CountStep(regs, one, multiset(tail)[e], multiset(xs)[e], multiset(inv)[c], multiset(rest)[c]);
    }
  }

  /** The arithmetic of one step of `InvokeAllCount`. */
  lemma CountStep(regs: nat, one: nat, n: nat, k: nat, head: nat, rest: nat)
    requires one <= 1 && k == one + n
    requires head == (if one == 1 then regs else 0) && rest == regs * n
    ensures head + rest == regs * k
  {
    if one == 1 { assert regs * (n + 1) == regs * n + regs; }
  }

  lemma MulPositive(a: nat, n: nat)
    ensures a * n > 0 <==> a > 0 && n > 0
  {
    if a > 0 && n > 0 { assert a * n >= n; }
  }

  /** Every call carries the event and payload of a batch entry, to a listener registered for it. */
  lemma InvokeAllMembers(t: Table, xs: seq<Emitted>, c: Invocation)
    ensures c in InvokeAll(t, xs) <==> Emitted(c.event, c.data) in xs && c.listener in Lookup(t, c.event)
  {
    InvokeAllCount(t, xs, c);
    MulPositive(multiset(Lookup(t, c.event))[c.listener], multiset(xs)[Emitted(c.event, c.data)]);
  }

  /** A batch sorted by event id is dispatched in ascending event-id order. */
  lemma {:induction false} InvokeAllSorted(t: Table, xs: seq<Emitted>)
    requires SortedBy(xs, EmittedKey)
    ensures SortedBy(InvokeAll(t, xs), CallKey)
    decreases |xs|
  {
    if xs != [] {
      var head := Invoke(t, xs[0].event, xs[0].data);
      var rest := InvokeAll(t, xs[1..]);
      assert SortedBy(xs[1..], EmittedKey) by {
        forall i, j | 0 <= i < j < |xs[1..]| ensures EmittedKey(xs[1..][i]) <= EmittedKey(xs[1..][j]) {
          assert xs[1..][i] == xs[i + 1] && xs[1..][j] == xs[j + 1];
        }
      }
      InvokeAllSorted(t, xs[1..]);
      forall j | 0 <= j < |rest| ensures EmittedKey(xs[0]) <= CallKey(rest[j]) {
        assert rest[j] in rest;
        var k :| 0 <= k < |xs[1..]| && xs[1..][k] == Emitted(rest[j].event, rest[j].data);
        assert xs[k + 1] == xs[1..][k];
      }
      SortedJoin(head, rest, EmittedKey(xs[0]));
    }
  }

  /** Joining the calls for one event id to sorted calls whose ids are no smaller keeps the order. */
  lemma SortedJoin(head: seq<Invocation>, rest: seq<Invocation>, k: int)
    requires forall i :: 0 <= i < |head| ==> CallKey(head[i]) == k
    requires forall j :: 0 <= j < |rest| ==> k <= CallKey(rest[j])
    requires SortedBy(rest, CallKey)
    ensures SortedBy(head + rest, CallKey)
  {
    var r := head + rest;
    forall i, j | 0 <= i < j < |r| ensures CallKey(r[i]) <= CallKey(r[j]) {
      if j < |head| {
      } else if i < |head| {
        assert r[j] == rest[j - |head|];
      } else {
        assert r[i] == rest[i - |head|] && r[j] == rest[j - |head|];
      }
    }
  }

  /**
   * Stability of dispatch: the calls for one event id are the calls for the
   * batch entries with that id, in batch order.
   */
  lemma {:induction false} InvokeAllWithKey(t: Table, xs: seq<Emitted>, k: int)
    ensures WithKey(InvokeAll(t, xs), CallKey, k) == InvokeAll(t, WithKey(xs, EmittedKey, k))
    decreases |xs|
  {
    if xs != [] {
      var x, tail := xs[0], xs[1..];
      var head := Invoke(t, x.event, x.data);
      WithKeyConcat(head, InvokeAll(t, tail), CallKey, k);
      WithKeyUniform(head, CallKey, EmittedKey(x), k);
      InvokeAllWithKey(t, tail, k);
      var w := WithKey(tail, EmittedKey, k);
      assert InvokeAll(t, xs) == head + InvokeAll(t, tail);
      if EmittedKey(x) == k {
        assert WithKey(xs, EmittedKey, k) == [x] + w;
        assert ([x] + w)[0] == x && ([x] + w)[1..] == w;
        assert InvokeAll(t, [x] + w) == head + InvokeAll(t, w);
      } else {
        assert WithKey(xs, EmittedKey, k) == w;
      }
    }
  }

  /** Firing a delayed entry keeps its event id, so selecting an id commutes with firing. */
  lemma {:induction false} FireWithKey(ts: seq<EventTimer>, k: int)
    ensures WithKey(Map(ts, Fire), EmittedKey, k) == Map(WithKey(ts, TimerKey, k), Fire)
    decreases |ts|
  {
    if ts != [] {
      FireWithKey(ts[1..], k);
      var head := if TimerKey(ts[0]) == k then [ts[0]] else [];
      MapConcat(head, WithKey(ts[1..], TimerKey, k), Fire);
    }
  }

  /** Firing keeps event ids, so a delayed batch sorted by event id is still sorted once fired. */
  lemma FireSorted(ts: seq<EventTimer>)
    requires SortedBy(ts, TimerKey)
    ensures SortedBy(Map(ts, Fire), EmittedKey)
  {
    var m := Map(ts, Fire);
    forall i, j | 0 <= i < j < |m| ensures EmittedKey(m[i]) <= EmittedKey(m[j]) {
      MapIndex(ts, Fire, i);
      MapIndex(ts, Fire, j);
    }
  }
}
