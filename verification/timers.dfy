/**
 * The delayed queue during `update(delta)`: every timer is decreased by the
 * elapsed time, and an entry fires once its timer is below zero.
 */
module Timers {
  import opened Types
  import opened Seqs
  import opened Payload

  /** `emitterLatter.forEach { it.timer -= delta }` */
  function Tick(ts: seq<EventTimer>, delta: real): (r: seq<EventTimer>)
    ensures |r| == |ts|
    ensures forall i :: 0 <= i < |ts| ==> r[i] == ts[i].(timer := ts[i].timer - delta)
  {
    seq(|ts|, i requires 0 <= i < |ts| => ts[i].(timer := ts[i].timer - delta))
  }

  /** The firing test of `update`: the timer is strictly below zero. */
  predicate Fired(t: EventTimer)
    ensures t.timer == 0.0 ==> !Fired(t)
  {
    t.timer < 0.0
  }

  /** `filter { it.timer < 0 }`: the entries that fire, in queue order. */
  function Due(ts: seq<EventTimer>): (r: seq<EventTimer>)
    ensures |r| <= |ts|
    ensures forall i :: 0 <= i < |r| ==> Fired(r[i])
  {
    if ts == [] then []
    else (if Fired(ts[0]) then [ts[0]] else []) + Due(ts[1..])
  }

  /** The entries that do not fire, in queue order. */
  function Waiting(ts: seq<EventTimer>): (r: seq<EventTimer>)
    ensures |r| <= |ts|
  {
    if ts == [] then []
    else (if Fired(ts[0]) then [] else [ts[0]]) + Waiting(ts[1..])
  }

  /** An entry is due exactly when it is in the queue and its timer is below zero. */
  lemma {:induction false} DueMembers(ts: seq<EventTimer>, t: EventTimer)
    ensures t in Due(ts) <==> t in ts && Fired(t)
    decreases |ts|
  {
    if ts != [] {
      DueMembers(ts[1..], t);
      assert ts == [ts[0]] + ts[1..];
    }
  }

  /** An entry is waiting exactly when it is in the queue and its timer is not below zero. */
  lemma {:induction false} WaitingMembers(ts: seq<EventTimer>, t: EventTimer)
    ensures t in Waiting(ts) <==> t in ts && !Fired(t)
    decreases |ts|
  {
    if ts != [] {
      WaitingMembers(ts[1..], t);
      assert ts == [ts[0]] + ts[1..];
    }
  }

  /** Every entry either fires or waits: the two filters split the payloads of the queue. */
  lemma {:induction false} DueWaitingSplit(ts: seq<EventTimer>)
    ensures multiset(Map(Due(ts), TimerData)) + multiset(Map(Waiting(ts), TimerData)) == multiset(Map(ts, TimerData))
    decreases |ts|
  {
    if ts != [] {
      var h, tail := [ts[0]], ts[1..];
      DueWaitingSplit(tail);
      assert ts == h + tail;
      MapConcat(h, tail, TimerData);
      if Fired(ts[0]) {
        assert Due(ts) == h + Due(tail) && Waiting(ts) == Waiting(tail);
        MapConcat(h, Due(tail), TimerData);
      } else {
        assert Due(ts) == Due(tail) && Waiting(ts) == h + Waiting(tail);
        MapConcat(h, Waiting(tail), TimerData);
      }
    }
  }

  /**
   * `emitterLatter.removeAll(toEmitNow)` right after the tick: removal by
   * value takes out exactly the entries that fired, because equal entries
   * have equal timers and so fire together.
   */
  lemma {:induction false} RemoveDue(ts: seq<EventTimer>, gone: seq<EventTimer>)
    requires forall t :: t in ts ==> (t in gone <==> Fired(t))
    ensures RemoveAll(ts, gone) == Waiting(ts)
    decreases |ts|
  {
    if ts != [] {
      RemoveDue(ts[1..], gone);
    }
  }

  /** What one `update(delta)` leaves in a delayed queue no listener adds to. */
  function Pending(ts: seq<EventTimer>, delta: real): (r: seq<EventTimer>)
    ensures |r| <= |ts|
  {
    Waiting(Tick(ts, delta))
  }

  /** The delayed queue after one `update` per elapsed time of `ds`, in order. */
  function Elapse(ts: seq<EventTimer>, ds: seq<real>): (r: seq<EventTimer>)
    decreases |ds|
  {
    if ds == [] then ts else Elapse(Pending(ts, ds[0]), ds[1..])
  }

  /**
   * An entry waits as long as the elapsed time has not gone past its delay,
   * and its timer is then the delay minus the elapsed time.
   */
  lemma {:induction false} ElapseKeeps(ts: seq<EventTimer>, ds: seq<real>, t: EventTimer)
    requires t in ts
    requires forall j :: 0 <= j <= |ds| ==> Sum(ds[..j]) <= t.timer
    ensures t.(timer := t.timer - Sum(ds)) in Elapse(ts, ds)
    decreases |ds|
  {
    if ds != [] {
      var t1 := t.(timer := t.timer - ds[0]);
      assert Sum(ds[..1]) == ds[0] + Sum(ds[1..][..0]);
      var i :| 0 <= i < |ts| && ts[i] == t;
      assert Tick(ts, ds[0])[i] == t1;
      WaitingMembers(Tick(ts, ds[0]), t1);
      forall j | 0 <= j <= |ds[1..]| ensures Sum(ds[1..][..j]) <= t1.timer {
        SumConsPrefix(ds, j + 1);
      }
      ElapseKeeps(Pending(ts, ds[0]), ds[1..], t1);
      assert t1.(timer := t1.timer - Sum(ds[1..])) == t.(timer := t.timer - Sum(ds));
    }
  }

  /**
   * Delay accuracy: an entry scheduled with delay `t.timer` that has waited
   * through the elapsed times `ds` fires in the next `update(delta)` exactly
   * when the total elapsed time strictly exceeds its delay.
   */
  lemma DelayAccuracy(ts: seq<EventTimer>, ds: seq<real>, delta: real, t: EventTimer)
    requires t in ts
    requires forall j :: 0 <= j <= |ds| ==> Sum(ds[..j]) <= t.timer
    ensures var u := t.(timer := t.timer - Sum(ds) - delta);
            u in Due(Tick(Elapse(ts, ds), delta)) <==> Sum(ds) + delta > t.timer
  {
    ElapseKeeps(ts, ds, t);
    KeptFires(Elapse(ts, ds), t, Sum(ds), delta);
  }

  /**
   * An entry of delay `t.timer` still queued after `elapsed` fires in a frame
   * of `delta` exactly when `elapsed + delta` exceeds its delay.
   */
  lemma KeptFires(e: seq<EventTimer>, t: EventTimer, elapsed: real, delta: real)
    requires t.(timer := t.timer - elapsed) in e
    ensures t.(timer := t.timer - elapsed - delta) in Due(Tick(e, delta)) <==> elapsed + delta > t.timer
  {
    var u := t.(timer := t.timer - elapsed - delta);
    var i :| 0 <= i < |e| && e[i] == t.(timer := t.timer - elapsed);
    assert Tick(e, delta)[i] == u;
    DueMembers(Tick(e, delta), u);
  }

  /** Two ticks in a row are one tick by the total elapsed time. */
  lemma TickTwice(ts: seq<EventTimer>, d1: real, d2: real)
    ensures Tick(Tick(ts, d1), d2) == Tick(ts, d1 + d2)
  {
    forall i | 0 <= i < |ts| ensures Tick(Tick(ts, d1), d2)[i] == Tick(ts, d1 + d2)[i] {
      assert ts[i].timer - d1 - d2 == ts[i].timer - (d1 + d2);
    }
  }

  /** Ticking changes timers only: the events and payloads stay where they were. */
  lemma TickData(ts: seq<EventTimer>, delta: real)
    ensures Map(Tick(ts, delta), TimerData) == Map(ts, TimerData)
  {
    var a, b := Map(Tick(ts, delta), TimerData), Map(ts, TimerData);
    forall i | 0 <= i < |ts| ensures a[i] == b[i] {
      MapIndex(Tick(ts, delta), TimerData, i);
      MapIndex(ts, TimerData, i);
    }
  }

  /**
   * The queue `after` holds, ticked by `delta`, every entry of `before` that
   * does not fire (it may hold more).
   */
  ghost predicate Survives(before: seq<EventTimer>, after: seq<EventTimer>, delta: real) {
    forall w :: w in before && w.timer - delta >= 0.0 ==> w.(timer := w.timer - delta) in after
  }

  /** A history of delayed queues, one per frame boundary, each surviving into the next. */
  ghost predicate Persists(ls: seq<seq<EventTimer>>, ds: seq<real>) {
    && |ls| == |ds| + 1
    && forall k :: 0 <= k < |ds| ==> Survives(ls[k], ls[k + 1], ds[k])
  }

  /**
   * Along such a history an entry waits as long as the elapsed time has not
   * gone past its delay, and its timer is then the delay minus the elapsed time.
   */
  lemma {:induction false} PersistsKeep(ls: seq<seq<EventTimer>>, ds: seq<real>, t: EventTimer)
    requires Persists(ls, ds) && t in ls[0]
    requires forall j :: 0 <= j <= |ds| ==> Sum(ds[..j]) <= t.timer
    ensures t.(timer := t.timer - Sum(ds)) in ls[|ds|]
    decreases |ds|
  {
    if ds != [] {
      var t1 := t.(timer := t.timer - ds[0]);
      SumConsPrefix(ds, 1);
      assert Survives(ls[0], ls[1], ds[0]);
      assert Persists(ls[1..], ds[1..]) by {
        forall k | 0 <= k < |ds[1..]| ensures Survives(ls[1..][k], ls[1..][k + 1], ds[1..][k]) {
          assert ls[1..][k] == ls[k + 1] && ls[1..][k + 1] == ls[k + 2] && ds[1..][k] == ds[k + 1];
        }
      }
      forall j | 0 <= j <= |ds[1..]| ensures Sum(ds[1..][..j]) <= t1.timer {
        SumConsPrefix(ds, j + 1);
      }
      PersistsKeep(ls[1..], ds[1..], t1);
      assert t1.(timer := t1.timer - Sum(ds[1..])) == t.(timer := t.timer - Sum(ds));
    }
  }

  /**
   * Along such a history an entry fires in the next frame exactly when the
   * total elapsed time strictly exceeds its delay.
   */
  lemma PersistsFire(ls: seq<seq<EventTimer>>, ds: seq<real>, delta: real, t: EventTimer)
    requires Persists(ls, ds) && t in ls[0]
    requires forall j :: 0 <= j <= |ds| ==> Sum(ds[..j]) <= t.timer
    ensures var u := t.(timer := t.timer - Sum(ds) - delta);
            u in Due(Tick(ls[|ds|], delta)) <==> Sum(ds) + delta > t.timer
  {
    PersistsKeep(ls, ds, t);
    KeptFires(ls[|ds|], t, Sum(ds), delta);
  }
}
