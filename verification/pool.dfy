/**
 * The payload pool: a heap of `EventData` objects plus the free list of the
 * libGDX `Pool` that recycles them (`obtain` pops the last freed object,
 * `free` resets an object and pushes it).
 */
module Pool {
  import opened Types
  import opened Payload
  import opened Seqs

  /**
   * `heap` holds every payload object ever built, `free` the pooled ones,
   * `created` how many objects `newObject` has built (the next fresh id).
   */
  datatype Store = Store(heap: map<PayloadId, EventData>, free: seq<PayloadId>, created: nat)

  /** The pool of a new bus: nothing built, nothing pooled. */
  function Empty(): (r: Store)
    ensures r.heap == map[] && r.free == [] && r.created == 0
    ensures Valid(r)
  {
    Store(map[], [], 0)
  }

  /**
   * The heap holds exactly the objects built so far, nothing sits in the free
   * list twice, and every pooled object is in its reset state.
   */
  ghost predicate Valid(s: Store) {
    && (forall p: PayloadId :: p in s.heap <==> p < s.created)
    && Distinct(s.free)
    && (forall i :: 0 <= i < |s.free| ==> s.free[i] in s.heap && s.heap[s.free[i]] == Fresh())
  }

  /** `pool.obtain()`: the most recently freed object, or a new one. */
  function Obtain(s: Store): (r: (Store, PayloadId))
    ensures r.1 in r.0.heap
    ensures s.heap.Keys <= r.0.heap.Keys
    ensures forall q :: q in s.heap && q !in s.free && q != r.1 ==> q in r.0.heap && r.0.heap[q] == s.heap[q]
    ensures |s.free| > 0 ==> r.0.free + [r.1] == s.free
    ensures |s.free| > 0 && r.1 in s.heap ==> r.0.heap == s.heap
    ensures |s.free| == 0 ==> r.0.free == [] && r.0.heap[r.1] == Fresh()
    ensures r.0.free <= s.free && s.created <= r.0.created
    ensures r.1 in s.free || (r.1 == s.created && r.0.created == s.created + 1)
  {
    if |s.free| > 0 then
      var p := s.free[|s.free| - 1];
      var rest := s.free[..|s.free| - 1];
      // On a valid pool every pooled id names an object of the heap; the
      // fallback only keeps `Obtain` total.
      var heap := if p in s.heap then s.heap else s.heap[p := Fresh()];
      (Store(heap, rest, s.created), p)
    else
      var p := s.created;
      (Store(s.heap[p := Fresh()], [], s.created + 1), p)
  }

  /**
   * On a valid pool, `obtain` keeps the pool valid and hands out an object in
   * its reset state that the pool no longer holds: one that was pooled, or a
   * brand-new one.
   */
  lemma ObtainValid(s: Store)
    requires Valid(s)
    ensures var (s', p) := Obtain(s);
            && Valid(s')
            && p !in s'.free
            && s'.heap[p] == Fresh()
            && (p in s.free || p !in s.heap)
  {
    var (s', p) := Obtain(s);
    if |s.free| > 0 {
      DistinctPop(s.free);
      assert s'.free == s.free[..|s.free| - 1];
      assert p == s.free[|s.free| - 1];
      forall i | 0 <= i < |s'.free| ensures s'.free[i] in s'.heap && s'.heap[s'.free[i]] == Fresh() {
        assert s'.free[i] == s.free[i];
      }
    } else {
      assert s'.heap == s.heap[s.created := Fresh()];
      forall q: PayloadId ensures q in s'.heap <==> q < s'.created {
        if q < s.created { assert q in s.heap; }
      }
    }
  }

  /** Writing the object `obtain` hands out keeps a valid pool valid. */
  lemma ObtainWriteValid(s: Store, d: EventData)
    requires Valid(s)
    ensures var (s', p) := Obtain(s);
            Valid(s'.(heap := s'.heap[p := d]))
  {
    ObtainValid(s);
    var (s', p) := Obtain(s);
    var w := s'.(heap := s'.heap[p := d]);
    forall i | 0 <= i < |w.free| ensures w.free[i] in w.heap && w.heap[w.free[i]] == Fresh() {
      assert w.free[i] != p;
    }
  }

  /** `pool.free(d)`: resets the object and puts it back on the free list. */
  function Release(s: Store, p: PayloadId): (r: Store)
    requires p in s.heap
    ensures r.free == s.free + [p]
    ensures r.heap.Keys == s.heap.Keys && r.created == s.created
    ensures r.heap[p] == Fresh()
    ensures forall q :: q in s.heap && q != p ==> r.heap[q] == s.heap[q]
    ensures Valid(s) && p !in s.free ==> Valid(r)
  {
    var r := Store(s.heap[p := Reset(s.heap[p])], s.free + [p], s.created);
    assert multiset(r.free) == multiset(s.free) + multiset{p};
    r
  }

  /** Frees the objects of `ps`, in order. */
  function ReleaseAll(s: Store, ps: seq<PayloadId>): (r: Store)
    requires forall i :: 0 <= i < |ps| ==> ps[i] in s.heap
    ensures r.free == s.free + ps
    ensures r.heap.Keys == s.heap.Keys && r.created == s.created
    ensures forall i :: 0 <= i < |ps| ==> r.heap[ps[i]] == Fresh()
    ensures forall q :: q in s.heap && q !in ps ==> r.heap[q] == s.heap[q]
    ensures Valid(s) && Distinct(s.free + ps) ==> Valid(r)
    decreases |ps|
  {
    if ps == [] then
      assert s.free + ps == s.free;
      s
    else
      var s1 := Release(s, ps[0]);
      assert s1.free + ps[1..] == s.free + ps;
      ReleaseAll(s1, ps[1..])
  }

  /**
   * Round trip: the object freed last is the next one handed out, in its
   * reset state, and the free list is back where it was.
   */
  lemma ObtainAfterRelease(s: Store, p: PayloadId)
    requires p in s.heap
    ensures Obtain(Release(s, p)) == (s.(heap := s.heap[p := Fresh()]), p)
  {
    assert (s.free + [p])[..|s.free|] == s.free;
  }
}
