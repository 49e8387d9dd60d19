/**
 * Kotlin's `MutableList.sortBy(selector)`: a stable sort on an integer key,
 * modelled as an insertion sort.
 */
module StableSort {
  import opened Seqs

  /** Keys never decrease along `s`. */
  predicate SortedBy<T>(s: seq<T>, key: T -> int) {
    forall i, j :: 0 <= i < j < |s| ==> key(s[i]) <= key(s[j])
  }

  /** The elements of `s` whose key is `k`, in their order in `s`. */
  function WithKey<T>(s: seq<T>, key: T -> int, k: int): seq<T> {
    if s == [] then []
    else (if key(s[0]) == k then [s[0]] else []) + WithKey(s[1..], key, k)
  }

  /** Places `x` in front of the first element whose key is at least its own. */
  function Insert<T>(x: T, s: seq<T>, key: T -> int): seq<T> {
    if s == [] || key(x) <= key(s[0]) then [x] + s
    else [s[0]] + Insert(x, s[1..], key)
  }

  /**
   * Sorts by ascending key; elements with equal keys keep their relative
   * order, and the result is a rearrangement of the input.
   */
  function SortBy<T>(s: seq<T>, key: T -> int): (r: seq<T>)
    ensures SortedBy(r, key)
    ensures multiset(r) == multiset(s)
    ensures forall k :: WithKey(r, key, k) == WithKey(s, key, k)
  {
    if s == [] then []
    else
      var rest := SortBy(s[1..], key);
      InsertPermutes(s[0], rest, key);
      InsertSorted(s[0], rest, key);
      InsertStable(s[0], rest, key);
      assert s == [s[0]] + s[1..];
      Insert(s[0], rest, key)
  }

  lemma {:induction false} InsertPermutes<T>(x: T, s: seq<T>, key: T -> int)
    ensures multiset(Insert(x, s, key)) == multiset{x} + multiset(s)
    decreases |s|
  {
    if s != [] && key(x) > key(s[0]) {
      InsertPermutes(x, s[1..], key);
      assert s == [s[0]] + s[1..];
    }
  }

  lemma {:induction false} InsertSorted<T>(x: T, s: seq<T>, key: T -> int)
    requires SortedBy(s, key)
    ensures SortedBy(Insert(x, s, key), key)
    decreases |s|
  {
    if s == [] || key(x) <= key(s[0]) {
      var r := [x] + s;
      forall i, j | 0 <= i < j < |r| ensures key(r[i]) <= key(r[j]) {
        if i > 0 { assert r[i] == s[i - 1] && r[j] == s[j - 1]; }
        else { assert key(s[0]) <= key(r[j]); }
      }
    } else {
      var tail := Insert(x, s[1..], key);
      InsertSorted(x, s[1..], key);
      InsertPermutes(x, s[1..], key);
      var r := [s[0]] + tail;
      forall i, j | 0 <= i < j < |r| ensures key(r[i]) <= key(r[j]) {
        if i > 0 {
          assert r[i] == tail[i - 1] && r[j] == tail[j - 1];
        } else {
          assert r[j] == tail[j - 1];
          assert tail[j - 1] in multiset(tail);
          if tail[j - 1] != x {
            assert tail[j - 1] in multiset(s[1..]);
            var m :| 0 <= m < |s[1..]| && s[1..][m] == tail[j - 1];
            assert s[1..][m] == s[m + 1];
          }
        }
      }
    }
  }

  /**
   * Inserting `x` puts it after no element of its own key: among the
   * elements with key `key(x)` it comes first.
   */
  lemma {:induction false} InsertStable<T>(x: T, s: seq<T>, key: T -> int)
    ensures forall k :: WithKey(Insert(x, s, key), key, k)
                        == (if key(x) == k then [x] else []) + WithKey(s, key, k)
  {
    forall k ensures WithKey(Insert(x, s, key), key, k)
                     == (if key(x) == k then [x] else []) + WithKey(s, key, k)
    {
      InsertStableAt(x, s, key, k);
    }
  }

  /** `InsertStable` for one key. */
  lemma {:induction false} InsertStableAt<T>(x: T, s: seq<T>, key: T -> int, k: int)
    ensures WithKey(Insert(x, s, key), key, k) == (if key(x) == k then [x] else []) + WithKey(s, key, k)
    decreases |s|
  {
    if s == [] || key(x) <= key(s[0]) {
      WithKeyCons(x, s, key, k);
    } else {
      var ins := Insert(x, s[1..], key);
      var h0, hx := if key(s[0]) == k then [s[0]] else [], if key(x) == k then [x] else [];
      InsertStableAt(x, s[1..], key, k);
      WithKeyCons(s[0], ins, key, k);
      assert s == [s[0]] + s[1..];
      WithKeyCons(s[0], s[1..], key, k);
      SwapHeads(h0, hx, WithKey(s[1..], key, k));
    }
  }

  lemma SwapHeads<T>(a: seq<T>, b: seq<T>, w: seq<T>)
    requires a == [] || b == []
    ensures a + (b + w) == b + (a + w)
  {
    if a == [] { assert a + (b + w) == b + w && a + w == w; }
    else { assert b + w == w && b + (a + w) == a + w; }
  }

  /** Selecting one key from a sequence with a known first element. */
  lemma WithKeyCons<T>(y: T, t: seq<T>, key: T -> int, k: int)
    ensures WithKey([y] + t, key, k) == (if key(y) == k then [y] else []) + WithKey(t, key, k)
  {
    assert ([y] + t)[0] == y && ([y] + t)[1..] == t;
  }

  /** Selecting one key distributes over concatenation. */
  lemma {:induction false} WithKeyConcat<T>(a: seq<T>, b: seq<T>, key: T -> int, k: int)
    ensures WithKey(a + b, key, k) == WithKey(a, key, k) + WithKey(b, key, k)
    decreases |a|
  {
    if a == [] {
      assert a + b == b;
    } else {
      assert (a + b)[0] == a[0] && (a + b)[1..] == a[1..] + b;
      WithKeyConcat(a[1..], b, key, k);
      ConcatAssoc(if key(a[0]) == k then [a[0]] else [], WithKey(a[1..], key, k), WithKey(b, key, k));
    }
  }

  /** A sequence whose elements all share key `e` is kept whole for `e` and dropped for any other key. */
  lemma {:induction false} WithKeyUniform<T>(s: seq<T>, key: T -> int, e: int, k: int)
    requires forall i :: 0 <= i < |s| ==> key(s[i]) == e
    ensures WithKey(s, key, k) == if e == k then s else []
    decreases |s|
  {
    if s != [] {
      WithKeyUniform(s[1..], key, e, k);
      assert s == [s[0]] + s[1..];
    }
  }
}
