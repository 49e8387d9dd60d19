/** Sequence helpers shared by the queues of the bus. */
module Seqs {

  /** No element occurs twice. */
  ghost predicate Distinct<T(!new)>(s: seq<T>) {
    forall x :: multiset(s)[x] <= 1
  }

  /** Element-wise image of a sequence. */
  function Map<A, B>(s: seq<A>, f: A -> B): (r: seq<B>)
    ensures |r| == |s|
  {
    if s == [] then [] else [f(s[0])] + Map(s[1..], f)
  }

  lemma {:induction false} MapIndex<A, B>(s: seq<A>, f: A -> B, i: nat)
    requires i < |s|
    ensures Map(s, f)[i] == f(s[i])
    decreases i
  {
    if i > 0 { MapIndex(s[1..], f, i - 1); }
  }

  /**
   * `MutableList.removeAll(gone)`: drops every element equal to some element
   * of `gone`, keeping the others in order.
   */
  function RemoveAll<T(==, !new)>(s: seq<T>, gone: seq<T>): (r: seq<T>)
    ensures forall x :: x in r <==> x in s && x !in gone
    ensures |r| <= |s|
  {
    if s == [] then []
    else (if s[0] in gone then [] else [s[0]]) + RemoveAll(s[1..], gone)
  }

  /** Sum of a sequence of elapsed times. */
  function Sum(ds: seq<real>): real {
    if ds == [] then 0.0 else ds[0] + Sum(ds[1..])
  }

  lemma {:induction false} MapConcat<A, B>(a: seq<A>, b: seq<A>, f: A -> B)
    ensures Map(a + b, f) == Map(a, f) + Map(b, f)
    decreases |a|
  {
    if a == [] {
      assert a + b == b;
    } else {
      assert (a + b)[1..] == a[1..] + b;
      MapConcat(a[1..], b, f);
    }
  }

  /** Removal distributes over concatenation. */
  lemma {:induction false} RemoveAllConcat<T(!new)>(a: seq<T>, b: seq<T>, gone: seq<T>)
    ensures RemoveAll(a + b, gone) == RemoveAll(a, gone) + RemoveAll(b, gone)
    decreases |a|
  {
    if a == [] {
      assert a + b == b;
    } else {
      assert (a + b)[0] == a[0];
      assert (a + b)[1..] == a[1..] + b;
      RemoveAllConcat(a[1..], b, gone);
    }
  }

  /** Removing a superset of the elements leaves nothing. */
  lemma {:induction false} RemoveAllCovered<T(!new)>(s: seq<T>, gone: seq<T>)
    requires forall i :: 0 <= i < |s| ==> s[i] in gone
    ensures RemoveAll(s, gone) == []
    decreases |s|
  {
    if s != [] {
      RemoveAllCovered(s[1..], gone);
    }
  }

  /** Removal only ever drops elements: the image shrinks as a multiset. */
  lemma {:induction false} MapRemoveAllShrinks<T(!new), B>(s: seq<T>, gone: seq<T>, f: T -> B)
    ensures multiset(Map(RemoveAll(s, gone), f)) <= multiset(Map(s, f))
    decreases |s|
  {
    if s != [] {
      MapRemoveAllShrinks(s[1..], gone, f);
      var head := if s[0] in gone then [] else [s[0]];
      MapConcat(head, RemoveAll(s[1..], gone), f);
      assert Map(s, f) == [f(s[0])] + Map(s[1..], f);
    }
  }

  lemma {:induction false} SumConsPrefix(ds: seq<real>, k: nat)
    requires 0 < k <= |ds|
    ensures Sum(ds[..k]) == ds[0] + Sum(ds[1..][..k - 1])
  {
    assert ds[..k][1..] == ds[1..][..k - 1];
  }

  /** Popping the last element of a duplicate-free sequence. */
  lemma DistinctPop<T(!new)>(s: seq<T>)
    requires |s| > 0
    ensures s[..|s| - 1] + [s[|s| - 1]] == s
    ensures Distinct(s) ==> Distinct(s[..|s| - 1]) && s[|s| - 1] !in s[..|s| - 1]
  {
    var rest, x := s[..|s| - 1], s[|s| - 1];
    assert s == rest + [x];
    assert multiset(s) == multiset(rest) + multiset{x};
    if Distinct(s) {
      assert multiset(s)[x] <= 1;
      forall y ensures multiset(rest)[y] <= 1 {
        assert multiset(rest)[y] <= multiset(s)[y];
      }
    }
  }

  /** Appending an element that is not there yet keeps a sequence duplicate-free. */
  lemma DistinctPush<T(!new)>(s: seq<T>, x: T)
    requires Distinct(s) && x !in s
    ensures Distinct(s + [x])
  {
    assert multiset(s + [x]) == multiset(s) + multiset{x};
    forall y ensures multiset(s + [x])[y] <= 1 {
      if y == x { assert multiset(s)[x] == 0; }
    }
  }

  /** What a prefix holds, the whole sequence holds. */
  lemma InPrefix<T>(s: seq<T>, t: seq<T>, x: T)
    requires s <= t && x in s
    ensures x in t
  {
    var k :| 0 <= k < |s| && s[k] == x;
    assert t[k] == x;
  }

  /** What the whole sequence lacks, a prefix lacks. */
  lemma NotInPrefix<T>(s: seq<T>, t: seq<T>, x: T)
    requires s <= t && x !in t
    ensures x !in s
  {
    if x in s { InPrefix(s, t, x); }
  }

  /** Concatenation is associative. */
  lemma ConcatAssoc<T>(a: seq<T>, b: seq<T>, c: seq<T>)
    ensures (a + b) + c == a + (b + c)
  {
    assert |(a + b) + c| == |a + (b + c)|;
    forall k | 0 <= k < |a + b + c| ensures ((a + b) + c)[k] == (a + (b + c))[k] {
      if k < |a| {
      } else if k < |a| + |b| {
      } else {
      }
    }
  }

  /** In a duplicate-free sequence, different positions hold different elements. */
  lemma DistinctIndex<T(!new)>(s: seq<T>, i: nat, j: nat)
    requires Distinct(s) && i < j < |s|
    ensures s[i] != s[j]
  {
    assert s == s[..j] + [s[j]] + s[j + 1..];
    assert s[i] in s[..j];
    assert multiset(s)[s[i]] == multiset(s[..j])[s[i]] + multiset([s[j]])[s[i]] + multiset(s[j + 1..])[s[i]];
  }
  /** Taking out one position takes one occurrence out of the multiset. */
  lemma Splice<A>(b: seq<A>, i: nat)
    requires i < |b|
    ensures multiset(b) == multiset(b[..i] + b[i + 1..]) + multiset{b[i]}
  {
    assert b == b[..i] + [b[i]] + b[i + 1..];
  }

  /** Taking out one position takes its image out of the image's multiset. */
  lemma MapSplice<A, B>(b: seq<A>, i: nat, f: A -> B)
    requires i < |b|
    ensures multiset(Map(b, f)) == multiset(Map(b[..i] + b[i + 1..], f)) + multiset{f(b[i])}
  {
    var front, back := b[..i], b[i + 1..];
    assert b == (front + [b[i]]) + back;
    MapConcat(front + [b[i]], back, f);
    MapConcat(front, [b[i]], f);
    MapConcat(front, back, f);
  }

  /** One occurrence added to both sides can be taken away again. */
  lemma Cancel<A>(x: multiset<A>, y: multiset<A>, e: A)
    requires x + multiset{e} == y + multiset{e}
    ensures x == y
  {
    forall z ensures x[z] == y[z] {
      assert (x + multiset{e})[z] == x[z] + multiset{e}[z];
      assert (y + multiset{e})[z] == y[z] + multiset{e}[z];
    }
  }

  /** Rearranging a sequence rearranges its image. */
  lemma {:induction false} MapPermutes<A, B>(a: seq<A>, b: seq<A>, f: A -> B)
    requires multiset(a) == multiset(b)
    ensures multiset(Map(a, f)) == multiset(Map(b, f))
    decreases |a|
  {
    if a != [] {
      assert a[0] in multiset(b);
      var i :| 0 <= i < |b| && b[i] == a[0];
      var rest := b[..i] + b[i + 1..];
      Splice(b, i);
      assert a == [a[0]] + a[1..];
      assert multiset(a) == multiset(a[1..]) + multiset{a[0]};
      Cancel(multiset(a[1..]), multiset(rest), a[0]);
      MapPermutes(a[1..], rest, f);
      MapSplice(b, i, f);
    }
  }

  /** Removing elements none of which occur leaves the sequence as it is. */
  lemma {:induction false} RemoveAllNone<T(!new)>(s: seq<T>, gone: seq<T>)
    requires forall i :: 0 <= i < |s| ==> s[i] !in gone
    ensures RemoveAll(s, gone) == s
    decreases |s|
  {
    if s != [] {
      RemoveAllNone(s[1..], gone);
      assert s == [s[0]] + s[1..];
    }
  }

  /**
   * When the images of `a + c` are all different, no element of `c` also
   * occurs in `a`.
   */
  lemma DistinctSplit<T, B(!new)>(a: seq<T>, c: seq<T>, f: T -> B, x: T)
    requires Distinct(Map(a + c, f)) && x in c
    ensures x !in a
  {
    var j :| 0 <= j < |c| && c[j] == x;
    forall i | 0 <= i < |a| ensures a[i] != x {
      DistinctApart(a, c, f, i, j);
    }
  }

  /** An element of the first part and one of the second differ when all images of `a + c` differ. */
  lemma DistinctApart<T, B(!new)>(a: seq<T>, c: seq<T>, f: T -> B, i: nat, j: nat)
    requires Distinct(Map(a + c, f)) && i < |a| && j < |c|
    ensures a[i] != c[j]
  {
    var s := a + c;
    assert s[i] == a[i] && s[|a| + j] == c[j];
    DistinctImage(s, f, i, |a| + j);
  }

  /** Different positions of a sequence with duplicate-free image hold elements with different images. */
  lemma DistinctImage<T, B(!new)>(s: seq<T>, f: T -> B, i: nat, j: nat)
    requires Distinct(Map(s, f)) && i < j < |s|
    ensures f(s[i]) != f(s[j])
  {
    MapIndex(s, f, i);
    MapIndex(s, f, j);
    DistinctIndex(Map(s, f), i, j);
  }
}
