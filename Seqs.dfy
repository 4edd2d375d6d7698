/** Order-preserving selection over sequences (Java's `stream().filter(...).collect(toList())`). */
module Seqs {

  /** The elements of `s` that satisfy `p`, in their order in `s`. */
  function Filter<T(!new)>(s: seq<T>, p: T -> bool): (r: seq<T>)
    ensures |r| <= |s|
    ensures forall x :: x in r <==> x in s && p(x)
  {
    if s == [] then []
    else
      var rest := Filter(s[1..], p);
      assert s == [s[0]] + s[1..];
      if p(s[0]) then [s[0]] + rest else rest
  }

  /** Filtering distributes over concatenation: the selection keeps the input's order. */
  lemma {:induction false} FilterConcat<T(!new)>(a: seq<T>, b: seq<T>, p: T -> bool)
    ensures Filter(a + b, p) == Filter(a, p) + Filter(b, p)
  {
    if a == [] {
      assert a + b == b;
    } else {
      var ab := a + b;
      assert ab != [] && ab[0] == a[0] && ab[1..] == a[1..] + b;
      FilterConcat(a[1..], b, p);
      assert Filter(ab, p) == (if p(a[0]) then [a[0]] else []) + Filter(a[1..] + b, p);
    }
  }

  /** The selection holds every element satisfying `p` as often as `s` does, and no other. */
  lemma {:induction false} FilterMultiset<T(!new)>(s: seq<T>, p: T -> bool)
    ensures forall x :: multiset(Filter(s, p))[x] == if p(x) then multiset(s)[x] else 0
  {
    if s != [] {
      FilterMultiset(s[1..], p);
      assert s == [s[0]] + s[1..];
    }
  }

  /** A one-element sequence is kept exactly when its element satisfies `p`. */
  lemma FilterSingleton<T(!new)>(x: T, p: T -> bool)
    ensures Filter([x], p) == if p(x) then [x] else []
  {
    assert [x][1..] == [];
  }

  /** Appending one element appends it to the selection exactly when it satisfies `p`. */
  lemma FilterSnoc<T(!new)>(s: seq<T>, x: T, p: T -> bool)
    ensures Filter(s + [x], p) == Filter(s, p) + (if p(x) then [x] else [])
  {
    FilterConcat(s, [x], p);
    FilterSingleton(x, p);
  }

  /** Predicates that agree on the elements of `s` select the same elements. */
  lemma {:induction false} FilterCongruent<T(!new)>(s: seq<T>, p: T -> bool, q: T -> bool)
    requires forall i :: 0 <= i < |s| ==> p(s[i]) == q(s[i])
    ensures Filter(s, p) == Filter(s, q)
  {
    if s != [] {
      FilterCongruent(s[1..], p, q);
    }
  }

  /** Selecting twice is selecting by the conjunction. */
  lemma {:induction false} FilterFilter<T(!new)>(s: seq<T>, p: T -> bool, q: T -> bool, pq: T -> bool)
    requires forall x :: pq(x) == (p(x) && q(x))
    ensures Filter(Filter(s, p), q) == Filter(s, pq)
  {
    if s != [] {
      FilterFilter(s[1..], p, q, pq);
      if p(s[0]) {
        assert ([s[0]] + Filter(s[1..], p))[1..] == Filter(s[1..], p);
      }
    }
  }

  /** Selecting everything, or nothing. */
  lemma {:induction false} FilterAll<T(!new)>(s: seq<T>, p: T -> bool)
    requires forall i :: 0 <= i < |s| ==> p(s[i])
    ensures Filter(s, p) == s
  {
    if s != [] {
      FilterAll(s[1..], p);
      assert s == [s[0]] + s[1..];
    }
  }

  lemma {:induction false} FilterNone<T(!new)>(s: seq<T>, p: T -> bool)
    requires forall i :: 0 <= i < |s| ==> !p(s[i])
    ensures Filter(s, p) == []
  {
    if s != [] {
      FilterNone(s[1..], p);
    }
  }

  /** Counting the matches of `q` in a mapped sequence is counting the matches of `p` in the original. */
  lemma {:induction false} FilterLengthTransfer<T(!new), U(!new)>(s: seq<T>, t: seq<U>, p: T -> bool, q: U -> bool)
    requires |s| == |t|
    requires forall i :: 0 <= i < |s| ==> p(s[i]) == q(t[i])
    ensures |Filter(s, p)| == |Filter(t, q)|
  {
    if s != [] {
      FilterLengthTransfer(s[1..], t[1..], p, q);
    }
  }

  /** Exactly one element satisfying `q` leaves a selection of one. */
  lemma {:induction false} FilterUnique<T(!new)>(s: seq<T>, q: T -> bool, k: int)
    requires 0 <= k < |s| && q(s[k])
    requires forall i :: 0 <= i < |s| && q(s[i]) ==> i == k
    ensures |Filter(s, q)| == 1
  {
    if k == 0 {
      FilterNone(s[1..], q);
    } else {
      FilterUnique(s[1..], q, k - 1);
    }
  }

  /** Selecting by one of two exclusive conditions selects as many as the two selections together. */
  lemma {:induction false} FilterDisjointUnion<T(!new)>(s: seq<T>, p: T -> bool, q: T -> bool, pq: T -> bool)
    requires forall i :: 0 <= i < |s| ==> pq(s[i]) == (p(s[i]) || q(s[i])) && !(p(s[i]) && q(s[i]))
    ensures |Filter(s, pq)| == |Filter(s, p)| + |Filter(s, q)|
  {
    if s != [] {
      FilterDisjointUnion(s[1..], p, q, pq);
    }
  }

  /** The prefix of length k of the prefix of length k+1. */
  lemma TakeOfTake<T>(s: seq<T>, k: int)
    requires 0 <= k < |s|
    ensures s[..k + 1][..k] == s[..k] && s[..k + 1][k] == s[k]
  {
  }

  /** The number of integers in [lo, hi) satisfying c. */
  function CountInts(lo: int, hi: int, c: int -> bool): (k: nat)
    decreases hi - lo
    ensures k <= if lo <= hi then hi - lo else 0
  {
    if hi <= lo then 0 else CountInts(lo, hi - 1, c) + (if c(hi - 1) then 1 else 0)
  }

  /** Every integer of [lo, hi) satisfies c. */
  lemma {:induction false} CountIntsAll(lo: int, hi: int, c: int -> bool)
    requires lo <= hi
    requires forall r :: lo <= r < hi ==> c(r)
    ensures CountInts(lo, hi, c) == hi - lo
    decreases hi - lo
  {
    if lo < hi {
      CountIntsAll(lo, hi - 1, c);
    }
  }

  /** Every integer of [lo, hi) but e satisfies c. */
  lemma {:induction false} CountIntsAllBut(lo: int, hi: int, c: int -> bool, e: int)
    requires lo <= e < hi
    requires forall r :: lo <= r < hi ==> (c(r) <==> r != e)
    ensures CountInts(lo, hi, c) == hi - lo - 1
    decreases hi - lo
  {
    if e == hi - 1 {
      CountIntsAll(lo, hi - 1, c);
    } else {
      CountIntsAllBut(lo, hi - 1, c, e);
    }
  }
}
