/** `Array.prototype.filter` on sequences, with the facts the engine needs about it. */
module Seqs {

  /** `a` is `b` with some elements left out, in the same order. */
  predicate IsSubsequence<T(==)>(a: seq<T>, b: seq<T>)
    decreases |b|
  {
    if a == [] then true
    else if b == [] then false
    else if a[0] == b[0] then IsSubsequence(a[1..], b[1..])
    else IsSubsequence(a, b[1..])
  }

  /**
   * `s.filter(p)`: the elements of `s` that satisfy `p`, in their order and
   * with their repetitions.
   */
  function Keep<T(==,!new)>(s: seq<T>, p: T -> bool): (r: seq<T>)
    ensures |r| <= |s|
    ensures forall x :: x in r <==> x in s && p(x)
    ensures IsSubsequence(r, s)
  {
    if s == [] then []
    else if p(s[0]) then [s[0]] + Keep(s[1..], p)
    else Keep(s[1..], p)
  }

  lemma {:induction false} KeepAppend<T(!new)>(a: seq<T>, b: seq<T>, p: T -> bool)
    ensures Keep(a + b, p) == Keep(a, p) + Keep(b, p)
  {
    if a != [] {
      assert (a + b)[1..] == a[1..] + b;
      KeepAppend(a[1..], b, p);
    } else {
      assert a + b == b;
    }
  }

  /** Each element is kept as often as it occurs when it satisfies `p`, and not at all otherwise. */
  lemma {:induction false} KeepMultiplicity<T(!new)>(s: seq<T>, p: T -> bool, x: T)
    ensures multiset(Keep(s, p))[x] == if p(x) then multiset(s)[x] else 0
  {
    if s != [] {
      KeepMultiplicity(s[1..], p, x);
      assert s == [s[0]] + s[1..];
      assert multiset(s) == multiset([s[0]]) + multiset(s[1..]);
      if p(s[0]) {
        assert multiset(Keep(s, p)) == multiset([s[0]]) + multiset(Keep(s[1..], p));
      }
    }
  }

  /** Every element satisfies `p`: nothing is dropped. */
  lemma {:induction false} KeepAll<T(!new)>(s: seq<T>, p: T -> bool)
    requires forall x :: x in s ==> p(x)
    ensures Keep(s, p) == s
  {
    if s != [] {
      KeepAll(s[1..], p);
    }
  }

  /** No element satisfies `p`: everything is dropped. */
  lemma {:induction false} KeepNone<T(!new)>(s: seq<T>, p: T -> bool)
    requires forall x :: x in s ==> !p(x)
    ensures Keep(s, p) == []
  {
    if s != [] {
      KeepNone(s[1..], p);
    }
  }

  /** Filtering depends only on what `p` says about the elements of `s`. */
  lemma {:induction false} KeepCongruent<T(!new)>(s: seq<T>, p: T -> bool, q: T -> bool)
    requires forall x :: x in s ==> p(x) == q(x)
    ensures Keep(s, p) == Keep(s, q)
  {
    if s != [] {
      KeepCongruent(s[1..], p, q);
    }
  }

  /**
   * Filtering by a stronger condition is filtering the result of a weaker
   * one: the narrower result is a subsequence of the wider one.
   */
  lemma {:induction false} KeepNarrowing<T(!new)>(s: seq<T>, p: T -> bool, q: T -> bool)
    requires forall x :: x in s && p(x) ==> q(x)
    ensures Keep(s, p) == Keep(Keep(s, q), p)
    ensures IsSubsequence(Keep(s, p), Keep(s, q))
  {
    if s != [] {
      KeepNarrowing(s[1..], p, q);
    }
  }

  /** Filtering twice by the same condition is filtering once. */
  lemma KeepIdempotent<T(!new)>(s: seq<T>, p: T -> bool)
    ensures Keep(Keep(s, p), p) == Keep(s, p)
  {
    KeepNarrowing(s, p, p);
  }

  /** `s.map((x, index) => f(x, index))`. */
  function MapIndexed<A, B>(s: seq<A>, f: (A, nat) -> B): (r: seq<B>)
    ensures |r| == |s| && forall i :: 0 <= i < |s| ==> r[i] == f(s[i], i)
  {
    seq(|s|, i requires 0 <= i < |s| => f(s[i], i))
  }

  /** The elements of a mapped sequence are the images of the elements, each with its index. */
  lemma MapIndexedMembers<A, B(!new)>(s: seq<A>, f: (A, nat) -> B)
    ensures forall y :: y in MapIndexed(s, f) <==> exists i :: 0 <= i < |s| && y == f(s[i], i)
  {
    var r := MapIndexed(s, f);
    forall y
      ensures y in r <==> exists i :: 0 <= i < |s| && y == f(s[i], i)
    {
      if y in r {
        var i :| 0 <= i < |r| && r[i] == y;
      }
      if exists i :: 0 <= i < |s| && y == f(s[i], i) {
        var i :| 0 <= i < |s| && y == f(s[i], i);
        assert r[i] == y;
      }
    }
  }
}
