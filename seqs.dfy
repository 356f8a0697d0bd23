/** Generic sequence helpers: the order-preserving filter that every `.filter(...)`
    in the modelled code is, and the subsequence relation it establishes. */
module Seqs {

  /** The elements of `s` that satisfy `p`, in their original order (JavaScript's
      `Array.prototype.filter`). */
  function Filter<T>(s: seq<T>, p: T -> bool): (r: seq<T>)
    ensures |r| <= |s|
  {
    if s == [] then [] else (if p(s[0]) then [s[0]] else []) + Filter(s[1..], p)
  }

  /** `xs` can be obtained from `ys` by deleting elements, keeping the order. */
  predicate IsSubsequence<T(==)>(xs: seq<T>, ys: seq<T>)
    decreases |ys|
  {
    if xs == [] then true
    else if ys == [] then false
    else if xs[0] == ys[0] then IsSubsequence(xs[1..], ys[1..])
    else IsSubsequence(xs, ys[1..])
  }

  /** Every sequence is a subsequence of itself. */
  lemma {:induction false} SubsequenceReflexive<T>(s: seq<T>)
    ensures IsSubsequence(s, s)
  {
    if s != [] {
      SubsequenceReflexive(s[1..]);
    }
  }

  /** Dropping the head of the larger sequence keeps a subsequence a subsequence. */
  lemma {:induction false} SubsequenceOfTail<T>(xs: seq<T>, ys: seq<T>)
    requires ys != [] && IsSubsequence(xs, ys[1..])
    ensures IsSubsequence(xs, ys)
    decreases |ys|, 0
  {
    if xs != [] && xs[0] == ys[0] {
      SubsequenceDropHead(xs, ys[1..]);
    }
  }

  /** Dropping the head of the smaller sequence keeps a subsequence a subsequence. */
  lemma {:induction false} SubsequenceDropHead<T>(xs: seq<T>, zs: seq<T>)
    requires xs != [] && IsSubsequence(xs, zs)
    ensures IsSubsequence(xs[1..], zs)
    decreases |zs|, 1
  {
    if xs[0] == zs[0] {
      SubsequenceOfTail(xs[1..], zs);
    } else {
      SubsequenceDropHead(xs, zs[1..]);
      SubsequenceOfTail(xs[1..], zs);
    }
  }

  /** A filter result is an order-preserving subsequence of its input. */
  lemma {:induction false} FilterIsSubsequence<T>(s: seq<T>, p: T -> bool)
    ensures IsSubsequence(Filter(s, p), s)
  {
    if s != [] {
      FilterIsSubsequence(s[1..], p);
      if p(s[0]) {
        assert Filter(s, p) == [s[0]] + Filter(s[1..], p);
        assert Filter(s, p)[1..] == Filter(s[1..], p);
      } else {
        assert Filter(s, p) == Filter(s[1..], p);
        SubsequenceOfTail(Filter(s, p), s);
      }
    }
  }

  /** An element is kept exactly when it occurs in the input and satisfies the predicate. */
  lemma {:induction false} FilterMembership<T>(s: seq<T>, p: T -> bool, x: T)
    ensures x in Filter(s, p) <==> x in s && p(x)
  {
    if s != [] {
      FilterMembership(s[1..], p, x);
      assert s == [s[0]] + s[1..];
      assert x in s <==> x == s[0] || x in s[1..];
    }
  }

  /** A predicate that holds of every element keeps the input unchanged. */
  lemma {:induction false} FilterKeepsAll<T>(s: seq<T>, p: T -> bool)
    requires forall x :: x in s ==> p(x)
    ensures Filter(s, p) == s
  {
    if s != [] {
      assert s[0] in s;
      assert forall x :: x in s[1..] ==> x in s;
      FilterKeepsAll(s[1..], p);
      assert s == [s[0]] + s[1..];
    }
  }

  /** Filtering by complementary predicates splits the input: the two results
      together hold every element exactly as often as the input does. */
  lemma {:induction false} FilterPartition<T>(s: seq<T>, p: T -> bool, q: T -> bool)
    requires forall x :: x in s ==> (p(x) <==> !q(x))
    ensures |Filter(s, p)| + |Filter(s, q)| == |s|
    ensures multiset(Filter(s, p)) + multiset(Filter(s, q)) == multiset(s)
  {
    if s != [] {
      assert s[0] in s;
      assert forall x :: x in s[1..] ==> x in s;
      FilterPartition(s[1..], p, q);
      assert s == [s[0]] + s[1..];
      assert multiset(s) == multiset{s[0]} + multiset(s[1..]);
      if p(s[0]) {
        assert Filter(s, q) == Filter(s[1..], q);
        assert multiset(Filter(s, p)) == multiset{s[0]} + multiset(Filter(s[1..], p));
      } else {
        assert Filter(s, p) == Filter(s[1..], p);
        assert multiset(Filter(s, q)) == multiset{s[0]} + multiset(Filter(s[1..], q));
      }
    }
  }

  /** Filtering distributes over concatenation. */
  lemma {:induction false} FilterConcat<T>(a: seq<T>, b: seq<T>, p: T -> bool)
    ensures Filter(a + b, p) == Filter(a, p) + Filter(b, p)
  {
    if a == [] {
      assert a + b == b;
    } else {
      var head := if p(a[0]) then [a[0]] else [];
      assert (a + b)[0] == a[0];
      assert (a + b)[1..] == a[1..] + b;
      assert Filter(a + b, p) == head + Filter(a[1..] + b, p);
      FilterConcat(a[1..], b, p);
      assert Filter(a, p) == head + Filter(a[1..], p);
    }
  }

  /** Two predicates that never hold together select at most the whole input between them. */
  lemma {:induction false} FilterDisjointCount<T>(s: seq<T>, p: T -> bool, q: T -> bool)
    requires forall x :: x in s ==> !(p(x) && q(x))
    ensures |Filter(s, p)| + |Filter(s, q)| <= |s|
  {
    if s != [] {
      assert s[0] in s;
      assert forall x :: x in s[1..] ==> x in s;
      FilterDisjointCount(s[1..], p, q);
    }
  }

  /** The position of an element that occurs in a sequence, and the rest of the
      sequence without it. */
  lemma RemoveOne<T>(b: seq<T>, x: T) returns (j: nat)
    requires x in multiset(b)
    ensures j < |b| && b[j] == x
    ensures multiset(b[..j] + b[j + 1..]) == multiset(b) - multiset{x}
  {
    j :| 0 <= j < |b| && b[j] == x;
    assert b == b[..j] + [b[j]] + b[j + 1..];
  }

  /** Removing one element from the input removes at most that element from the result. */
  lemma FilterRemoveAt<T>(b: seq<T>, j: nat, p: T -> bool)
    requires j < |b|
    ensures |Filter(b, p)| == |Filter(b[..j] + b[j + 1..], p)| + if p(b[j]) then 1 else 0
  {
    assert b == b[..j] + ([b[j]] + b[j + 1..]);
    FilterConcat(b[..j], [b[j]] + b[j + 1..], p);
    FilterConcat([b[j]], b[j + 1..], p);
    FilterConcat(b[..j], b[j + 1..], p);
  }

  /** The number of elements a filter keeps does not depend on the order of the input. */
  lemma {:induction false} FilterCountPermutation<T>(a: seq<T>, b: seq<T>, p: T -> bool)
    requires multiset(a) == multiset(b)
    ensures |Filter(a, p)| == |Filter(b, p)|
    decreases |a|
  {
    if a == [] {
      assert |multiset(b)| == 0;
    } else {
      var x := a[0];
      assert a == [x] + a[1..];
      assert multiset(a) == multiset{x} + multiset(a[1..]);
      var j := RemoveOne(b, x);
      var rest := b[..j] + b[j + 1..];
      assert multiset(a[1..]) == multiset(rest);
      FilterCountPermutation(a[1..], rest, p);
      FilterRemoveAt(b, j, p);
      FilterRemoveAt(a, 0, p);
    }
  }

  /** A stricter predicate selects a subsequence of what a weaker one selects. */
  lemma {:induction false} FilterStricter<T>(s: seq<T>, wide: T -> bool, narrow: T -> bool)
    requires forall x :: narrow(x) ==> wide(x)
    ensures IsSubsequence(Filter(s, narrow), Filter(s, wide))
  {
    if s != [] {
      FilterStricter(s[1..], wide, narrow);
      var n, w := Filter(s[1..], narrow), Filter(s[1..], wide);
      if narrow(s[0]) {
        assert Filter(s, narrow) == [s[0]] + n && Filter(s, wide) == [s[0]] + w;
        assert ([s[0]] + n)[1..] == n && ([s[0]] + w)[1..] == w;
      } else if wide(s[0]) {
        assert Filter(s, narrow) == n && Filter(s, wide) == [s[0]] + w;
        assert ([s[0]] + w)[1..] == w;
        SubsequenceOfTail(n, [s[0]] + w);
      } else {
        assert Filter(s, narrow) == n && Filter(s, wide) == w;
      }
    }
  }
}
