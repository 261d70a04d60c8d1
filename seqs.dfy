/** Sequence helpers shared by the chunker, the corpus store client and the query path. */
module Seqs {
  import opened Wrappers

  /** The first `cap` elements of `s` (all of them when `cap` is large, none when it is not positive). */
  function Take<T>(s: seq<T>, cap: int): (r: seq<T>)
  {
    if cap <= 0 then [] else if cap >= |s| then s else s[..cap]
  }

  /** Take keeps a prefix of `s` of length at most `cap`. */
  lemma TakePrefix<T>(s: seq<T>, cap: int)
    ensures |Take(s, cap)| <= Max(cap, 0) && |Take(s, cap)| <= |s|
    ensures Take(s, cap) == s[..|Take(s, cap)|]
    ensures cap >= |s| ==> Take(s, cap) == s
  {
  }

  lemma TakeCons<T>(x: T, s: seq<T>, cap: int)
    requires cap > 0
    ensures Take([x] + s, cap) == [x] + Take(s, cap - 1)
  {
    if cap - 1 >= |s| {
    } else {
      assert ([x] + s)[..cap] == [x] + s[..cap - 1];
    }
  }

  /** The elements of `s` that satisfy `keep`, in their original order. */
  function Filter<T>(s: seq<T>, keep: T -> bool): (r: seq<T>)
    ensures |r| <= |s|
  {
    if |s| == 0 then []
    else if keep(s[0]) then [s[0]] + Filter(s[1..], keep)
    else Filter(s[1..], keep)
  }

  /** `xs` can be obtained from `ys` by deleting elements, without reordering. */
  predicate IsSubsequence<T(==)>(xs: seq<T>, ys: seq<T>)
    decreases |ys|
  {
    if |xs| == 0 then true
    else if |ys| == 0 then false
    else (xs[0] == ys[0] && IsSubsequence(xs[1..], ys[1..])) || IsSubsequence(xs, ys[1..])
  }

  /** Filtering keeps exactly the elements that satisfy the predicate, and keeps their order. */
  lemma {:induction false} FilterKeepsExactly<T>(s: seq<T>, keep: T -> bool)
    ensures forall x :: x in Filter(s, keep) <==> x in s && keep(x)
    ensures IsSubsequence(Filter(s, keep), s)
    decreases |s|
  {
    if |s| > 0 {
      FilterKeepsExactly(s[1..], keep);
      assert s == [s[0]] + s[1..];
      var r := Filter(s, keep);
      if keep(s[0]) {
        assert r == [s[0]] + Filter(s[1..], keep);
        assert r[1..] == Filter(s[1..], keep);
      } else {
        SubsequenceOfTail(r, s);
      }
    }
  }

  /** Filtering keeps every copy of an element that satisfies the predicate, and no copy of
      one that does not. */
  lemma {:induction false} FilterKeepsCopies<T>(s: seq<T>, keep: T -> bool)
    ensures forall x :: multiset(Filter(s, keep))[x] == if keep(x) then multiset(s)[x] else 0
    decreases |s|
  {
    if |s| > 0 {
      FilterKeepsCopies(s[1..], keep);
      assert s == [s[0]] + s[1..];
      assert multiset(s) == multiset([s[0]]) + multiset(s[1..]);
      if keep(s[0]) {
        assert Filter(s, keep) == [s[0]] + Filter(s[1..], keep);
        assert multiset(Filter(s, keep)) == multiset([s[0]]) + multiset(Filter(s[1..], keep));
      }
    }
  }

  lemma SubsequenceOfTail<T>(xs: seq<T>, ys: seq<T>)
    requires |ys| > 0 && IsSubsequence(xs, ys[1..])
    ensures IsSubsequence(xs, ys)
  {
  }

  /** Filtering a sequence that starts with `x`, then capping it: `x` comes first and takes
      one place when it satisfies the filter, and is dropped otherwise. */
  lemma TakeFilterCons<T>(x: T, s: seq<T>, keep: T -> bool, cap: int)
    requires cap > 0
    ensures Take(Filter([x] + s, keep), cap)
            == if keep(x) then [x] + Take(Filter(s, keep), cap - 1) else Take(Filter(s, keep), cap)
  {
    assert ([x] + s)[1..] == s;
    if keep(x) {
      TakeCons(x, Filter(s, keep), cap);
    }
  }

  /** What survives filtering and a cap satisfies the filter and comes from `s`; below the
      cap, everything that satisfies the filter survives. */
  lemma TakeFilterMembers<T>(s: seq<T>, keep: T -> bool, cap: int, x: T)
    ensures x in Take(Filter(s, keep), cap) ==> x in s && keep(x)
    ensures |Filter(s, keep)| <= cap && x in s && keep(x) ==> x in Take(Filter(s, keep), cap)
  {
    TakePrefix(Filter(s, keep), cap);
    FilterKeepsExactly(s, keep);
  }

  /** A prefix of a subsequence is still a subsequence. */
  lemma {:induction false} PrefixSubsequence<T>(xs: seq<T>, n: nat, ys: seq<T>)
    requires n <= |xs| && IsSubsequence(xs, ys)
    ensures IsSubsequence(xs[..n], ys)
    decreases |ys|
  {
    if n > 0 {
      if xs[0] == ys[0] && IsSubsequence(xs[1..], ys[1..]) {
        PrefixSubsequence(xs[1..], n - 1, ys[1..]);
        assert xs[..n][1..] == xs[1..][..n - 1];
      } else {
        PrefixSubsequence(xs, n, ys[1..]);
      }
    }
  }

  lemma FilterAppend<T>(a: seq<T>, b: seq<T>, keep: T -> bool)
    ensures Filter(a + b, keep) == Filter(a, keep) + Filter(b, keep)
    decreases |a|
  {
    if |a| > 0 {
      assert (a + b)[1..] == a[1..] + b;
      FilterAppend(a[1..], b, keep);
    } else {
      assert a + b == b;
    }
  }

  /** `f` applied to every element of `s`, in order. */
  function Map<A, B>(s: seq<A>, f: A -> B): (r: seq<B>)
    ensures |r| == |s|
  {
    if |s| == 0 then [] else [f(s[0])] + Map(s[1..], f)
  }

  /** The element at index `i` of the mapped sequence is `f` of the element at `i`. */
  lemma {:induction false} MapAt<A, B>(s: seq<A>, f: A -> B, i: nat)
    requires i < |s|
    ensures Map(s, f)[i] == f(s[i])
    decreases i
  {
    if i > 0 {
      MapAt(s[1..], f, i - 1);
    }
  }

  lemma MapCons<A, B>(x: A, s: seq<A>, f: A -> B)
    ensures Map([x] + s, f) == [f(x)] + Map(s, f)
  {
    assert ([x] + s)[1..] == s;
  }

  /** The concatenation of a sequence of sequences. */
  function Flatten<T>(bs: seq<seq<T>>): seq<T>
  {
    if |bs| == 0 then [] else bs[0] + Flatten(bs[1..])
  }
}
