/** Order-preserving filtering of sequences, the shape shared by the list
    comprehensions and the row-building loop of the Bates logger. */
module Collections {

  /** The elements of `s` that `keep` accepts, in their original order.
      Defined from the back so that a loop that walks `s` from the front
      extends it one element at a time. */
  function Filter<T>(keep: T -> bool, s: seq<T>): (r: seq<T>)
    ensures |r| <= |s|
    ensures forall k :: 0 <= k < |r| ==> keep(r[k])
  {
    if |s| == 0 then []
    else Filter(keep, s[..|s| - 1]) + (if keep(s[|s| - 1]) then [s[|s| - 1]] else [])
  }

  /** Filtering one more element of a prefix appends it or nothing. */
  lemma FilterPrefixStep<T>(keep: T -> bool, s: seq<T>, i: nat)
    requires i < |s|
    ensures Filter(keep, s[..i + 1]) == Filter(keep, s[..i]) + (if keep(s[i]) then [s[i]] else [])
  {
    assert s[..i + 1][..i] == s[..i];
  }

  /** `f` applied to every element of `s`, in order. */
  function Map<A, B>(f: A -> B, s: seq<A>): (r: seq<B>)
    ensures |r| == |s|
    ensures forall k :: 0 <= k < |s| ==> r[k] == f(s[k])
  {
    seq(|s|, k requires 0 <= k < |s| => f(s[k]))
  }

  /** Mapping the filtered prefix one element further appends that element's
      image exactly when the element is kept. */
  lemma FilterMapPrefixStep<A, B>(keep: A -> bool, f: A -> B, s: seq<A>, i: nat)
    requires i < |s|
    ensures Map(f, Filter(keep, s[..i + 1])) ==
            Map(f, Filter(keep, s[..i])) + (if keep(s[i]) then [f(s[i])] else [])
  {
    FilterPrefixStep(keep, s, i);
  }

  /** `idx` picks the elements of `a` out of `b` at strictly increasing positions. */
  ghost predicate IsEmbedding<T>(idx: seq<nat>, a: seq<T>, b: seq<T>)
  {
    && |idx| == |a|
    && (forall k :: 0 <= k < |idx| ==> idx[k] < |b| && a[k] == b[idx[k]])
    && (forall k, l :: 0 <= k < l < |idx| ==> idx[k] < idx[l])
  }

  /** `a` is obtained from `b` by deleting elements, keeping the order of the rest. */
  ghost predicate IsSubsequence<T>(a: seq<T>, b: seq<T>)
  {
    exists idx :: IsEmbedding(idx, a, b)
  }

  lemma {:induction false} FilterEmbedding<T>(keep: T -> bool, s: seq<T>) returns (idx: seq<nat>)
    ensures IsEmbedding(idx, Filter(keep, s), s)
  {
    if |s| == 0 {
      idx := [];
    } else {
      var init := s[..|s| - 1];
      var prev := FilterEmbedding(keep, init);
      if keep(s[|s| - 1]) {
        idx := prev + [|s| - 1];
      } else {
        idx := prev;
      }
    }
  }

  /** Filtering keeps the survivors in their original order. */
  lemma FilterIsSubsequence<T>(keep: T -> bool, s: seq<T>)
    ensures IsSubsequence(Filter(keep, s), s)
  {
    var idx := FilterEmbedding(keep, s);
  }

  /** Filtering keeps every accepted value exactly as often as it occurs in
      the input and drops every rejected one. */
  lemma {:induction false} FilterCount<T>(keep: T -> bool, s: seq<T>, x: T)
    ensures multiset(Filter(keep, s))[x] == if keep(x) then multiset(s)[x] else 0
  {
    if |s| > 0 {
      var init := s[..|s| - 1];
      FilterCount(keep, init, x);
      assert s == init + [s[|s| - 1]];
    }
  }

  /** A sequence whose every element is accepted passes through unchanged. */
  lemma {:induction false} FilterKeepsAllAccepted<T>(keep: T -> bool, s: seq<T>)
    requires forall k :: 0 <= k < |s| ==> keep(s[k])
    ensures Filter(keep, s) == s
  {
    if |s| > 0 {
      var init := s[..|s| - 1];
      FilterKeepsAllAccepted(keep, init);
      assert s == init + [s[|s| - 1]];
    }
  }

  /** Filtering twice with the same test is filtering once. */
  lemma FilterIdempotent<T>(keep: T -> bool, s: seq<T>)
    ensures Filter(keep, Filter(keep, s)) == Filter(keep, s)
  {
    FilterKeepsAllAccepted(keep, Filter(keep, s));
  }
}
