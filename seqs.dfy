/**
 * Sequence helpers for ordered querysets: filtering that keeps order,
 * the subsequence relation, duplicate-freedom and SQL `DISTINCT`.
 * Every recursive definition peels the LAST element, so that a queryset
 * built row by row and its filtered or de-duplicated form line up.
 */
module Seqs {

  /** `a` is `b` with some elements left out, order kept. */
  predicate IsSubsequence<T(==)>(a: seq<T>, b: seq<T>)
    decreases |b|
  {
    if a == [] then true
    else if b == [] then false
    else if a[|a| - 1] == b[|b| - 1] then IsSubsequence(a[..|a| - 1], b[..|b| - 1])
    else IsSubsequence(a, b[..|b| - 1])
  }

  /** Some element of a non-empty set. */
  lemma SomeElement<T>(s: set<T>) returns (x: T)
    requires s != {}
    ensures x in s
  {
    x :| x in s;
  }

  /** Every sequence is a subsequence of itself. */
  lemma {:induction false} SubsequenceReflexive<T>(a: seq<T>)
    ensures IsSubsequence(a, a)
    decreases |a|
  {
    if a != [] {
      SubsequenceReflexive(a[..|a| - 1]);
    }
  }

  /** Dropping the last element of a subsequence keeps it a subsequence. */
  lemma {:induction false} SubsequenceDropLast<T>(a: seq<T>, b: seq<T>)
    requires a != [] && IsSubsequence(a, b)
    ensures IsSubsequence(a[..|a| - 1], b)
    decreases |b|, 0
  {
    var b' := b[..|b| - 1];
    assert b == b' + [b[|b| - 1]];
    if a[|a| - 1] == b[|b| - 1] {
      SubsequenceExtend(a[..|a| - 1], b', b[|b| - 1]);
    } else {
      SubsequenceDropLast(a, b');
      SubsequenceExtend(a[..|a| - 1], b', b[|b| - 1]);
    }
  }

  /** A subsequence of `b` is a subsequence of `b` with one more element at the end. */
  lemma {:induction false} SubsequenceExtend<T>(a: seq<T>, b: seq<T>, x: T)
    requires IsSubsequence(a, b)
    ensures IsSubsequence(a, b + [x])
    decreases |b|, 1
  {
    assert (b + [x])[..|b|] == b;
    if a != [] && a[|a| - 1] == x {
      SubsequenceDropLast(a, b);
    }
  }

  /** Being a subsequence is transitive. */
  lemma {:induction false} SubsequenceTransitive<T>(a: seq<T>, b: seq<T>, c: seq<T>)
    requires IsSubsequence(a, b) && IsSubsequence(b, c)
    ensures IsSubsequence(a, c)
    decreases |c|
  {
    if a != [] {
      var c' := c[..|c| - 1];
      assert c == c' + [c[|c| - 1]];
      if b[|b| - 1] == c[|c| - 1] {
        if a[|a| - 1] == b[|b| - 1] {
          SubsequenceTransitive(a[..|a| - 1], b[..|b| - 1], c');
        } else {
          SubsequenceTransitive(a, b[..|b| - 1], c');
          SubsequenceExtend(a, c', c[|c| - 1]);
        }
      } else {
        SubsequenceTransitive(a, b, c');
        SubsequenceExtend(a, c', c[|c| - 1]);
      }
    }
  }

  /** No element occurs twice. */
  predicate NoDuplicates<T(==)>(s: seq<T>) {
    forall i, j :: 0 <= i < j < |s| ==> s[i] != s[j]
  }

  /** The elements of `s` that satisfy `keep`, in their order in `s` (a queryset `.filter`). */
  function Filter<T(==)>(s: seq<T>, keep: T -> bool): (r: seq<T>)
    ensures |r| <= |s|
    ensures forall i :: 0 <= i < |r| ==> keep(r[i]) && r[i] in s
    ensures forall x :: x in s && keep(x) ==> x in r
    decreases |s|
  {
    if s == [] then []
    else
      var init := Filter(s[..|s| - 1], keep);
      var last := s[|s| - 1];
      assert s == s[..|s| - 1] + [last];
      if keep(last) then init + [last] else init
  }

  /** Filtering keeps the order of the queryset. */
  lemma {:induction false} FilterIsSubsequence<T>(s: seq<T>, keep: T -> bool)
    ensures IsSubsequence(Filter(s, keep), s)
    decreases |s|
  {
    if s != [] {
      var init := Filter(s[..|s| - 1], keep);
      var last := s[|s| - 1];
      FilterIsSubsequence(s[..|s| - 1], keep);
      if keep(last) {
        assert (init + [last])[..|init|] == init;
      } else {
        assert init != [] ==> keep(init[|init| - 1]);
      }
    }
  }

  /** Filtering a duplicate-free queryset gives a duplicate-free queryset. */
  lemma {:induction false} FilterNoDuplicates<T>(s: seq<T>, keep: T -> bool)
    ensures NoDuplicates(s) ==> NoDuplicates(Filter(s, keep))
    decreases |s|
  {
    if s != [] && NoDuplicates(s) {
      var init := Filter(s[..|s| - 1], keep);
      var last := s[|s| - 1];
      assert NoDuplicates(s[..|s| - 1]);
      FilterNoDuplicates(s[..|s| - 1], keep);
      assert last !in s[..|s| - 1];
      assert last !in init;
    }
  }

  /** `k` copies of `x`. */
  function Repeat<T>(x: T, k: nat): (r: seq<T>)
    ensures |r| == k
    ensures forall i :: 0 <= i < k ==> r[i] == x
  {
    if k == 0 then [] else Repeat(x, k - 1) + [x]
  }

  /** SQL `DISTINCT`: every element once, at its first occurrence. */
  function Dedup<T(==)>(s: seq<T>): (r: seq<T>)
    ensures NoDuplicates(r)
    ensures forall x :: x in r ==> x in s
    ensures forall x :: x in s ==> x in r
    decreases |s|
  {
    if s == [] then []
    else
      var init := Dedup(s[..|s| - 1]);
      var last := s[|s| - 1];
      assert s == s[..|s| - 1] + [last];
      if last in init then init else init + [last]
  }

  /** Appending one element to a sequence appends it to the de-duplicated sequence exactly when it is new. */
  lemma DedupSnoc<T>(s: seq<T>, x: T)
    ensures Dedup(s + [x]) == if x in s then Dedup(s) else Dedup(s) + [x]
  {
    assert (s + [x])[..|s + [x]| - 1] == s;
  }

  /** Appending copies of `x` adds `x` to the de-duplicated sequence exactly when it is new. */
  lemma {:induction false} DedupRepeat<T>(s: seq<T>, x: T, k: nat)
    ensures Dedup(s + Repeat(x, k)) == if k == 0 || x in s then Dedup(s) else Dedup(s) + [x]
    decreases k
  {
    if k == 0 {
      assert s + Repeat(x, 0) == s;
    } else if k == 1 {
      assert s + Repeat(x, 1) == s + [x];
      DedupSnoc(s, x);
    } else {
      var y := s + Repeat(x, k - 1);
      assert s + Repeat(x, k) == y + [x] by {
        assert Repeat(x, k) == Repeat(x, k - 1) + [x];
      }
      assert x in y by {
        assert y[|s|] == x;
      }
      DedupRepeat(s, x, k - 1);
      DedupSnoc(y, x);
    }
  }

  /** The first `n` elements (a queryset slice `[:n]`). */
  function Take<T>(s: seq<T>, n: nat): (r: seq<T>)
    ensures |r| == if |s| < n then |s| else n
    ensures r == s[..|r|]
  {
    if |s| <= n then s else s[..n]
  }
}
