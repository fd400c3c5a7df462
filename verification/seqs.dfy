/** The LINQ and List operations the carving core relies on, over Dafny sequences. */
module Seqs {

  /** `Enumerable.Min` on a non-empty list of integers. */
  function Min(s: seq<int>): (m: int)
    requires |s| > 0
    ensures m in s
    ensures forall k :: 0 <= k < |s| ==> m <= s[k]
  {
    if |s| == 1 then s[0]
    else
      var rest := Min(s[1..]);
      if s[0] <= rest then s[0] else rest
  }

  /** `Enumerable.Max` on a non-empty list of integers. */
  function Max(s: seq<int>): (m: int)
    requires |s| > 0
    ensures m in s
    ensures forall k :: 0 <= k < |s| ==> s[k] <= m
  {
    if |s| == 1 then s[0]
    else
      var rest := Max(s[1..]);
      if s[0] >= rest then s[0] else rest
  }

  /** `List.IndexOf`: the first position holding `v`, or -1. */
  function IndexOf(s: seq<int>, v: int): (k: int)
    ensures v !in s ==> k == -1
    ensures v in s ==> 0 <= k < |s| && s[k] == v && forall j :: 0 <= j < k ==> s[j] != v
  {
    if |s| == 0 then -1
    else if s[0] == v then 0
    else
      var k := IndexOf(s[1..], v);
      if k < 0 then -1 else k + 1
  }

  /** `a` is `b` with some elements left out and the rest kept in order. */
  ghost predicate IsSubsequence<T>(a: seq<T>, b: seq<T>)
    decreases |b|
  {
    if |a| == 0 then true
    else if |b| == 0 then false
    else (a[0] == b[0] && IsSubsequence(a[1..], b[1..])) || IsSubsequence(a, b[1..])
  }

  lemma {:induction false} SubsequenceShorter<T>(a: seq<T>, b: seq<T>)
    requires IsSubsequence(a, b)
    ensures |a| <= |b|
    decreases |b|
  {
    if |a| > 0 {
      if a[0] == b[0] && IsSubsequence(a[1..], b[1..]) {
        SubsequenceShorter(a[1..], b[1..]);
      } else {
        SubsequenceShorter(a, b[1..]);
      }
    }
  }

  lemma {:induction false} SubsequenceMembers<T>(a: seq<T>, b: seq<T>)
    requires IsSubsequence(a, b)
    ensures forall x :: x in a ==> x in b
    decreases |b|
  {
    if |a| > 0 {
      assert a == [a[0]] + a[1..] && b == [b[0]] + b[1..];
      if a[0] == b[0] && IsSubsequence(a[1..], b[1..]) {
        SubsequenceMembers(a[1..], b[1..]);
      } else {
        SubsequenceMembers(a, b[1..]);
      }
    }
  }

  /** Keeping elements is transitive: a subsequence of a subsequence of `c` is one of `c`. */
  lemma {:induction false} SubsequenceTransitive<T>(a: seq<T>, b: seq<T>, c: seq<T>)
    requires IsSubsequence(a, b) && IsSubsequence(b, c)
    ensures IsSubsequence(a, c)
    decreases |c|
  {
    if |a| > 0 {
      assert |b| > 0 && |c| > 0;
      if b[0] == c[0] && IsSubsequence(b[1..], c[1..]) {
        if a[0] == b[0] && IsSubsequence(a[1..], b[1..]) {
          SubsequenceTransitive(a[1..], b[1..], c[1..]);
        } else {
          SubsequenceTransitive(a, b[1..], c[1..]);
        }
      } else {
        SubsequenceTransitive(a, b, c[1..]);
      }
    }
  }

  lemma {:induction false} SubsequenceReflexive<T>(a: seq<T>)
    ensures IsSubsequence(a, a)
  {
    if |a| > 0 {
      SubsequenceReflexive(a[1..]);
    }
  }

  /** The list a `foreach` loop builds by appending the elements that pass `keep`. */
  function Filter<T(!new)>(s: seq<T>, keep: T -> bool): (r: seq<T>)
    ensures forall x :: multiset(r)[x] == if keep(x) then multiset(s)[x] else 0
    ensures forall x :: x in r <==> x in s && keep(x)
    ensures IsSubsequence(r, s)
  {
    if |s| == 0 then []
    else
      var rest := Filter(s[1..], keep);
      assert s == [s[0]] + s[1..];
      if keep(s[0]) then [s[0]] + rest else rest
  }

  /** A subsequence holds no element more often than the sequence it is taken from. */
  lemma {:induction false} SubsequenceMultiset<T>(a: seq<T>, b: seq<T>)
    requires IsSubsequence(a, b)
    ensures multiset(a) <= multiset(b)
    decreases |b|
  {
    if |a| > 0 {
      assert b == [b[0]] + b[1..];
      if a[0] == b[0] && IsSubsequence(a[1..], b[1..]) {
        assert a == [a[0]] + a[1..];
        SubsequenceMultiset(a[1..], b[1..]);
      } else {
        SubsequenceMultiset(a, b[1..]);
      }
    }
  }

  /** `a` holds every copy of the elements of `s` that pass `keep`, and no other element. */
  ghost predicate CountsBy<T(!new)>(a: seq<T>, s: seq<T>, keep: T -> bool) {
    forall x :: multiset(a)[x] == if keep(x) then multiset(s)[x] else 0
  }

  lemma {:induction false} ByCountsKept<T(!new)>(a: seq<T>, h: T, t: seq<T>, keep: T -> bool)
    requires IsSubsequence(a, [h] + t) && CountsBy(a, [h] + t, keep) && keep(h)
    ensures a == Filter([h] + t, keep)
    decreases |t| + 1, 0
  {
    var s := [h] + t;
    assert s[1..] == t;
    assert multiset(a)[h] == multiset(t)[h] + 1;
    if !(|a| > 0 && a[0] == h && IsSubsequence(a[1..], t)) {
      SubsequenceMultiset(a, t);
      assert false;
    }
    assert a == [h] + a[1..];
    assert CountsBy(a[1..], t, keep);
    SubsequenceByCounts(a[1..], t, keep);
  }

  lemma {:induction false} ByCountsDropped<T(!new)>(a: seq<T>, h: T, t: seq<T>, keep: T -> bool)
    requires IsSubsequence(a, [h] + t) && CountsBy(a, [h] + t, keep) && !keep(h)
    ensures a == Filter([h] + t, keep)
    decreases |t| + 1, 0
  {
    var s := [h] + t;
    assert s[1..] == t;
    assert multiset(a)[h] == 0;
    if |a| > 0 {
      assert a == [a[0]] + a[1..];
      assert a[0] != h;
    }
    SubsequenceByCounts(a, t, keep);
  }

  /** An order-preserving subsequence that holds every copy of the elements
      passing `keep` and nothing else is the filter of the sequence by `keep`. */
  lemma {:induction false} SubsequenceByCounts<T(!new)>(a: seq<T>, s: seq<T>, keep: T -> bool)
    requires IsSubsequence(a, s) && CountsBy(a, s, keep)
    ensures a == Filter(s, keep)
    decreases |s|, 1
  {
    if |s| == 0 {
      SubsequenceShorter(a, s);
    } else {
      assert s == [s[0]] + s[1..];
      if keep(s[0]) {
        ByCountsKept(a, s[0], s[1..], keep);
      } else {
        ByCountsDropped(a, s[0], s[1..], keep);
      }
    }
  }

  /** No element appears twice. */
  ghost predicate NoDuplicates<T>(s: seq<T>) {
    forall i, j :: 0 <= i < j < |s| ==> s[i] != s[j]
  }

  /** Appending a new element keeps a list free of repeats. */
  lemma AppendFresh<T>(s: seq<T>, x: T)
    requires NoDuplicates(s) && x !in s
    ensures NoDuplicates(s + [x])
  {
    forall i, j | 0 <= i < j < |s| + 1 ensures (s + [x])[i] != (s + [x])[j] {
      if j == |s| {
        assert (s + [x])[i] == s[i];
      }
    }
  }

  /** A list without repeats has as many distinct elements as it is long. */
  lemma {:induction false} DistinctCardinality<T>(s: seq<T>)
    requires NoDuplicates(s)
    ensures |set x | x in s| == |s|
  {
    if |s| > 0 {
      DistinctCardinality(s[1..]);
      assert (set x | x in s) == {s[0]} + (set x | x in s[1..]);
      assert s[0] !in s[1..];
    }
  }
}
