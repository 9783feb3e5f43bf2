/**
 * The JavaScript array builtins the dashboards are written with
 * (`filter`, `find`, `findIndex`, `some`, `map`), as functions on sequences,
 * with the facts about them that the rest of the model relies on.
 */
module Seqs {
  import opened Wrappers

  /** `a` is `b` with some elements dropped and the rest kept in their order. */
  ghost predicate IsSubsequence<T>(a: seq<T>, b: seq<T>)
  {
    if a == [] then true
    else if b == [] then false
    else if a[0] == b[0] then IsSubsequence(a[1..], b[1..])
    else IsSubsequence(a, b[1..])
  }

  /** `s.filter(p)`: the elements of `s` that satisfy `p`, in their order in `s`. */
  function Filter<T>(s: seq<T>, p: T -> bool): (r: seq<T>)
    ensures |r| <= |s|
    ensures forall j :: 0 <= j < |r| ==> r[j] in s && p(r[j])
    ensures forall j :: 0 <= j < |s| && p(s[j]) ==> s[j] in r
  {
    if s == [] then [] else (if p(s[0]) then [s[0]] else []) + Filter(s[1..], p)
  }

  /** `s.filter(p).length`: none of `s` satisfies `p` exactly when it is zero, all of `s` exactly when it is `|s|`. */
  function Count<T>(s: seq<T>, p: T -> bool): (n: nat)
    ensures n <= |s|
    ensures n == 0 <==> forall j :: 0 <= j < |s| ==> !p(s[j])
    ensures n == |s| <==> forall j :: 0 <= j < |s| ==> p(s[j])
  {
    var r := Filter(s, p);
    assert r != [] ==> r[0] in s;
    FilterKeepsAllIff(s, p);
    |r|
  }

  /** The filter is as long as its input exactly when every element passes. */
  lemma {:induction false} FilterKeepsAllIff<T>(s: seq<T>, p: T -> bool)
    ensures |Filter(s, p)| == |s| <==> forall j :: 0 <= j < |s| ==> p(s[j])
  {
    if s != [] {
      FilterKeepsAllIff(s[1..], p);
      if forall j :: 0 <= j < |s| ==> p(s[j]) {
        assert forall j :: 0 <= j < |s[1..]| ==> p(s[1..][j]) by {
          forall j | 0 <= j < |s[1..]| ensures p(s[1..][j]) {
            assert s[1..][j] == s[j + 1];
          }
        }
      }
      if |Filter(s, p)| == |s| {
        assert p(s[0]);
        assert forall j :: 1 <= j < |s| ==> p(s[j]) by {
          forall j | 1 <= j < |s| ensures p(s[j]) {
            assert s[j] == s[1..][j - 1];
          }
        }
      }
    }
  }

  /** `s.findIndex(p)`: the first index whose element satisfies `p`, or -1. */
  function FindIndex<T>(s: seq<T>, p: T -> bool): (i: int)
    ensures -1 <= i < |s|
    ensures 0 <= i ==> p(s[i]) && forall j :: 0 <= j < i ==> !p(s[j])
    ensures i == -1 <==> forall j :: 0 <= j < |s| ==> !p(s[j])
  {
    if s == [] then -1
    else if p(s[0]) then 0
    else
      var k := FindIndex(s[1..], p);
      if k < 0 then -1 else k + 1
  }

  /** `s.find(p)`: the first element that satisfies `p`, if any. */
  function Find<T>(s: seq<T>, p: T -> bool): (r: Option<T>)
    ensures r.None? <==> forall j :: 0 <= j < |s| ==> !p(s[j])
    ensures r.Some? ==> p(r.value) && r.value in s
    ensures r.Some? ==> exists i :: 0 <= i < |s| && s[i] == r.value && forall j :: 0 <= j < i ==> !p(s[j])
  {
    var i := FindIndex(s, p);
    if i < 0 then None else Some(s[i])
  }

  /** `s.some(p)`. */
  function Exists<T>(s: seq<T>, p: T -> bool): (b: bool)
    ensures b <==> exists i :: 0 <= i < |s| && p(s[i])
  {
    FindIndex(s, p) >= 0
  }

  /** `s.map(f)`. */
  function Map<T, U>(s: seq<T>, f: T -> U): (r: seq<U>)
    ensures |r| == |s| && forall i :: 0 <= i < |s| ==> r[i] == f(s[i])
  {
    seq(|s|, i requires 0 <= i < |s| => f(s[i]))
  }

  /** Filtering distributes over concatenation: appending to a collection appends to every filtered view of it. */
  lemma {:induction false} FilterConcat<T>(a: seq<T>, b: seq<T>, p: T -> bool)
    ensures Filter(a + b, p) == Filter(a, p) + Filter(b, p)
  {
    if a == [] {
      assert a + b == b;
    } else {
      assert (a + b)[1..] == a[1..] + b;
      FilterConcat(a[1..], b, p);
    }
  }

  /** The filtered view keeps order: it is a subsequence of what it filters. */
  lemma {:induction false} FilterIsSubsequence<T>(s: seq<T>, p: T -> bool)
    ensures IsSubsequence(Filter(s, p), s)
  {
    if s != [] {
      FilterIsSubsequence(s[1..], p);
      if p(s[0]) {
        assert Filter(s, p) == [s[0]] + Filter(s[1..], p);
      } else {
        assert Filter(s, p) == Filter(s[1..], p);
        DropHeadSubsequence(Filter(s[1..], p), s);
      }
    }
  }

  /** A subsequence of the tail of `b` is a subsequence of `b`. */
  lemma {:induction false} DropHeadSubsequence<T>(a: seq<T>, b: seq<T>)
    requires b != [] && IsSubsequence(a, b[1..])
    ensures IsSubsequence(a, b)
    decreases |b|, 0
  {
    if a != [] && a[0] == b[0] {
      SubsequenceTail(a, b[1..]);
    }
  }

  /** Dropping the first element of a subsequence keeps it a subsequence. */
  lemma {:induction false} SubsequenceTail<T>(a: seq<T>, b: seq<T>)
    requires a != [] && IsSubsequence(a, b)
    ensures IsSubsequence(a[1..], b)
    decreases |b|, 1
  {
    if a[0] != b[0] {
      SubsequenceTail(a, b[1..]);
    }
    DropHeadSubsequence(a[1..], b);
  }

  /** When every element satisfies `p` the filter keeps everything. */
  lemma {:induction false} FilterAll<T>(s: seq<T>, p: T -> bool)
    requires forall j :: 0 <= j < |s| ==> p(s[j])
    ensures Filter(s, p) == s
  {
    if s != [] {
      FilterAll(s[1..], p);
    }
  }

  /** Two predicates that agree on every element of `s` filter it alike. */
  lemma {:induction false} FilterCongruent<T>(s: seq<T>, p: T -> bool, q: T -> bool)
    requires forall j :: 0 <= j < |s| ==> p(s[j]) == q(s[j])
    ensures Filter(s, p) == Filter(s, q)
  {
    if s != [] {
      FilterCongruent(s[1..], p, q);
    }
  }

  /** Two equally long sequences on which `p` holds at the same positions have the same first match. */
  lemma {:induction false} FindIndexAgrees<T>(s1: seq<T>, s2: seq<T>, p: T -> bool)
    requires |s1| == |s2|
    requires forall j :: 0 <= j < |s1| ==> p(s1[j]) == p(s2[j])
    ensures FindIndex(s1, p) == FindIndex(s2, p)
  {
    if s1 != [] {
      FindIndexAgrees(s1[1..], s2[1..], p);
    }
  }

  /** Appending an element that does not match leaves the first match where it was. */
  lemma {:induction false} FindIndexAppendMiss<T>(s: seq<T>, x: T, p: T -> bool)
    requires !p(x)
    ensures FindIndex(s + [x], p) == FindIndex(s, p)
  {
    if s != [] {
      assert (s + [x])[1..] == s[1..] + [x];
      FindIndexAppendMiss(s[1..], x, p);
    }
  }

  /** Filtering keeps every occurrence of a kept value and none of a dropped one, so the filtered view's
      length is the number of elements that pass. */
  lemma {:induction false} FilterMultiset<T>(s: seq<T>, p: T -> bool)
    ensures forall x :: multiset(Filter(s, p))[x] == if p(x) then multiset(s)[x] else 0
  {
    if s != [] {
      FilterMultiset(s[1..], p);
      assert s == [s[0]] + s[1..];
    }
  }

  /** Replacing one element moves the count by what the old element and the new one contribute. */
  lemma {:induction false} CountUpdate<T>(s: seq<T>, i: nat, x: T, p: T -> bool)
    requires i < |s|
    ensures Count(s[i := x], p) + (if p(s[i]) then 1 else 0) == Count(s, p) + (if p(x) then 1 else 0)
  {
    if i == 0 {
      assert s[i := x][1..] == s[1..];
    } else {
      assert s[i := x][1..] == s[1..][i - 1 := x];
      CountUpdate(s[1..], i - 1, x, p);
    }
  }
}
