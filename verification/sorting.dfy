/**
 Python's stable sort: `before(a, b)` says that the key of `a` is smaller. What is
 proved of it once serves every list that is sorted.
 */
module Sorting {

  /** Keys are compared by a strict order; different elements may have the same key. */
  ghost predicate StrictOrder<T(!new)>(before: (T, T) -> bool) {
    && (forall x, y :: before(x, y) ==> !before(y, x))
    && forall x, y, z :: !before(x, y) && !before(y, z) ==> !before(x, z)
  }

  ghost predicate Ordered<T>(s: seq<T>, before: (T, T) -> bool) {
    forall i, j :: 0 <= i < j < |s| ==> !before(s[j], s[i])
  }

  /** Insertion behind every element the new one is not before. */
  function InsertBy<T>(x: T, s: seq<T>, before: (T, T) -> bool): seq<T> {
    if s == [] || !before(x, s[|s| - 1]) then s + [x] else InsertBy(x, s[..|s| - 1], before) + [s[|s| - 1]]
  }

  function SortBy<T>(s: seq<T>, before: (T, T) -> bool): seq<T> {
    if s == [] then [] else InsertBy(s[|s| - 1], SortBy(s[..|s| - 1], before), before)
  }

  lemma {:induction false} InsertByContents<T>(x: T, s: seq<T>, before: (T, T) -> bool)
    ensures |InsertBy(x, s, before)| == |s| + 1
    ensures multiset(InsertBy(x, s, before)) == multiset(s) + multiset{x}
  {
    if s != [] && before(x, s[|s| - 1]) {
      InsertByContents(x, s[..|s| - 1], before);
      assert s == s[..|s| - 1] + [s[|s| - 1]];
    }
  }

  /** Sorting rearranges. */
  lemma {:induction false} SortByContents<T>(s: seq<T>, before: (T, T) -> bool)
    ensures |SortBy(s, before)| == |s|
    ensures multiset(SortBy(s, before)) == multiset(s)
  {
    if s != [] {
      var front, last := s[..|s| - 1], s[|s| - 1];
      SortByContents(front, before);
      InsertByContents(last, SortBy(front, before), before);
      assert s == front + [last];
    }
  }

  /** The place where insertion puts the new element. */
  lemma {:induction false} InsertByPlace<T(!new)>(x: T, s: seq<T>, before: (T, T) -> bool) returns (p: nat)
    requires StrictOrder(before) && Ordered(s, before)
    ensures p <= |s| && InsertBy(x, s, before) == s[..p] + [x] + s[p..]
    ensures forall i :: 0 <= i < p ==> !before(x, s[i])
    ensures forall i :: p <= i < |s| ==> before(x, s[i])
  {
    if s == [] || !before(x, s[|s| - 1]) {
      p := |s|;
      forall i | 0 <= i < p ensures !before(x, s[i]) {
        assert i < |s| - 1 ==> !before(s[|s| - 1], s[i]);
      }
    } else {
      var front, last := s[..|s| - 1], s[|s| - 1];
      p := InsertByPlace(x, front, before);
      assert s[p..] == front[p..] + [last];
    }
  }

  /** `ks` lists where the elements of the sorted list stood: by key, and by place where keys are the same. */
  ghost predicate Arranges<T>(ks: seq<nat>, s: seq<T>, sorted: seq<T>, before: (T, T) -> bool) {
    && |ks| == |s| == |sorted|
    && (forall a :: 0 <= a < |ks| ==> ks[a] < |s| && sorted[a] == s[ks[a]])
    && (forall k :: 0 <= k < |s| ==> k in ks)
    && forall a, b :: 0 <= a < b < |ks| ==> Earlier(s, ks[a], ks[b], before)
  }

  /** Position `i` sorts before position `j`. */
  ghost predicate Earlier<T>(s: seq<T>, i: nat, j: nat, before: (T, T) -> bool) {
    i < |s| && j < |s| && (before(s[i], s[j]) || (!before(s[j], s[i]) && i < j))
  }

  /** Sorting is by key and stable. */
  lemma {:induction false} SortByIsStable<T(!new)>(s: seq<T>, before: (T, T) -> bool) returns (ks: seq<nat>)
    requires StrictOrder(before)
    ensures Arranges(ks, s, SortBy(s, before), before)
    ensures Ordered(SortBy(s, before), before)
  {
    if s == [] {
      ks := [];
    } else {
      var front, last := s[..|s| - 1], s[|s| - 1];
      var ms := SortByIsStable(front, before);
      var p := InsertByPlace(last, SortBy(front, before), before);
      ks := ms[..p] + [|s| - 1] + ms[p..];
      PlacedLast(s, SortBy(front, before), ms, p, ks, before);
      ArrangedIsOrdered(ks, s, SortBy(s, before), before);
    }
  }

  lemma PlacedLast<T(!new)>(s: seq<T>, sorted: seq<T>, ms: seq<nat>, p: nat, ks: seq<nat>, before: (T, T) -> bool)
    requires StrictOrder(before) && s != [] && Arranges(ms, s[..|s| - 1], sorted, before) && p <= |sorted|
    requires ks == ms[..p] + [|s| - 1] + ms[p..]
    requires forall i :: 0 <= i < p ==> !before(s[|s| - 1], sorted[i])
    requires forall i :: p <= i < |sorted| ==> before(s[|s| - 1], sorted[i])
    ensures Arranges(ks, s, sorted[..p] + [s[|s| - 1]] + sorted[p..], before)
  {
    var front, n := s[..|s| - 1], |s| - 1;
    assert forall a :: 0 <= a < |ms| ==> sorted[a] == front[ms[a]] == s[ms[a]];
    forall k | 0 <= k < |s| ensures k in ks {
      PlacesKept(ms, n, p, k);
    }
    forall a, b | 0 <= a < b < |ks| ensures Earlier(s, ks[a], ks[b], before) {
      if a == p {
        assert ks[b] == ms[b - 1];
      } else if b == p {
        assert ks[a] == ms[a];
      } else {
        var a', b' := if a < p then a else a - 1, if b < p then b else b - 1;
        assert ks[a] == ms[a'] && ks[b] == ms[b'];
        assert Earlier(front, ms[a'], ms[b'], before);
      }
    }
  }

  lemma PlacesKept(ms: seq<nat>, n: nat, p: nat, k: nat)
    requires p <= |ms| && (k in ms || k == n)
    ensures k in ms[..p] + [n] + ms[p..]
  {
    assert ms == ms[..p] + ms[p..];
  }

  lemma ArrangedIsOrdered<T(!new)>(ks: seq<nat>, s: seq<T>, sorted: seq<T>, before: (T, T) -> bool)
    requires StrictOrder(before) && Arranges(ks, s, sorted, before)
    ensures Ordered(sorted, before)
  {
    forall a, b | 0 <= a < b < |sorted| ensures !before(sorted[b], sorted[a]) {
      assert Earlier(s, ks[a], ks[b], before);
    }
  }
}
