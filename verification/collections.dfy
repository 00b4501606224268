/** Extensionality of the built-in collections, stated once for every element type. */
module Collections {

  /** A key on which two maps differ, if they do. */
  lemma MapsDiffer<K, V>(t: map<K, V>, u: map<K, V>, default: K) returns (k: K)
    ensures t == u || (k in t && (k !in u || t[k] != u[k])) || (k !in t && k in u)
  {
    if j :| (j in t && (j !in u || t[j] != u[j])) || (j !in t && j in u) {
      k := j;
    } else {
      assert t.Keys == u.Keys;
      k := default;
    }
  }

  lemma Pick<T>(s: set<T>, default: T) returns (x: T)
    ensures s == {} || x in s
  {
    if y :| y in s {
      x := y;
    } else {
      assert s == {};
      x := default;
    }
  }

  lemma DropDrop<T>(s: seq<T>, a: nat, b: nat)
    requires a <= b <= |s|
    ensures s[a..][b - a..] == s[b..]
  {
  }

  /** The list without position `k`. */
  function Removed<T>(s: seq<T>, k: nat): seq<T>
    requires k < |s|
  {
    s[..k] + s[k + 1..]
  }

  lemma TakeOut<T>(s: seq<T>, k: nat)
    requires k < |s|
    ensures multiset(Removed(s, k)) + multiset{s[k]} == multiset(s)
  {
    assert s == s[..k] + [s[k]] + s[k + 1..];
  }

  /** Rearrangements of each other stay so when the same element is taken out of both. */
  lemma RestsMatch<T>(s: seq<T>, i: nat, t: seq<T>, k: nat)
    requires i < |s| && k < |t| && s[i] == t[k] && multiset(s) == multiset(t)
    ensures multiset(Removed(s, i)) == multiset(Removed(t, k))
  {
    TakeOut(s, i);
    TakeOut(t, k);
    var x, y, one := multiset(Removed(s, i)), multiset(Removed(t, k)), multiset{s[i]};
    assert x == x + one - one && y == y + one - one;
  }

  lemma FindEqual<T>(s: seq<T>, i: nat, t: seq<T>) returns (k: nat)
    requires i < |s| && multiset(s) == multiset(t)
    ensures k < |t| && t[k] == s[i]
  {
    assert s[i] in multiset(s);
    assert s[i] in t;
    k :| 0 <= k < |t| && t[k] == s[i];
  }

  // ---------- Positions where a condition holds ----------

  /** Positions below `n` at which `f` holds, in order. */
  function Positions(f: nat -> bool, n: nat): (ks: seq<nat>)
    ensures forall i :: 0 <= i < |ks| ==> ks[i] < n
  {
    if n == 0 then [] else Positions(f, n - 1) + if f(n - 1) then [n - 1] else []
  }

  /** Exactly the positions where `f` holds, each once, in order. */
  lemma {:induction false} PositionsExact(f: nat -> bool, n: nat)
    ensures var ks := Positions(f, n);
            && (forall i :: 0 <= i < |ks| ==> ks[i] < n && f(ks[i]))
            && (forall i, j :: 0 <= i < j < |ks| ==> ks[i] < ks[j])
            && (forall k: nat :: k < n && f(k) ==> k in ks)
  {
    if n > 0 {
      PositionsExact(f, n - 1);
    }
  }

  lemma PositionsStep(f: nat -> bool, j: nat)
    ensures Positions(f, j + 1) == if f(j) then Positions(f, j) + [j] else Positions(f, j)
  {
    assert Positions(f, j) + [] == Positions(f, j);
  }

  lemma {:induction false} NoPositions(f: nat -> bool, n: nat)
    requires forall k: nat :: k < n ==> !f(k)
    ensures Positions(f, n) == []
  {
    if n > 0 {
      NoPositions(f, n - 1);
    }
  }

  lemma {:induction false} PositionsSplit(f: nat -> bool, g: nat -> bool, h: nat -> bool, n: nat)
    requires forall k: nat :: k < n ==> (f(k) <==> g(k) || h(k)) && !(g(k) && h(k))
    ensures |Positions(f, n)| == |Positions(g, n)| + |Positions(h, n)|
  {
    if n > 0 {
      PositionsSplit(f, g, h, n - 1);
    }
  }

  // ---------- Filtering ----------

  /** The elements that satisfy `f`, in order. */
  function Filter<T>(s: seq<T>, f: T -> bool): (r: seq<T>) {
    if s == [] then [] else Filter(s[..|s| - 1], f) + if f(s[|s| - 1]) then [s[|s| - 1]] else []
  }

  lemma {:induction false} FilterSame<T>(s: seq<T>, f: T -> bool, g: T -> bool)
    requires forall x :: x in s ==> f(x) == g(x)
    ensures Filter(s, f) == Filter(s, g)
  {
    if s != [] {
      assert s[|s| - 1] in s;
      FilterSame(s[..|s| - 1], f, g);
    }
  }

  lemma {:induction false} FilterAll<T>(s: seq<T>, f: T -> bool)
    requires forall x :: x in s ==> f(x)
    ensures Filter(s, f) == s
  {
    if s != [] {
      assert s[|s| - 1] in s;
      FilterAll(s[..|s| - 1], f);
    }
  }

  lemma {:induction false} FilterNone<T>(s: seq<T>, f: T -> bool)
    requires forall x :: x in s ==> !f(x)
    ensures Filter(s, f) == []
  {
    if s != [] {
      assert s[|s| - 1] in s;
      FilterNone(s[..|s| - 1], f);
    }
  }

  lemma {:induction false} FilterMembers<T>(s: seq<T>, f: T -> bool)
    ensures forall x :: x in Filter(s, f) <==> x in s && f(x)
  {
    if s != [] {
      FilterMembers(s[..|s| - 1], f);
      assert s == s[..|s| - 1] + [s[|s| - 1]];
    }
  }

  lemma {:induction false} FilterTwice<T>(s: seq<T>, f: T -> bool, g: T -> bool, h: T -> bool)
    requires forall x :: x in s ==> h(x) == (f(x) && g(x))
    ensures Filter(Filter(s, f), g) == Filter(s, h)
  {
    if s != [] {
      var front, last := s[..|s| - 1], s[|s| - 1];
      assert last in s;
      FilterTwice(front, f, g, h);
      var r := Filter(front, f);
      assert (r + [last])[..|r|] == r;
      assert r + [] == r;
    }
  }

  lemma {:induction false} FilterCons<T>(x: T, s: seq<T>, f: T -> bool)
    ensures Filter([x] + s, f) == (if f(x) then [x] else []) + Filter(s, f)
  {
    if s == [] {
      assert [x] + s == [x];
      assert [x][..0] == [];
    } else {
      var front, last := s[..|s| - 1], s[|s| - 1];
      FilterCons(x, front, f);
      assert ([x] + s)[..|s|] == [x] + front;
      assert ([x] + s)[|s|] == last;
    }
  }
}
