/**
 Assembly of streamed tool calls: fragments are merged into a dictionary of
 entries, keyed by index, which is read out in index order at the end.
 */
module ToolCalls {
  import opened Collections
  import opened Text
  import opened Payloads

  datatype ToolCall = ToolCall(id: Option<string>, kind: string, name: string, arguments: string)

  /** What one raw call contributes to its entry. */
  datatype Delta = Delta(index: Option<int>, id: Option<string>, kind: Option<string>, name: string, arguments: string)

  type Table = map<int, ToolCall>

  const EMPTY_CALL := ToolCall(None, "function", "", "")

  // ---------- Reading a raw call ----------

  /** `_normalize_tool_call` with an empty default name. */
  function Normalized(host: Host, raw: Fields): Option<Fields> {
    var inner := SubObject(raw, "function");
    var name := Strip(TextOr(host, Get(inner, "name"), ""));
    var own := if Get(inner, "arguments") != Null then Get(inner, "arguments") else Get(raw, "arguments");
    var arguments := if own != Null then own else Get(raw, "input");
    if name == "" && arguments == Null && Get(raw, "id") == Null && Get(raw, "call_id") == Null && Get(raw, "index") == Null then None
    else Some(map["id" := Or(Get(raw, "id"), Get(raw, "call_id")),
                  "index" := Get(raw, "index"),
                  "type" := Str(TextOr(host, Get(raw, "type"), "function")),
                  "function" := Obj(map["name" := Str(name), "arguments" := if arguments != Null then arguments else Str("")])])
  }

  /** `if raw.get("id") ... elif raw.get("call_id")`. */
  function IdPart(host: Host, raw: Fields): Option<string> {
    if Truthy(Get(raw, "id")) then Some(StrOf(host, Get(raw, "id")))
    else if Truthy(Get(raw, "call_id")) then Some(StrOf(host, Get(raw, "call_id")))
    else None
  }

  function KindPart(host: Host, raw: Fields): Option<string> {
    if Truthy(Get(raw, "type")) then Some(StrOf(host, Get(raw, "type"))) else None
  }

  function NamePart(host: Host, raw: Fields): string {
    var inner := SubObject(raw, "function");
    TextOr(host, Or(Or(Or(Get(inner, "name"), Get(raw, "name")), Get(raw, "tool_name")), Get(raw, "function_name")), "")
  }

  function ArgumentsPart(raw: Fields): Json {
    var inner := SubObject(raw, "function");
    if Get(inner, "arguments") != Null then Get(inner, "arguments")
    else if Get(raw, "arguments") != Null then Get(raw, "arguments")
    else Get(raw, "input")
  }

  function DeltaOf(host: Host, raw: Fields): Delta {
    Delta(AsInt(host, Get(raw, "index")), IdPart(host, raw), KindPart(host, raw), NamePart(host, raw),
          if ArgumentsPart(raw) != Null then StrOf(host, ArgumentsPart(raw)) else "")
  }

  // ---------- Merging ----------

  /** The entry a fragment goes to: its index, or the number of entries when it has none. */
  function Target(table: Table, d: Delta): int {
    if d.index.Some? then d.index.value else |table|
  }

  function Extended(call: ToolCall, d: Delta): ToolCall {
    ToolCall(if d.id.Some? then d.id else call.id,
             if d.kind.Some? then d.kind.value else call.kind,
             call.name + d.name,
             call.arguments + d.arguments)
  }

  function Entry(table: Table, k: int): ToolCall {
    if k in table then table[k] else EMPTY_CALL
  }

  function Merged(table: Table, d: Delta): Table {
    table[Target(table, d) := Extended(Entry(table, Target(table, d)), d)]
  }

  function MergeAll(table: Table, ds: seq<Delta>): Table
    decreases ds
  {
    if ds == [] then table else MergeAll(Merged(table, ds[0]), ds[1..])
  }

  /** The dictionary of entries, updated in place while the stream is read. */
  class CallTable {
    var calls: Table

    constructor ()
      ensures calls == map[]
    {
      calls := map[];
    }

    method Merge(host: Host, raw: Fields)
      modifies this
      ensures calls == Merged(old(calls), DeltaOf(host, raw))
    {
      hide StrOf, Truthy, AsInt, IdPart, KindPart, NamePart, ArgumentsPart, Get;
      var parsed := AsInt(host, Get(raw, "index"));
      var index := if parsed.Some? then parsed.value else |calls|;
      var entry := if index in calls then calls[index] else EMPTY_CALL;
      var id := IdPart(host, raw);
      if id.Some? {
        entry := entry.(id := id);
      }
      var kind := KindPart(host, raw);
      if kind.Some? {
        entry := entry.(kind := kind.value);
      }
      entry := entry.(name := entry.name + NamePart(host, raw));
      var arguments := ArgumentsPart(raw);
      assert entry.arguments == entry.arguments + "";
      if arguments != Null {
        entry := entry.(arguments := entry.arguments + StrOf(host, arguments));
      }
      calls := calls[index := entry];
    }
  }

  lemma {:induction false} MergeAllAppend(table: Table, a: seq<Delta>, b: seq<Delta>)
    ensures MergeAll(table, a + b) == MergeAll(MergeAll(table, a), b)
    decreases a
  {
    if a == [] {
      assert a + b == b;
    } else {
      assert (a + b)[1..] == a[1..] + b;
      MergeAllAppend(Merged(table, a[0]), a[1..], b);
    }
  }

  lemma MergeAllSnoc(table: Table, a: seq<Delta>, d: Delta)
    ensures MergeAll(table, a + [d]) == Merged(MergeAll(table, a), d)
  {
    MergeAllAppend(table, a, [d]);
  }

  // ---------- Assembly is per-index concatenation ----------

  /** The fragments of entry `k`, in order. */
  function For(ds: seq<Delta>, k: int): seq<Delta> {
    if ds == [] then []
    else (if ds[0].index == Some(k) then [ds[0]] else []) + For(ds[1..], k)
  }

  function Names(ds: seq<Delta>): seq<string> {
    seq(|ds|, i requires 0 <= i < |ds| => ds[i].name)
  }

  function Arguments(ds: seq<Delta>): seq<string> {
    seq(|ds|, i requires 0 <= i < |ds| => ds[i].arguments)
  }

  /** The last id given, if any. */
  function LastId(ds: seq<Delta>): Option<string> {
    if ds == [] then None
    else if ds[|ds| - 1].id.Some? then ds[|ds| - 1].id else LastId(ds[..|ds| - 1])
  }

  function LastKind(ds: seq<Delta>): string {
    if ds == [] then "function"
    else if ds[|ds| - 1].kind.Some? then ds[|ds| - 1].kind.value else LastKind(ds[..|ds| - 1])
  }

  /** The specification of one entry: concatenated texts, last id, last kind. */
  function Assembled(ds: seq<Delta>): ToolCall {
    ToolCall(LastId(ds), LastKind(ds), Concat(Names(ds)), Concat(Arguments(ds)))
  }

  ghost predicate AllIndexed(ds: seq<Delta>) {
    forall i :: 0 <= i < |ds| ==> ds[i].index.Some?
  }

  lemma {:induction false} ForAppend(a: seq<Delta>, b: seq<Delta>, k: int)
    ensures For(a + b, k) == For(a, k) + For(b, k)
  {
    if a == [] {
      assert a + b == b;
    } else {
      assert (a + b)[1..] == a[1..] + b;
      ForAppend(a[1..], b, k);
    }
  }

  lemma AssembledSnoc(ds: seq<Delta>, d: Delta)
    ensures Assembled(ds + [d]) == Extended(Assembled(ds), d)
  {
    var all := ds + [d];
    assert all[..|all| - 1] == ds;
    assert Names(all) == Names(ds) + [d.name];
    assert Arguments(all) == Arguments(ds) + [d.arguments];
    ConcatSnoc(Names(ds), d.name);
    ConcatSnoc(Arguments(ds), d.arguments);
  }

  /** With explicit indexes, entry `k` exists exactly when some fragment names it, and is their concatenation. */
  lemma {:induction false} EntryIsConcatenation(ds: seq<Delta>, k: int)
    requires AllIndexed(ds)
    ensures k in MergeAll(map[], ds) <==> For(ds, k) != []
    ensures Entry(MergeAll(map[], ds), k) == Assembled(For(ds, k))
  {
    if ds != [] {
      var front, d := ds[..|ds| - 1], ds[|ds| - 1];
      assert ds == front + [d];
      EntryIsConcatenation(front, k);
      MergeAllSnoc(map[], front, d);
      ForAppend(front, [d], k);
      if d.index == Some(k) {
        assert For([d], k) == [d];
        AssembledSnoc(For(front, k), d);
      } else {
        assert For([d], k) == [];
        assert For(ds, k) == For(front, k);
      }
    }
  }

  /** Only the order of fragments within each entry matters: any two interleavings assemble the same table. */
  lemma InterleavingIrrelevant(ds: seq<Delta>, es: seq<Delta>)
    requires AllIndexed(ds) && AllIndexed(es)
    requires forall k :: For(ds, k) == For(es, k)
    ensures MergeAll(map[], ds) == MergeAll(map[], es)
  {
    var k := MapsDiffer(MergeAll(map[], ds), MergeAll(map[], es), 0);
    EntryIsConcatenation(ds, k);
    EntryIsConcatenation(es, k);
    assert For(ds, k) == For(es, k);
  }

  /** Swapping neighbours of different entries changes nothing, wherever they stand. */
  lemma SwapNeighbours(a: seq<Delta>, d: Delta, e: Delta, b: seq<Delta>)
    requires AllIndexed(a + [d, e] + b) && d.index != e.index
    ensures MergeAll(map[], a + [d, e] + b) == MergeAll(map[], a + [e, d] + b)
  {
    var ds, es := a + [d, e] + b, a + [e, d] + b;
    assert d == ds[|a|] && e == ds[|a| + 1];
    assert AllIndexed(es) by {
      assert forall i :: 0 <= i < |es| ==> es[i] == if i == |a| then e else if i == |a| + 1 then d else ds[i];
    }
    forall k ensures For(ds, k) == For(es, k) {
      ForAppend(a + [d, e], b, k);
      ForAppend(a, [d, e], k);
      ForAppend(a + [e, d], b, k);
      ForAppend(a, [e, d], k);
      ForPair(d, e, k);
      ForPair(e, d, k);
    }
    InterleavingIrrelevant(ds, es);
  }

  lemma ForPair(d: Delta, e: Delta, k: int)
    requires d.index != e.index
    ensures For([d, e], k) == if d.index == Some(k) then [d] else if e.index == Some(k) then [e] else []
  {
    assert [d, e][1..] == [e];
    assert For([e], k) == if e.index == Some(k) then [e] else [];
  }

  // ---------- Fragments without an index ----------

  /** The stream with every missing index replaced by the one the merger picks. */
  function Resolved(table: Table, ds: seq<Delta>): (rs: seq<Delta>)
    ensures |rs| == |ds|
    ensures forall i :: 0 <= i < |rs| ==> rs[i] == ds[i].(index := rs[i].index) && rs[i].index.Some?
    ensures forall i :: 0 <= i < |rs| && ds[i].index.Some? ==> rs[i] == ds[i]
    decreases ds
  {
    if ds == [] then []
    else [ds[0].(index := Some(Target(table, ds[0])))] + Resolved(Merged(table, ds[0]), ds[1..])
  }

  lemma {:induction false} ResolvedMergesAlike(table: Table, ds: seq<Delta>)
    ensures MergeAll(table, Resolved(table, ds)) == MergeAll(table, ds)
    decreases ds
  {
    if ds != [] {
      ResolvedMergesAlike(Merged(table, ds[0]), ds[1..]);
      assert Resolved(table, ds)[1..] == Resolved(Merged(table, ds[0]), ds[1..]);
    }
  }

  /** Every stream assembles to concatenations, entry by entry, of its fragments at their resolved indexes. */
  lemma AnyStreamIsConcatenation(ds: seq<Delta>, k: int)
    ensures k in MergeAll(map[], ds) <==> For(Resolved(map[], ds), k) != []
    ensures Entry(MergeAll(map[], ds), k) == Assembled(For(Resolved(map[], ds), k))
  {
    ResolvedMergesAlike(map[], ds);
    EntryIsConcatenation(Resolved(map[], ds), k);
  }

  /** The keys are exactly 0..n-1. */
  ghost predicate Contiguous(table: Table) {
    forall k :: k in table <==> 0 <= k < |table|
  }

  /** The index is missing or at most the number of entries so far. */
  ghost predicate Fits(table: Table, d: Delta) {
    d.index.Some? ==> 0 <= d.index.value <= |table|
  }

  lemma MergedSize(table: Table, d: Delta)
    ensures |Merged(table, d)| == if Target(table, d) in table then |table| else |table| + 1
  {
    var k := Target(table, d);
    var t := Merged(table, d);
    if k in table {
      assert t.Keys == table.Keys;
    } else {
      assert t.Keys == table.Keys + {k};
    }
  }

  /** A fragment keeps the keys contiguous exactly when it fits. */
  lemma ContiguousIff(table: Table, d: Delta)
    requires Contiguous(table)
    ensures Contiguous(Merged(table, d)) <==> Fits(table, d)
  {
    MergedSize(table, d);
    var k, t := Target(table, d), Merged(table, d);
    if !Fits(table, d) {
      assert k in t;
      assert k !in table;
      assert |table| !in t || k == |table|;
    }
  }

  /** Every fragment of the stream fits when it arrives. */
  ghost predicate AllFit(table: Table, ds: seq<Delta>)
    decreases ds
  {
    ds == [] || (Fits(table, ds[0]) && AllFit(Merged(table, ds[0]), ds[1..]))
  }

  /** Over a whole stream: the key set is 0..n-1 after every prefix exactly when every fragment fits. */
  lemma {:induction false} ContiguousThroughout(table: Table, ds: seq<Delta>)
    requires Contiguous(table)
    ensures AllFit(table, ds) <==> forall i :: 0 <= i <= |ds| ==> Contiguous(MergeAll(table, ds[..i]))
    decreases ds
  {
    if ds != [] {
      var t := Merged(table, ds[0]);
      ContiguousIff(table, ds[0]);
      forall i | 1 <= i <= |ds| ensures MergeAll(table, ds[..i]) == MergeAll(t, ds[1..][..i - 1]) {
        assert ds[..i][1..] == ds[1..][..i - 1];
      }
      if Fits(table, ds[0]) {
        ContiguousThroughout(t, ds[1..]);
        if forall i :: 0 <= i <= |ds| ==> Contiguous(MergeAll(table, ds[..i])) {
          forall i | 0 <= i <= |ds[1..]| ensures Contiguous(MergeAll(t, ds[1..][..i])) {
            assert Contiguous(MergeAll(table, ds[..i + 1]));
          }
        } else {
          var i :| 0 <= i <= |ds| && !Contiguous(MergeAll(table, ds[..i]));
          assert i > 0;
          assert !Contiguous(MergeAll(t, ds[1..][..i - 1]));
        }
      } else {
        assert ds[..1][1..] == [];
        assert MergeAll(table, ds[..1]) == t;
      }
    }
  }

  /** A fragment without an index opens a fresh entry exactly when the entry count is not a key; it always does in a contiguous table. */
  lemma UnindexedOpensFreshIff(table: Table, d: Delta)
    requires d.index.None?
    ensures (|Merged(table, d)| == |table| + 1 && Merged(table, d)[|table|] == Extended(EMPTY_CALL, d)) <==> |table| !in table
    ensures Contiguous(table) ==> |table| !in table
  {
    MergedSize(table, d);
  }

  /** An index beyond the entry count makes a later fragment without one run into it. */
  lemma UnindexedCanCollide()
    ensures var a := Delta(Some(1), None, None, "a", "");
            var b := Delta(None, None, None, "b", "");
            MergeAll(map[], [a, b]) == map[1 := ToolCall(None, "function", "ab", "")]
  {
    var a := Delta(Some(1), None, None, "a", "");
    var b := Delta(None, None, None, "b", "");
    assert [a, b][1..] == [b] && [b][1..] == [];
    var t := Merged(map[], a);
    assert "" + "a" == "a" && Extended(EMPTY_CALL, a) == ToolCall(None, "function", "a", "");
    assert t == map[1 := ToolCall(None, "function", "a", "")];
    assert t.Keys == {1} && |t| == 1;
    assert "a" + "b" == "ab";
    assert MergeAll(map[], [a, b]) == MergeAll(t, [b]) == MergeAll(Merged(t, b), []);
  }

  // ---------- Reading the table out ----------

  ghost predicate IsLeast(m: int, keys: set<int>) {
    m in keys && forall k :: k in keys ==> m <= k
  }

  lemma LeastExists(keys: set<int>) returns (m: int)
    requires keys != {}
    ensures IsLeast(m, keys)
    decreases |keys|
  {
    var x := Pick(keys, 0);
    var rest := keys - {x};
    assert keys == rest + {x};
    if rest == {} {
      m := x;
    } else {
      var least := LeastExists(rest);
      m := if least < x then least else x;
    }
  }

  function Least(keys: set<int>): (m: int)
    requires keys != {}
    ensures IsLeast(m, keys)
  {
    assert exists m :: m in keys && forall k :: k in keys ==> m <= k by {
      var m := LeastExists(keys);
    }
    var m :| m in keys && forall k :: k in keys ==> m <= k;
    m
  }

  /** The keys in increasing order, as `sorted` gives them. */
  function SortedKeys(keys: set<int>): (s: seq<int>)
    ensures |s| == |keys|
    decreases |keys|
  {
    if keys == {} then [] else [Least(keys)] + SortedKeys(keys - {Least(keys)})
  }

  ghost predicate Increasing(s: seq<int>) {
    forall i, j :: 0 <= i < j < |s| ==> s[i] < s[j]
  }

  lemma {:induction false} SortedKeysMeaning(keys: set<int>)
    ensures forall k :: k in SortedKeys(keys) <==> k in keys
    ensures Increasing(SortedKeys(keys))
    decreases |keys|
  {
    if keys != {} {
      var m, smaller := Least(keys), keys - {Least(keys)};
      assert keys == smaller + {m};
      SortedKeysMeaning(smaller);
      PrependLeast(m, SortedKeys(smaller), smaller, keys);
    }
  }

  lemma PrependLeast(m: int, rest: seq<int>, smaller: set<int>, keys: set<int>)
    requires IsLeast(m, keys) && smaller == keys - {m}
    requires Increasing(rest) && forall k :: k in rest <==> k in smaller
    ensures Increasing([m] + rest) && forall k :: k in [m] + rest <==> k in keys
  {
    var all := [m] + rest;
    forall i | 1 <= i < |all| ensures all[i] in rest && m < all[i] {
      assert all[i] == rest[i - 1] && all[i] in smaller;
    }
    assert all[0] == m;
    forall k ensures k in all <==> k in keys {
      if k in keys && k != m {
        assert k in rest;
      }
    }
  }

  /** The entries in index order. */
  function ReadOut(table: Table): (calls: seq<ToolCall>)
    ensures |calls| == |table|
  {
    var keys := SortedKeys(table.Keys);
    seq(|keys|, i requires 0 <= i < |keys| => Entry(table, keys[i]))
  }

  /** The calls come out in increasing index order, each index exactly once. */
  lemma ReadOutMeaning(table: Table)
    ensures var keys := SortedKeys(table.Keys);
            && |keys| == |ReadOut(table)| && Increasing(keys)
            && (forall k :: k in keys <==> k in table)
            && forall i :: 0 <= i < |keys| ==> keys[i] in table && ReadOut(table)[i] == table[keys[i]]
  {
    SortedKeysMeaning(table.Keys);
    var keys := SortedKeys(table.Keys);
    assert forall i :: 0 <= i < |keys| ==> keys[i] in keys;
  }

  /** When every fragment fits, entry i is the i-th call. */
  lemma ReadOutContiguous(table: Table, i: nat)
    requires Contiguous(table) && i < |table|
    ensures ReadOut(table)[i] == table[i]
  {
    SortedKeysMeaning(table.Keys);
    var keys := SortedKeys(table.Keys);
    assert keys[0] in keys && keys[|keys| - 1] in keys;
    AtLeast(keys, i);
    AtMost(keys, i);
  }

  lemma {:induction false} AtLeast(keys: seq<int>, i: nat)
    requires i < |keys| && Increasing(keys) && keys[0] >= 0
    ensures i <= keys[i]
  {
    if i > 0 {
      AtLeast(keys, i - 1);
      assert keys[i - 1] < keys[i];
    }
  }

  lemma {:induction false} AtMost(keys: seq<int>, i: nat)
    requires i < |keys| && Increasing(keys) && keys[|keys| - 1] < |keys|
    ensures keys[i] <= i
    decreases |keys| - i
  {
    if i + 1 < |keys| {
      AtMost(keys, i + 1);
      assert keys[i] < keys[i + 1];
    }
  }
}
