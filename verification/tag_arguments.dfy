/**
 What the calls lifted out of a text say: the name each was written with and, for
 every argument, its key and the value that its written text stands for.
 */
module TagArguments {
  import opened Text
  import opened Payloads
  import opened EmbeddedCalls
  import opened EmbeddedRoundTrip
  import opened TagRoundTrip
  import opened MixedPasses
  import opened MixedRoundTrip

  /** A call as its tag writes it: the arguments as pairs of texts. */
  datatype WrittenCall = WrittenCall(name: string, pairs: seq<(string, string)>)

  // ---------- What is written ----------

  function ArgTexts(args: seq<Arg>): seq<(string, string)> {
    if args == [] then [] else [(Strip(args[0].key), args[0].value)] + ArgTexts(args[1..])
  }

  /** A longcat block without a name is no call. */
  function BlockWrites(b: Block): seq<WrittenCall> {
    if Strip(b.head) == "" then [] else [WrittenCall(Strip(b.head), ArgTexts(b.args))]
  }

  /** Tools without a dot in the name are no calls, fields with one no arguments. */
  function ToolsWrite(ts: seq<Tool>): seq<WrittenCall> {
    if ts == [] then [] else (if '.' in ts[0].name then [WrittenCall(ts[0].name, ArgumentFields(ts[0].fields))] else []) + ToolsWrite(ts[1..])
  }

  function SingleWrites(item: Item): seq<WrittenCall>
    requires item.Single?
  {
    if '.' in item.name then [WrittenCall(item.name, AttrPairs(item.attrs))] else []
  }

  /** The calls that pass `stage` takes out, in the order of the text. */
  function StageWrites(stage: nat, items: seq<Then>): seq<WrittenCall> {
    if items == [] then []
    else
      (if Stage(items[0].item) != stage then []
       else match items[0].item
            case Longcat(block) => BlockWrites(block)
            case Container(tools, _) => ToolsWrite(tools)
            case Single(_, _, _) => SingleWrites(items[0].item))
      + StageWrites(stage, items[1..])
  }

  // ---------- What is read ----------

  /** The argument that a written key stands for. */
  ghost predicate Renamed(key: string, name: string) {
    && (key == "file_path" ==> name == "path")
    && (key == "start_line" ==> name == "startLine")
    && (key == "end_line" ==> name == "endLine")
    && (key == "old_text" ==> name == "oldText")
    && (key == "new_text" ==> name == "newText")
    && (key == "working_directory" ==> name == "workingDirectory")
    && (key == "timeout_ms" ==> name == "timeoutMs")
    && (key !in {"file_path", "start_line", "end_line", "old_text", "new_text", "working_directory", "timeout_ms"} ==> name == key)
  }

  /** The value that a written text stands for: what it decodes to, or the stripped text itself where it is no JSON. */
  ghost predicate StandsFor(loads: Loads, text: string, value: Json) {
    && (Strip(text) == "" ==> value == Str(""))
    && (forall j :: Strip(text) != "" && loads(Strip(text)) == Some(j) ==> value == j)
    && (Strip(text) != "" && loads(Strip(text)) == None ==> value == Str(Strip(text)))
  }

  /** The pair at `p` is the last one for this argument. */
  ghost predicate LastFor(pairs: seq<(string, string)>, name: string, p: nat) {
    p < |pairs| && Renamed(pairs[p].0, name) && forall q :: p < q < |pairs| ==> !Renamed(pairs[q].0, name)
  }

  ghost predicate Names(pairs: seq<(string, string)>, name: string) {
    exists p :: 0 <= p < |pairs| && Renamed(pairs[p].0, name)
  }

  /** `a` is written before `b` ever is. */
  ghost predicate NamedFirst(pairs: seq<(string, string)>, a: string, b: string) {
    exists p :: 0 <= p < |pairs| && Renamed(pairs[p].0, a) && forall q :: 0 <= q <= p ==> !Renamed(pairs[q].0, b)
  }

  ghost predicate ValueRead(loads: Loads, pairs: seq<(string, string)>, name: string, value: Json) {
    exists p: nat :: LastFor(pairs, name, p) && StandsFor(loads, pairs[p].1, value)
  }

  ghost predicate Listed(d: seq<(string, Json)>, name: string) {
    exists a :: 0 <= a < |d| && d[a].0 == name
  }

  /** Each argument once, where it is written first, with the value it is given last. */
  ghost predicate IsDictionary(loads: Loads, pairs: seq<(string, string)>, d: seq<(string, Json)>) {
    && (forall a, b :: 0 <= a < b < |d| ==> d[a].0 != d[b].0 && NamedFirst(pairs, d[a].0, d[b].0))
    && (forall a :: 0 <= a < |d| ==> ValueRead(loads, pairs, d[a].0, d[a].1))
    && forall name :: Names(pairs, name) ==> Listed(d, name)
  }

  ghost predicate Read(loads: Loads, w: WrittenCall, c: Call) {
    c.name == w.name && IsDictionary(loads, w.pairs, c.arguments)
  }

  /** The calls are those written, in order. */
  ghost predicate AllRead(loads: Loads, ws: seq<WrittenCall>, cs: seq<Call>) {
    |cs| == |ws| && forall i :: 0 <= i < |cs| ==> Read(loads, ws[i], cs[i])
  }

  // ---------- One dictionary ----------

  lemma NameRenamed(key: string, name: string)
    ensures Renamed(key, name) <==> name == ArgumentName(key)
  {
  }

  lemma CoerceStandsFor(loads: Loads, text: string)
    ensures StandsFor(loads, text, Coerce(loads, text)) && StandsFor(loads, text, Coerce(loads, Strip(text)))
  {
    StripMeaning(text);
    StripTrimmed(Strip(text));
    hide Strip;
  }

  lemma {:induction false} AssignKnown(d: seq<(string, Json)>, name: string, value: Json) returns (a: nat)
    requires Listed(d, name) && forall a, b :: 0 <= a < b < |d| ==> d[a].0 != d[b].0
    ensures a < |d| && d[a].0 == name && Assign(d, name, value) == d[a := (name, value)]
  {
    if d[0].0 == name {
      a := 0;
    } else {
      var x :| 0 <= x < |d| && d[x].0 == name;
      assert d[1..][x - 1].0 == name;
      a := AssignKnown(d[1..], name, value);
      a := a + 1;
    }
  }

  lemma {:induction false} AssignNew(d: seq<(string, Json)>, name: string, value: Json)
    requires !Listed(d, name)
    ensures Assign(d, name, value) == d + [(name, value)]
  {
    if d != [] {
      assert d[0].0 != name;
      assert forall a :: 0 <= a < |d[1..]| ==> d[1..][a] == d[a + 1];
      AssignNew(d[1..], name, value);
    }
  }

  lemma OneMorePair(loads: Loads, pairs: seq<(string, string)>, pair: (string, string), name: string, value: Json)
    ensures var more := pairs + [pair];
            && (Names(more, name) <==> Names(pairs, name) || Renamed(pair.0, name))
            && (!Renamed(pair.0, name) && ValueRead(loads, pairs, name, value) ==> ValueRead(loads, more, name, value))
            && (Renamed(pair.0, name) && StandsFor(loads, pair.1, value) ==> ValueRead(loads, more, name, value))
  {
    hide Renamed, StandsFor;
    var more := pairs + [pair];
    assert more[|pairs|] == pair && forall p :: 0 <= p < |pairs| ==> more[p] == pairs[p];
    if Names(pairs, name) {
      var p :| 0 <= p < |pairs| && Renamed(pairs[p].0, name);
      assert Renamed(more[p].0, name);
    }
    if !Renamed(pair.0, name) && ValueRead(loads, pairs, name, value) {
      var p: nat :| LastFor(pairs, name, p) && StandsFor(loads, pairs[p].1, value);
      assert LastFor(more, name, p);
    }
    if Renamed(pair.0, name) && StandsFor(loads, pair.1, value) {
      assert LastFor(more, name, |pairs|);
    }
  }

  lemma NamedFirstStays(pairs: seq<(string, string)>, pair: (string, string), a: string, b: string)
    ensures NamedFirst(pairs, a, b) ==> NamedFirst(pairs + [pair], a, b)
    ensures Names(pairs, a) && !Names(pairs, b) ==> NamedFirst(pairs + [pair], a, b)
  {
    hide Renamed;
    var more := pairs + [pair];
    assert forall p :: 0 <= p < |pairs| ==> more[p] == pairs[p];
    if NamedFirst(pairs, a, b) {
      var p :| 0 <= p < |pairs| && Renamed(pairs[p].0, a) && forall q :: 0 <= q <= p ==> !Renamed(pairs[q].0, b);
      assert Renamed(more[p].0, a);
    }
    if Names(pairs, a) && !Names(pairs, b) {
      var p :| 0 <= p < |pairs| && Renamed(pairs[p].0, a);
      assert Renamed(more[p].0, a);
    }
  }

  lemma ReadIsNamed(loads: Loads, pairs: seq<(string, string)>, name: string, value: Json)
    requires ValueRead(loads, pairs, name, value)
    ensures Names(pairs, name)
  {
    hide Renamed, StandsFor;
  }

  /** The pair written next is for `name`. */
  ghost predicate IsFor(pair: (string, string), name: string) {
    forall n: string :: Renamed(pair.0, n) <==> n == name
  }

  lemma {:induction false} AssignNext(loads: Loads, pairs: seq<(string, string)>, d: seq<(string, Json)>, pair: (string, string), value: Json)
    requires IsDictionary(loads, pairs, d) && StandsFor(loads, pair.1, value)
    ensures IsDictionary(loads, pairs + [pair], Assign(d, ArgumentName(pair.0), value))
  {
    var name := ArgumentName(pair.0);
    forall n: string ensures Renamed(pair.0, n) <==> n == name {
      NameRenamed(pair.0, n);
    }
    if Listed(d, name) {
      var at := AssignKnown(d, name, value);
      hide *;
      DictionaryUpdated(loads, pairs, d, pair, name, value, at);
    } else {
      AssignNew(d, name, value);
      hide *;
      DictionaryGrown(loads, pairs, d, pair, name, value);
    }
  }

  lemma DictionaryUpdated(loads: Loads, pairs: seq<(string, string)>, d: seq<(string, Json)>, pair: (string, string), name: string, value: Json,
                          at: nat)
    requires IsDictionary(loads, pairs, d) && StandsFor(loads, pair.1, value) && IsFor(pair, name) && at < |d| && d[at].0 == name
    ensures IsDictionary(loads, pairs + [pair], d[at := (name, value)])
  {
    var e, more := d[at := (name, value)], pairs + [pair];
    hide Renamed, StandsFor, NamedFirst, Names, ValueRead;
    assert forall a :: 0 <= a < |d| ==> e[a].0 == d[a].0;
    forall a, b | 0 <= a < b < |e| ensures e[a].0 != e[b].0 && NamedFirst(more, e[a].0, e[b].0) {
      NamedFirstStays(pairs, pair, d[a].0, d[b].0);
    }
    forall a | 0 <= a < |e| ensures ValueRead(loads, more, e[a].0, e[a].1) {
      OneMorePair(loads, pairs, pair, e[a].0, e[a].1);
      assert e[a].0 == name ==> a == at;
    }
    forall n | Names(more, n) ensures Listed(e, n) {
      OneMorePair(loads, pairs, pair, n, value);
      var a :| 0 <= a < |d| && d[a].0 == n;
      assert e[a].0 == n;
    }
  }

  lemma DictionaryGrown(loads: Loads, pairs: seq<(string, string)>, d: seq<(string, Json)>, pair: (string, string), name: string, value: Json)
    requires IsDictionary(loads, pairs, d) && StandsFor(loads, pair.1, value) && IsFor(pair, name) && !Listed(d, name)
    ensures IsDictionary(loads, pairs + [pair], d + [(name, value)])
  {
    var e, more := d + [(name, value)], pairs + [pair];
    hide Renamed, StandsFor, NamedFirst, Names, ValueRead;
    assert !Names(pairs, name);
    assert e[|d|] == (name, value) && forall a :: 0 <= a < |d| ==> e[a] == d[a] && d[a].0 != name;
    forall a, b | 0 <= a < b < |e| ensures e[a].0 != e[b].0 && NamedFirst(more, e[a].0, e[b].0) {
      ReadIsNamed(loads, pairs, d[a].0, d[a].1);
      NamedFirstStays(pairs, pair, d[a].0, e[b].0);
    }
    forall a | 0 <= a < |e| ensures ValueRead(loads, more, e[a].0, e[a].1) {
      OneMorePair(loads, pairs, pair, e[a].0, e[a].1);
    }
    forall n | Names(more, n) ensures Listed(e, n) {
      OneMorePair(loads, pairs, pair, n, value);
      if n == name {
        assert e[|d|].0 == n;
      } else {
        var a :| 0 <= a < |d| && d[a].0 == n;
        assert e[a].0 == n;
      }
    }
  }

  lemma {:induction false} AttributesSnoc(loads: Loads, d: seq<(string, Json)>, pairs: seq<(string, string)>, pair: (string, string))
    ensures AttributeArguments(loads, d, pairs + [pair])
            == Assign(AttributeArguments(loads, d, pairs), ArgumentName(pair.0), Coerce(loads, pair.1))
    decreases pairs
  {
    hide Assign, ArgumentName, Coerce;
    if pairs == [] {
      assert pairs + [pair] == [pair] && [pair][1..] == [];
    } else {
      assert (pairs + [pair])[1..] == pairs[1..] + [pair];
      AttributesSnoc(loads, Assign(d, ArgumentName(pairs[0].0), Coerce(loads, pairs[0].1)), pairs[1..], pair);
    }
  }

  lemma NothingWritten(loads: Loads)
    ensures IsDictionary(loads, [], [])
  {
    hide Renamed, StandsFor;
  }

  lemma {:induction false} AttributesRead(loads: Loads, pairs: seq<(string, string)>)
    ensures IsDictionary(loads, pairs, AttributeArguments(loads, [], pairs))
  {
    if pairs == [] {
      NothingWritten(loads);
    } else {
      var front, last := pairs[..|pairs| - 1], pairs[|pairs| - 1];
      AttributesRead(loads, front);
      assert front + [last] == pairs;
      AttributesSnoc(loads, [], front, last);
      CoerceStandsFor(loads, last.1);
      hide IsDictionary, StandsFor, AttributeArguments, Coerce;
      AssignNext(loads, front, AttributeArguments(loads, [], front), last, Coerce(loads, last.1));
    }
  }

  // ---------- The calls of each kind ----------

  /** The arguments of a block are those of the pairs of its stripped texts. */
  lemma {:induction false} BlockArguments(loads: Loads, d: seq<(string, Json)>, args: seq<Arg>)
    ensures ArgumentsOf(loads, d, StripEach(Keys(args)), StripEach(Values(args))) == AttributeArguments(loads, d, ArgTexts(args))
    decreases args
  {
    if args != [] {
      var keys, values, pairs := StripEach(Keys(args)), StripEach(Values(args)), ArgTexts(args);
      assert keys[1..] == StripEach(Keys(args[1..])) && values[1..] == StripEach(Values(args[1..])) && pairs[1..] == ArgTexts(args[1..]);
      StripMeaning(args[0].value);
      StripTrimmed(Strip(args[0].value));
      assert Coerce(loads, values[0]) == Coerce(loads, pairs[0].1);
      hide Coerce, Assign, ArgumentName, Strip;
      BlockArguments(loads, Assign(d, ArgumentName(keys[0]), Coerce(loads, values[0])), args[1..]);
    }
  }

  lemma ReadAppend(loads: Loads, ws: seq<WrittenCall>, cs: seq<Call>, vs: seq<WrittenCall>, bs: seq<Call>)
    requires AllRead(loads, ws, cs) && AllRead(loads, vs, bs)
    ensures AllRead(loads, ws + vs, cs + bs)
  {
    hide Read;
  }

  lemma BlockRead(loads: Loads, b: Block)
    ensures AllRead(loads, BlockWrites(b), CallOf(loads, b))
  {
    BlockArguments(loads, [], b.args);
    AttributesRead(loads, ArgTexts(b.args));
    hide ArgumentsOf, AttributeArguments, ArgTexts, IsDictionary, StripEach;
  }

  lemma {:induction false} ToolsRead(loads: Loads, ts: seq<Tool>)
    ensures AllRead(loads, ToolsWrite(ts), ToolCallsOf(loads, ts))
  {
    if ts != [] {
      ToolsRead(loads, ts[1..]);
      var ws := if '.' in ts[0].name then [WrittenCall(ts[0].name, ArgumentFields(ts[0].fields))] else [];
      var cs := if '.' in ts[0].name then [Call(ts[0].name, AttributeArguments(loads, [], ArgumentFields(ts[0].fields)))] else [];
      AttributesRead(loads, ArgumentFields(ts[0].fields));
      hide AttributeArguments, ArgumentFields, IsDictionary;
      assert AllRead(loads, ws, cs);
      hide AllRead;
      ReadAppend(loads, ws, cs, ToolsWrite(ts[1..]), ToolCallsOf(loads, ts[1..]));
    }
  }

  lemma SingleRead(loads: Loads, item: Item)
    requires item.Single?
    ensures AllRead(loads, SingleWrites(item),
                    if '.' in item.name then [Call(item.name, AttributeArguments(loads, [], AttrPairs(item.attrs)))] else [])
  {
    AttributesRead(loads, AttrPairs(item.attrs));
    hide AttributeArguments, AttrPairs, IsDictionary;
  }

  lemma {:induction false} StageCallsRead(loads: Loads, items: seq<Then>)
    ensures AllRead(loads, StageWrites(1, items), LongcatCallsOf(loads, items))
    ensures AllRead(loads, StageWrites(2, items), ContainerCallsOf(loads, items))
    ensures AllRead(loads, StageWrites(3, items), SelfCallsOf(loads, SinglesOf(items)))
  {
    if items != [] {
      var item, rest := items[0].item, items[1..];
      StageCallsRead(loads, rest);
      SelfCallsAt(loads, items);
      match item {
        case Longcat(block) => BlockRead(loads, block);
        case Container(tools, _) => ToolsRead(loads, tools);
        case Single(_, _, _) => SingleRead(loads, item);
      }
      NoneRead(loads);
      hide AllRead, SelfCallsOf, SinglesOf, BlockWrites, ToolsWrite, SingleWrites, CallOf, ToolCallsOf, AttributeArguments, AttrPairs;
      ReadAppend(loads, if item.Longcat? then BlockWrites(item.block) else [], if item.Longcat? then CallOf(loads, item.block) else [],
                 StageWrites(1, rest), LongcatCallsOf(loads, rest));
      ReadAppend(loads, if item.Container? then ToolsWrite(item.tools) else [], if item.Container? then ToolCallsOf(loads, item.tools) else [],
                 StageWrites(2, rest), ContainerCallsOf(loads, rest));
      ReadAppend(loads, if item.Single? then SingleWrites(item) else [],
                 if item.Single? && '.' in item.name then [Call(item.name, AttributeArguments(loads, [], AttrPairs(item.attrs)))] else [],
                 StageWrites(3, rest), SelfCallsOf(loads, SinglesOf(rest)));
    }
  }

  lemma NoneRead(loads: Loads)
    ensures AllRead(loads, [], [])
  {
  }

  /** The calls lifted out of a text with tags of all three kinds: under the written names and in pass order, each argument once,
      under the name its key stands for, with the value that the text written last for it stands for. */
  lemma {:induction false} ArgumentsAreRead(loads: Loads, lead: string, items: seq<Then>)
    requires PlainItems(lead, items)
    requires Has(1, items) ==> SteadyAfter(1, items)
    requires Has(2, items) ==> SteadyAfter(2, items)
    ensures AllRead(loads, StageWrites(1, items) + StageWrites(2, items) + StageWrites(3, items), Extract(loads, TextAt(1, lead, items)).1)
  {
    MixedRoundTrip.MixedRoundTrip(loads, lead, items);
    StageCallsRead(loads, items);
    hide AllRead, StageWrites, LongcatCallsOf, ContainerCallsOf, SelfCallsOf, SinglesOf, Extract, TextAt, PlainItems, Has, SteadyAfter, TagsLeft, Tidy;
    ReadAppend(loads, StageWrites(1, items), LongcatCallsOf(loads, items), StageWrites(2, items), ContainerCallsOf(loads, items));
    ReadAppend(loads, StageWrites(1, items) + StageWrites(2, items), LongcatCallsOf(loads, items) + ContainerCallsOf(loads, items),
               StageWrites(3, items), SelfCallsOf(loads, SinglesOf(items)));
  }
}
