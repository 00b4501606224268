/**
 What a JSON payload says, as relations between payload and reading: the text it
 holds and the tool calls it carries. The extractors are proved to compute them.
 */
module PayloadReading {
  import opened Collections
  import opened Text
  import opened Payloads

  // ---------- Values ----------

  /** The values that Python takes for false. */
  lemma FalsyIff(j: Json)
    ensures !Truthy(j) <==> j in [Null, Bool(false), Int(0), Float(0.0), Str(""), Arr([]), Obj(map[])]
  {
  }

  /** `str` of a value: a string is itself. */
  ghost predicate Shows(host: Host, j: Json, s: string) {
    match j case Str(t) => s == t case _ => s == host.repr(j)
  }

  /** `j` is the first of the values that counts as true, else the last of them. */
  ghost predicate FirstTrue(js: seq<Json>, j: Json) {
    || (exists i :: 0 <= i < |js| && js[i] == j && Truthy(j) && forall k :: 0 <= k < i ==> !Truthy(js[k]))
    || (js != [] && j == js[|js| - 1] && forall k :: 0 <= k < |js| ==> !Truthy(js[k]))
  }

  /** The text of the first of the values that counts as true, if there is one. */
  ghost predicate FirstShown(host: Host, js: seq<Json>, text: Option<string>) {
    || (text == None && forall k :: 0 <= k < |js| ==> !Truthy(js[k]))
    || (text != None && exists i :: 0 <= i < |js| && Truthy(js[i]) && Shows(host, js[i], text.value) && forall k :: 0 <= k < i ==> !Truthy(js[k]))
  }

  /** `j` is the first of the values that is not null, else null. */
  ghost predicate FirstGiven(js: seq<Json>, j: Json) {
    || (j != Null && exists i :: 0 <= i < |js| && js[i] == j && forall k :: 0 <= k < i ==> js[k] == Null)
    || (j == Null && forall k :: 0 <= k < |js| ==> js[k] == Null)
  }

  /** The number that `int` makes of a value: fractions lose what follows the point. */
  ghost predicate Counts(host: Host, j: Json, n: Option<int>) {
    match j
    case Int(k) => n == Some(k)
    case Bool(b) => n == Some(if b then 1 else 0)
    case Float(r) => n.Some? && (r >= 0.0 ==> r - 1.0 < n.value as real <= r) && (r < 0.0 ==> r <= n.value as real < r + 1.0)
    case Str(s) => n == host.parseInt(s)
    case _ => n == None
  }

  lemma CountsIff(host: Host, j: Json, n: Option<int>)
    ensures Counts(host, j, n) <==> n == AsInt(host, j)
  {
  }

  /** The text of the first of the values that counts as true, else the default. */
  ghost predicate TextIs(host: Host, js: seq<Json>, default: string, s: string) {
    exists t :: FirstShown(host, js, t) && s == if t.Some? then t.value else default
  }

  lemma {:induction false} OnlyOneShown(host: Host, js: seq<Json>, t: Option<string>, u: Option<string>)
    requires FirstShown(host, js, t) && FirstShown(host, js, u)
    ensures t == u
  {
    hide Truthy;
  }

  lemma ShownInOne(host: Host, js: seq<Json>)
    requires |js| == 1
    ensures FirstShown(host, js, if Truthy(js[0]) then Some(StrOf(host, js[0])) else None)
  {
    hide Truthy;
    assert Shows(host, js[0], StrOf(host, js[0]));
  }

  lemma ShownInTwo(host: Host, js: seq<Json>)
    requires |js| == 2
    ensures var j := Or(js[0], js[1]); FirstShown(host, js, if Truthy(j) then Some(StrOf(host, j)) else None)
  {
    var j := Or(js[0], js[1]);
    if Truthy(j) {
      var i := if Truthy(js[0]) then 0 else 1;
      assert js[i] == j && Shows(host, js[i], StrOf(host, j));
    }
  }

  lemma ShownInThree(host: Host, js: seq<Json>)
    requires |js| == 3
    ensures var j := Or(Or(js[0], js[1]), js[2]); FirstShown(host, js, if Truthy(j) then Some(StrOf(host, j)) else None)
  {
    var j := Or(Or(js[0], js[1]), js[2]);
    if Truthy(j) {
      var i := if Truthy(js[0]) then 0 else if Truthy(js[1]) then 1 else 2;
      assert js[i] == j && Shows(host, js[i], StrOf(host, j));
    }
  }

  lemma TextOfShown(host: Host, js: seq<Json>, j: Json, default: string, s: string)
    requires FirstShown(host, js, if Truthy(j) then Some(StrOf(host, j)) else None)
    ensures TextIs(host, js, default, s) <==> s == TextOr(host, j, default)
  {
    hide Truthy, FirstShown;
    var t := if Truthy(j) then Some(StrOf(host, j)) else None;
    forall u | FirstShown(host, js, u) ensures u == t {
      OnlyOneShown(host, js, t, u);
    }
  }

  lemma TextOfOne(host: Host, a: Json, default: string, s: string)
    ensures TextIs(host, [a], default, s) <==> s == TextOr(host, a, default)
  {
    ShownInOne(host, [a]);
    TextOfShown(host, [a], a, default, s);
  }

  lemma TextOfTwo(host: Host, a: Json, b: Json, default: string, s: string)
    ensures TextIs(host, [a, b], default, s) <==> s == TextOr(host, Or(a, b), default)
  {
    ShownInTwo(host, [a, b]);
    TextOfShown(host, [a, b], Or(a, b), default, s);
  }

  lemma TextOfThree(host: Host, a: Json, b: Json, c: Json, default: string, s: string)
    ensures TextIs(host, [a, b, c], default, s) <==> s == TextOr(host, Or(Or(a, b), c), default)
  {
    ShownInThree(host, [a, b, c]);
    TextOfShown(host, [a, b, c], Or(Or(a, b), c), default, s);
  }

  // ---------- Text ----------

  /** The texts that are not empty, one a line. */
  function LinesOf(texts: seq<string>): string {
    if texts == [] then ""
    else
      var before, last := LinesOf(texts[..|texts| - 1]), texts[|texts| - 1];
      if last == "" then before else if before == "" then last else before + "\n" + last
  }

  /** `s` is the first text that is not empty. */
  ghost predicate FirstNonEmpty(texts: seq<string>, s: string) {
    || (s == "" && forall i :: 0 <= i < |texts| ==> texts[i] == "")
    || (s != "" && exists i :: 0 <= i < |texts| && texts[i] == s && forall k :: 0 <= k < i ==> texts[k] == "")
  }

  /** The type a payload gives itself, stripped and in lower case. */
  ghost predicate HasType(host: Host, o: Fields, types: set<string>) {
    exists t :: host.lower(Strip(t)) in types && if Truthy(Get(o, "type")) then Shows(host, Get(o, "type"), t) else t == ""
  }

  /** Where a dictionary without a text of its own is searched for one. */
  ghost function TextKeys(host: Host, o: Fields): seq<string> {
    (if HasType(host, o, {"text", "output_text", "input_text"}) then ["text", "output_text", "content"] else [])
    + ["content", "output", "message", "delta"]
  }

  ghost predicate OwnText(o: Fields, key: string, s: string) {
    s != "" && Get(o, key) == Str(s)
  }

  /** `s` is the text of the payload: a string itself, the texts of a list one a line, or of a dictionary its own text, else the
      first found below. */
  ghost predicate HoldsText(host: Host, j: Json, s: string)
    decreases j
  {
    match j
    case Str(t) => s == t
    case Arr(items) =>
      exists texts: seq<string> :: |texts| == |items| && s == LinesOf(texts) && forall i :: 0 <= i < |items| ==> HoldsText(host, items[i], texts[i])
    case Obj(o) =>
      if exists t :: OwnText(o, "text", t) then OwnText(o, "text", s)
      else if exists t :: OwnText(o, "output_text", t) then OwnText(o, "output_text", s)
      else
        exists texts: seq<string> ::
          && |texts| == |TextKeys(host, o)| && FirstNonEmpty(texts, s)
          && forall i :: 0 <= i < |texts| ==>
               if TextKeys(host, o)[i] in o then HoldsText(host, o[TextKeys(host, o)[i]], texts[i]) else texts[i] == ""
    case _ => s == ""
  }

  lemma {:induction false} JoinLinesSnoc(parts: seq<string>, last: string)
    ensures JoinLines(parts + [last]) == if parts == [] then last else JoinLines(parts) + "\n" + last
  {
    if parts != [] {
      assert (parts + [last])[1..] == parts[1..] + [last];
      JoinLinesSnoc(parts[1..], last);
    }
  }

  lemma {:induction false} FragmentsSnoc(host: Host, items: seq<Json>, last: Json)
    ensures var t := ExtractText(host, last);
            Fragments(host, items + [last]) == Fragments(host, items) + if t != "" then [t] else []
  {
    hide ExtractText;
    if items == [] {
      assert items + [last] == [last] && [last][1..] == [];
    } else {
      assert (items + [last])[1..] == items[1..] + [last];
      FragmentsSnoc(host, items[1..], last);
    }
  }

  /** The fragments of a list, joined, are the texts of its items one a line. */
  lemma {:induction false} FragmentsAreLines(host: Host, items: seq<Json>, texts: seq<string>)
    requires |texts| == |items| && forall i :: 0 <= i < |items| ==> texts[i] == ExtractText(host, items[i])
    ensures JoinLines(Fragments(host, items)) == LinesOf(texts)
    ensures LinesOf(texts) == "" <==> Fragments(host, items) == []
  {
    hide ExtractText;
    if items != [] {
      var n := |items| - 1;
      FragmentsAreLines(host, items[..n], texts[..n]);
      assert items == items[..n] + [items[n]];
      FragmentsSnoc(host, items[..n], items[n]);
      var before := Fragments(host, items[..n]);
      if texts[n] == "" {
        assert before + [] == before;
      } else {
        JoinLinesSnoc(before, texts[n]);
      }
      hide Fragments, JoinLines;
    }
  }

  lemma HasTypeIff(host: Host, o: Fields, types: set<string>)
    ensures HasType(host, o, types) <==> PayloadType(host, o) in types
  {
    var t := if Truthy(Get(o, "type")) then StrOf(host, Get(o, "type")) else "";
    hide Strip, Truthy;
    assert PayloadType(host, o) == host.lower(Strip(t));
    if PayloadType(host, o) in types {
      assert host.lower(Strip(t)) in types;
    }
  }

  function TextAt(host: Host, o: Fields, key: string): string {
    if key in o then ExtractText(host, o[key]) else ""
  }

  lemma {:induction false} FirstTextIs(host: Host, o: Fields, keys: seq<string>, texts: seq<string>, s: string)
    requires |texts| == |keys| && forall i :: 0 <= i < |keys| ==> texts[i] == TextAt(host, o, keys[i])
    ensures FirstNonEmpty(texts, s) <==> s == FirstText(host, Obj(o), keys)
    decreases keys
  {
    hide ExtractText;
    if keys != [] {
      assert forall i :: 0 <= i < |keys[1..]| ==> texts[1..][i] == TextAt(host, o, keys[1..][i]);
      FirstTextIs(host, o, keys[1..], texts[1..], s);
      hide TextAt, FirstText;
      FirstOf(texts, s);
    }
  }

  lemma FirstOf(texts: seq<string>, s: string)
    requires texts != []
    ensures FirstNonEmpty(texts, s) <==> if texts[0] != "" then s == texts[0] else FirstNonEmpty(texts[1..], s)
  {
    if texts[0] == "" {
      assert forall i :: 0 <= i < |texts[1..]| ==> texts[1..][i] == texts[i + 1];
      if s != "" && FirstNonEmpty(texts[1..], s) {
        var i :| 0 <= i < |texts[1..]| && texts[1..][i] == s && forall k :: 0 <= k < i ==> texts[1..][k] == "";
        assert texts[i + 1] == s && forall k :: 0 <= k < i + 1 ==> texts[k] == "" by {
          assert forall k :: 1 <= k < i + 1 ==> texts[k] == texts[1..][k - 1];
        }
      }
      if s != "" && FirstNonEmpty(texts, s) {
        var i :| 0 <= i < |texts| && texts[i] == s && forall k :: 0 <= k < i ==> texts[k] == "";
        assert texts[1..][i - 1] == s;
      }
      if s == "" && FirstNonEmpty(texts[1..], s) {
        assert forall k :: 1 <= k < |texts| ==> texts[k] == texts[1..][k - 1];
      }
    }
  }

  lemma {:induction false} FirstTextSplits(host: Host, o: Fields, a: seq<string>, b: seq<string>)
    ensures FirstText(host, Obj(o), a + b)
            == if FirstText(host, Obj(o), a) != "" then FirstText(host, Obj(o), a) else FirstText(host, Obj(o), b)
    decreases a
  {
    hide ExtractText;
    if a == [] {
      assert a + b == b;
    } else {
      assert (a + b)[1..] == a[1..] + b;
      FirstTextSplits(host, o, a[1..], b);
    }
  }

  lemma TextOfDictionary(host: Host, o: Fields)
    ensures ExtractText(host, Obj(o)) ==
            if Get(o, "text").Str? && Get(o, "text").s != "" then Get(o, "text").s
            else if Get(o, "output_text").Str? && Get(o, "output_text").s != "" then Get(o, "output_text").s
            else FirstText(host, Obj(o), TextKeys(host, o))
  {
    HasTypeIff(host, o, {"text", "output_text", "input_text"});
    var typed, rest := ["text", "output_text", "content"], ["content", "output", "message", "delta"];
    hide FirstText, HasType;
    FirstTextSplits(host, o, typed, rest);
    assert [] + rest == rest;
  }

  /** The extractor finds the text of a payload, and there is only one. */
  lemma {:induction false} ExtractTextIff(host: Host, j: Json, s: string)
    ensures HoldsText(host, j, s) <==> s == ExtractText(host, j)
    decreases j
  {
    match j {
      case Arr(items) =>
        forall i, t: string | 0 <= i < |items| ensures HoldsText(host, items[i], t) <==> t == ExtractText(host, items[i]) {
          ExtractTextIff(host, items[i], t);
        }
        ListText(host, items, s);
      case Obj(o) =>
        forall key, t: string | key in o ensures HoldsText(host, o[key], t) <==> t == ExtractText(host, o[key]) {
          ExtractTextIff(host, o[key], t);
        }
        DictionaryText(host, o, s);
      case _ =>
    }
  }

  /** The texts of the items. */
  ghost predicate HeldBy(host: Host, items: seq<Json>, texts: seq<string>) {
    |texts| == |items| && forall i :: 0 <= i < |items| ==> HoldsText(host, items[i], texts[i])
  }

  lemma HoldsList(host: Host, items: seq<Json>, s: string)
    ensures HoldsText(host, Arr(items), s) <==> exists texts :: HeldBy(host, items, texts) && s == LinesOf(texts)
  {
    hide LinesOf;
    if HoldsText(host, Arr(items), s) {
      var texts: seq<string> :|
        |texts| == |items| && s == LinesOf(texts) && forall i :: 0 <= i < |items| ==> HoldsText(host, items[i], texts[i]);
      assert HeldBy(host, items, texts);
    }
    if texts :| HeldBy(host, items, texts) && s == LinesOf(texts) {
      assert |texts| == |items|;
    }
  }

  lemma HeldByIs(host: Host, items: seq<Json>) returns (texts: seq<string>)
    requires forall i, t: string :: 0 <= i < |items| ==> (HoldsText(host, items[i], t) <==> t == ExtractText(host, items[i]))
    ensures |texts| == |items| && forall i :: 0 <= i < |items| ==> texts[i] == ExtractText(host, items[i])
    ensures forall ts :: HeldBy(host, items, ts) <==> ts == texts
  {
    texts := seq(|items|, i requires 0 <= i < |items| => ExtractText(host, items[i]));
    hide ExtractText, HoldsText;
    forall ts ensures HeldBy(host, items, ts) <==> ts == texts {
      if HeldBy(host, items, ts) {
        assert forall i :: 0 <= i < |ts| ==> ts[i] == texts[i];
      }
    }
  }

  lemma ListText(host: Host, items: seq<Json>, s: string)
    requires forall i, t: string :: 0 <= i < |items| ==> (HoldsText(host, items[i], t) <==> t == ExtractText(host, items[i]))
    ensures HoldsText(host, Arr(items), s) <==> s == ExtractText(host, Arr(items))
  {
    assert ExtractText(host, Arr(items)) == JoinLines(Fragments(host, items));
    hide *;
    var texts := HeldByIs(host, items);
    FragmentsAreLines(host, items, texts);
    HoldsList(host, items, s);
  }

  lemma OwnTextIs(o: Fields, key: string)
    ensures (exists t :: OwnText(o, key, t)) <==> Get(o, key).Str? && Get(o, key).s != ""
    ensures forall s: string :: OwnText(o, key, s) ==> s == Get(o, key).s
  {
    if Get(o, key).Str? && Get(o, key).s != "" {
      assert OwnText(o, key, Get(o, key).s);
    }
  }

  /** The texts found at the keys. */
  ghost predicate HeldAt(host: Host, o: Fields, keys: seq<string>, texts: seq<string>) {
    |texts| == |keys| && forall i :: 0 <= i < |texts| ==> if keys[i] in o then HoldsText(host, o[keys[i]], texts[i]) else texts[i] == ""
  }

  lemma HoldsBelow(host: Host, o: Fields, s: string)
    requires (forall t: string :: !OwnText(o, "text", t)) && forall t: string :: !OwnText(o, "output_text", t)
    ensures HoldsText(host, Obj(o), s) <==> exists texts :: HeldAt(host, o, TextKeys(host, o), texts) && FirstNonEmpty(texts, s)
  {
    hide OwnText, FirstNonEmpty, TextKeys;
    if HoldsText(host, Obj(o), s) {
      var keys := TextKeys(host, o);
      var texts: seq<string> :|
        && |texts| == |keys| && FirstNonEmpty(texts, s)
        && forall i :: 0 <= i < |texts| ==> if keys[i] in o then HoldsText(host, o[keys[i]], texts[i]) else texts[i] == "";
      assert HeldAt(host, o, keys, texts);
    }
    if texts :| HeldAt(host, o, TextKeys(host, o), texts) && FirstNonEmpty(texts, s) {
      assert |texts| == |TextKeys(host, o)|;
    }
  }

  lemma HeldAtIs(host: Host, o: Fields, keys: seq<string>) returns (texts: seq<string>)
    requires forall key, t: string :: key in o ==> (HoldsText(host, o[key], t) <==> t == ExtractText(host, o[key]))
    ensures |texts| == |keys| && forall i :: 0 <= i < |keys| ==> texts[i] == TextAt(host, o, keys[i])
    ensures forall ts :: HeldAt(host, o, keys, ts) <==> ts == texts
  {
    texts := seq(|keys|, i requires 0 <= i < |keys| => TextAt(host, o, keys[i]));
    hide ExtractText;
    forall ts ensures HeldAt(host, o, keys, ts) <==> ts == texts {
      if HeldAt(host, o, keys, ts) {
        assert forall i :: 0 <= i < |ts| ==> ts[i] == texts[i];
      }
    }
  }

  lemma DictionaryText(host: Host, o: Fields, s: string)
    requires forall key, t: string :: key in o ==> (HoldsText(host, o[key], t) <==> t == ExtractText(host, o[key]))
    ensures HoldsText(host, Obj(o), s) <==> s == ExtractText(host, Obj(o))
  {
    TextOfDictionary(host, o);
    OwnTextIs(o, "text");
    OwnTextIs(o, "output_text");
    if (exists t :: OwnText(o, "text", t)) || exists t :: OwnText(o, "output_text", t) {
      OwnTextWins(host, o, s);
    } else {
      var texts := HeldAtIs(host, o, TextKeys(host, o));
      FirstTextIs(host, o, TextKeys(host, o), texts, s);
      HoldsBelow(host, o, s);
      hide ExtractText, FirstText, FirstNonEmpty, TextKeys, HoldsText, HeldAt;
    }
  }

  lemma OwnTextWins(host: Host, o: Fields, s: string)
    requires (exists t :: OwnText(o, "text", t)) || exists t :: OwnText(o, "output_text", t)
    ensures HoldsText(host, Obj(o), s) <==> if exists t :: OwnText(o, "text", t) then OwnText(o, "text", s) else OwnText(o, "output_text", s)
  {
    hide OwnText;
  }

  /** The text of a list of strings is its strings that are not empty, joined by newlines. */
  lemma ListOfTexts(host: Host, items: seq<Json>, texts: seq<string>, s: string)
    requires |texts| == |items| && forall i :: 0 <= i < |items| ==> items[i] == Str(texts[i])
    ensures HoldsText(host, Arr(items), s) <==> s == LinesOf(texts)
  {
    ExtractTextIff(host, Arr(items), s);
    FragmentsAreLines(host, items, texts);
    hide HoldsText, LinesOf, Fragments, JoinLines;
  }

  lemma TwoTexts(host: Host, a: string, b: string)
    requires a != "" && b != ""
    ensures HoldsText(host, Arr([Str(a), Str(b)]), a + "\n" + b)
  {
    var one, texts := [a], [a, b];
    ListOfTexts(host, [Str(a), Str(b)], texts, a + "\n" + b);
    assert one[..0] == [] && texts[..1] == one;
    assert LinesOf(one) == a;
    assert LinesOf(texts[..1]) == a && texts[1] == b;
    hide HoldsText;
  }

  // ---------- Tool calls ----------

  /** `cs` are the dictionaries among the items, in order. */
  ghost predicate DictionariesOf(items: seq<Json>, cs: seq<Fields>)
    decreases items
  {
    if items == [] then cs == []
    else
      var front, last := items[..|items| - 1], items[|items| - 1];
      if last.Obj? then cs != [] && cs[|cs| - 1] == last.fields && DictionariesOf(front, cs[..|cs| - 1]) else DictionariesOf(front, cs)
  }

  ghost predicate NameMade(host: Host, o: Fields, name: Json) {
    var inner := if Get(o, "function").Obj? then Get(o, "function").fields else map[];
    exists given, text ::
      && FirstTrue([Get(o, "name"), Get(inner, "name"), Get(o, "tool_name"), Get(o, "function_name")], given)
      && (if Truthy(given) then Shows(host, given, text) else text == "")
      && name == Str(Strip(text))
  }

  ghost predicate ArgumentsMade(o: Fields, arguments: Json) {
    var inner := if Get(o, "function").Obj? then Get(o, "function").fields else map[];
    FirstGiven([Get(o, "arguments"), Get(o, "input"), Get(inner, "arguments"), Str("{}")], arguments)
  }

  /** The call made of a payload that is a call itself. */
  ghost predicate CallMade(host: Host, o: Fields, c: Fields) {
    exists id, kind, name, arguments ::
      && c == map["id" := id, "index" := Get(o, "index"), "type" := kind, "function" := Obj(map["name" := name, "arguments" := arguments])]
      && FirstTrue([Get(o, "id"), Get(o, "call_id")], id)
      && FirstTrue([Get(o, "type"), Str("function")], kind)
      && NameMade(host, o, name) && ArgumentsMade(o, arguments)
  }

  /** The calls a payload itself lists or is. */
  ghost predicate OwnCalls(host: Host, o: Fields, cs: seq<Fields>) {
    exists listed: seq<Fields>, typed: seq<Fields> ::
      && cs == listed + typed
      && (if Get(o, "tool_calls").Arr? then DictionariesOf(Get(o, "tool_calls").items, listed) else listed == [])
      && if HasType(host, o, {"function_call", "tool_call", "tool_use"}) then |typed| == 1 && CallMade(host, o, typed[0]) else typed == []
  }

  /** `cs` are the calls that a payload carries: those of a list's items, or a dictionary's own, then those found below. */
  ghost predicate CarriesCalls(host: Host, j: Json, cs: seq<Fields>)
    decreases j
  {
    match j
    case Arr(items) =>
      exists parts: seq<seq<Fields>> ::
        |parts| == |items| && cs == Concat(parts) && forall i :: 0 <= i < |items| ==> CarriesCalls(host, items[i], parts[i])
    case Obj(o) =>
      exists own: seq<Fields>, parts: seq<seq<Fields>> ::
        && |parts| == 4 && cs == own + Concat(parts) && OwnCalls(host, o, own)
        && forall i :: 0 <= i < 4 ==>
             if ["content", "output", "message", "delta"][i] in o then CarriesCalls(host, o[["content", "output", "message", "delta"][i]], parts[i])
             else parts[i] == []
    case _ => cs == []
  }

  lemma {:induction false} DictsSnoc(items: seq<Json>, last: Json)
    ensures Dicts(items + [last]) == Dicts(items) + if last.Obj? then [last.fields] else []
  {
    if items == [] {
      assert items + [last] == [last] && [last][1..] == [];
    } else {
      var all := items + [last];
      assert all[0] == items[0] && all[1..] == items[1..] + [last];
      DictsSnoc(items[1..], last);
      var first, rest := if items[0].Obj? then [items[0].fields] else [], Dicts(items[1..]);
      assert Dicts(all) == first + Dicts(all[1..]) && Dicts(items) == first + rest;
      hide Dicts;
      assert first + (rest + if last.Obj? then [last.fields] else []) == first + rest + if last.Obj? then [last.fields] else [];
    }
  }

  lemma {:induction false} DictionariesIff(items: seq<Json>, cs: seq<Fields>)
    ensures DictionariesOf(items, cs) <==> cs == Dicts(items)
    decreases items
  {
    if items != [] {
      var front, last := items[..|items| - 1], items[|items| - 1];
      DictsSnoc(front, last);
      assert front + [last] == items;
      hide Dicts;
      if last.Obj? {
        if cs != [] {
          DictionariesIff(front, cs[..|cs| - 1]);
          assert cs == cs[..|cs| - 1] + [cs[|cs| - 1]];
        }
      } else {
        DictionariesIff(front, cs);
        assert Dicts(front) + [] == Dicts(front);
      }
    }
  }

  lemma FirstTrueOfTwo(a: Json, b: Json)
    ensures forall j :: FirstTrue([a, b], j) <==> j == Or(a, b)
  {
    hide Truthy;
    forall j ensures FirstTrue([a, b], j) <==> j == Or(a, b) {
      var js := [a, b];
      assert js[0] == a && js[1] == b;
    }
  }

  lemma FirstTrueOfFour(a: Json, b: Json, c: Json, d: Json)
    ensures forall j :: FirstTrue([a, b, c, d], j) <==> j == Or(Or(Or(a, b), c), d)
  {
    hide Truthy;
    forall j ensures FirstTrue([a, b, c, d], j) <==> j == Or(Or(Or(a, b), c), d) {
      var js := [a, b, c, d];
      assert js[0] == a && js[1] == b && js[2] == c && js[3] == d;
    }
  }

  lemma FirstGivenOfFour(a: Json, b: Json, c: Json, d: Json)
    ensures forall j :: FirstGiven([a, b, c, d], j) <==> j == if a != Null then a else if b != Null then b else if c != Null then c else d
  {
    forall j ensures FirstGiven([a, b, c, d], j) <==> j == if a != Null then a else if b != Null then b else if c != Null then c else d {
      var js := [a, b, c, d];
      assert js[0] == a && js[1] == b && js[2] == c && js[3] == d;
    }
  }

  lemma NameMadeIff(host: Host, o: Fields, name: Json)
    ensures var inner := SubObject(o, "function");
            NameMade(host, o, name) <==>
            name == Str(Strip(TextOr(host, Or(Or(Or(Get(o, "name"), Get(inner, "name")), Get(o, "tool_name")), Get(o, "function_name")), "")))
  {
    var inner := SubObject(o, "function");
    FirstTrueOfFour(Get(o, "name"), Get(inner, "name"), Get(o, "tool_name"), Get(o, "function_name"));
    var given := Or(Or(Or(Get(o, "name"), Get(inner, "name")), Get(o, "tool_name")), Get(o, "function_name"));
    var text := TextOr(host, given, "");
    assert if Truthy(given) then Shows(host, given, text) else text == "";
    assert FirstTrue([Get(o, "name"), Get(inner, "name"), Get(o, "tool_name"), Get(o, "function_name")], given);
    hide FirstTrue, Strip, Or, Truthy, Get;
  }

  lemma ArgumentsMadeIff(o: Fields, arguments: Json)
    ensures var inner := SubObject(o, "function");
            var own := if Get(o, "arguments") != Null then Get(o, "arguments") else Get(o, "input");
            var found := if own == Null && Get(o, "function").Obj? then Get(inner, "arguments") else own;
            ArgumentsMade(o, arguments) <==> arguments == if found != Null then found else Str("{}")
  {
    var inner := SubObject(o, "function");
    FirstGivenOfFour(Get(o, "arguments"), Get(o, "input"), Get(inner, "arguments"), Str("{}"));
    hide FirstGiven;
    assert !Get(o, "function").Obj? ==> Get(inner, "arguments") == Null;
  }

  lemma CallMadeIff(host: Host, o: Fields, c: Fields)
    ensures CallMade(host, o, c) <==> c == TypedCall(host, o)
  {
    FirstTrueOfTwo(Get(o, "id"), Get(o, "call_id"));
    FirstTrueOfTwo(Get(o, "type"), Str("function"));
    forall name ensures NameMade(host, o, name) <==> name == TypedName(host, o) {
      NameMadeIff(host, o, name);
    }
    forall arguments ensures ArgumentsMade(o, arguments) <==> arguments == TypedArguments(o) {
      ArgumentsMadeIff(o, arguments);
    }
    TypedCallIs(host, o);
    hide FirstTrue, NameMade, ArgumentsMade, TypedName, TypedArguments, TypedCall, Get, Or;
    if c == TypedCall(host, o) {
      assert NameMade(host, o, TypedName(host, o)) && ArgumentsMade(o, TypedArguments(o));
      assert FirstTrue([Get(o, "id"), Get(o, "call_id")], Or(Get(o, "id"), Get(o, "call_id")));
      assert FirstTrue([Get(o, "type"), Str("function")], Or(Get(o, "type"), Str("function")));
    }
  }

  function TypedName(host: Host, o: Fields): Json {
    var inner := SubObject(o, "function");
    Str(Strip(TextOr(host, Or(Or(Or(Get(o, "name"), Get(inner, "name")), Get(o, "tool_name")), Get(o, "function_name")), "")))
  }

  function TypedArguments(o: Fields): Json {
    var inner := SubObject(o, "function");
    var own := if Get(o, "arguments") != Null then Get(o, "arguments") else Get(o, "input");
    var found := if own == Null && Get(o, "function").Obj? then Get(inner, "arguments") else own;
    if found != Null then found else Str("{}")
  }

  lemma TypedCallIs(host: Host, o: Fields)
    ensures TypedCall(host, o)
            == map["id" := Or(Get(o, "id"), Get(o, "call_id")), "index" := Get(o, "index"), "type" := Or(Get(o, "type"), Str("function")),
                   "function" := Obj(map["name" := TypedName(host, o), "arguments" := TypedArguments(o)])]
  {
  }

  lemma OwnCallsIff(host: Host, o: Fields, cs: seq<Fields>)
    ensures var listed := if Get(o, "tool_calls").Arr? then Dicts(Get(o, "tool_calls").items) else [];
            var typed := if PayloadType(host, o) in {"function_call", "tool_call", "tool_use"} then [TypedCall(host, o)] else [];
            OwnCalls(host, o, cs) <==> cs == listed + typed
  {
    HasTypeIff(host, o, {"function_call", "tool_call", "tool_use"});
    if Get(o, "tool_calls").Arr? {
      forall l ensures DictionariesOf(Get(o, "tool_calls").items, l) <==> l == Dicts(Get(o, "tool_calls").items) {
        DictionariesIff(Get(o, "tool_calls").items, l);
      }
    }
    forall c ensures CallMade(host, o, c) <==> c == TypedCall(host, o) {
      CallMadeIff(host, o, c);
    }
    hide Dicts, DictionariesOf, CallMade, TypedCall, HasType, PayloadType, Get;
    var listed := if Get(o, "tool_calls").Arr? then Dicts(Get(o, "tool_calls").items) else [];
    var typed := if PayloadType(host, o) in {"function_call", "tool_call", "tool_use"} then [TypedCall(host, o)] else [];
    if OwnCalls(host, o, cs) {
      var ls: seq<Fields>, ts: seq<Fields> :|
        && cs == ls + ts
        && (if Get(o, "tool_calls").Arr? then DictionariesOf(Get(o, "tool_calls").items, ls) else ls == [])
        && if HasType(host, o, {"function_call", "tool_call", "tool_use"}) then |ts| == 1 && CallMade(host, o, ts[0]) else ts == [];
      assert ls == listed && ts == typed;
    }
    if cs == listed + typed {
      assert typed != [] ==> CallMade(host, o, typed[0]);
    }
  }

  lemma {:induction false} CallsOfItems(host: Host, items: seq<Json>, parts: seq<seq<Fields>>)
    requires |parts| == |items| && forall i :: 0 <= i < |items| ==> parts[i] == Candidates(host, items[i])
    ensures Concat(parts) == CandidatesOfAll(host, items)
    decreases items
  {
    hide Candidates;
    if items != [] {
      CallsOfItems(host, items[1..], parts[1..]);
    }
  }

  function CallsAt(host: Host, o: Fields, key: string): seq<Fields> {
    if key in o then Candidates(host, o[key]) else []
  }

  lemma {:induction false} CallsOfKeys(host: Host, o: Fields, keys: seq<string>, parts: seq<seq<Fields>>)
    requires |parts| == |keys| && forall i :: 0 <= i < |keys| ==> parts[i] == CallsAt(host, o, keys[i])
    ensures Concat(parts) == CandidatesBelow(host, Obj(o), keys)
    decreases keys
  {
    hide Candidates;
    if keys != [] {
      CallsOfKeys(host, o, keys[1..], parts[1..]);
    }
  }

  /** The extractor finds the calls that a payload carries, in one order. */
  lemma {:induction false} CandidatesIff(host: Host, j: Json, cs: seq<Fields>)
    ensures CarriesCalls(host, j, cs) <==> cs == Candidates(host, j)
    decreases j
  {
    match j {
      case Arr(items) =>
        forall i, t: seq<Fields> | 0 <= i < |items| ensures CarriesCalls(host, items[i], t) <==> t == Candidates(host, items[i]) {
          CandidatesIff(host, items[i], t);
        }
        ListCalls(host, items, cs);
      case Obj(o) =>
        forall key, t: seq<Fields> | key in o ensures CarriesCalls(host, o[key], t) <==> t == Candidates(host, o[key]) {
          CandidatesIff(host, o[key], t);
        }
        DictionaryCalls(host, o, cs);
      case _ =>
    }
  }

  lemma ListCalls(host: Host, items: seq<Json>, cs: seq<Fields>)
    requires forall i, t: seq<Fields> :: 0 <= i < |items| ==> (CarriesCalls(host, items[i], t) <==> t == Candidates(host, items[i]))
    ensures CarriesCalls(host, Arr(items), cs) <==> cs == Candidates(host, Arr(items))
  {
    var parts := seq(|items|, i requires 0 <= i < |items| => Candidates(host, items[i]));
    CallsOfItems(host, items, parts);
    assert Candidates(host, Arr(items)) == Concat(parts);
    hide Candidates, CandidatesOfAll, Concat;
    if CarriesCalls(host, Arr(items), cs) {
      var ts: seq<seq<Fields>> :| |ts| == |items| && cs == Concat(ts) && forall i :: 0 <= i < |items| ==> CarriesCalls(host, items[i], ts[i]);
      assert ts == parts;
    }
    if cs == Concat(parts) {
      assert forall i :: 0 <= i < |items| ==> CarriesCalls(host, items[i], parts[i]);
    }
  }

  /** The calls found at the keys. */
  ghost predicate CarriedAt(host: Host, o: Fields, keys: seq<string>, parts: seq<seq<Fields>>) {
    |parts| == |keys| && forall i :: 0 <= i < |keys| ==> if keys[i] in o then CarriesCalls(host, o[keys[i]], parts[i]) else parts[i] == []
  }

  lemma CarriesBelow(host: Host, o: Fields, cs: seq<Fields>)
    ensures CarriesCalls(host, Obj(o), cs) <==>
            exists own, parts :: CarriedAt(host, o, ["content", "output", "message", "delta"], parts) && OwnCalls(host, o, own) && cs == own + Concat(parts)
  {
    hide OwnCalls, Concat;
    var keys := ["content", "output", "message", "delta"];
    if CarriesCalls(host, Obj(o), cs) {
      var own: seq<Fields>, parts: seq<seq<Fields>> :|
        && |parts| == 4 && cs == own + Concat(parts) && OwnCalls(host, o, own)
        && forall i :: 0 <= i < 4 ==>
             if ["content", "output", "message", "delta"][i] in o then CarriesCalls(host, o[["content", "output", "message", "delta"][i]], parts[i])
             else parts[i] == [];
      assert CarriedAt(host, o, keys, parts);
    }
    if own, parts :| CarriedAt(host, o, keys, parts) && OwnCalls(host, o, own) && cs == own + Concat(parts) {
      assert |parts| == 4;
    }
  }

  lemma CarriedAtIs(host: Host, o: Fields, keys: seq<string>) returns (parts: seq<seq<Fields>>)
    requires forall key, t: seq<Fields> :: key in o ==> (CarriesCalls(host, o[key], t) <==> t == Candidates(host, o[key]))
    ensures |parts| == |keys| && forall i :: 0 <= i < |keys| ==> parts[i] == CallsAt(host, o, keys[i])
    ensures forall ts :: CarriedAt(host, o, keys, ts) <==> ts == parts
  {
    parts := seq(|keys|, i requires 0 <= i < |keys| => CallsAt(host, o, keys[i]));
    hide Candidates;
    forall ts ensures CarriedAt(host, o, keys, ts) <==> ts == parts {
      if CarriedAt(host, o, keys, ts) {
        assert forall i :: 0 <= i < |ts| ==> ts[i] == parts[i];
      }
    }
  }

  lemma DictionaryCalls(host: Host, o: Fields, cs: seq<Fields>)
    requires forall key, t: seq<Fields> :: key in o ==> (CarriesCalls(host, o[key], t) <==> t == Candidates(host, o[key]))
    ensures CarriesCalls(host, Obj(o), cs) <==> cs == Candidates(host, Obj(o))
  {
    var keys := ["content", "output", "message", "delta"];
    var parts := CarriedAtIs(host, o, keys);
    CallsOfKeys(host, o, keys, parts);
    CarriesBelow(host, o, cs);
    var own := (if Get(o, "tool_calls").Arr? then Dicts(Get(o, "tool_calls").items) else [])
               + if PayloadType(host, o) in {"function_call", "tool_call", "tool_use"} then [TypedCall(host, o)] else [];
    forall c ensures OwnCalls(host, o, c) <==> c == own {
      OwnCallsIff(host, o, c);
    }
    assert Candidates(host, Obj(o)) == own + Concat(parts);
    assert CarriedAt(host, o, keys, parts) && OwnCalls(host, o, own);
    hide Candidates, CandidatesBelow, Concat, OwnCalls, Dicts, PayloadType, TypedCall, Get, CarriedAt, CarriesCalls;
  }
}
