/**
 What the gateway's readers make of the fields of a response: every field of an
 assembled stream, and of the result read from a body, in terms of the payloads.
 */
module ResponseReading {
  import opened Text
  import opened Payloads
  import opened PayloadReading
  import opened ToolCalls
  import opened StreamReader

  // ---------- The events of a stream ----------

  /** An event: the decoded chunk, its first choice, and the delta, or the message where the delta is empty. */
  datatype Event = Event(chunk: Fields, choice: Fields, delta: Fields)

  ghost predicate ChoiceIs(chunk: Fields, choice: Fields) {
    if !Truthy(Get(chunk, "choices")) then choice == map[]
    else exists items :: Get(chunk, "choices") == Arr(items) && items != [] && items[0] == Obj(choice)
  }

  ghost predicate DeltaIs(choice: Fields, delta: Fields) {
    if exists d: Fields :: Get(choice, "delta") == Obj(d) && d != map[] then Get(choice, "delta") == Obj(delta)
    else if Get(choice, "message").Obj? then Get(choice, "message") == Obj(delta)
    else delta == map[]
  }

  ghost predicate Decodes(host: Host, payload: Bytes, e: Event) {
    host.loads(payload) == Some(Obj(e.chunk)) && ChoiceIs(e.chunk, e.choice) && DeltaIs(e.choice, e.delta)
  }


  /** One field of every chunk, choice or delta. */
  function InChunks(es: seq<Event>, key: string): (js: seq<Json>)
    ensures |js| == |es|
  {
    seq(|es|, i requires 0 <= i < |es| => Get(es[i].chunk, key))
  }

  function InChoices(es: seq<Event>, key: string): (js: seq<Json>)
    ensures |js| == |es|
  {
    seq(|es|, i requires 0 <= i < |es| => Get(es[i].choice, key))
  }

  function InDeltas(es: seq<Event>, key: string): (js: seq<Json>)
    ensures |js| == |es|
  {
    seq(|es|, i requires 0 <= i < |es| => Get(es[i].delta, key))
  }

  // ---------- What the fields of the response are ----------

  /** The last dictionary among the values, or an empty one. */
  ghost predicate LastDictionary(js: seq<Json>, o: Fields) {
    || (exists i :: 0 <= i < |js| && js[i] == Obj(o) && forall k :: i < k < |js| ==> !js[k].Obj?)
    || (o == map[] && forall k :: 0 <= k < |js| ==> !js[k].Obj?)
  }

  /** The text of the last value that is not null, with `stop` for one that is false, empty or missing. */
  ghost predicate LastReason(host: Host, js: seq<Json>, s: string) {
    || (s == "stop" && forall k :: 0 <= k < |js| ==> js[k] == Null)
    || (exists i :: 0 <= i < |js| && ReasonIs(host, js[i], s) && forall k :: i < k < |js| ==> js[k] == Null)
  }

  ghost predicate ReasonIs(host: Host, j: Json, s: string) {
    j != Null && if !Truthy(j) || Shows(host, j, "") then s == "stop" else Shows(host, j, s)
  }

  /** The texts of the values, one after the other. */
  ghost predicate Texts(host: Host, js: seq<Json>, s: string) {
    exists texts: seq<string> :: |texts| == |js| && s == Concat(texts) && forall i :: 0 <= i < |js| ==> HoldsText(host, js[i], texts[i])
  }

  /** A raw call that says nothing at all. */
  ghost predicate SaysNothing(host: Host, raw: Fields) {
    var inner := if Get(raw, "function").Obj? then Get(raw, "function").fields else map[];
    && NameIs(host, Get(inner, "name"), "")
    && Get(inner, "arguments") == Get(raw, "arguments") == Get(raw, "input") == Null
    && Get(raw, "id") == Get(raw, "call_id") == Get(raw, "index") == Null
  }

  ghost predicate NameIs(host: Host, j: Json, name: string) {
    exists text :: name == Strip(text) && if Truthy(j) then Shows(host, j, text) else text == ""
  }

  /** The text of a type, with `function` for none; an empty text leaves the type as it was. */
  ghost predicate KindIs(host: Host, j: Json, kind: Option<string>) {
    exists text :: (if Truthy(j) then Shows(host, j, text) else text == "function") && kind == if text == "" then None else Some(text)
  }

  /** The text of the first of the values that is not null. */
  ghost predicate GivenText(host: Host, js: seq<Json>, text: string) {
    exists j :: FirstGiven(js, j) && if j == Null then text == "" else Shows(host, j, text)
  }

  /** What a raw call contributes. */
  ghost predicate DeltaRead(host: Host, raw: Fields, d: Delta) {
    var inner := if Get(raw, "function").Obj? then Get(raw, "function").fields else map[];
    && Counts(host, Get(raw, "index"), d.index)
    && FirstShown(host, [Get(raw, "id"), Get(raw, "call_id")], d.id)
    && KindIs(host, Get(raw, "type"), d.kind)
    && NameIs(host, Get(inner, "name"), d.name)
    && GivenText(host, [Get(inner, "arguments"), Get(raw, "arguments"), Get(raw, "input")], d.arguments)
  }

  /** The raw calls that say something, in order. */
  ghost predicate DeltasRead(host: Host, raws: seq<Fields>, ds: seq<Delta>)
    decreases raws
  {
    if raws == [] then ds == []
    else
      var front, last := raws[..|raws| - 1], raws[|raws| - 1];
      if SaysNothing(host, last) then DeltasRead(host, front, ds)
      else ds != [] && DeltaRead(host, last, ds[|ds| - 1]) && DeltasRead(host, front, ds[..|ds| - 1])
  }

  /** The calls carried by the deltas, merged and read out. */
  ghost predicate CallsRead(host: Host, es: seq<Event>, calls: seq<ToolCall>) {
    exists raws: seq<seq<Fields>>, ds: seq<Delta> ::
      && |raws| == |es| && (forall i :: 0 <= i < |es| ==> CarriesCalls(host, Obj(es[i].delta), raws[i]))
      && DeltasRead(host, Concat(raws), ds) && calls == ReadOut(MergeAll(map[], ds))
  }

  /** Every field of a response assembled from the events. */
  ghost predicate ResponseRead(host: Host, es: seq<Event>, r: Response) {
    && FirstShown(host, InChunks(es, "id"), r.id)
    && FirstShown(host, InChunks(es, "model"), r.model)
    && LastDictionary(InChunks(es, "usage"), r.usage)
    && LastReason(host, InChoices(es, "finish_reason"), r.finishReason)
    && Texts(host, InDeltas(es, "content"), r.content)
    && Texts(host, InDeltas(es, "reasoning_content"), if r.reasoning.Some? then r.reasoning.value else "")
    && r.reasoning != Some("")
    && CallsRead(host, es, r.toolCalls)
    && r.chunkCount == |es|
  }

  // ---------- One event ----------

  function UpdateOf(host: Host, e: Event): Update {
    Update(TruthyText(host, Get(e.chunk, "id")), TruthyText(host, Get(e.chunk, "model")),
           if Get(e.chunk, "usage").Obj? then Some(Get(e.chunk, "usage").fields) else None,
           ExtractText(host, Get(e.delta, "content")), ExtractText(host, Get(e.delta, "reasoning_content")), Candidates(host, Obj(e.delta)),
           if Get(e.choice, "finish_reason") != Null then Some(TextOr(host, Get(e.choice, "finish_reason"), "stop")) else None)
  }

  lemma ChoiceIff(chunk: Fields, choice: Fields)
    ensures ChoiceIs(chunk, choice) <==> FirstChoice(chunk) == Some(choice)
  {
    hide Truthy;
    var choices := Get(chunk, "choices");
    assert choices == Arr([]) ==> !Truthy(choices) by { FalsyIff(choices); }
    if Truthy(choices) && choices.Arr? {
      assert Get(chunk, "choices") == Arr(choices.items);
    }
  }

  lemma DeltaIff(choice: Fields, delta: Fields)
    ensures DeltaIs(choice, delta) <==> DeltaPayload(choice) == delta
  {
    var d := Get(choice, "delta");
    if d.Obj? && d.fields != map[] {
      assert Get(choice, "delta") == Obj(d.fields);
    }
  }

  lemma DecodesIff(host: Host, payload: Bytes, e: Event)
    requires Decodes(host, payload, e)
    ensures Decode(host, payload) == Some(UpdateOf(host, e))
  {
    ChoiceIff(e.chunk, e.choice);
    DeltaIff(e.choice, e.delta);
    hide FirstChoice, DeltaPayload, ChoiceIs, DeltaIs, ExtractText, Candidates, TextOr, TruthyText;
  }

  /** An event can be read exactly when its payload decodes to a dictionary whose first choice is one. */
  lemma DecodableIff(host: Host, payload: Bytes)
    ensures Decode(host, payload).Some? <==> exists e :: Decodes(host, payload, e)
  {
    if e :| Decodes(host, payload, e) {
      DecodesIff(host, payload, e);
    }
    if Decode(host, payload).Some? {
      var chunk := host.loads(payload).value.fields;
      var choice := FirstChoice(chunk).value;
      ChoiceIff(chunk, choice);
      DeltaIff(choice, DeltaPayload(choice));
      assert Decodes(host, payload, Event(chunk, choice, DeltaPayload(choice)));
    }
  }

  function Updates(host: Host, es: seq<Event>): (us: seq<Update>)
    ensures |us| == |es|
  {
    seq(|es|, i requires 0 <= i < |es| => UpdateOf(host, es[i]))
  }

  lemma {:induction false} AllDecode(host: Host, payloads: seq<Bytes>, es: seq<Event>)
    requires |payloads| == |es| && forall i :: 0 <= i < |es| ==> Decodes(host, payloads[i], es[i])
    ensures DecodeAll(host, payloads) == Some(Updates(host, es))
  {
    hide Decode, UpdateOf, Decodes;
    if es != [] {
      AllDecode(host, payloads[1..], es[1..]);
      DecodesIff(host, payloads[0], es[0]);
      assert [UpdateOf(host, es[0])] + Updates(host, es[1..]) == Updates(host, es);
    }
  }

  // ---------- All events ----------

  function ShownTexts(host: Host, js: seq<Json>): (ts: seq<Option<string>>)
    ensures |ts| == |js|
  {
    seq(|js|, i requires 0 <= i < |js| => TruthyText(host, js[i]))
  }

  lemma {:induction false} FirstShownIs(host: Host, js: seq<Json>)
    ensures FirstShown(host, js, FirstSome(ShownTexts(host, js)))
  {
    hide Truthy;
    if js != [] {
      FirstShownIs(host, js[1..]);
      assert ShownTexts(host, js)[1..] == ShownTexts(host, js[1..]);
      var t := FirstSome(ShownTexts(host, js));
      if Truthy(js[0]) {
        assert Shows(host, js[0], t.value);
      } else {
        hide Shows, ShownTexts, FirstSome, TruthyText;
        FirstShownLater(host, js, t);
      }
    }
  }

  lemma FirstShownLater(host: Host, js: seq<Json>, t: Option<string>)
    requires js != [] && !Truthy(js[0]) && FirstShown(host, js[1..], t)
    ensures FirstShown(host, js, t)
  {
    hide Truthy, Shows;
    assert forall k :: 1 <= k < |js| ==> js[k] == js[1..][k - 1];
    if t.Some? {
      var i :| 0 <= i < |js[1..]| && Truthy(js[1..][i]) && Shows(host, js[1..][i], t.value) && forall k :: 0 <= k < i ==> !Truthy(js[1..][k]);
      assert js[i + 1] == js[1..][i] && forall k :: 0 <= k < i + 1 ==> !Truthy(js[k]);
    }
  }

  function Dictionaries(js: seq<Json>): (os: seq<Option<Fields>>)
    ensures |os| == |js|
  {
    seq(|js|, i requires 0 <= i < |js| => if js[i].Obj? then Some(js[i].fields) else None)
  }

  lemma {:induction false} LastDictionaryIs(js: seq<Json>)
    ensures var o := LastSome(Dictionaries(js)); LastDictionary(js, if o.Some? then o.value else map[])
  {
    if js != [] {
      var n := |js| - 1;
      LastDictionaryIs(js[..n]);
      assert Dictionaries(js)[..n] == Dictionaries(js[..n]);
      if js[n].Obj? {
        assert js[n] == Obj(js[n].fields);
      }
    }
  }

  function Reasons(host: Host, js: seq<Json>): (ts: seq<Option<string>>)
    ensures |ts| == |js|
  {
    seq(|js|, i requires 0 <= i < |js| => if js[i] != Null then Some(TextOr(host, js[i], "stop")) else None)
  }

  lemma {:induction false} LastReasonIs(host: Host, js: seq<Json>)
    ensures var t := LastSome(Reasons(host, js)); LastReason(host, js, if t.Some? && t.value != "" then t.value else "stop")
  {
    if js != [] {
      var n := |js| - 1;
      LastReasonIs(host, js[..n]);
      assert Reasons(host, js)[..n] == Reasons(host, js[..n]);
      hide Truthy;
      var t := LastSome(Reasons(host, js));
      if js[n] != Null {
        assert ReasonIs(host, js[n], if t.Some? && t.value != "" then t.value else "stop");
      } else {
        hide ReasonIs, Reasons, LastSome;
        LastReasonBefore(host, js, if t.Some? && t.value != "" then t.value else "stop");
      }
    }
  }

  lemma LastReasonBefore(host: Host, js: seq<Json>, s: string)
    requires js != [] && js[|js| - 1] == Null && LastReason(host, js[..|js| - 1], s)
    ensures LastReason(host, js, s)
  {
    hide ReasonIs;
    var front := js[..|js| - 1];
    if i :| 0 <= i < |front| && ReasonIs(host, front[i], s) && forall k :: i < k < |front| ==> front[k] == Null {
      assert js[i] == front[i] && forall k :: i < k < |js| - 1 ==> js[k] == front[k];
    }
  }

  function Extracted(host: Host, js: seq<Json>): (texts: seq<string>)
    ensures |texts| == |js|
  {
    seq(|js|, i requires 0 <= i < |js| => ExtractText(host, js[i]))
  }

  lemma TextsAre(host: Host, js: seq<Json>)
    ensures Texts(host, js, Concat(Extracted(host, js)))
  {
    hide ExtractText, HoldsText, Concat;
    var texts := Extracted(host, js);
    forall i | 0 <= i < |js| ensures HoldsText(host, js[i], texts[i]) {
      ExtractTextIff(host, js[i], texts[i]);
    }
  }

  // ---------- Calls ----------

  lemma NameIff(host: Host, j: Json, name: string)
    ensures NameIs(host, j, name) <==> name == Strip(TextOr(host, j, ""))
  {
    hide Strip, Truthy;
    var text := TextOr(host, j, "");
    assert if Truthy(j) then Shows(host, j, text) else text == "";
  }

  lemma FirstGivenOfThree(a: Json, b: Json, c: Json)
    ensures FirstGiven([a, b, c], if a != Null then a else if b != Null then b else c)
  {
    var js := [a, b, c];
    assert js[0] == a && js[1] == b && js[2] == c;
  }

  lemma SaysNothingIff(host: Host, raw: Fields)
    ensures SaysNothing(host, raw) <==> Normalized(host, raw).None?
  {
    NameIff(host, Get(SubObject(raw, "function"), "name"), "");
    hide NameIs, Strip, TextOr, Truthy;
  }

  /** The normalised call says of each part what the raw call says. */
  lemma NormalizedParts(host: Host, raw: Fields)
    requires Normalized(host, raw).Some?
    ensures var inner := SubObject(raw, "function");
            var call := Normalized(host, raw).value;
            var given := if Get(inner, "arguments") != Null then Get(inner, "arguments")
                         else if Get(raw, "arguments") != Null then Get(raw, "arguments") else Get(raw, "input");
            && Get(call, "id") == Or(Get(raw, "id"), Get(raw, "call_id")) && Get(call, "index") == Get(raw, "index")
            && Get(call, "type") == Str(TextOr(host, Get(raw, "type"), "function"))
            && Get(call, "function") == Obj(map["name" := Str(Strip(TextOr(host, Get(inner, "name"), ""))),
                                                "arguments" := if given != Null then given else Str("")])
            && Get(call, "call_id") == Get(call, "name") == Get(call, "tool_name") == Get(call, "function_name") == Null
  {
    hide Or, TextOr, Strip;
  }

  lemma DeltaParts(host: Host, call: Fields, id: Json, index: Json, kind: string, name: string, arguments: Json)
    requires Get(call, "id") == id && Get(call, "index") == index && Get(call, "type") == Str(kind)
    requires Get(call, "function") == Obj(map["name" := Str(name), "arguments" := arguments]) && arguments != Null
    requires Get(call, "call_id") == Get(call, "name") == Get(call, "tool_name") == Get(call, "function_name") == Null
    ensures DeltaOf(host, call) == Delta(AsInt(host, index), if Truthy(id) then Some(StrOf(host, id)) else None,
                                         if kind != "" then Some(kind) else None, name, StrOf(host, arguments))
  {
    var inner := SubObject(call, "function");
    assert inner == map["name" := Str(name), "arguments" := arguments];
    assert Get(inner, "name") == Str(name) && Get(inner, "arguments") == arguments;
    hide Get, SubObject, AsInt;
  }

  lemma KindRead(host: Host, j: Json)
    ensures var text := TextOr(host, j, "function"); KindIs(host, j, if text != "" then Some(text) else None)
  {
    hide Truthy;
    var text := TextOr(host, j, "function");
    assert if Truthy(j) then Shows(host, j, text) else text == "function";
  }

  lemma GivenRead(host: Host, a: Json, b: Json, c: Json)
    ensures var given := if a != Null then a else if b != Null then b else c;
            GivenText(host, [a, b, c], StrOf(host, if given != Null then given else Str("")))
  {
    FirstGivenOfThree(a, b, c);
    hide FirstGiven;
    var given := if a != Null then a else if b != Null then b else c;
    assert given != Null ==> Shows(host, given, StrOf(host, given));
  }

  lemma DeltaIsRead(host: Host, raw: Fields)
    requires Normalized(host, raw).Some?
    ensures DeltaRead(host, raw, DeltaOf(host, Normalized(host, raw).value))
  {
    var inner := SubObject(raw, "function");
    var a, b, c := Get(inner, "arguments"), Get(raw, "arguments"), Get(raw, "input");
    var given := if a != Null then a else if b != Null then b else c;
    var kind, name := TextOr(host, Get(raw, "type"), "function"), Strip(TextOr(host, Get(inner, "name"), ""));
    var id := Or(Get(raw, "id"), Get(raw, "call_id"));
    NormalizedParts(host, raw);
    DeltaParts(host, Normalized(host, raw).value, id, Get(raw, "index"), kind, name, if given != Null then given else Str(""));
    CountsIff(host, Get(raw, "index"), AsInt(host, Get(raw, "index")));
    NameIff(host, Get(inner, "name"), name);
    KindRead(host, Get(raw, "type"));
    GivenRead(host, a, b, c);
    var ids := [Get(raw, "id"), Get(raw, "call_id")];
    ShownInTwo(host, ids);
    assert inner == if Get(raw, "function").Obj? then Get(raw, "function").fields else map[];
    hide Normalized, DeltaOf, NameIs, KindIs, GivenText, FirstShown, Counts, AsInt, Truthy, Strip, Get, TextOr, Or, StrOf;
    assert id == Or(ids[0], ids[1]);
  }

  lemma {:induction false} StreamedCallsRead(host: Host, raws: seq<Fields>)
    ensures DeltasRead(host, raws, StreamedCalls(host, raws))
    decreases raws
  {
    hide Normalized, DeltaOf, SaysNothing, DeltaRead;
    if raws != [] {
      var front, last := raws[..|raws| - 1], raws[|raws| - 1];
      StreamedCallsRead(host, front);
      StreamedCallsAppend(host, front, [last]);
      assert front + [last] == raws;
      SaysNothingIff(host, last);
      var more := StreamedCalls(host, [last]);
      assert [last][1..] == [];
      if Normalized(host, last).Some? {
        DeltaIsRead(host, last);
        assert more == [DeltaOf(host, Normalized(host, last).value)] + [];
      } else {
        assert more == [] + [];
        assert StreamedCalls(host, front) + [] == StreamedCalls(host, front);
      }
      hide StreamedCalls;
    }
  }

  function CarriedBy(host: Host, es: seq<Event>): (raws: seq<seq<Fields>>)
    ensures |raws| == |es|
  {
    seq(|es|, i requires 0 <= i < |es| => Candidates(host, Obj(es[i].delta)))
  }

  lemma CallsAreRead(host: Host, es: seq<Event>)
    ensures CallsRead(host, es, ReadOut(MergeAll(map[], StreamedCalls(host, Concat(CarriedBy(host, es))))))
  {
    hide Candidates, CarriesCalls, Concat, DeltasRead, StreamedCalls, ReadOut, MergeAll;
    var raws := CarriedBy(host, es);
    forall i | 0 <= i < |es| ensures CarriesCalls(host, Obj(es[i].delta), raws[i]) {
      CandidatesIff(host, Obj(es[i].delta), raws[i]);
    }
    StreamedCallsRead(host, Concat(raws));
  }

  // ---------- The whole response ----------

  lemma ColumnsOf(host: Host, es: seq<Event>)
    ensures var us := Updates(host, es);
            && Map((u: Update) => u.id, us) == ShownTexts(host, InChunks(es, "id"))
            && Map((u: Update) => u.model, us) == ShownTexts(host, InChunks(es, "model"))
            && Map((u: Update) => u.usage, us) == Dictionaries(InChunks(es, "usage"))
            && Map((u: Update) => u.finish, us) == Reasons(host, InChoices(es, "finish_reason"))
            && Map((u: Update) => u.content, us) == Extracted(host, InDeltas(es, "content"))
            && Map((u: Update) => u.reasoning, us) == Extracted(host, InDeltas(es, "reasoning_content"))
            && Map((u: Update) => u.raws, us) == CarriedBy(host, es)
  {
    hide TruthyText, TextOr, ExtractText, Candidates, Get;
  }

  lemma ResponseIsRead(host: Host, es: seq<Event>)
    ensures ResponseRead(host, es, ResponseOf(host, Updates(host, es)))
  {
    ColumnsOf(host, es);
    FirstShownIs(host, InChunks(es, "id"));
    FirstShownIs(host, InChunks(es, "model"));
    LastDictionaryIs(InChunks(es, "usage"));
    LastReasonIs(host, InChoices(es, "finish_reason"));
    TextsAre(host, InDeltas(es, "content"));
    TextsAre(host, InDeltas(es, "reasoning_content"));
    CallsAreRead(host, es);
    hide Map, ShownTexts, Dictionaries, Reasons, Extracted, CarriedBy, InChunks, InChoices, InDeltas, FirstSome, LastSome, Concat, Updates,
         FirstShown, LastDictionary, LastReason, Texts, CallsRead, StreamedCalls, ReadOut, MergeAll;
  }

  /** Whatever lines a stream comes in, if its payloads decode to the events, every field of the response is what the events say. */
  lemma StreamFields(host: Host, lines: seq<Bytes>, es: seq<Event>)
    requires Stop(lines) < |lines| ==> Kind(lines[Stop(lines)]).Done?
    requires var payloads := EventPayloads(lines[..Stop(lines)]);
             |payloads| == |es| && forall i :: 0 <= i < |es| ==> Decodes(host, payloads[i], es[i])
    ensures exists r :: Meaning(host, lines) == Streamed(r) && ResponseRead(host, es, r)
  {
    hide Kind, Decodes, ResponseRead, ResponseOf, EventPayloads, DecodeAll, Updates;
    AllDecode(host, EventPayloads(lines[..Stop(lines)]), es);
    ResponseIsRead(host, es);
    assert [] + Updates(host, es) == Updates(host, es);
    assert Meaning(host, lines) == Streamed(ResponseOf(host, Updates(host, es)));
  }

  /** What merging a raw call adds to its entry, also for one that was not normalised. */
  lemma RawDeltaSays(host: Host, raw: Fields)
    ensures var d := DeltaOf(host, raw);
            var inner := if Get(raw, "function").Obj? then Get(raw, "function").fields else map[];
            && Counts(host, Get(raw, "index"), d.index)
            && FirstShown(host, [Get(raw, "id"), Get(raw, "call_id")], d.id)
            && FirstShown(host, [Get(raw, "type")], d.kind)
            && (exists name :: FirstTrue([Get(inner, "name"), Get(raw, "name"), Get(raw, "tool_name"), Get(raw, "function_name")], name)
                               && if Truthy(name) then Shows(host, name, d.name) else d.name == "")
            && GivenText(host, [Get(inner, "arguments"), Get(raw, "arguments"), Get(raw, "input")], d.arguments)
  {
    var inner := SubObject(raw, "function");
    var a, b, c := Get(inner, "arguments"), Get(raw, "arguments"), Get(raw, "input");
    var ids, kinds := [Get(raw, "id"), Get(raw, "call_id")], [Get(raw, "type")];
    CountsIff(host, Get(raw, "index"), AsInt(host, Get(raw, "index")));
    ShownInTwo(host, ids);
    ShownInOne(host, kinds);
    GivenRead(host, a, b, c);
    NameSays(host, Get(inner, "name"), Get(raw, "name"), Get(raw, "tool_name"), Get(raw, "function_name"));
    assert inner == if Get(raw, "function").Obj? then Get(raw, "function").fields else map[];
    assert IdPart(host, raw) == if Truthy(Or(ids[0], ids[1])) then Some(StrOf(host, Or(ids[0], ids[1]))) else None;
    hide Truthy, AsInt, StrOf, Get, Or, Counts, FirstShown, FirstTrue, GivenText, Shows;
  }

  lemma NameSays(host: Host, a: Json, b: Json, c: Json, d: Json)
    ensures var text := TextOr(host, Or(Or(Or(a, b), c), d), "");
            exists name :: FirstTrue([a, b, c, d], name) && if Truthy(name) then Shows(host, name, text) else text == ""
  {
    FirstTrueOfFour(a, b, c, d);
    var name := Or(Or(Or(a, b), c), d);
    hide Truthy, FirstTrue, Or;
    assert FirstTrue([a, b, c, d], name) && if Truthy(name) then Shows(host, name, TextOr(host, name, "")) else TextOr(host, name, "") == "";
  }
}
