/**
 The result read from a response body, field by field in terms of the body.
 */
module ResultReading {
  import opened Text
  import opened Payloads
  import opened PayloadReading
  import opened ResponseReading
  import opened ProviderResults
  import EmbeddedCalls
  import ToolAliases
  import StreamReader

  /** The message of a choice, which may be missing or false. */
  ghost predicate MessageIs(choice: Fields, message: Fields) {
    if Get(choice, "message").Obj? then Get(choice, "message") == Obj(message) else !Truthy(Get(choice, "message")) && message == map[]
  }

  /** The text of the first of the values that holds any. */
  ghost predicate FirstHeld(host: Host, js: seq<Json>, s: string) {
    exists texts: seq<string> :: |texts| == |js| && FirstNonEmpty(texts, s) && forall i :: 0 <= i < |js| ==> HoldsText(host, js[i], texts[i])
  }

  /** The name a tool was sent under stands for its original name; any other name for itself. */
  ghost predicate Original(aliases: Aliases, name: string, original: string) {
    if name in aliases.Keys then original == aliases[name] else original == name
  }

  ghost predicate ArgumentsShown(host: Host, j: Json, shown: string) {
    exists text :: (if Truthy(j) then Shows(host, j, text) else text == "{}") && shown == if Strip(text) == "" then "{}" else Strip(text)
  }

  /** What is reported of a call. */
  ghost predicate Reported(host: Host, aliases: Aliases, call: Fields, r: ResultCall) {
    var inner := if Get(call, "function").Obj? then Get(call, "function").fields else map[];
    && FirstShown(host, [Get(call, "id")], r.id)
    && (if Truthy(Get(call, "type")) then Shows(host, Get(call, "type"), r.kind) else r.kind == "function")
    && (exists name :: NameIs(host, Get(inner, "name"), name) && Original(aliases, name, r.name))
    && ArgumentsShown(host, Get(inner, "arguments"), r.argumentsText)
  }

  ghost predicate AllReported(host: Host, aliases: Aliases, calls: seq<Fields>, rs: seq<ResultCall>) {
    |rs| == |calls| && forall i :: 0 <= i < |rs| ==> Reported(host, aliases, calls[i], rs[i])
  }

  /** What is reported of a call tagged in the text. */
  ghost predicate TaggedReported(reader: Reader, aliases: Aliases, call: EmbeddedCalls.Call, r: ResultCall) {
    && r.id == None && r.kind == "function" && Original(aliases, Strip(call.name), r.name)
    && ArgumentsShown(reader.host, Str(reader.dumps(call.arguments)), r.argumentsText)
  }

  /** No payload up to the one at `k` carries a call. */
  ghost predicate NoCallsBefore(host: Host, js: seq<Json>, k: nat)
    requires k <= |js|
  {
    forall i :: 0 <= i < k ==> CarriesCalls(host, js[i], [])
  }

  /** The calls of the first payload that carries any, else those tagged in the text. */
  ghost predicate CallsReported(reader: Reader, aliases: Aliases, js: seq<Json>, tagged: seq<EmbeddedCalls.Call>, rs: seq<ResultCall>) {
    || (exists k, calls :: 0 <= k < |js| && NoCallsBefore(reader.host, js, k) && CarriesCalls(reader.host, js[k], calls) && calls != []
                           && AllReported(reader.host, aliases, calls, rs))
    || (NoCallsBefore(reader.host, js, |js|) && |rs| == |tagged|
        && forall i :: 0 <= i < |rs| ==> TaggedReported(reader, aliases, tagged[i], rs[i]))
  }

  /** Every field of the result read from a body with this choice and message. */
  ghost predicate ResultRead(reader: Reader, aliases: Aliases, raw: Fields, choice: Fields, message: Fields, r: Result) {
    && (exists output ::
          && FirstHeld(reader.host, [Get(message, "content"), Get(message, "output_text"), Get(choice, "output_text"), Get(raw, "output_text"),
                                     Get(raw, "output"), Get(choice, "delta")], output)
          && r.text == EmbeddedCalls.Extract(reader.loads, output).0
          && CallsReported(reader, aliases, [Obj(message), Obj(choice), Obj(raw)], EmbeddedCalls.Extract(reader.loads, output).1, r.calls))
    && FirstHeld(reader.host, [Get(message, "reasoning_content"), Get(choice, "reasoning_content"), Get(raw, "reasoning_content")], r.reasoning)
    && FirstTrue([Get(choice, "finish_reason"), Str("stop")], r.finishReason)
  }

  // ---------- Proofs ----------

  lemma {:induction false} FirstHeldIs(host: Host, js: seq<Json>) returns (texts: seq<string>)
    ensures |texts| == |js| && FirstNonEmpty(texts, FirstTextIn(host, js)) && forall i :: 0 <= i < |js| ==> HoldsText(host, js[i], texts[i])
  {
    if js == [] {
      texts := [];
    } else {
      var rest := FirstHeldIs(host, js[1..]);
      var first := ExtractText(host, js[0]);
      ExtractTextIff(host, js[0], first);
      texts := [first] + rest;
      assert texts[1..] == rest;
      assert FirstTextIn(host, js) == if first != "" then first else FirstTextIn(host, js[1..]);
      hide FirstTextIn, ExtractText, HoldsText, FirstNonEmpty;
      FirstOf(texts, FirstTextIn(host, js));
      forall i | 0 <= i < |js| ensures HoldsText(host, js[i], texts[i]) {
        if i > 0 {
          assert js[i] == js[1..][i - 1] && texts[i] == rest[i - 1];
        }
      }
    }
  }

  lemma OriginalIs(aliases: Aliases, name: string)
    ensures Original(aliases, name, ToolAliases.Decode(aliases, name))
  {
  }

  lemma ArgumentsShownIs(host: Host, j: Json)
    ensures ArgumentsShown(host, j, Shown(TextOr(host, j, "{}")))
  {
    hide Truthy, Strip;
    var text := TextOr(host, j, "{}");
    assert if Truthy(j) then Shows(host, j, text) else text == "{}";
  }

  lemma OneShown(host: Host, j: Json)
    ensures FirstShown(host, [j], StreamReader.TruthyText(host, j))
  {
    hide Truthy;
    var js := [j];
    assert js[0] == j;
    if Truthy(j) {
      assert Truthy(js[0]) && Shows(host, js[0], StrOf(host, j));
    }
  }

  lemma CallIsReported(host: Host, aliases: Aliases, call: Fields)
    ensures Reported(host, aliases, call, CallOf(host, aliases, call))
  {
    var inner := SubObject(call, "function");
    var name := Strip(TextOr(host, Get(inner, "name"), ""));
    OneShown(host, Get(call, "id"));
    NameIff(host, Get(inner, "name"), name);
    OriginalIs(aliases, name);
    ArgumentsShownIs(host, Get(inner, "arguments"));
    assert if Truthy(Get(call, "type")) then Shows(host, Get(call, "type"), TextOr(host, Get(call, "type"), "function"))
           else TextOr(host, Get(call, "type"), "function") == "function";
    assert inner == if Get(call, "function").Obj? then Get(call, "function").fields else map[];
    hide Truthy, TextOr, Strip, Get, FirstShown, NameIs, Original, ArgumentsShown, Shows, StreamReader.TruthyText, ToolAliases.Decode;
  }

  lemma TaggedIsReported(reader: Reader, aliases: Aliases, call: EmbeddedCalls.Call)
    ensures TaggedReported(reader, aliases, call, CallOf(reader.host, aliases, TaggedCall(reader.dumps, call)))
  {
    TaggedDecodes(reader, aliases, call);
    OriginalIs(aliases, Strip(call.name));
    ArgumentsShownIs(reader.host, Str(reader.dumps(call.arguments)));
    hide CallOf, TaggedCall, Original, ArgumentsShown, ToolAliases.Decode, Strip;
    EmptyArguments(reader.host, reader.dumps(call.arguments));
  }

  lemma EmptyArguments(host: Host, text: string)
    ensures Shown(TextOr(host, Str(text), "{}")) == Shown(text)
  {
    StripTrimmed("{}");
    StripTrimmed("");
    hide Strip;
  }

  lemma CallsAreReported(reader: Reader, aliases: Aliases, raw: Fields, choice: Fields, tagged: seq<EmbeddedCalls.Call>)
    ensures var message := SubObject(choice, "message");
            CallsReported(reader, aliases, [Obj(message), Obj(choice), Obj(raw)], tagged,
                          CallsOf(reader.host, aliases, RawCalls(reader.host, raw, choice, TaggedCalls(reader.dumps, tagged))))
  {
    var host, js := reader.host, [Obj(SubObject(choice, "message")), Obj(choice), Obj(raw)];
    var calls := RawCalls(host, raw, choice, TaggedCalls(reader.dumps, tagged));
    var rs := CallsOf(host, aliases, calls);
    assert js[0] == Obj(SubObject(choice, "message")) && js[1] == Obj(choice) && js[2] == Obj(raw);
    forall k, cs | 0 <= k < 3 ensures CarriesCalls(host, js[k], cs) <==> cs == Candidates(host, js[k]) {
      CandidatesIff(host, js[k], cs);
    }
    forall i | 0 <= i < |rs| ensures Reported(host, aliases, calls[i], rs[i]) {
      CallIsReported(host, aliases, calls[i]);
    }
    hide Candidates, CarriesCalls, Reported, CallOf, TaggedCall, TaggedReported;
    if k :| 0 <= k < 3 && Candidates(host, js[k]) != [] && forall i :: 0 <= i < k ==> Candidates(host, js[i]) == [] {
      assert calls == Candidates(host, js[k]) && NoCallsBefore(host, js, k) && AllReported(host, aliases, calls, rs);
    } else {
      NoneFound(host, js);
      assert calls == TaggedCalls(reader.dumps, tagged) && NoCallsBefore(host, js, 3);
      forall i | 0 <= i < |rs| ensures TaggedReported(reader, aliases, tagged[i], rs[i]) {
        TaggedIsReported(reader, aliases, tagged[i]);
      }
    }
  }

  lemma NoneFound(host: Host, js: seq<Json>)
    requires |js| == 3 && !exists k :: 0 <= k < 3 && Candidates(host, js[k]) != [] && forall i :: 0 <= i < k ==> Candidates(host, js[i]) == []
    ensures Candidates(host, js[0]) == Candidates(host, js[1]) == Candidates(host, js[2]) == []
  {
    hide Candidates;
    assert forall k :: 0 <= k < 3 && Candidates(host, js[k]) != [] ==> exists i :: 0 <= i < k && Candidates(host, js[i]) != [];
  }

  lemma MessageIff(choice: Fields, message: Fields)
    ensures MessageIs(choice, message) <==>
            (Get(choice, "message").Obj? || !Truthy(Get(choice, "message"))) && message == SubObject(choice, "message")
  {
  }

  /** The body can be read exactly when its first choice is a dictionary and its message one too, or false; then every field of
      the result is what the body says. */
  lemma ResultFields(reader: Reader, aliases: Aliases, raw: Fields)
    ensures ResultOf(reader, aliases, raw).Some? <==> exists choice, message :: ChoiceIs(raw, choice) && MessageIs(choice, message)
    ensures forall choice, message :: ChoiceIs(raw, choice) && MessageIs(choice, message) ==>
              ResultOf(reader, aliases, raw).Some? && ResultRead(reader, aliases, raw, choice, message, ResultOf(reader, aliases, raw).value)
  {
    ReadableIff(raw);
    if Readable(raw) {
      ReadableIsRead(reader, aliases, raw);
    }
    forall choice, message | ChoiceIs(raw, choice) && MessageIs(choice, message)
      ensures StreamReader.FirstChoice(raw) == Some(choice) && message == SubObject(choice, "message")
    {
      ChoiceIff(raw, choice);
      MessageIff(choice, message);
    }
    assert !Readable(raw) ==> ResultOf(reader, aliases, raw) == None;
    hide ChoiceIs, MessageIs, ResultRead, ResultOf, Readable, StreamReader.FirstChoice, Truthy, SubObject, Get;
  }

  lemma ReadableIff(raw: Fields)
    ensures Readable(raw) <==> exists choice, message :: ChoiceIs(raw, choice) && MessageIs(choice, message)
  {
    if Readable(raw) {
      var choice := StreamReader.FirstChoice(raw).value;
      ChoiceIff(raw, choice);
      MessageIff(choice, SubObject(choice, "message"));
      assert ChoiceIs(raw, choice) && MessageIs(choice, SubObject(choice, "message"));
    }
    if choice, message :| ChoiceIs(raw, choice) && MessageIs(choice, message) {
      ChoiceIff(raw, choice);
      MessageIff(choice, message);
    }
    hide ChoiceIs, MessageIs, StreamReader.FirstChoice, Truthy;
  }

  lemma FirstHeldIn(host: Host, js: seq<Json>)
    ensures FirstHeld(host, js, FirstTextIn(host, js))
  {
    var texts := FirstHeldIs(host, js);
    hide FirstTextIn, FirstNonEmpty, HoldsText;
  }

  lemma TextsHeld(host: Host, raw: Fields, choice: Fields)
    ensures var message := SubObject(choice, "message");
            && FirstHeld(host, [Get(message, "content"), Get(message, "output_text"), Get(choice, "output_text"), Get(raw, "output_text"),
                                Get(raw, "output"), Get(choice, "delta")], OutputText(host, raw, choice))
            && FirstHeld(host, [Get(message, "reasoning_content"), Get(choice, "reasoning_content"), Get(raw, "reasoning_content")],
                         ReasoningText(host, raw, choice))
  {
    var message := SubObject(choice, "message");
    FirstHeldIn(host, [Get(message, "content"), Get(message, "output_text"), Get(choice, "output_text"), Get(raw, "output_text"),
                       Get(raw, "output"), Get(choice, "delta")]);
    FirstHeldIn(host, [Get(message, "reasoning_content"), Get(choice, "reasoning_content"), Get(raw, "reasoning_content")]);
    hide FirstHeld, FirstTextIn, Get, SubObject;
  }

  lemma ReadableIsRead(reader: Reader, aliases: Aliases, raw: Fields)
    requires Readable(raw)
    ensures var choice := StreamReader.FirstChoice(raw).value;
            ResultOf(reader, aliases, raw).Some?
            && ResultRead(reader, aliases, raw, choice, SubObject(choice, "message"), ResultOf(reader, aliases, raw).value)
  {
    var choice := StreamReader.FirstChoice(raw).value;
    var output := OutputText(reader.host, raw, choice);
    TextsHeld(reader.host, raw, choice);
    CallsAreReported(reader, aliases, raw, choice, EmbeddedCalls.Extract(reader.loads, output).1);
    FirstTrueOfTwo(Get(choice, "finish_reason"), Str("stop"));
    var (text, tagged) := EmbeddedCalls.Extract(reader.loads, output);
    assert ResultOf(reader, aliases, raw)
           == Some(Result(text, ReasoningText(reader.host, raw, choice), Or(Get(choice, "finish_reason"), Str("stop")),
                          CallsOf(reader.host, aliases, RawCalls(reader.host, raw, choice, TaggedCalls(reader.dumps, tagged)))));
    hide ResultOf, FirstHeld, OutputText, ReasoningText, EmbeddedCalls.Extract, CallsReported, CallsOf, RawCalls, TaggedCalls, FirstTrue, Or, Get, SubObject,
         StreamReader.FirstChoice, Truthy;
  }
}
