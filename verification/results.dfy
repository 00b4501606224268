/**
 The result read from a response body: the text, and the tool calls with their
 original names, whether they came as calls or as tags inside the text.
 */
module ProviderResults {
  import opened Text
  import opened Payloads
  import opened ToolCalls
  import StreamReader
  import ToolAliases
  import EmbeddedCalls
  import EmbeddedRoundTrip

  type Aliases = map<string, string>

  /** `json.dumps` of the arguments of a tagged call. */
  type Dumps = seq<(string, Json)> -> string

  /** `id` is None when a fresh one is generated. */
  datatype ResultCall = ResultCall(id: Option<string>, kind: string, name: string, argumentsText: string)

  datatype Result = Result(text: string, reasoning: string, finishReason: Json, calls: seq<ResultCall>)

  /** The decoders the reader relies on. */
  datatype Reader = Reader(host: Host, loads: EmbeddedCalls.Loads, dumps: Dumps)

  // ---------- Reading a body ----------

  /** The first of the values that holds any text. */
  function FirstTextIn(host: Host, js: seq<Json>): string {
    if js == [] then "" else if ExtractText(host, js[0]) != "" then ExtractText(host, js[0]) else FirstTextIn(host, js[1..])
  }

  function OutputText(host: Host, raw: Fields, choice: Fields): string {
    var message := SubObject(choice, "message");
    FirstTextIn(host, [Get(message, "content"), Get(message, "output_text"), Get(choice, "output_text"), Get(raw, "output_text"),
                       Get(raw, "output"), Get(choice, "delta")])
  }

  function ReasoningText(host: Host, raw: Fields, choice: Fields): string {
    FirstTextIn(host, [Get(SubObject(choice, "message"), "reasoning_content"), Get(choice, "reasoning_content"), Get(raw, "reasoning_content")])
  }

  /** The payload the extractor builds for a tagged call. */
  function TaggedCall(dumps: Dumps, call: EmbeddedCalls.Call): Fields {
    map["type" := Str("function"), "function" := Obj(map["name" := Str(call.name), "arguments" := Str(dumps(call.arguments))])]
  }

  function TaggedCalls(dumps: Dumps, calls: seq<EmbeddedCalls.Call>): (t: seq<Fields>)
    ensures |t| == |calls|
  {
    seq(|calls|, i requires 0 <= i < |calls| => TaggedCall(dumps, calls[i]))
  }

  /** Calls of the message, else of the choice, else of the whole body, else those tagged in the text. */
  function RawCalls(host: Host, raw: Fields, choice: Fields, tagged: seq<Fields>): seq<Fields> {
    var ofMessage := Candidates(host, Obj(SubObject(choice, "message")));
    if ofMessage != [] then ofMessage
    else
      var ofChoice := Candidates(host, Obj(choice));
      if ofChoice != [] then ofChoice
      else
        var ofBody := Candidates(host, Obj(raw));
        if ofBody != [] then ofBody else tagged
  }

  /** Argument text as reported: stripped, and `{}` for none. */
  function Shown(arguments: string): string {
    if Strip(arguments) != "" then Strip(arguments) else "{}"
  }

  function CallOf(host: Host, aliases: Aliases, call: Fields): ResultCall {
    var inner := SubObject(call, "function");
    var arguments := Strip(TextOr(host, Get(inner, "arguments"), "{}"));
    ResultCall(StreamReader.TruthyText(host, Get(call, "id")), TextOr(host, Get(call, "type"), "function"),
               ToolAliases.Decode(aliases, Strip(TextOr(host, Get(inner, "name"), ""))), if arguments != "" then arguments else "{}")
  }

  function CallsOf(host: Host, aliases: Aliases, raws: seq<Fields>): (calls: seq<ResultCall>)
    ensures |calls| == |raws|
  {
    seq(|raws|, i requires 0 <= i < |raws| => CallOf(host, aliases, raws[i]))
  }

  /** Reading does not raise: the first choice is a dictionary, and its message one too or nothing. */
  predicate Readable(raw: Fields) {
    var choice := StreamReader.FirstChoice(raw);
    choice.Some? && (Get(choice.value, "message").Obj? || !Truthy(Get(choice.value, "message")))
  }

  /** None where reading raises. */
  function ResultOf(reader: Reader, aliases: Aliases, raw: Fields): Option<Result> {
    if !Readable(raw) then None
    else
      var choice := StreamReader.FirstChoice(raw).value;
      var (text, tagged) := EmbeddedCalls.Extract(reader.loads, OutputText(reader.host, raw, choice));
      Some(Result(text, ReasoningText(reader.host, raw, choice), Or(Get(choice, "finish_reason"), Str("stop")),
                  CallsOf(reader.host, aliases, RawCalls(reader.host, raw, choice, TaggedCalls(reader.dumps, tagged)))))
  }

  method DecodeCalls(host: Host, aliases: Aliases, raws: seq<Fields>) returns (calls: seq<ResultCall>)
    ensures calls == CallsOf(host, aliases, raws)
  {
    hide CallOf;
    calls := [];
    for k := 0 to |raws|
      invariant calls == CallsOf(host, aliases, raws[..k])
    {
      calls := calls + [CallOf(host, aliases, raws[k])];
      assert CallsOf(host, aliases, raws[..k + 1]) == calls;
    }
    assert raws[..|raws|] == raws;
  }

  /** `_result_from_raw_response`, but for its accounting. */
  method ResultFromRaw(reader: Reader, aliases: Aliases, raw: Fields) returns (r: Option<Result>)
    ensures r == ResultOf(reader, aliases, raw)
  {
    hide CallsOf, OutputText, ReasoningText, RawCalls, TaggedCalls, StreamReader.FirstChoice, EmbeddedCalls.Extract, Or, Get;
    var first := StreamReader.FirstChoice(raw);
    if first.None? {
      return None;
    }
    var choice := first.value;
    var message := Get(choice, "message");
    if Truthy(message) && !message.Obj? {
      return None;
    }
    var text, tagged := EmbeddedCalls.ExtractEmbedded(reader.loads, OutputText(reader.host, raw, choice));
    var calls := DecodeCalls(reader.host, aliases, RawCalls(reader.host, raw, choice, TaggedCalls(reader.dumps, tagged)));
    return Some(Result(text, ReasoningText(reader.host, raw, choice), Or(Get(choice, "finish_reason"), Str("stop")), calls));
  }

  // ---------- The body of a streamed response ----------

  function OptionalText(t: Option<string>): Json {
    if t.Some? then Str(t.value) else Null
  }

  function SerializedCall(c: ToolCall): Json {
    Obj(map["id" := OptionalText(c.id), "type" := Str(c.kind), "function" := Obj(map["name" := Str(c.name), "arguments" := Str(c.arguments)])])
  }

  function Serialized(calls: seq<ToolCall>): (js: seq<Json>)
    ensures |js| == |calls|
  {
    seq(|calls|, i requires 0 <= i < |calls| => SerializedCall(calls[i]))
  }

  function MessageOf(r: StreamReader.Response): Fields {
    var plain: Fields := map["role" := Str("assistant"), "content" := Str(r.content)];
    var reasoned := if r.reasoning.Some? then plain["reasoning_content" := Str(r.reasoning.value)] else plain;
    if r.toolCalls != [] then reasoned["tool_calls" := Arr(Serialized(r.toolCalls))] else reasoned
  }

  function ChoiceOf(r: StreamReader.Response): Fields {
    map["finish_reason" := Str(r.finishReason), "message" := Obj(MessageOf(r))]
  }

  /** The response as the stream reader hands it on. */
  function BodyOf(r: StreamReader.Response): Fields {
    map["id" := OptionalText(r.id), "object" := Str("chat.completion"), "model" := OptionalText(r.model),
        "choices" := Arr([Obj(ChoiceOf(r))]), "usage" := Obj(r.usage), "stream" := Bool(true)]
  }

  lemma {:induction false} DictsOfSerialized(calls: seq<ToolCall>)
    ensures Dicts(Serialized(calls)) == seq(|calls|, i requires 0 <= i < |calls| => SerializedCall(calls[i]).fields)
  {
    hide SerializedCall;
    var js := Serialized(calls);
    if calls != [] {
      DictsOfSerialized(calls[1..]);
      assert js[1..] == Serialized(calls[1..]);
      SerializedIsObject(calls[0]);
    }
  }

  lemma SerializedIsObject(c: ToolCall)
    ensures SerializedCall(c).Obj?
  {
  }

  lemma {:induction false} NothingBelow(host: Host, j: Json, keys: seq<string>)
    requires j.Obj? && forall i :: 0 <= i < |keys| && keys[i] in j.fields ==> Candidates(host, j.fields[keys[i]]) == []
    ensures CandidatesBelow(host, j, keys) == []
    decreases keys
  {
    if keys != [] {
      NothingBelow(host, j, keys[1..]);
    }
    hide Candidates;
  }

  lemma NoType(host: Host, o: Fields)
    requires host.lower("") == "" && "type" !in o
    ensures PayloadType(host, o) == ""
  {
    assert Strip("") == "";
  }

  /** In a dictionary without a type whose nested content holds no calls, only the listed calls are found. */
  lemma OnlyListed(host: Host, o: Fields)
    requires host.lower("") == "" && "type" !in o
    requires forall key :: key in o && key in {"content", "output", "message", "delta"} ==> Candidates(host, o[key]) == []
    ensures Candidates(host, Obj(o)) == if Get(o, "tool_calls").Arr? then Dicts(Get(o, "tool_calls").items) else []
  {
    var keys := ["content", "output", "message", "delta"];
    NothingBelow(host, Obj(o), keys);
    NoType(host, o);
    hide CandidatesBelow, PayloadType, TypedCall;
    var listed := if Get(o, "tool_calls").Arr? then Dicts(Get(o, "tool_calls").items) else [];
    assert Candidates(host, Obj(o)) == listed + [] + CandidatesBelow(host, Obj(o), keys);
    assert listed + [] + [] == listed;
  }

  function SerializedFields(calls: seq<ToolCall>): (fs: seq<Fields>) {
    Dicts(Serialized(calls))
  }

  lemma CallsInMessage(host: Host, r: StreamReader.Response)
    requires host.lower("") == ""
    ensures Candidates(host, Obj(MessageOf(r))) == if r.toolCalls != [] then SerializedFields(r.toolCalls) else []
  {
    var message := MessageOf(r);
    assert message.Keys <= {"role", "content", "reasoning_content", "tool_calls"};
    assert message["content"] == Str(r.content);
    assert Get(message, "tool_calls") == if r.toolCalls != [] then Arr(Serialized(r.toolCalls)) else Null;
    assert Candidates(host, Str(r.content)) == [];
    hide MessageOf, Serialized, Candidates, Dicts;
    OnlyListed(host, message);
  }

  lemma NoCallsAround(host: Host, r: StreamReader.Response)
    requires host.lower("") == "" && r.toolCalls == []
    ensures Candidates(host, Obj(ChoiceOf(r))) == [] && Candidates(host, Obj(BodyOf(r))) == []
  {
    CallsInMessage(host, r);
    var choice, raw := ChoiceOf(r), BodyOf(r);
    hide MessageOf, Candidates, Dicts;
    OnlyListed(host, choice);
    OnlyListed(host, raw);
  }

  lemma CallsInBody(host: Host, r: StreamReader.Response, tagged: seq<Fields>)
    requires host.lower("") == ""
    ensures RawCalls(host, BodyOf(r), ChoiceOf(r), tagged) == if r.toolCalls != [] then SerializedFields(r.toolCalls) else tagged
  {
    CallsInMessage(host, r);
    assert SubObject(ChoiceOf(r), "message") == MessageOf(r);
    hide Candidates, Dicts, SubObject, MessageOf, ChoiceOf, BodyOf;
    if r.toolCalls == [] {
      NoCallsAround(host, r);
    } else {
      SerializedSome(r.toolCalls);
    }
  }

  lemma SerializedSome(calls: seq<ToolCall>)
    ensures |SerializedFields(calls)| == |calls|
  {
    DictsOfSerialized(calls);
    hide Dicts;
  }

  lemma OutputInBody(host: Host, r: StreamReader.Response)
    ensures OutputText(host, BodyOf(r), ChoiceOf(r)) == r.content
  {
    var message, choice, raw := MessageOf(r), ChoiceOf(r), BodyOf(r);
    assert SubObject(choice, "message") == message && Get(message, "content") == Str(r.content) && Get(message, "output_text") == Null;
    assert Get(choice, "output_text") == Get(choice, "delta") == Get(raw, "output_text") == Get(raw, "output") == Null;
    hide MessageOf, ChoiceOf, BodyOf, Get;
    FirstOrNone(host, r.content, [Null, Null, Null, Null, Null]);
  }

  lemma ReasoningInBody(host: Host, r: StreamReader.Response)
    ensures ReasoningText(host, BodyOf(r), ChoiceOf(r)) == if r.reasoning.Some? then r.reasoning.value else ""
  {
    var message, choice, raw := MessageOf(r), ChoiceOf(r), BodyOf(r);
    assert SubObject(choice, "message") == message && Get(message, "reasoning_content") == OptionalText(r.reasoning);
    assert Get(choice, "reasoning_content") == Get(raw, "reasoning_content") == Null;
    hide MessageOf, ChoiceOf, BodyOf, Get;
    if r.reasoning.Some? {
      FirstOrNone(host, r.reasoning.value, [Null, Null]);
    } else {
      NullsHoldNoText(host, [Null, Null, Null]);
    }
  }

  lemma FirstOrNone(host: Host, text: string, others: seq<Json>)
    requires forall i :: 0 <= i < |others| ==> others[i] == Null
    ensures FirstTextIn(host, [Str(text)] + others) == text
  {
    NullsHoldNoText(host, others);
    assert ([Str(text)] + others)[1..] == others;
    assert ExtractText(host, Str(text)) == text;
  }

  lemma {:induction false} NullsHoldNoText(host: Host, js: seq<Json>)
    requires forall i :: 0 <= i < |js| ==> js[i] == Null
    ensures FirstTextIn(host, js) == ""
  {
    if js != [] {
      NullsHoldNoText(host, js[1..]);
    }
  }

  /** What a caller sees of an assembled call. */
  function Decoded(aliases: Aliases, c: ToolCall): ResultCall {
    ResultCall(if c.id.Some? && c.id.value != "" then c.id else None, if c.kind != "" then c.kind else "function",
               ToolAliases.Decode(aliases, Strip(c.name)), Shown(c.arguments))
  }

  lemma ReadsAs(host: Host, aliases: Aliases, call: Fields, inner: Fields, name: string, arguments: string)
    requires Get(call, "function") == Obj(inner) && Get(inner, "name") == Str(name) && Get(inner, "arguments") == Str(arguments)
    ensures CallOf(host, aliases, call)
            == ResultCall(StreamReader.TruthyText(host, Get(call, "id")), TextOr(host, Get(call, "type"), "function"),
                          ToolAliases.Decode(aliases, Strip(name)), Shown(arguments))
  {
    hide Get, ToolAliases.Decode;
    StripTrimmed("{}");
    StripTrimmed("");
    assert SubObject(call, "function") == inner;
    hide Strip, SubObject;
    assert TextOr(host, Str(name), "") == name;
    assert arguments == "" ==> TextOr(host, Str(arguments), "{}") == "{}";
    assert arguments != "" ==> TextOr(host, Str(arguments), "{}") == arguments;
  }

  lemma SerializedDecodes(host: Host, aliases: Aliases, c: ToolCall)
    ensures CallOf(host, aliases, SerializedCall(c).fields) == Decoded(aliases, c)
  {
    var call := SerializedCall(c).fields;
    var inner: Fields := map["name" := Str(c.name), "arguments" := Str(c.arguments)];
    assert Get(call, "function") == Obj(inner) && Get(call, "id") == OptionalText(c.id) && Get(call, "type") == Str(c.kind);
    assert Get(inner, "name") == Str(c.name) && Get(inner, "arguments") == Str(c.arguments);
    hide Strip, Get, SerializedCall, CallOf, Shown, ToolAliases.Decode;
    ReadsAs(host, aliases, call, inner, c.name, c.arguments);
  }

  lemma AllDecoded(host: Host, aliases: Aliases, calls: seq<ToolCall>)
    ensures var read := CallsOf(host, aliases, SerializedFields(calls));
            |read| == |calls| && forall i :: 0 <= i < |calls| ==> read[i] == Decoded(aliases, calls[i])
  {
    hide CallOf, Decoded, SerializedCall;
    DictsOfSerialized(calls);
    hide Dicts;
    forall i | 0 <= i < |calls| ensures CallOf(host, aliases, SerializedFields(calls)[i]) == Decoded(aliases, calls[i]) {
      SerializedDecodes(host, aliases, calls[i]);
    }
  }

  /** Reading the body of an assembled stream gives its text without tags, its reasoning, and each assembled call once, in order, decoded;
      only a stream without any call falls back to the calls tagged in its text. */
  lemma StreamedResult(reader: Reader, aliases: Aliases, r: StreamReader.Response)
    requires reader.host.lower("") == "" && r.finishReason != ""
    ensures var result := ResultOf(reader, aliases, BodyOf(r));
            var (text, tagged) := EmbeddedCalls.Extract(reader.loads, r.content);
            && result.Some? && result.value.text == text
            && result.value.reasoning == (if r.reasoning.Some? then r.reasoning.value else "")
            && result.value.finishReason == Str(r.finishReason)
            && (r.toolCalls != [] ==>
                  |result.value.calls| == |r.toolCalls|
                  && forall i :: 0 <= i < |r.toolCalls| ==> result.value.calls[i] == Decoded(aliases, r.toolCalls[i]))
            && (r.toolCalls == [] ==> result.value.calls == CallsOf(reader.host, aliases, TaggedCalls(reader.dumps, tagged)))
  {
    var tagged := EmbeddedCalls.Extract(reader.loads, r.content).1;
    ResultParts(reader, aliases, r);
    hide ResultOf, EmbeddedCalls.Extract, CallsOf, Decoded, SerializedFields, TaggedCalls, BodyOf;
    AllDecoded(reader.host, aliases, r.toolCalls);
  }

  lemma FirstChoiceIs(r: StreamReader.Response)
    ensures Readable(BodyOf(r))
    ensures StreamReader.FirstChoice(BodyOf(r)) == Some(ChoiceOf(r)) && Get(ChoiceOf(r), "finish_reason") == Str(r.finishReason)
  {
    assert Get(BodyOf(r), "choices") == Arr([Obj(ChoiceOf(r))]);
    assert Get(ChoiceOf(r), "message").Obj?;
  }

  lemma ResultParts(reader: Reader, aliases: Aliases, r: StreamReader.Response)
    requires reader.host.lower("") == "" && r.finishReason != ""
    ensures var (text, tagged) := EmbeddedCalls.Extract(reader.loads, r.content);
            ResultOf(reader, aliases, BodyOf(r))
            == Some(Result(text, if r.reasoning.Some? then r.reasoning.value else "", Str(r.finishReason),
                           CallsOf(reader.host, aliases,
                                   if r.toolCalls != [] then SerializedFields(r.toolCalls) else TaggedCalls(reader.dumps, tagged))))
  {
    hide RawCalls, OutputText, ReasoningText, BodyOf, ChoiceOf, CallsOf, TaggedCalls, SerializedFields, EmbeddedCalls.Extract,
         StreamReader.FirstChoice, Get, Readable;
    FirstChoiceIs(r);
    OutputInBody(reader.host, r);
    ReasoningInBody(reader.host, r);
    CallsInBody(reader.host, r, TaggedCalls(reader.dumps, EmbeddedCalls.Extract(reader.loads, r.content).1));
  }

  // ---------- From the stream to the caller ----------

  function RawsOf(us: seq<StreamReader.Update>): seq<Fields> {
    Concat(StreamReader.Map((u: StreamReader.Update) => u.raws, us))
  }

  function TableOf(host: Host, us: seq<StreamReader.Update>): Table {
    MergeAll(map[], StreamReader.StreamedCalls(host, RawsOf(us)))
  }

  /** The fragments of every streamed call spell a name that was sent to the provider. */
  ghost predicate SpellsPrepared(host: Host, us: seq<StreamReader.Update>, originals: seq<string>, k: int) {
    exists i :: 0 <= i < |originals| && Concat(ToolAliases.NameFragments(host, RawsOf(us), k)) == ToolAliases.Prepared(originals)[i]
  }

  /**
   From end to end: the calls of a stream, however cut and interleaved, reach the caller in index order under
   the tools' original names, when no tool bears the alias of another.
   */
  lemma StreamedCallsReachCaller(reader: Reader, us: seq<StreamReader.Update>, originals: seq<string>, p: nat)
    requires reader.host.lower("") == "" && ToolAliases.Indexed(reader.host, RawsOf(us)) && !ToolAliases.Collision(originals)
    requires forall k :: k in TableOf(reader.host, us) ==> SpellsPrepared(reader.host, us, originals, k)
    requires p < |TableOf(reader.host, us)|
    ensures var table := TableOf(reader.host, us);
            var r := ResultOf(reader, ToolAliases.AliasMap(originals), BodyOf(StreamReader.ResponseOf(reader.host, us)));
            var keys := SortedKeys(table.Keys);
            && r.Some? && |r.value.calls| == |table| == |keys| && Increasing(keys) && keys[p] in table
            && r.value.calls[p].argumentsText == Shown(Concat(ToolAliases.ArgumentFragments(reader.host, RawsOf(us), keys[p])))
            && exists i :: 0 <= i < |originals| && r.value.calls[p].name == originals[i]
                           && Concat(ToolAliases.NameFragments(reader.host, RawsOf(us), keys[p])) == ToolAliases.Prepared(originals)[i]
  {
    var response, table := StreamReader.ResponseOf(reader.host, us), TableOf(reader.host, us);
    var keys := SortedKeys(table.Keys);
    ReadOutMeaning(table);
    ResponseCalls(reader.host, us);
    hide StreamReader.ResponseOf, TableOf, ResultOf, BodyOf, SortedKeys, ReadOut, ToolAliases.Indexed, ToolAliases.Collision,
         ToolAliases.Decode, ToolAliases.NameFragments, ToolAliases.ArgumentFragments, ToolAliases.AliasMap, RawsOf, Strip;
    StreamedResult(reader, ToolAliases.AliasMap(originals), response);
    var k := keys[p];
    assert SpellsPrepared(reader.host, us, originals, k);
    var i :| 0 <= i < |originals| && Concat(ToolAliases.NameFragments(reader.host, RawsOf(us), k)) == ToolAliases.Prepared(originals)[i];
    EntryDecodes(reader.host, us, k, originals, i);
    EntryArguments(reader.host, us, k);
  }

  lemma EntryArguments(host: Host, us: seq<StreamReader.Update>, k: int)
    requires ToolAliases.Indexed(host, RawsOf(us)) && k in TableOf(host, us)
    ensures TableOf(host, us)[k].arguments == Concat(ToolAliases.ArgumentFragments(host, RawsOf(us), k))
  {
    ToolAliases.StreamedArgumentsAssembled(host, RawsOf(us), k);
  }

  lemma ResponseCalls(host: Host, us: seq<StreamReader.Update>)
    ensures var r := StreamReader.ResponseOf(host, us); r.toolCalls == ReadOut(TableOf(host, us)) && r.finishReason != ""
  {
  }

  lemma EntryDecodes(host: Host, us: seq<StreamReader.Update>, k: int, originals: seq<string>, i: nat)
    requires ToolAliases.Indexed(host, RawsOf(us)) && i < |originals| && !ToolAliases.Collision(originals)
    requires Concat(ToolAliases.NameFragments(host, RawsOf(us), k)) == ToolAliases.Prepared(originals)[i]
    requires k in TableOf(host, us)
    ensures ToolAliases.Decode(ToolAliases.AliasMap(originals), Strip(TableOf(host, us)[k].name)) == originals[i]
  {
    ToolAliases.StreamedNameDecodes(host, RawsOf(us), k, originals, i);
  }

  /** A stream that carries its calls as tagged blocks in the text reaches the caller as those calls, in order, and as the text without them. */
  lemma TaggedCallsReachCaller(reader: Reader, aliases: Aliases, r: StreamReader.Response, lead: string,
                               parts: seq<EmbeddedRoundTrip.Part>)
    requires reader.host.lower("") == "" && r.finishReason != "" && r.toolCalls == []
    requires EmbeddedRoundTrip.PlainDoc(lead, parts) && r.content == EmbeddedRoundTrip.Render(EmbeddedRoundTrip.DocTokens(lead, parts))
    ensures var result, calls := ResultOf(reader, aliases, BodyOf(r)), EmbeddedRoundTrip.CallsOf(reader.loads, parts);
            && result.Some? && |result.value.calls| == |calls|
            && result.value.text == (if parts == [] then lead else EmbeddedCalls.Tidy(EmbeddedRoundTrip.PlainText(lead, parts)))
            && forall i :: 0 <= i < |calls| ==>
                 result.value.calls[i] == ResultCall(None, "function", ToolAliases.Decode(aliases, Strip(calls[i].name)), Shown(reader.dumps(calls[i].arguments)))
  {
    EmbeddedRoundTrip.EmbeddedCallRoundTrip(reader.loads, lead, parts);
    hide ResultOf, BodyOf, EmbeddedCalls.Extract, EmbeddedRoundTrip.CallsOf, EmbeddedRoundTrip.PlainDoc, EmbeddedRoundTrip.Render, CallOf, Shown, Strip;
    StreamedResult(reader, aliases, r);
    var calls := EmbeddedRoundTrip.CallsOf(reader.loads, parts);
    forall i | 0 <= i < |calls|
      ensures CallOf(reader.host, aliases, TaggedCall(reader.dumps, calls[i]))
              == ResultCall(None, "function", ToolAliases.Decode(aliases, Strip(calls[i].name)), Shown(reader.dumps(calls[i].arguments)))
    {
      TaggedDecodes(reader, aliases, calls[i]);
    }
  }

  lemma TaggedDecodes(reader: Reader, aliases: Aliases, call: EmbeddedCalls.Call)
    ensures CallOf(reader.host, aliases, TaggedCall(reader.dumps, call))
            == ResultCall(None, "function", ToolAliases.Decode(aliases, Strip(call.name)), Shown(reader.dumps(call.arguments)))
  {
    var raw := TaggedCall(reader.dumps, call);
    var inner: Fields := map["name" := Str(call.name), "arguments" := Str(reader.dumps(call.arguments))];
    assert Get(raw, "function") == Obj(inner) && Get(raw, "id") == Null && Get(raw, "type") == Str("function");
    assert Get(inner, "name") == Str(call.name) && Get(inner, "arguments") == Str(reader.dumps(call.arguments));
    hide Strip, Get, TaggedCall, CallOf, Shown, ToolAliases.Decode;
    ReadsAs(reader.host, aliases, raw, inner, call.name, reader.dumps(call.arguments));
  }

  /** The body an assembled stream is handed on as. */
  lemma BodySays(r: StreamReader.Response)
    ensures BodyOf(r) == map["id" := if r.id == None then Null else Str(r.id.value), "object" := Str("chat.completion"),
                             "model" := if r.model == None then Null else Str(r.model.value), "choices" := Arr([Obj(ChoiceOf(r))]),
                             "usage" := Obj(r.usage), "stream" := Bool(true)]
    ensures ChoiceOf(r) == map["finish_reason" := Str(r.finishReason), "message" := Obj(MessageOf(r))]
  {
    hide MessageOf;
  }

  lemma MessageSays(r: StreamReader.Response)
    ensures var message := MessageOf(r);
            && Get(message, "role") == Str("assistant") && Get(message, "content") == Str(r.content)
            && Get(message, "reasoning_content") == (if r.reasoning == None then Null else Str(r.reasoning.value))
            && message.Keys <= {"role", "content", "reasoning_content", "tool_calls"}
            && ("tool_calls" in message <==> r.toolCalls != [])
  {
    hide Serialized;
  }
}
