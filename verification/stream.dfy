/**
 The reader of a streamed chat completion: a line loop over the response body
 that accumulates the deltas of all events into one response.
 */
module StreamReader {
  import opened Text
  import opened Payloads
  import opened ToolCalls

  type Bytes = seq<byte>

  const NEWLINE: byte := 10
  const DATA_PREFIX: Bytes := [100, 97, 116, 97, 58]  // data:
  const DONE: Bytes := [91, 68, 79, 78, 69, 93]  // [DONE]

  // ---------- Lines ----------

  /** White space for `bytes.strip`. */
  predicate ByteSpace(b: byte) {
    9 <= b <= 13 || b == 32
  }

  function StripLeft(s: Bytes): (t: Bytes)
    ensures |t| <= |s|
  {
    if s == [] || !ByteSpace(s[0]) then s else StripLeft(s[1..])
  }

  function StripRight(s: Bytes): (t: Bytes)
    ensures |t| <= |s|
  {
    if s == [] || !ByteSpace(s[|s| - 1]) then s else StripRight(s[..|s| - 1])
  }

  function StripBytes(s: Bytes): Bytes {
    StripRight(StripLeft(s))
  }

  /** Length of the first line, its newline included. */
  function LineLength(s: Bytes): (n: nat)
    ensures n <= |s| && (s != [] ==> n > 0)
  {
    if s == [] then 0 else if s[0] == NEWLINE then 1 else 1 + LineLength(s[1..])
  }

  /** The body as `readline` delivers it. */
  function Lines(body: Bytes): seq<Bytes>
    decreases |body|
  {
    if body == [] then [] else [body[..LineLength(body)]] + Lines(body[LineLength(body)..])
  }

  lemma {:induction false} LinesConcat(body: Bytes)
    ensures Concat(Lines(body)) == body
    decreases |body|
  {
    if body != [] {
      LinesConcat(body[LineLength(body)..]);
    }
  }

  datatype LineKind = Blank | Data(payload: Bytes) | Done | Foreign

  function Kind(line: Bytes): LineKind {
    var stripped := StripBytes(line);
    if stripped == [] then Blank
    else if !(DATA_PREFIX <= stripped) then Foreign
    else
      var payload := StripBytes(stripped[|DATA_PREFIX|..]);
      if payload == [] then Blank else if payload == DONE then Done else Data(payload)
  }

  // ---------- Events ----------

  /** What one decoded event contributes; `raws` are its raw tool calls. */
  datatype Update = Update(id: Option<string>, model: Option<string>, usage: Option<Fields>, content: string,
                           reasoning: string, raws: seq<Fields>, finish: Option<string>)

  /** `(chunk.get("choices") or [{}])[0]`, None where Python raises or the choice is no dictionary. */
  function FirstChoice(chunk: Fields): Option<Fields> {
    var choices := Get(chunk, "choices");
    if !Truthy(choices) then Some(map[])
    else if choices.Arr? && choices.items[0].Obj? then Some(choices.items[0].fields)
    else None
  }

  function DeltaPayload(choice: Fields): Fields {
    if SubObject(choice, "delta") != map[] then SubObject(choice, "delta") else SubObject(choice, "message")
  }

  function StreamedCalls(host: Host, raws: seq<Fields>): seq<Delta> {
    if raws == [] then []
    else (match Normalized(host, raws[0]) case Some(call) => [DeltaOf(host, call)] case None => [])
         + StreamedCalls(host, raws[1..])
  }

  lemma {:induction false} StreamedCallsAppend(host: Host, a: seq<Fields>, b: seq<Fields>)
    ensures StreamedCalls(host, a + b) == StreamedCalls(host, a) + StreamedCalls(host, b)
  {
    hide Normalized, DeltaOf;
    if a == [] {
      assert a + b == b;
    } else {
      assert (a + b)[1..] == a[1..] + b;
      StreamedCallsAppend(host, a[1..], b);
    }
  }

  function TruthyText(host: Host, j: Json): Option<string> {
    if Truthy(j) then Some(StrOf(host, j)) else None
  }

  /** None where reading the event raises. */
  function Decode(host: Host, payload: Bytes): Option<Update> {
    match host.loads(payload)
    case Some(Obj(chunk)) =>
      (match FirstChoice(chunk)
       case None => None
       case Some(choice) =>
         var delta := DeltaPayload(choice);
         var usage := Get(chunk, "usage");
         Some(Update(
           TruthyText(host, Get(chunk, "id")),
           TruthyText(host, Get(chunk, "model")),
           if usage.Obj? then Some(usage.fields) else None,
           ExtractText(host, Get(delta, "content")),
           ExtractText(host, Get(delta, "reasoning_content")),
           Candidates(host, Obj(delta)),
           if Get(choice, "finish_reason") != Null then Some(TextOr(host, Get(choice, "finish_reason"), "stop")) else None)))
    case _ => None
  }

  // ---------- The assembled response ----------

  /** `id` is None when a fresh one is generated; absent reasoning and calls are left out of the message. */
  datatype Response = Response(id: Option<string>, model: Option<string>, finishReason: string, content: string,
                               reasoning: Option<string>, toolCalls: seq<ToolCall>, usage: Fields, chunkCount: nat)

  datatype Outcome = Raised | Plain(body: Json) | Streamed(response: Response)

  function FirstSome<T>(xs: seq<Option<T>>): Option<T> {
    if xs == [] then None else if xs[0].Some? then xs[0] else FirstSome(xs[1..])
  }

  function LastSome<T>(xs: seq<Option<T>>): Option<T> {
    if xs == [] then None else if xs[|xs| - 1].Some? then xs[|xs| - 1] else LastSome(xs[..|xs| - 1])
  }

  function Map<A, B>(f: A -> B, xs: seq<A>): seq<B> {
    seq(|xs|, i requires 0 <= i < |xs| => f(xs[i]))
  }

  /** The specification, field by field: first id and model, last usage and finish reason, concatenated texts, merged calls. */
  function ResponseOf(host: Host, us: seq<Update>): Response {
    var reasoning := Concat(Map((u: Update) => u.reasoning, us));
    var finish := LastSome(Map((u: Update) => u.finish, us));
    var usage := LastSome(Map((u: Update) => u.usage, us));
    Response(FirstSome(Map((u: Update) => u.id, us)),
             FirstSome(Map((u: Update) => u.model, us)),
             if finish.Some? && finish.value != "" then finish.value else "stop",
             Concat(Map((u: Update) => u.content, us)),
             if reasoning != "" then Some(reasoning) else None,
             ReadOut(MergeAll(map[], StreamedCalls(host, Concat(Map((u: Update) => u.raws, us))))),
             if usage.Some? then usage.value else map[],
             |us|)
  }

  /** The first line that ends the events: `[DONE]` or a line that is no data. */
  function Stop(lines: seq<Bytes>): (i: nat)
    ensures i <= |lines|
    ensures forall j :: 0 <= j < i ==> Kind(lines[j]).Blank? || Kind(lines[j]).Data?
    ensures i < |lines| ==> Kind(lines[i]).Done? || Kind(lines[i]).Foreign?
  {
    if lines == [] || Kind(lines[0]).Done? || Kind(lines[0]).Foreign? then 0 else 1 + Stop(lines[1..])
  }

  /** The payloads of the data lines. */
  function EventPayloads(lines: seq<Bytes>): seq<Bytes> {
    if lines == [] then []
    else (if Kind(lines[0]).Data? then [Kind(lines[0]).payload] else []) + EventPayloads(lines[1..])
  }

  function DecodeAll(host: Host, payloads: seq<Bytes>): Option<seq<Update>> {
    if payloads == [] then Some([])
    else
      match Decode(host, payloads[0])
      case None => None
      case Some(u) =>
        match DecodeAll(host, payloads[1..])
        case None => None
        case Some(us) => Some([u] + us)
  }

  /** How the events end: normally, or as one plain body from the first line that is no data. */
  function Ending(host: Host, us: seq<Update>, rest: seq<Bytes>): Outcome {
    if rest != [] && Kind(rest[0]).Foreign? then
      match host.loads(Concat(rest))
      case None => Raised
      case Some(body) => Plain(body)
    else Streamed(ResponseOf(host, us))
  }

  /** What the lines mean after the updates `us`. */
  function MeaningAfter(host: Host, us: seq<Update>, lines: seq<Bytes>): Outcome {
    match DecodeAll(host, EventPayloads(lines[..Stop(lines)]))
    case None => Raised
    case Some(vs) => Ending(host, us + vs, lines[Stop(lines)..])
  }

  /** What a body means, line by line. */
  function Meaning(host: Host, lines: seq<Bytes>): Outcome {
    MeaningAfter(host, [], lines)
  }

  // ---------- Reading on from a state ----------

  lemma StopSkips(lines: seq<Bytes>)
    requires lines != [] && (Kind(lines[0]).Blank? || Kind(lines[0]).Data?)
    ensures Stop(lines) == 1 + Stop(lines[1..])
    ensures lines[Stop(lines)..] == lines[1..][Stop(lines[1..])..]
    ensures EventPayloads(lines[..Stop(lines)]) ==
            (if Kind(lines[0]).Data? then [Kind(lines[0]).payload] else []) + EventPayloads(lines[1..][..Stop(lines[1..])])
  {
    hide Kind;
    var i, rest := Stop(lines), lines[1..];
    var front := lines[..i];
    var tail := rest[..Stop(rest)];
    assert front[0] == lines[0] && front[1..] == tail;
  }

  lemma AfterBlank(host: Host, us: seq<Update>, lines: seq<Bytes>)
    requires lines != [] && Kind(lines[0]).Blank?
    ensures MeaningAfter(host, us, lines) == MeaningAfter(host, us, lines[1..])
  {
    hide Kind, Decode, ResponseOf, Ending;
    StopSkips(lines);
    var ps := EventPayloads(lines[1..][..Stop(lines[1..])]);
    assert [] + ps == ps;
  }

  lemma AfterData(host: Host, us: seq<Update>, lines: seq<Bytes>)
    requires lines != [] && Kind(lines[0]).Data?
    ensures MeaningAfter(host, us, lines) ==
            match Decode(host, Kind(lines[0]).payload)
            case None => Raised
            case Some(u) => MeaningAfter(host, us + [u], lines[1..])
  {
    hide Kind, Decode, ResponseOf, Ending;
    StopSkips(lines);
    var p, rest := Kind(lines[0]).payload, lines[1..];
    var ps := EventPayloads(rest[..Stop(rest)]);
    assert ([p] + ps)[1..] == ps;
    match Decode(host, p) {
      case None =>
      case Some(u) =>
        if DecodeAll(host, ps).Some? {
          var vs := DecodeAll(host, ps).value;
          assert us + [u] + vs == us + ([u] + vs);
        }
    }
  }

  lemma AtEnd(host: Host, us: seq<Update>, lines: seq<Bytes>)
    requires Stop(lines) == 0
    ensures MeaningAfter(host, us, lines) == Ending(host, us, lines)
  {
    assert lines[..0] == [] && lines[0..] == lines;
    assert us + [] == us;
  }

  // ---------- The reader ----------

  /** The reader's variables hold what the updates so far add up to. */
  ghost predicate Accumulated(host: Host, us: seq<Update>, id: Option<string>, model: Option<string>, usage: Option<Fields>,
                              finish: Option<string>, content: seq<string>, reasoning: seq<string>, table: Table, count: nat)
  {
    && id == FirstSome(Map((u: Update) => u.id, us))
    && model == FirstSome(Map((u: Update) => u.model, us))
    && usage == LastSome(Map((u: Update) => u.usage, us))
    && finish == LastSome(Map((u: Update) => u.finish, us))
    && Concat(content) == Concat(Map((u: Update) => u.content, us))
    && Concat(reasoning) == Concat(Map((u: Update) => u.reasoning, us))
    && (reasoning == [] <==> Concat(reasoning) == "")
    && table == MergeAll(map[], StreamedCalls(host, Concat(Map((u: Update) => u.raws, us))))
    && count == |us|
  }

  lemma MapSnoc<A, B>(f: A -> B, xs: seq<A>, x: A)
    ensures Map(f, xs + [x]) == Map(f, xs) + [f(x)]
  {
  }

  lemma {:induction false} FirstSomeSnoc<T>(xs: seq<Option<T>>, x: Option<T>)
    ensures FirstSome(xs + [x]) == if FirstSome(xs).Some? then FirstSome(xs) else x
  {
    if xs != [] {
      assert (xs + [x])[1..] == xs[1..] + [x];
      FirstSomeSnoc(xs[1..], x);
    }
  }

  lemma LastSomeSnoc<T>(xs: seq<Option<T>>, x: Option<T>)
    ensures LastSome(xs + [x]) == if x.Some? then x else LastSome(xs)
  {
    assert (xs + [x])[..|xs|] == xs;
  }

  /** Appending a fragment only when it is not empty. */
  function Appended(parts: seq<string>, fragment: string): seq<string> {
    if fragment != "" then parts + [fragment] else parts
  }

  lemma AppendedConcat(parts: seq<string>, fragment: string)
    ensures Concat(Appended(parts, fragment)) == Concat(parts) + fragment
  {
    ConcatSnoc(parts, fragment);
  }

  lemma AccumulateOne(host: Host, us: seq<Update>, u: Update, id: Option<string>, model: Option<string>, usage: Option<Fields>,
                      finish: Option<string>, content: seq<string>, reasoning: seq<string>, table: Table, count: nat)
    requires Accumulated(host, us, id, model, usage, finish, content, reasoning, table, count)
    ensures Accumulated(host, us + [u],
                        if id.Some? then id else u.id, if model.Some? then model else u.model,
                        if u.usage.Some? then u.usage else usage, if u.finish.Some? then u.finish else finish,
                        Appended(content, u.content), Appended(reasoning, u.reasoning),
                        MergeAll(table, StreamedCalls(host, u.raws)), count + 1)
  {
    MapSnoc((u: Update) => u.id, us, u);
    MapSnoc((u: Update) => u.model, us, u);
    MapSnoc((u: Update) => u.usage, us, u);
    MapSnoc((u: Update) => u.finish, us, u);
    MapSnoc((u: Update) => u.content, us, u);
    MapSnoc((u: Update) => u.reasoning, us, u);
    MapSnoc((u: Update) => u.raws, us, u);
    FirstSomeSnoc(Map((u: Update) => u.id, us), u.id);
    FirstSomeSnoc(Map((u: Update) => u.model, us), u.model);
    LastSomeSnoc(Map((u: Update) => u.usage, us), u.usage);
    LastSomeSnoc(Map((u: Update) => u.finish, us), u.finish);
    AppendedConcat(content, u.content);
    AppendedConcat(reasoning, u.reasoning);
    ConcatSnoc(Map((u: Update) => u.content, us), u.content);
    ConcatSnoc(Map((u: Update) => u.reasoning, us), u.reasoning);
    var before := Concat(Map((u: Update) => u.raws, us));
    ConcatSnoc(Map((u: Update) => u.raws, us), u.raws);
    StreamedCallsAppend(host, before, u.raws);
    MergeAllAppend(map[], StreamedCalls(host, before), StreamedCalls(host, u.raws));
  }

  /** Merging the calls of one event. */
  method MergeCalls(host: Host, table: CallTable, raws: seq<Fields>)
    modifies table
    ensures table.calls == MergeAll(old(table.calls), StreamedCalls(host, raws))
  {
    for i := 0 to |raws|
      invariant table.calls == MergeAll(old(table.calls), StreamedCalls(host, raws[..i]))
    {
      hide Normalized, DeltaOf, Merged;
      OneMoreCall(host, old(table.calls), raws, i);
      var normalized := Normalized(host, raws[i]);
      if normalized.Some? {
        table.Merge(host, normalized.value);
      }
    }
    assert raws[..|raws|] == raws;
  }

  lemma OneMoreCall(host: Host, table: Table, raws: seq<Fields>, i: nat)
    requires i < |raws|
    ensures var before := MergeAll(table, StreamedCalls(host, raws[..i]));
            MergeAll(table, StreamedCalls(host, raws[..i + 1])) ==
            match Normalized(host, raws[i]) case None => before case Some(call) => Merged(before, DeltaOf(host, call))
  {
    hide Normalized, DeltaOf, Merged;
    assert raws[..i + 1] == raws[..i] + [raws[i]];
    StreamedCallsAppend(host, raws[..i], [raws[i]]);
    var more := StreamedCalls(host, [raws[i]]);
    MergeAllAppend(table, StreamedCalls(host, raws[..i]), more);
    if Normalized(host, raws[i]).Some? {
      assert more == [DeltaOf(host, Normalized(host, raws[i]).value)];
      assert more[1..] == [];
    }
  }

  /** What the variables amount to when no plain body follows. */
  lemma Finished(host: Host, us: seq<Update>, id: Option<string>, model: Option<string>, usage: Option<Fields>, finish: Option<string>,
                 content: seq<string>, reasoning: seq<string>, table: Table, count: nat, rest: seq<Bytes>)
    requires Accumulated(host, us, id, model, usage, finish, content, reasoning, table, count)
    ensures rest == [] || Kind(rest[0]).Done? ==>
              Ending(host, us, rest)
              == Streamed(Response(id, model, if finish.Some? && finish.value != "" then finish.value else "stop", Concat(content),
                                   if reasoning != [] then Some(Concat(reasoning)) else None, ReadOut(table),
                                   if usage.Some? then usage.value else map[], count))
  {
    hide MergeAll, FirstSome, LastSome, Map, ReadOut, StreamedCalls, Kind, Concat;
  }

  lemma StopsAtOnce(lines: seq<Bytes>)
    ensures lines == [] || Kind(lines[0]).Done? || Kind(lines[0]).Foreign? ==> Stop(lines) == 0
  {
    hide Kind;
  }

  /** The line loop: whatever the body, the outcome is the meaning of its lines. */
  method AssembleStream(host: Host, body: Bytes) returns (outcome: Outcome)
    ensures outcome == Meaning(host, Lines(body))
  {
    var id: Option<string>, model: Option<string>, finish: Option<string> := None, None, None;
    var usage: Option<Fields> := None;
    var content: seq<string>, reasoning: seq<string> := [], [];
    var chunkCount := 0;
    var toolCalls := new CallTable();
    var rest := body;
    ghost var us: seq<Update> := [];
    assert Accumulated(host, us, id, model, usage, finish, content, reasoning, toolCalls.calls, chunkCount);
    while rest != []
      invariant MeaningAfter(host, us, Lines(rest)) == Meaning(host, Lines(body))
      invariant Accumulated(host, us, id, model, usage, finish, content, reasoning, toolCalls.calls, chunkCount)
      decreases |rest|
    {
      hide Accumulated, Kind, Decode, Meaning, MeaningAfter, ResponseOf, MergeAll, Ending, Stop, EventPayloads, DecodeAll, Concat, LineLength;
      var rawLine := rest[..LineLength(rest)];
      ghost var lines := Lines(rest);
      assert lines[0] == rawLine && lines[1..] == Lines(rest[|rawLine|..]);
      match Kind(rawLine) {
        case Blank =>
          AfterBlank(host, us, lines);
        case Done =>
          break;
        case Foreign =>
          AtEnd(host, us, lines);
          LinesConcat(rest);
          var plain := host.loads(rest);
          return if plain.Some? then Plain(plain.value) else Raised;
        case Data(payload) =>
          AfterData(host, us, lines);
          var decoded := Decode(host, payload);
          if decoded.None? {
            return Raised;
          }
          var u := decoded.value;
          AccumulateOne(host, us, u, id, model, usage, finish, content, reasoning, toolCalls.calls, chunkCount);
          chunkCount := chunkCount + 1;
          id := if id.Some? then id else u.id;
          model := if model.Some? then model else u.model;
          usage := if u.usage.Some? then u.usage else usage;
          content := Appended(content, u.content);
          reasoning := Appended(reasoning, u.reasoning);
          MergeCalls(host, toolCalls, u.raws);
          finish := if u.finish.Some? then u.finish else finish;
          us := us + [u];
      }
      rest := rest[|rawLine|..];
    }
    hide *;
    StopsAtOnce(Lines(rest));
    AtEnd(host, us, Lines(rest));
    Finished(host, us, id, model, usage, finish, content, reasoning, toolCalls.calls, chunkCount, Lines(rest));
    outcome := Streamed(Response(id, model, if finish.Some? && finish.value != "" then finish.value else "stop",
                                 Concat(content), if reasoning != [] then Some(Concat(reasoning)) else None,
                                 ReadOut(toolCalls.calls), if usage.Some? then usage.value else map[], chunkCount));
  }

  // ---------- Laws of the line protocol ----------

  /** No line of `a` starts a plain body. */
  ghost predicate NoForeign(a: seq<Bytes>) {
    Stop(a) < |a| ==> Kind(a[Stop(a)]).Done?
  }

  lemma NoForeignTail(a: seq<Bytes>)
    requires a != [] && NoForeign(a) && !Kind(a[0]).Done?
    ensures !Kind(a[0]).Foreign? && NoForeign(a[1..])
  {
    hide Kind;
  }

  /** A blank line has no effect, wherever it stands before a plain body. */
  lemma {:induction false} BlankLineIgnored(host: Host, us: seq<Update>, a: seq<Bytes>, blank: Bytes, b: seq<Bytes>)
    requires NoForeign(a) && Kind(blank).Blank?
    ensures MeaningAfter(host, us, a + [blank] + b) == MeaningAfter(host, us, a + b)
    decreases a
  {
    hide Kind, Decode, MeaningAfter;
    var long, short := a + [blank] + b, a + b;
    if a == [] {
      AfterBlank(host, us, long);
      assert long[1..] == short;
    } else if Kind(a[0]).Done? {
      AtEnd(host, us, long);
      AtEnd(host, us, short);
    } else {
      NoForeignTail(a);
      assert long[1..] == a[1..] + [blank] + b && short[1..] == a[1..] + b;
      if Kind(a[0]).Blank? {
        AfterBlank(host, us, long);
        AfterBlank(host, us, short);
        BlankLineIgnored(host, us, a[1..], blank, b);
      } else {
        AfterData(host, us, long);
        AfterData(host, us, short);
        var decoded := Decode(host, Kind(a[0]).payload);
        if decoded.Some? {
          BlankLineIgnored(host, us + [decoded.value], a[1..], blank, b);
        }
      }
    }
  }

  /** Nothing after the first `[DONE]` has an effect. */
  lemma {:induction false} DoneEndsTheStream(host: Host, us: seq<Update>, a: seq<Bytes>, done: Bytes, b: seq<Bytes>)
    requires NoForeign(a) && Kind(done).Done?
    ensures MeaningAfter(host, us, a + [done] + b) == MeaningAfter(host, us, a)
    decreases a
  {
    hide Kind, Decode, MeaningAfter;
    var long := a + [done] + b;
    if a == [] || Kind(a[0]).Done? {
      AtEnd(host, us, long);
      AtEnd(host, us, a);
    } else {
      NoForeignTail(a);
      assert long[1..] == a[1..] + [done] + b;
      if Kind(a[0]).Blank? {
        AfterBlank(host, us, long);
        AfterBlank(host, us, a);
        DoneEndsTheStream(host, us, a[1..], done, b);
      } else {
        AfterData(host, us, long);
        AfterData(host, us, a);
        var decoded := Decode(host, Kind(a[0]).payload);
        if decoded.Some? {
          DoneEndsTheStream(host, us + [decoded.value], a[1..], done, b);
        }
      }
    }
  }

  /** A line that is no data turns itself and everything after it into one plain body; decoded events before it are discarded. */
  lemma {:induction false} ForeignLineTakesOver(host: Host, a: seq<Bytes>, foreign: Bytes, b: seq<Bytes>)
    requires Stop(a) == |a| && Kind(foreign).Foreign?
    requires DecodeAll(host, EventPayloads(a)).Some?
    ensures Meaning(host, a + [foreign] + b) ==
            match host.loads(foreign + Concat(b)) case None => Raised case Some(body) => Plain(body)
  {
    hide Kind;
    var lines := a + [foreign] + b;
    StopAt(a, foreign, b);
    assert lines[..|a|] == a && lines[|a|..] == [foreign] + b;
  }

  lemma {:induction false} StopAt(a: seq<Bytes>, end: Bytes, b: seq<Bytes>)
    requires Stop(a) == |a| && (Kind(end).Foreign? || Kind(end).Done?)
    ensures Stop(a + [end] + b) == |a|
  {
    hide Kind;
    if a != [] {
      assert (a + [end] + b)[1..] == a[1..] + [end] + b;
      StopAt(a[1..], end, b);
    }
  }

  // ---------- Framing round trip ----------

  /** A payload an event line can carry. */
  ghost predicate Carriable(p: Bytes) {
    && p != [] && p != DONE && NEWLINE !in p
    && !ByteSpace(p[0]) && !ByteSpace(p[|p| - 1])
  }

  function DataLine(p: Bytes): Bytes {
    DATA_PREFIX + [32] + p + [NEWLINE]
  }

  /** The bytes of a text of ASCII characters. */
  function Ascii(s: string): Bytes
    requires forall i :: 0 <= i < |s| ==> s[i] as int < 128
  {
    seq(|s|, i requires 0 <= i < |s| => s[i] as int as byte)
  }

  /** A data line as it is written, and the payload that ends the stream. */
  lemma DataLineIs(p: Bytes)
    ensures DataLine(p) == Ascii("data: ") + p + Ascii("\n") && DONE == Ascii("[DONE]")
  {
  }

  /** A line of white space is passed over. */
  lemma SpacesAreBlank(line: Bytes)
    requires forall i :: 0 <= i < |line| ==> line[i] as int in {9, 10, 11, 12, 13, 32}
    ensures Kind(line) == Blank
  {
    SpacesStrip(line);
  }

  lemma {:induction false} SpacesStrip(line: Bytes)
    requires forall i :: 0 <= i < |line| ==> line[i] as int in {9, 10, 11, 12, 13, 32}
    ensures StripLeft(line) == []
  {
    if line != [] {
      SpacesStrip(line[1..]);
    }
  }

  lemma {:induction false} StripRightKeepsFirst(s: Bytes)
    requires s != [] && !ByteSpace(s[0])
    ensures StripRight(s) != [] && StripRight(s)[0] == s[0]
  {
    if ByteSpace(s[|s| - 1]) {
      StripRightKeepsFirst(s[..|s| - 1]);
    }
  }

  /** A line that begins with anything but white space or a d, as a comment does, is no data. */
  lemma OtherLinesAreForeign(line: Bytes)
    requires line != [] && line[0] as int !in {9, 10, 11, 12, 13, 32, 100}
    ensures Kind(line) == Foreign
  {
    StripRightKeepsFirst(line);
  }

  /** Each payload as one event: a data line and an empty line. */
  function Frame(ps: seq<Bytes>): Bytes {
    if ps == [] then [] else DataLine(ps[0]) + [NEWLINE] + Frame(ps[1..])
  }

  lemma {:induction false} FirstLine(x: Bytes, rest: Bytes)
    requires NEWLINE !in x
    ensures Lines(x + [NEWLINE] + rest) == [x + [NEWLINE]] + Lines(rest)
  {
    LineLengthIs(x, rest);
    var s := x + [NEWLINE] + rest;
    assert s[..|x| + 1] == x + [NEWLINE] && s[|x| + 1..] == rest;
  }

  lemma {:induction false} LineLengthIs(x: Bytes, rest: Bytes)
    requires NEWLINE !in x
    ensures LineLength(x + [NEWLINE] + rest) == |x| + 1
  {
    if x != [] {
      assert x[0] in x;
      assert (x + [NEWLINE] + rest)[1..] == x[1..] + [NEWLINE] + rest;
      assert forall b :: b in x[1..] ==> b in x;
      LineLengthIs(x[1..], rest);
    }
  }

  lemma StripDataLine(p: Bytes)
    requires p != [] && !ByteSpace(p[0]) && !ByteSpace(p[|p| - 1])
    ensures Kind(DataLine(p)) == if p == DONE then Done else Data(p)
  {
    var stripped := DATA_PREFIX + [32] + p;
    var line := DataLine(p);
    assert line[0] == 100 && StripLeft(line) == line;
    assert line[..|line| - 1] == stripped;
    assert stripped[|stripped| - 1] == p[|p| - 1];
    assert StripRight(line) == StripRight(stripped) == stripped;
    assert stripped[..5] == DATA_PREFIX;
    var spaced := stripped[5..];
    assert spaced == [32] + p && spaced[1..] == p;
    assert StripLeft(spaced) == StripLeft(p) == p;
    assert StripRight(p) == p;
  }

  /** Events written one per frame and ended with `[DONE]` are read back as exactly those payloads, in order, whatever follows. */
  lemma {:induction false} FramingRoundTrip(host: Host, us: seq<Update>, ps: seq<Bytes>, junk: Bytes)
    requires forall i :: 0 <= i < |ps| ==> Carriable(ps[i])
    ensures MeaningAfter(host, us, Lines(Frame(ps) + DataLine(DONE) + junk)) ==
            match DecodeAll(host, ps)
            case None => Raised
            case Some(vs) => Streamed(ResponseOf(host, us + vs))
    decreases ps
  {
    hide Decode, MeaningAfter, ResponseOf;
    var end := DataLine(DONE) + junk;
    if ps == [] {
      var x := DATA_PREFIX + [32] + DONE;
      assert Frame(ps) + DataLine(DONE) + junk == x + [NEWLINE] + junk;
      FirstLine(x, junk);
      StripDataLine(DONE);
      AtEnd(host, us, Lines(x + [NEWLINE] + junk));
      assert us + [] == us;
    } else {
      var p, rest := ps[0], Frame(ps[1..]) + DataLine(DONE) + junk;
      var x := DATA_PREFIX + [32] + p;
      FrameLines(p, ps[1..], junk);
      StripDataLine(p);
      assert Kind([NEWLINE]) == Blank;
      var lines := Lines(Frame(ps) + DataLine(DONE) + junk);
      AfterData(host, us, lines);
      match Decode(host, p) {
        case None =>
        case Some(u) =>
          AfterBlank(host, us + [u], lines[1..]);
          assert lines[1..][1..] == Lines(rest);
          FramingRoundTrip(host, us + [u], ps[1..], junk);
          var tail := DecodeAll(host, ps[1..]);
          if tail.Some? {
            assert us + [u] + tail.value == us + ([u] + tail.value);
          }
      }
    }
  }

  lemma FrameLines(p: Bytes, ps: seq<Bytes>, junk: Bytes)
    requires Carriable(p)
    ensures Lines(Frame([p] + ps) + DataLine(DONE) + junk) ==
            [DataLine(p), [NEWLINE]] + Lines(Frame(ps) + DataLine(DONE) + junk)
  {
    var rest := Frame(ps) + DataLine(DONE) + junk;
    var x := DATA_PREFIX + [32] + p;
    assert ([p] + ps)[1..] == ps;
    assert Frame([p] + ps) + DataLine(DONE) + junk == x + [NEWLINE] + ([NEWLINE] + rest);
    FirstLine(x, [NEWLINE] + rest);
    FirstLine([], rest);
    assert [] + [NEWLINE] + rest == [NEWLINE] + rest;
  }
}
