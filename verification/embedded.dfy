/**
 Tool calls written into the text of an answer, lifted out in three passes:
 longcat blocks, `<tool_calls>` containers, and self-closing inline tags.
 */
module EmbeddedCalls {
  import opened Text
  import opened Payloads

  /** `arguments` is the dictionary in insertion order. */
  datatype Call = Call(name: string, arguments: seq<(string, Json)>)

  /** `json.loads` on a string; None where it raises. */
  type Loads = string -> Option<Json>

  // ---------- Searching for tags ----------

  /** `str.lower` on the characters that can lower to an ASCII letter of a tag. */
  function LowerChar(c: char): char {
    if 'A' <= c <= 'Z' then c - 'A' + 'a' else if c == '\U{212a}' then 'k' else c
  }

  /** Case folding of `re.IGNORECASE`: the long s also matches s. */
  function FoldChar(c: char): char {
    if c == '\U{17f}' then 's' else LowerChar(c)
  }

  predicate Starts(tag: string, s: string) {
    |tag| <= |s| && forall k :: 0 <= k < |tag| ==> FoldChar(s[k]) == tag[k]
  }

  /** Where the tag first occurs ignoring case, or |s| if it does not. */
  function Find(tag: string, s: string): (i: nat)
    ensures i <= |s|
  {
    if s == "" || Starts(tag, s) then 0 else 1 + Find(tag, s[1..])
  }

  /** `tag in s.lower()`. */
  predicate InLower(tag: string, s: string) {
    if s == "" then false
    else (|tag| <= |s| && forall k :: 0 <= k < |tag| ==> LowerChar(s[k]) == tag[k]) || InLower(tag, s[1..])
  }

  /** `s.find(tag)`, or |s|. */
  function FindExact(tag: string, s: string): (i: nat)
    ensures i <= |s|
  {
    if s == "" || tag <= s then 0 else 1 + FindExact(tag, s[1..])
  }

  // ---------- Shared pieces ----------

  const ALIASES: map<string, string> := map[
    "file_path" := "path", "start_line" := "startLine", "end_line" := "endLine", "old_text" := "oldText",
    "new_text" := "newText", "working_directory" := "workingDirectory", "timeout_ms" := "timeoutMs"]

  function ArgumentName(key: string): string {
    if key in ALIASES then ALIASES[key] else key
  }

  function Coerce(loads: Loads, value: string): Json {
    var candidate := Strip(value);
    if candidate == "" then Str("") else match loads(candidate) case Some(j) => j case None => Str(candidate)
  }

  /** Dictionary assignment: an old key keeps its place. */
  function Assign(d: seq<(string, Json)>, key: string, value: Json): seq<(string, Json)> {
    if d == [] then [(key, value)]
    else if d[0].0 == key then [(key, value)] + d[1..]
    else [d[0]] + Assign(d[1..], key, value)
  }

  function ArgumentsOf(loads: Loads, d: seq<(string, Json)>, keys: seq<string>, values: seq<string>): seq<(string, Json)>
    decreases keys
  {
    if keys == [] || values == [] then d
    else ArgumentsOf(loads, Assign(d, ArgumentName(keys[0]), Coerce(loads, values[0])), keys[1..], values[1..])
  }

  /** `re.sub("\n{3,}", "\n\n", s)`, `run` newlines having just passed. */
  function Collapse(s: string, run: nat): string {
    if s == "" then ""
    else if s[0] == '\n' then (if run < 2 then "\n" else "") + Collapse(s[1..], run + 1)
    else [s[0]] + Collapse(s[1..], 0)
  }

  function Tidy(s: string): string {
    Strip(Collapse(s, 0))
  }

  function StripEach(parts: seq<string>): seq<string> {
    if parts == [] then [] else [Strip(parts[0])] + StripEach(parts[1..])
  }

  // ---------- First pass: longcat blocks ----------

  const OPEN := "<longcat_tool_call>"
  const CLOSE := "</longcat_tool_call>"
  const KEY_OPEN := "<longcat_arg_key>"
  const KEY_CLOSE := "</longcat_arg_key>"
  const VALUE_OPEN := "<longcat_arg_value>"
  const VALUE_CLOSE := "</longcat_arg_value>"

  datatype PairMatch = NoPair | Pair(before: string, body: string, after: string)

  /** The first opening tag with the next closing one after it: what a lazy body between them matches. */
  function NextPair(open: string, close: string, s: string): (m: PairMatch)
    requires open != "" && close != ""
    ensures m.Pair? ==> |m.after| < |s|
  {
    var i := Find(open, s);
    if i + |open| > |s| then NoPair
    else
      var rest := s[i + |open|..];
      var j := Find(close, rest);
      if j + |close| > |rest| then NoPair else Pair(s[..i], rest[..j], rest[j + |close|..])
  }

  /** The bodies of all matches, as `findall` lists them. */
  function Bodies(open: string, close: string, s: string): seq<string>
    requires open != "" && close != ""
    decreases |s|
  {
    match NextPair(open, close, s)
    case NoPair => []
    case Pair(before, body, after) => [body] + Bodies(open, close, after)
  }

  /** The text outside the matches, as `sub` leaves it. */
  function Outside(open: string, close: string, s: string): string
    requires open != "" && close != ""
    decreases |s|
  {
    match NextPair(open, close, s)
    case NoPair => s
    case Pair(before, body, after) => before + Outside(open, close, after)
  }

  function LongcatCall(loads: Loads, body: string): seq<Call> {
    var name := Strip(body[..FindExact(KEY_OPEN, body)]);
    var keys := StripEach(Bodies(KEY_OPEN, KEY_CLOSE, body));
    var values := StripEach(Bodies(VALUE_OPEN, VALUE_CLOSE, body));
    if name == "" then [] else [Call(name, ArgumentsOf(loads, [], keys, values))]
  }

  function LongcatCalls(loads: Loads, bodies: seq<string>): seq<Call> {
    if bodies == [] then [] else LongcatCall(loads, bodies[0]) + LongcatCalls(loads, bodies[1..])
  }

  function LongcatPass(loads: Loads, content: string): (string, seq<Call>) {
    if !InLower(OPEN, content) then (content, [])
    else (Tidy(Outside(OPEN, CLOSE, content)), LongcatCalls(loads, Bodies(OPEN, CLOSE, content)))
  }

  // ---------- Second pass: containers of named tags ----------

  const CONTAINER_OPEN := "<tool_calls>"
  const CONTAINER_CLOSE := "</tool_calls>"

  predicate NameChar(c: char) {
    'A' <= c <= 'Z' || 'a' <= c <= 'z' || '0' <= c <= '9' || c == '_' || c == '.' || c == '-'
  }

  function NameLength(s: string): (n: nat)
    ensures n <= |s|
  {
    if s == "" || !NameChar(s[0]) then 0 else 1 + NameLength(s[1..])
  }

  datatype TagMatch = NoTag | Tag(name: string, body: string, length: nat)

  /** `<name>body</name>` at the start of `s`, the body as short as possible. */
  function TagAt(s: string): (m: TagMatch)
    ensures m.Tag? ==> 0 < m.length <= |s|
  {
    if s == "" || s[0] != '<' then NoTag
    else
      var n := NameLength(s[1..]);
      if n == 0 || 1 + n >= |s| || s[1 + n] != '>' then NoTag
      else
        var name, rest := s[1..1 + n], s[2 + n..];
        var close := "</" + name + ">";
        var j := FindExact(close, rest);
        if j + |close| > |rest| then NoTag else Tag(name, rest[..j], 2 + n + j + |close|)
  }

  function Tags(s: string): seq<(string, string)>
    decreases |s|
  {
    if s == "" then []
    else match TagAt(s)
      case NoTag => Tags(s[1..])
      case Tag(name, body, length) => [(name, body)] + Tags(s[length..])
  }

  function TagArguments(loads: Loads, d: seq<(string, Json)>, tags: seq<(string, string)>): seq<(string, Json)>
    decreases tags
  {
    if tags == [] then d
    else if '.' in tags[0].0 then TagArguments(loads, d, tags[1..])
    else TagArguments(loads, Assign(d, ArgumentName(tags[0].0), Coerce(loads, tags[0].1)), tags[1..])
  }

  function TagCalls(loads: Loads, tags: seq<(string, string)>): seq<Call> {
    if tags == [] then []
    else (if '.' in tags[0].0 then [Call(tags[0].0, TagArguments(loads, [], Tags(tags[0].1)))] else [])
         + TagCalls(loads, tags[1..])
  }

  function ContainerCalls(loads: Loads, bodies: seq<string>): seq<Call> {
    if bodies == [] then [] else TagCalls(loads, Tags(bodies[0])) + ContainerCalls(loads, bodies[1..])
  }

  function BlockPass(loads: Loads, content: string): (string, seq<Call>) {
    if !InLower(CONTAINER_OPEN, content) then (content, [])
    else (Tidy(Outside(CONTAINER_OPEN, CONTAINER_CLOSE, content)),
          ContainerCalls(loads, Bodies(CONTAINER_OPEN, CONTAINER_CLOSE, content)))
  }

  // ---------- Third pass: self-closing tags ----------

  /** The first angle bracket, or |s|. */
  function FirstAngle(s: string): (i: nat)
    ensures i <= |s| && (i < |s| ==> s[i] == '<' || s[i] == '>')
  {
    if s == "" || s[0] == '<' || s[0] == '>' then 0 else 1 + FirstAngle(s[1..])
  }

  /** `<name attributes/>` at the start of `s`. */
  function InlineAt(s: string): (m: TagMatch)
    ensures m.Tag? ==> 0 < m.length <= |s|
  {
    if s == "" || s[0] != '<' then NoTag
    else
      var n := NameLength(s[1..]);
      var rest := s[1 + n..];
      var g := FirstAngle(rest);
      if n == 0 || g == 0 || g == |rest| || rest[g] != '>' || rest[g - 1] != '/' || !(g == 1 || IsSpace(rest[0])) then NoTag
      else Tag(s[1..1 + n], rest[..g - 1], 2 + n + g)
  }

  function SkipSpace(s: string): (t: string)
    ensures |t| <= |s|
  {
    LStrip(s)
  }

  /** `name = "value"` at the start of `s`. */
  function AttributeAt(s: string): (m: TagMatch)
    ensures m.Tag? ==> 0 < m.length <= |s|
  {
    var n := NameLength(s);
    var t := SkipSpace(s[n..]);
    if n == 0 || t == "" || t[0] != '=' then NoTag
    else
      var u := SkipSpace(t[1..]);
      if u == "" || u[0] != '"' then NoTag
      else
        var j := FindExact("\"", u[1..]);
        if j == |u| - 1 then NoTag else Tag(s[..n], u[1..][..j], |s| - (|u| - j - 2))
  }

  function Attributes(s: string): seq<(string, string)>
    decreases |s|
  {
    if s == "" then []
    else match AttributeAt(s)
      case NoTag => Attributes(s[1..])
      case Tag(name, value, length) => [(name, value)] + Attributes(s[length..])
  }

  function AttributeArguments(loads: Loads, d: seq<(string, Json)>, attributes: seq<(string, string)>): seq<(string, Json)>
    decreases attributes
  {
    if attributes == [] then d
    else AttributeArguments(loads, Assign(d, ArgumentName(attributes[0].0), Coerce(loads, attributes[0].1)), attributes[1..])
  }

  /** The text left, and the calls lifted out; a tag without a dot in its name stays. */
  function InlineScan(loads: Loads, s: string): (string, seq<Call>)
    decreases |s|
  {
    if s == "" then ("", [])
    else match InlineAt(s)
      case NoTag => var (text, calls) := InlineScan(loads, s[1..]); ([s[0]] + text, calls)
      case Tag(name, attributes, length) =>
        var (text, calls) := InlineScan(loads, s[length..]);
        if '.' in name then (text, [Call(name, AttributeArguments(loads, [], Attributes(attributes)))] + calls)
        else (s[..length] + text, calls)
  }

  function InlinePass(loads: Loads, content: string): (string, seq<Call>) {
    if '<' !in content || FindExact("/>", content) == |content| then (content, [])
    else var (text, calls) := InlineScan(loads, content); (Tidy(text), calls)
  }

  /** `_extract_embedded_tool_calls`. */
  function Extract(loads: Loads, content: string): (string, seq<Call>) {
    var (first, longcat) := LongcatPass(loads, content);
    var (second, blocks) := BlockPass(loads, first);
    var (third, inline) := InlinePass(loads, second);
    (third, longcat + blocks + inline)
  }

  // ---------- The passes as loops over the text ----------

  lemma PairStep(open: string, close: string, text: string, rest: string)
    requires open != "" && close != "" && NextPair(open, close, rest).Pair?
    ensures var m := NextPair(open, close, rest);
            && Bodies(open, close, rest) == [m.body] + Bodies(open, close, m.after)
            && text + m.before + Outside(open, close, m.after) == text + Outside(open, close, rest)
  {
    hide NextPair;
  }

  /** Substitution with a callback that appends to a list: the first pass. */
  method LiftLongcat(loads: Loads, content: string) returns (text: string, calls: seq<Call>)
    ensures (text, calls) == LongcatPass(loads, content)
  {
    text, calls := "", [];
    if !InLower(OPEN, content) {
      return content, [];
    }
    hide *;
    var rest := content;
    var m := NextPair(OPEN, CLOSE, rest);
    assert text + Outside(OPEN, CLOSE, rest) == Outside(OPEN, CLOSE, content);
    assert calls + LongcatCalls(loads, Bodies(OPEN, CLOSE, rest)) == LongcatCalls(loads, Bodies(OPEN, CLOSE, content));
    while m.Pair?
      invariant m == NextPair(OPEN, CLOSE, rest)
      invariant text + Outside(OPEN, CLOSE, rest) == Outside(OPEN, CLOSE, content)
      invariant calls + LongcatCalls(loads, Bodies(OPEN, CLOSE, rest)) == LongcatCalls(loads, Bodies(OPEN, CLOSE, content))
      decreases |rest|
    {
      PairStep(OPEN, CLOSE, text, rest);
      LiftLongcatStep(loads, calls, m.body, Bodies(OPEN, CLOSE, m.after));
      calls := calls + LongcatCall(loads, m.body);
      text := text + m.before;
      rest := m.after;
      m := NextPair(OPEN, CLOSE, rest);
    }
    LiftLongcatEnd(loads, text, calls, rest, content);
    text := Tidy(text + rest);
  }

  lemma LiftLongcatStep(loads: Loads, calls: seq<Call>, body: string, bodies: seq<string>)
    ensures calls + LongcatCalls(loads, [body] + bodies) == calls + LongcatCall(loads, body) + LongcatCalls(loads, bodies)
  {
    hide LongcatCall, TagCalls, Tags;
    assert ([body] + bodies)[0] == body && ([body] + bodies)[1..] == bodies;
    assert LongcatCalls(loads, [body] + bodies) == LongcatCall(loads, body) + LongcatCalls(loads, bodies);
  }

  lemma LiftLongcatEnd(loads: Loads, text: string, calls: seq<Call>, rest: string, content: string)
    requires InLower(OPEN, content) && NextPair(OPEN, CLOSE, rest).NoPair?
    requires text + Outside(OPEN, CLOSE, rest) == Outside(OPEN, CLOSE, content)
    requires calls + LongcatCalls(loads, Bodies(OPEN, CLOSE, rest)) == LongcatCalls(loads, Bodies(OPEN, CLOSE, content))
    ensures (Tidy(text + rest), calls) == LongcatPass(loads, content)
  {
    hide NextPair, Tidy, InLower;
    assert LongcatCalls(loads, Bodies(OPEN, CLOSE, rest)) == [];
    assert calls + [] == calls;
  }

  /** The second pass, all tags of a container being lifted at once. */
  method LiftContainers(loads: Loads, content: string) returns (text: string, calls: seq<Call>)
    ensures (text, calls) == BlockPass(loads, content)
  {
    text, calls := "", [];
    if !InLower(CONTAINER_OPEN, content) {
      return content, [];
    }
    hide *;
    var rest := content;
    var m := NextPair(CONTAINER_OPEN, CONTAINER_CLOSE, rest);
    assert text + Outside(CONTAINER_OPEN, CONTAINER_CLOSE, rest) == Outside(CONTAINER_OPEN, CONTAINER_CLOSE, content);
    assert calls + ContainerCalls(loads, Bodies(CONTAINER_OPEN, CONTAINER_CLOSE, rest)) == ContainerCalls(loads, Bodies(CONTAINER_OPEN, CONTAINER_CLOSE, content));
    while m.Pair?
      invariant m == NextPair(CONTAINER_OPEN, CONTAINER_CLOSE, rest)
      invariant text + Outside(CONTAINER_OPEN, CONTAINER_CLOSE, rest) == Outside(CONTAINER_OPEN, CONTAINER_CLOSE, content)
      invariant calls + ContainerCalls(loads, Bodies(CONTAINER_OPEN, CONTAINER_CLOSE, rest)) == ContainerCalls(loads, Bodies(CONTAINER_OPEN, CONTAINER_CLOSE, content))
      decreases |rest|
    {
      PairStep(CONTAINER_OPEN, CONTAINER_CLOSE, text, rest);
      LiftContainersStep(loads, calls, m.body, Bodies(CONTAINER_OPEN, CONTAINER_CLOSE, m.after));
      calls := calls + TagCalls(loads, Tags(m.body));
      text := text + m.before;
      rest := m.after;
      m := NextPair(CONTAINER_OPEN, CONTAINER_CLOSE, rest);
    }
    LiftContainersEnd(loads, text, calls, rest, content);
    text := Tidy(text + rest);
  }

  lemma LiftContainersStep(loads: Loads, calls: seq<Call>, body: string, bodies: seq<string>)
    ensures calls + ContainerCalls(loads, [body] + bodies) == calls + TagCalls(loads, Tags(body)) + ContainerCalls(loads, bodies)
  {
    hide LongcatCall, TagCalls, Tags;
    assert ([body] + bodies)[0] == body && ([body] + bodies)[1..] == bodies;
    assert ContainerCalls(loads, [body] + bodies) == TagCalls(loads, Tags(body)) + ContainerCalls(loads, bodies);
  }

  lemma LiftContainersEnd(loads: Loads, text: string, calls: seq<Call>, rest: string, content: string)
    requires InLower(CONTAINER_OPEN, content) && NextPair(CONTAINER_OPEN, CONTAINER_CLOSE, rest).NoPair?
    requires text + Outside(CONTAINER_OPEN, CONTAINER_CLOSE, rest) == Outside(CONTAINER_OPEN, CONTAINER_CLOSE, content)
    requires calls + ContainerCalls(loads, Bodies(CONTAINER_OPEN, CONTAINER_CLOSE, rest)) == ContainerCalls(loads, Bodies(CONTAINER_OPEN, CONTAINER_CLOSE, content))
    ensures (Tidy(text + rest), calls) == BlockPass(loads, content)
  {
    hide NextPair, Tidy, InLower;
    assert ContainerCalls(loads, Bodies(CONTAINER_OPEN, CONTAINER_CLOSE, rest)) == [];
    assert calls + [] == calls;
  }

  /** The third pass, character by character between the tags. */
  method LiftInline(loads: Loads, content: string) returns (text: string, calls: seq<Call>)
    ensures (text, calls) == InlinePass(loads, content)
  {
    text, calls := "", [];
    if '<' !in content || FindExact("/>", content) == |content| {
      return content, [];
    }
    hide *;
    var rest := content;
    assert text + InlineScan(loads, rest).0 == InlineScan(loads, content).0;
    assert calls + InlineScan(loads, rest).1 == InlineScan(loads, content).1;
    while rest != ""
      invariant text + InlineScan(loads, rest).0 == InlineScan(loads, content).0
      invariant calls + InlineScan(loads, rest).1 == InlineScan(loads, content).1
      decreases |rest|
    {
      LiftInlineStep(loads, text, calls, rest);
      match InlineAt(rest) {
        case NoTag =>
          text := text + [rest[0]];
          rest := rest[1..];
        case Tag(name, attributes, length) =>
          if '.' in name {
            calls := calls + [Call(name, AttributeArguments(loads, [], Attributes(attributes)))];
          } else {
            text := text + rest[..length];
          }
          rest := rest[length..];
      }
    }
    LiftInlineEnd(loads, text, calls, content);
    text := Tidy(text);
  }

  lemma LiftInlineStep(loads: Loads, text: string, calls: seq<Call>, rest: string)
    requires rest != ""
    ensures InlineAt(rest).NoTag? ==>
              && text + InlineScan(loads, rest).0 == text + [rest[0]] + InlineScan(loads, rest[1..]).0
              && InlineScan(loads, rest).1 == InlineScan(loads, rest[1..]).1
    ensures InlineAt(rest).Tag? ==>
              var m := InlineAt(rest);
              var more := InlineScan(loads, rest[m.length..]);
              var call := [Call(m.name, AttributeArguments(loads, [], Attributes(m.body)))];
              if '.' in m.name then
                InlineScan(loads, rest).0 == more.0 && calls + InlineScan(loads, rest).1 == calls + call + more.1
              else
                text + InlineScan(loads, rest).0 == text + rest[..m.length] + more.0 && InlineScan(loads, rest).1 == more.1
  {
    hide InlineAt, Attributes, AttributeArguments;
  }

  lemma LiftInlineEnd(loads: Loads, text: string, calls: seq<Call>, content: string)
    requires '<' in content && FindExact("/>", content) != |content|
    requires text + InlineScan(loads, "").0 == InlineScan(loads, content).0
    requires calls + InlineScan(loads, "").1 == InlineScan(loads, content).1
    ensures (Tidy(text), calls) == InlinePass(loads, content)
  {
    hide Tidy, FindExact;
    assert InlineScan(loads, "") == ("", []);
    assert text + "" == text && calls + [] == calls;
  }

  /** All three passes, each over what the one before it left. */
  method ExtractEmbedded(loads: Loads, content: string) returns (text: string, calls: seq<Call>)
    ensures (text, calls) == Extract(loads, content)
  {
    var longcat, blocks, inline;
    text, longcat := LiftLongcat(loads, content);
    text, blocks := LiftContainers(loads, text);
    text, inline := LiftInline(loads, text);
    calls := longcat + blocks + inline;
  }

  // ---------- Characters by code ----------

  lemma NameCharIff(c: char)
    ensures var n := c as int; NameChar(c) <==> 48 <= n <= 57 || 65 <= n <= 90 || 97 <= n <= 122 || n in {45, 46, 95}
  {
  }

  /** Two characters match in a tag when they are the same letter in either case; the Kelvin sign is a k, and in a pattern the long s an s. */
  lemma FoldingIs(c: char)
    ensures var n := c as int;
            && LowerChar(c) as int == (if 65 <= n <= 90 then n + 32 else if n == 8490 then 107 else n)
            && FoldChar(c) as int == (if 65 <= n <= 90 then n + 32 else if n == 8490 then 107 else if n == 383 then 115 else n)
  {
  }
}
