/**
 JSON payloads as the model gateway walks them, and the Python operations on
 them. What the model does not define (decoding, `repr`, integer literals,
 full Unicode case mapping) is a `Host` of arbitrary functions.
 */
module Payloads {
  import opened Text

  datatype Option<+T> = None | Some(value: T)

  newtype byte = x: int | 0 <= x < 256

  datatype Json =
    | Null
    | Bool(b: bool)
    | Int(n: int)
    | Float(r: real)
    | Str(s: string)
    | Arr(items: seq<Json>)
    | Obj(fields: map<string, Json>)

  type Fields = map<string, Json>

  /** `loads` decodes UTF-8 and JSON (None: it raises), `repr` is `str` of a value that is no string,
      `parseInt` is `int` of a string, `lower` is `str.lower`. */
  datatype Host = Host(loads: seq<byte> -> Option<Json>, repr: Json -> string,
                       parseInt: string -> Option<int>, lower: string -> string)

  function Get(o: Fields, key: string): Json {
    if key in o then o[key] else Null
  }

  predicate Truthy(j: Json) {
    match j
    case Null => false
    case Bool(b) => b
    case Int(n) => n != 0
    case Float(r) => r != 0.0
    case Str(s) => s != ""
    case Arr(items) => items != []
    case Obj(fields) => fields != map[]
  }

  /** Python's `a or b`. */
  function Or(a: Json, b: Json): Json {
    if Truthy(a) then a else b
  }

  function StrOf(host: Host, j: Json): string {
    if j.Str? then j.s else host.repr(j)
  }

  /** `str(j or "")`. */
  function TextOr(host: Host, j: Json, default: string): string {
    if Truthy(j) then StrOf(host, j) else default
  }

  /** `int(j)`, None where it raises TypeError or ValueError. */
  function AsInt(host: Host, j: Json): Option<int> {
    match j
    case Int(n) => Some(n)
    case Bool(b) => Some(if b then 1 else 0)
    case Float(r) => Some(if r >= 0.0 then r.Floor else -((-r).Floor))
    case Str(s) => host.parseInt(s)
    case _ => None
  }

  /** The dictionary at a key, or the empty one when the value is no dictionary. */
  function SubObject(o: Fields, key: string): Fields {
    if Get(o, key).Obj? then Get(o, key).fields else map[]
  }

  // ---------- Text content ----------

  function JoinLines(parts: seq<string>): string {
    if parts == [] then "" else if |parts| == 1 then parts[0] else parts[0] + "\n" + JoinLines(parts[1..])
  }

  function PayloadType(host: Host, o: Fields): string {
    host.lower(Strip(TextOr(host, Get(o, "type"), "")))
  }

  function ExtractText(host: Host, j: Json): string
    decreases j, 3
  {
    match j
    case Str(s) => s
    case Arr(items) => JoinLines(Fragments(host, items))
    case Obj(o) =>
      if Get(o, "text").Str? && Get(o, "text").s != "" then Get(o, "text").s
      else if Get(o, "output_text").Str? && Get(o, "output_text").s != "" then Get(o, "output_text").s
      else
        var typed := if PayloadType(host, o) in {"text", "output_text", "input_text"}
                     then FirstText(host, j, ["text", "output_text", "content"]) else "";
        if typed != "" then typed else FirstText(host, j, ["content", "output", "message", "delta"])
    case _ => ""
  }

  function FirstText(host: Host, j: Json, keys: seq<string>): string
    requires j.Obj?
    decreases j, 1, |keys|
  {
    if keys == [] then ""
    else
      var fragment := if keys[0] in j.fields then ExtractText(host, j.fields[keys[0]]) else "";
      if fragment != "" then fragment else FirstText(host, j, keys[1..])
  }

  function Fragments(host: Host, items: seq<Json>): seq<string>
    decreases items
  {
    if items == [] then []
    else
      var fragment := ExtractText(host, items[0]);
      (if fragment != "" then [fragment] else []) + Fragments(host, items[1..])
  }

  // ---------- Tool call candidates ----------

  function Dicts(items: seq<Json>): seq<Fields> {
    if items == [] then []
    else (if items[0].Obj? then [items[0].fields] else []) + Dicts(items[1..])
  }

  /** The candidate built from a payload that is itself a call. */
  function TypedCall(host: Host, o: Fields): Fields {
    var function_ := Get(o, "function");
    var inner := SubObject(o, "function");
    var name := Strip(TextOr(host, Or(Or(Or(Get(o, "name"), Get(inner, "name")), Get(o, "tool_name")), Get(o, "function_name")), ""));
    var own := if Get(o, "arguments") != Null then Get(o, "arguments") else Get(o, "input");
    var arguments := if own == Null && function_.Obj? then Get(inner, "arguments") else own;
    map["id" := Or(Get(o, "id"), Get(o, "call_id")),
        "index" := Get(o, "index"),
        "type" := Or(Get(o, "type"), Str("function")),
        "function" := Obj(map["name" := Str(name), "arguments" := if arguments != Null then arguments else Str("{}")])]
  }

  function Candidates(host: Host, j: Json): seq<Fields>
    decreases j, 3
  {
    match j
    case Arr(items) => CandidatesOfAll(host, items)
    case Obj(o) =>
      var listed := if Get(o, "tool_calls").Arr? then Dicts(Get(o, "tool_calls").items) else [];
      var typed := if PayloadType(host, o) in {"function_call", "tool_call", "tool_use"} then [TypedCall(host, o)] else [];
      listed + typed + CandidatesBelow(host, j, ["content", "output", "message", "delta"])
    case _ => []
  }

  function CandidatesBelow(host: Host, j: Json, keys: seq<string>): seq<Fields>
    requires j.Obj?
    decreases j, 1, |keys|
  {
    if keys == [] then []
    else (if keys[0] in j.fields then Candidates(host, j.fields[keys[0]]) else []) + CandidatesBelow(host, j, keys[1..])
  }

  function CandidatesOfAll(host: Host, items: seq<Json>): seq<Fields>
    decreases items
  {
    if items == [] then [] else Candidates(host, items[0]) + CandidatesOfAll(host, items[1..])
  }
}
