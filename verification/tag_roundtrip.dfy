/**
 Containers of tool tags and self-closing tags written into a text are read back
 exactly. A text is viewed as pieces: tags, and words between them, which may hold
 anything but the tags that are searched for.
 */
module TagRoundTrip {
  import opened Text
  import opened Payloads
  import opened EmbeddedCalls
  import opened EmbeddedRoundTrip

  datatype Piece = Words(text: string) | Opening(name: string) | Closing(name: string) | Empty(name: string, attributes: string)

  function OpenTag(name: string): string {
    "<" + (name + ">")
  }

  function CloseTag(name: string): string {
    "</" + (name + ">")
  }

  function AfterName(p: Piece): string {
    if p.Empty? then p.attributes + "/>" else ">"
  }

  function PieceText(p: Piece): string {
    if p.Words? then p.text else (if p.Closing? then "</" else "<") + (p.name + AfterName(p))
  }

  function Written(ps: seq<Piece>): string {
    if ps == [] then "" else PieceText(ps[0]) + Written(ps[1..])
  }

  ghost predicate IsName(n: string) {
    n != "" && forall i :: 0 <= i < |n| ==> NameChar(n[i])
  }

  ghost predicate FreeOfAngles(s: string) {
    forall i :: 0 <= i < |s| ==> s[i] != '<' && s[i] != '>'
  }

  ghost predicate Proper(p: Piece) {
    match p
    case Words(_) => true
    case Opening(name) => IsName(name)
    case Closing(name) => IsName(name)
    case Empty(name, attributes) => IsName(name) && FreeOfAngles(attributes) && (attributes != "" ==> IsSpace(attributes[0]))
  }

  ghost predicate AllProper(ps: seq<Piece>) {
    forall i :: 0 <= i < |ps| ==> Proper(ps[i])
  }

  lemma {:induction false} WrittenAppend(a: seq<Piece>, b: seq<Piece>)
    ensures Written(a + b) == Written(a) + Written(b)
  {
    hide PieceText;
    if a == [] {
      assert a + b == b;
    } else {
      assert (a + b)[1..] == a[1..] + b;
      WrittenAppend(a[1..], b);
    }
  }

  // ---------- Where a tag can match ----------

  /** A case mapping that leaves the characters around names alone and names names. */
  ghost predicate Mapping(f: char -> char) {
    && (forall c :: NameChar(c) ==> NameChar(f(c)))
    && (forall c :: c == '<' || c == '>' || c == '/' || IsSpace(c) ==> f(c) == c)
    && (forall c :: f(c) == '<' ==> c == '<')
  }

  /** No mapping at all. */
  function Exactly(c: char): char {
    c
  }

  ghost predicate Under(f: char -> char, tag: string, s: string) {
    |tag| <= |s| && forall k :: 0 <= k < |tag| ==> f(s[k]) == tag[k]
  }

  ghost predicate Same(f: char -> char, n: string, w: string) {
    |n| == |w| && forall k :: 0 <= k < |n| ==> f(n[k]) == w[k]
  }

  function TagOf(closing: bool, w: string): string {
    if closing then CloseTag(w) else OpenTag(w)
  }

  /** The tag stands somewhere in the words. */
  ghost predicate HasTag(f: char -> char, tag: string, t: string) {
    t != "" && (Under(f, tag, t) || HasTag(f, tag, t[1..]))
  }

  /** The piece is the tag, or words that hold it, up to the mapping. */
  ghost predicate Is(f: char -> char, closing: bool, w: string, p: Piece) {
    match p
    case Words(text) => HasTag(f, TagOf(closing, w), text)
    case Opening(name) => !closing && Same(f, name, w)
    case Closing(name) => closing && Same(f, name, w)
    case Empty(_, _) => false
  }

  lemma NameEnds(n: string, rest: string, m: nat)
    requires IsName(n) && m <= |n| && rest != "" && !NameChar(rest[0])
    ensures NameChar((n + rest)[m]) <==> m < |n|
    ensures m == |n| ==> (n + rest)[m] == rest[0]
  {
    assert (n + rest)[m] == if m < |n| then n[m] else rest[0];
  }

  /** Names end where the tag says they do. */
  lemma NamesMatch(f: char -> char, n: string, w: string, rest: string)
    requires Mapping(f) && IsName(n) && IsName(w) && rest != "" && !NameChar(rest[0]) && (rest[0] == '>' || rest[0] == '/' || IsSpace(rest[0]))
    requires Under(f, w + ">", n + rest)
    ensures Same(f, n, w) && rest[0] == '>'
  {
    var s, t := n + rest, w + ">";
    var m := if |n| < |w| then |n| else |w|;
    NameEnds(n, rest, m);
    NameEnds(w, ">", m);
    assert f(s[m]) == t[m];
    assert |n| == |w|;
    forall k | 0 <= k < |n| ensures f(n[k]) == w[k] {
      assert f(s[k]) == t[k];
    }
  }

  lemma UnderAfter(f: char -> char, head: string, t: string, s: string)
    requires Under(f, head + t, head + s)
    ensures Under(f, t, s)
  {
    assert forall k :: 0 <= k < |t| ==> t[k] == (head + t)[|head| + k];
    assert forall k :: 0 <= k < |s| ==> s[k] == (head + s)[|head| + k];
  }

  /** A tag matches at a piece only if the piece is that tag. */
  lemma MatchOnly(f: char -> char, closing: bool, w: string, p: Piece, rest: string)
    requires Mapping(f) && IsName(w) && Proper(p) && !p.Words?
    requires Under(f, TagOf(closing, w), PieceText(p) + rest)
    ensures Is(f, closing, w, p)
  {
    var tag, s, after := TagOf(closing, w), PieceText(p) + rest, AfterName(p) + rest;
    PieceParts(p, rest);
    SecondCharacter(closing, w);
    assert NameChar(w[0]) && NameChar(p.name[0]);
    assert f(s[1]) == tag[1];
    hide PieceText, TagOf, AfterName;
    assert closing <==> p.Closing?;
    UnderAfter(f, if closing then "</" else "<", w + ">", p.name + after);
    NamesMatch(f, p.name, w, after);
  }

  lemma PieceParts(p: Piece, rest: string)
    requires Proper(p) && !p.Words?
    ensures var s, after := PieceText(p) + rest, AfterName(p) + rest;
            && s == (if p.Closing? then "</" else "<") + (p.name + after)
            && s[1] == (if p.Closing? then '/' else p.name[0])
            && (after[0] == '>' || after[0] == '/' || IsSpace(after[0])) && !NameChar(after[0])
  {
    Regrouped(if p.Closing? then "</" else "<", p.name, AfterName(p), rest);
    if p.Empty? {
      assert AfterName(p)[0] == if p.attributes == "" then '/' else p.attributes[0];
    }
    hide FreeOfAngles;
  }

  lemma Regrouped(a: string, b: string, c: string, d: string)
    ensures (a + (b + c)) + d == a + (b + (c + d))
  {
  }

  lemma SecondCharacter(closing: bool, w: string)
    requires w != ""
    ensures TagOf(closing, w) == (if closing then "</" else "<") + (w + ">")
    ensures TagOf(closing, w)[1] == if closing then '/' else w[0]
  {
  }

  lemma TailOfPiece(p: Piece)
    requires Proper(p) && !p.Words?
    ensures PieceText(p) != "" && PieceText(p)[0] == '<' && NoAngle(PieceText(p)[1..])
  {
    var rest := p.name + AfterName(p);
    assert NoAngle(p.name) by {
      assert forall i :: 0 <= i < |p.name| ==> NameChar(p.name[i]);
    }
    assert NoAngle(AfterName(p)) by {
      if p.Empty? {
        assert forall i :: 0 <= i < |p.attributes| ==> p.attributes[i] != '<';
      }
    }
    assert NoAngle(rest);
    hide Proper;
    if p.Closing? {
      assert ("</" + rest)[1..] == "/" + rest;
    } else {
      assert ("<" + rest)[1..] == rest;
    }
  }

  lemma FoldMaps()
    ensures Mapping(FoldChar) && Mapping(LowerChar) && Mapping(Exactly)
  {
  }

  // ---------- Searching past pieces ----------

  lemma {:induction false} PlainHasNoTag(f: char -> char, tag: string, t: string)
    requires Mapping(f) && tag != "" && tag[0] == '<' && NoAngle(t)
    ensures !HasTag(f, tag, t)
  {
    if t != "" {
      assert t[0] in t && forall c :: c in t[1..] ==> c in t;
      PlainHasNoTag(f, tag, t[1..]);
    }
  }

  /** What follows words: a tag or the end. */
  ghost predicate TagNext(rest: string) {
    rest != "" ==> rest[0] == '<'
  }

  /** A tag that begins inside the words ends inside them: it holds no second angle bracket. */
  lemma EndsInside(f: char -> char, tag: string, t: string, rest: string)
    requires Mapping(f) && tag != "" && NoAngle(tag[1..]) && t != "" && TagNext(rest) && Under(f, tag, t + rest)
    ensures Under(f, tag, t)
  {
    var s := t + rest;
    forall k | 1 <= k < |tag| ensures tag[k] != '<' {
      assert tag[1..][k - 1] in tag[1..];
    }
    assert |t| < |s| ==> s[|t|] == rest[0];
    assert |tag| <= |t|;
    assert forall k :: 0 <= k < |t| ==> s[k] == t[k];
  }

  lemma {:induction false} FindPastWords(tag: string, t: string, rest: string)
    requires tag != "" && NoAngle(tag[1..]) && TagNext(rest) && !HasTag(FoldChar, tag, t)
    ensures Find(tag, t + rest) == |t| + Find(tag, rest)
  {
    if t == "" {
      assert t + rest == rest;
    } else {
      FoldMaps();
      if Starts(tag, t + rest) {
        StartsIsUnder(tag, t + rest);
        EndsInside(FoldChar, tag, t, rest);
      }
      hide FoldChar, Starts, Under;
      assert (t + rest)[1..] == t[1..] + rest;
      FindPastWords(tag, t[1..], rest);
    }
  }

  lemma {:induction false} FindExactPastWords(tag: string, t: string, rest: string)
    requires tag != "" && NoAngle(tag[1..]) && TagNext(rest) && !HasTag(Exactly, tag, t)
    ensures FindExact(tag, t + rest) == |t| + FindExact(tag, rest)
  {
    if t == "" {
      assert t + rest == rest;
    } else {
      FoldMaps();
      if tag <= t + rest {
        PrefixIsUnder(tag, t + rest);
        EndsInside(Exactly, tag, t, rest);
      }
      hide Under;
      assert (t + rest)[1..] == t[1..] + rest;
      FindExactPastWords(tag, t[1..], rest);
    }
  }

  lemma {:induction false} InLowerPastWords(tag: string, t: string, rest: string)
    requires tag != "" && NoAngle(tag[1..]) && TagNext(rest) && !HasTag(LowerChar, tag, t)
    ensures InLower(tag, t + rest) == InLower(tag, rest)
  {
    if t == "" {
      assert t + rest == rest;
    } else {
      FoldMaps();
      if Under(LowerChar, tag, t + rest) {
        EndsInside(LowerChar, tag, t, rest);
      }
      InLowerStep(tag, t + rest);
      hide LowerChar, Under;
      assert (t + rest)[1..] == t[1..] + rest;
      InLowerPastWords(tag, t[1..], rest);
    }
  }

  lemma InLowerStep(tag: string, s: string)
    requires s != ""
    ensures InLower(tag, s) <==> Under(LowerChar, tag, s) || InLower(tag, s[1..])
  {
    hide LowerChar;
  }

  lemma TagBegins(closing: bool, w: string)
    ensures TagOf(closing, w) != "" && TagOf(closing, w)[0] == '<'
    ensures IsName(w) ==> NoAngle(TagOf(closing, w)[1..])
  {
    if IsName(w) {
      TailOfPiece(if closing then Closing(w) else Opening(w));
    }
  }

  lemma {:induction false} FindExactPastPlain(tag: string, t: string, rest: string)
    requires tag != "" && tag[0] == '<' && NoAngle(t)
    ensures FindExact(tag, t + rest) == |t| + FindExact(tag, rest)
  {
    if t == "" {
      assert t + rest == rest;
    } else {
      var s := t + rest;
      assert s[0] == t[0] && t[0] in t;
      assert s[1..] == t[1..] + rest;
      assert NoAngle(t[1..]) by {
        assert forall c :: c in t[1..] ==> c in t;
      }
      FindExactPastPlain(tag, t[1..], rest);
    }
  }

  lemma {:induction false} InLowerPastPlain(tag: string, t: string, rest: string)
    requires tag != "" && tag[0] == '<' && NoAngle(t)
    ensures InLower(tag, t + rest) == InLower(tag, rest)
  {
    if t == "" {
      assert t + rest == rest;
    } else {
      var s := t + rest;
      assert s[0] == t[0] && t[0] in t;
      assert s[1..] == t[1..] + rest;
      assert NoAngle(t[1..]) by {
        assert forall c :: c in t[1..] ==> c in t;
      }
      assert LowerChar(s[0]) != '<';
      InLowerPastPlain(tag, t[1..], rest);
    }
  }

  /** All three searches pass over a piece that is not the tag. */
  lemma PastPiece(closing: bool, w: string, p: Piece, rest: string)
    requires IsName(w) && Proper(p) && (p.Words? ==> TagNext(rest))
    ensures !Is(FoldChar, closing, w, p) ==>
              Find(TagOf(closing, w), PieceText(p) + rest) == |PieceText(p)| + Find(TagOf(closing, w), rest)
    ensures !Is(Exactly, closing, w, p) ==>
              FindExact(TagOf(closing, w), PieceText(p) + rest) == |PieceText(p)| + FindExact(TagOf(closing, w), rest)
    ensures !Is(LowerChar, closing, w, p) ==> InLower(TagOf(closing, w), PieceText(p) + rest) == InLower(TagOf(closing, w), rest)
  {
    var tag := TagOf(closing, w);
    TagBegins(closing, w);
    hide TagOf, Find, FindExact, InLower, IsName, NoAngle, HasTag, Same;
    if p.Words? {
      if !Is(FoldChar, closing, w, p) {
        FindPastWords(tag, p.text, rest);
      }
      if !Is(Exactly, closing, w, p) {
        FindExactPastWords(tag, p.text, rest);
      }
      if !Is(LowerChar, closing, w, p) {
        InLowerPastWords(tag, p.text, rest);
      }
    } else {
      hide Is;
      if !Is(FoldChar, closing, w, p) {
        FindPastTag(closing, w, p, rest);
      }
      if !Is(Exactly, closing, w, p) {
        FindExactPastTag(closing, w, p, rest);
      }
      if !Is(LowerChar, closing, w, p) {
        InLowerPastTag(closing, w, p, rest);
      }
    }
  }

  lemma StartsIsUnder(tag: string, s: string)
    ensures Starts(tag, s) <==> Under(FoldChar, tag, s)
  {
    hide FoldChar;
  }

  lemma PrefixIsUnder(tag: string, s: string)
    ensures tag <= s <==> Under(Exactly, tag, s)
  {
  }

  lemma FindPastHead(tag: string, head: string, rest: string)
    requires tag != "" && tag[0] == '<' && head != "" && NoAngle(head[1..]) && !Under(FoldChar, tag, head + rest)
    ensures Find(tag, head + rest) == |head| + Find(tag, rest)
  {
    StartsIsUnder(tag, head + rest);
    hide FoldChar, Starts, Under;
    assert (head + rest)[1..] == head[1..] + rest;
    FindInPlain(tag, head[1..], rest);
  }

  lemma FindPastTag(closing: bool, w: string, p: Piece, rest: string)
    requires IsName(w) && Proper(p) && !p.Words? && !Is(FoldChar, closing, w, p)
    ensures Find(TagOf(closing, w), PieceText(p) + rest) == |PieceText(p)| + Find(TagOf(closing, w), rest)
  {
    hide *;
    TagBegins(closing, w);
    TailOfPiece(p);
    FoldMaps();
    NoMatch(FoldChar, closing, w, p, rest);
    FindPastHead(TagOf(closing, w), PieceText(p), rest);
  }

  lemma FindExactPastHead(tag: string, head: string, rest: string)
    requires tag != "" && tag[0] == '<' && head != "" && NoAngle(head[1..]) && !Under(Exactly, tag, head + rest)
    ensures FindExact(tag, head + rest) == |head| + FindExact(tag, rest)
  {
    PrefixIsUnder(tag, head + rest);
    hide Under;
    assert (head + rest)[1..] == head[1..] + rest;
    FindExactPastPlain(tag, head[1..], rest);
  }

  lemma FindExactPastTag(closing: bool, w: string, p: Piece, rest: string)
    requires IsName(w) && Proper(p) && !p.Words? && !Is(Exactly, closing, w, p)
    ensures FindExact(TagOf(closing, w), PieceText(p) + rest) == |PieceText(p)| + FindExact(TagOf(closing, w), rest)
  {
    hide *;
    TagBegins(closing, w);
    TailOfPiece(p);
    FoldMaps();
    NoMatch(Exactly, closing, w, p, rest);
    FindExactPastHead(TagOf(closing, w), PieceText(p), rest);
  }

  lemma InLowerPastHead(tag: string, head: string, rest: string)
    requires tag != "" && tag[0] == '<' && head != "" && NoAngle(head[1..]) && !Under(LowerChar, tag, head + rest)
    ensures InLower(tag, head + rest) == InLower(tag, rest)
  {
    assert (head + rest)[1..] == head[1..] + rest;
    InLowerPastPlain(tag, head[1..], rest);
  }

  lemma InLowerPastTag(closing: bool, w: string, p: Piece, rest: string)
    requires IsName(w) && Proper(p) && !p.Words? && !Is(LowerChar, closing, w, p)
    ensures InLower(TagOf(closing, w), PieceText(p) + rest) == InLower(TagOf(closing, w), rest)
  {
    hide *;
    TagBegins(closing, w);
    TailOfPiece(p);
    FoldMaps();
    NoMatch(LowerChar, closing, w, p, rest);
    InLowerPastHead(TagOf(closing, w), PieceText(p), rest);
  }

  lemma NoMatch(f: char -> char, closing: bool, w: string, p: Piece, rest: string)
    requires Mapping(f) && IsName(w) && Proper(p) && !p.Words? && !Is(f, closing, w, p)
    ensures !Under(f, TagOf(closing, w), PieceText(p) + rest)
  {
    if Under(f, TagOf(closing, w), PieceText(p) + rest) {
      MatchOnly(f, closing, w, p, rest);
    }
  }

  /** None of the pieces is the tag, up to the mapping. */
  ghost predicate Lacks(f: char -> char, closing: bool, w: string, ps: seq<Piece>) {
    forall i :: 0 <= i < |ps| ==> !Is(f, closing, w, ps[i])
  }

  /** Words stand alone: before a tag, or at the end. */
  ghost predicate Guarded(ps: seq<Piece>) {
    ps != [] ==> (ps[0].Words? && |ps| > 1 ==> !ps[1].Words?) && Guarded(ps[1..])
  }

  /** No words meet where the two lists meet. */
  ghost predicate Joins(a: seq<Piece>, b: seq<Piece>) {
    a != [] && b != [] ==> !a[|a| - 1].Words? || !b[0].Words?
  }

  lemma {:induction false} GuardedAppend(a: seq<Piece>, b: seq<Piece>)
    requires Guarded(a) && Guarded(b) && Joins(a, b)
    ensures Guarded(a + b)
  {
    if a == [] {
      assert a + b == b;
    } else {
      assert (a + b)[1..] == a[1..] + b;
      GuardedAppend(a[1..], b);
    }
  }

  lemma NextIsTag(ps: seq<Piece>, rest: string)
    requires ps != [] && Guarded(ps) && AllProper(ps) && TagNext(rest)
    ensures ps[0].Words? ==> TagNext(Written(ps[1..]) + rest)
    ensures Guarded(ps[1..]) && AllProper(ps[1..])
  {
    if |ps| > 1 && !ps[1].Words? {
      TailOfPiece(ps[1]);
      hide PieceText, Proper, NoAngle;
      assert ps[1..][0] == ps[1];
    } else if |ps| == 1 {
      assert "" + rest == rest;
    }
  }

  lemma {:induction false} FindPast(closing: bool, w: string, ps: seq<Piece>, rest: string)
    requires IsName(w) && AllProper(ps) && Guarded(ps) && TagNext(rest) && Lacks(FoldChar, closing, w, ps)
    ensures Find(TagOf(closing, w), Written(ps) + rest) == |Written(ps)| + Find(TagOf(closing, w), rest)
  {
    hide Is, Proper, Find, TagOf, PieceText, FoldChar;
    if ps == [] {
      assert "" + rest == rest;
    } else {
      NextIsTag(ps, rest);
      hide TagNext;
      PastPiece(closing, w, ps[0], Written(ps[1..]) + rest);
      FindPast(closing, w, ps[1..], rest);
      assert Written(ps) + rest == PieceText(ps[0]) + (Written(ps[1..]) + rest);
    }
  }

  lemma {:induction false} FindExactPast(closing: bool, w: string, ps: seq<Piece>, rest: string)
    requires IsName(w) && AllProper(ps) && Guarded(ps) && TagNext(rest) && Lacks(Exactly, closing, w, ps)
    ensures FindExact(TagOf(closing, w), Written(ps) + rest) == |Written(ps)| + FindExact(TagOf(closing, w), rest)
  {
    hide Is, Proper, FindExact, TagOf, PieceText;
    if ps == [] {
      assert "" + rest == rest;
    } else {
      NextIsTag(ps, rest);
      hide TagNext;
      PastPiece(closing, w, ps[0], Written(ps[1..]) + rest);
      FindExactPast(closing, w, ps[1..], rest);
      assert Written(ps) + rest == PieceText(ps[0]) + (Written(ps[1..]) + rest);
    }
  }

  lemma {:induction false} NotInLower(closing: bool, w: string, ps: seq<Piece>)
    requires IsName(w) && AllProper(ps) && Guarded(ps) && Lacks(LowerChar, closing, w, ps)
    ensures !InLower(TagOf(closing, w), Written(ps))
  {
    hide Is, Proper, TagOf, PieceText, LowerChar;
    if ps != [] {
      NextIsTag(ps, "");
      assert Written(ps[1..]) + "" == Written(ps[1..]);
      PastPiece(closing, w, ps[0], Written(ps[1..]));
      NotInLower(closing, w, ps[1..]);
    }
  }

  // ---------- Containers as written ----------

  /** `gap<key>value</key>`. */
  datatype Field = Field(gap: string, key: string, value: string)

  /** `gap<name>fields tail</name>`. */
  datatype Tool = Tool(gap: string, name: string, fields: seq<Field>, tail: string)

  /** A container and the text up to the next one. */
  datatype Box = Box(tools: seq<Tool>, tail: string, text: string)

  function FieldPieces(fs: seq<Field>): seq<Piece> {
    if fs == [] then []
    else [Words(fs[0].gap)] + ([Opening(fs[0].key)] + ([Words(fs[0].value)] + ([Closing(fs[0].key)] + FieldPieces(fs[1..]))))
  }

  function ToolPieces(ts: seq<Tool>): seq<Piece> {
    if ts == [] then []
    else [Words(ts[0].gap)] + ([Opening(ts[0].name)] + (InnerPieces(ts[0]) + ([Closing(ts[0].name)] + ToolPieces(ts[1..]))))
  }

  /** What a tool tag encloses. */
  function InnerPieces(t: Tool): seq<Piece> {
    FieldPieces(t.fields) + [Words(t.tail)]
  }

  function BoxPieces(b: Box): seq<Piece> {
    ToolPieces(b.tools) + [Words(b.tail)]
  }

  function BoxDoc(lead: string, boxes: seq<Box>): seq<Piece>
    decreases boxes
  {
    if boxes == [] then [Words(lead)]
    else [Words(lead)] + ([Opening("tool_calls")] + (BoxPieces(boxes[0]) + ([Closing("tool_calls")] + BoxDoc(boxes[0].text, boxes[1..]))))
  }

  /** Not one of the words the first two passes look for, in any case. */
  ghost predicate Unreserved(n: string) {
    !Same(FoldChar, n, "tool_calls") && !Same(FoldChar, n, "longcat_tool_call")
  }

  /** A field value may hold anything but the tags that would end it, its tool or its container, or begin a longcat block. */
  ghost predicate PlainValue(value: string, key: string, tool: string) {
    && !HasTag(Exactly, TagOf(true, key), value) && !HasTag(Exactly, TagOf(true, tool), value)
    && !HasTag(FoldChar, TagOf(true, "tool_calls"), value) && !HasTag(FoldChar, TagOf(false, "longcat_tool_call"), value)
  }

  ghost predicate PlainField(f: Field, tool: string) {
    NoAngle(f.gap) && PlainValue(f.value, f.key, tool) && IsName(f.key) && Unreserved(f.key) && f.key != tool
  }

  ghost predicate PlainTool(t: Tool) {
    && NoAngle(t.gap) && NoAngle(t.tail) && IsName(t.name) && Unreserved(t.name)
    && forall i :: 0 <= i < |t.fields| ==> PlainField(t.fields[i], t.name)
  }

  ghost predicate PlainBox(b: Box) {
    NoAngle(b.tail) && NoAngle(b.text) && forall i :: 0 <= i < |b.tools| ==> PlainTool(b.tools[i])
  }

  ghost predicate PlainBoxes(lead: string, boxes: seq<Box>) {
    NoAngle(lead) && forall i :: 0 <= i < |boxes| ==> PlainBox(boxes[i])
  }

  function FieldPairs(fs: seq<Field>): seq<(string, string)> {
    if fs == [] then [] else [(fs[0].key, fs[0].value)] + FieldPairs(fs[1..])
  }

  /** The fields that count as arguments: those without a dot in the key. */
  function ArgumentFields(fs: seq<Field>): seq<(string, string)> {
    if fs == [] then [] else (if '.' in fs[0].key then [] else [(fs[0].key, fs[0].value)]) + ArgumentFields(fs[1..])
  }

  /** A call for each tool with a dotted name. */
  function ToolCallsOf(loads: Loads, ts: seq<Tool>): seq<Call> {
    if ts == [] then []
    else (if '.' in ts[0].name then [Call(ts[0].name, AttributeArguments(loads, [], ArgumentFields(ts[0].fields)))] else [])
         + ToolCallsOf(loads, ts[1..])
  }

  function BoxCallsOf(loads: Loads, boxes: seq<Box>): seq<Call> {
    if boxes == [] then [] else ToolCallsOf(loads, boxes[0].tools) + BoxCallsOf(loads, boxes[1..])
  }

  function BoxText(lead: string, boxes: seq<Box>): string
    decreases boxes
  {
    if boxes == [] then lead else lead + BoxText(boxes[0].text, boxes[1..])
  }

  // ---------- Nothing inside a container is taken for its tags ----------

  /** Proper pieces among which neither the end of a container nor the start of a longcat block can be found. */
  ghost predicate Quiet(ps: seq<Piece>) {
    && AllProper(ps) && Guarded(ps)
    && Lacks(FoldChar, true, "tool_calls", ps) && Lacks(FoldChar, false, "longcat_tool_call", ps)
  }

  lemma QuietAppend(a: seq<Piece>, b: seq<Piece>)
    requires Quiet(a) && Quiet(b) && Joins(a, b)
    ensures Quiet(a + b)
  {
    GuardedAppend(a, b);
    hide Is, Proper, Guarded, Joins;
  }

  lemma OnePiece(p: Piece)
    ensures Guarded([p]) && (Proper(p) ==> AllProper([p]))
    ensures forall f, closing, w :: !Is(f, closing, w, p) ==> Lacks(f, closing, w, [p])
  {
    assert [p][1..] == [];
  }

  lemma QuietTag(p: Piece)
    requires Proper(p) && !p.Words? && (p.Opening? || p.Closing? ==> Unreserved(p.name))
    ensures Quiet([p])
  {
    OnePiece(p);
    hide Same, IsName;
    assert !Is(FoldChar, true, "tool_calls", p) && !Is(FoldChar, false, "longcat_tool_call", p);
  }

  lemma QuietWords(t: string)
    requires NoAngle(t)
    ensures Quiet([Words(t)])
  {
    FoldMaps();
    TagBegins(true, "tool_calls");
    TagBegins(false, "longcat_tool_call");
    PlainHasNoTag(FoldChar, TagOf(true, "tool_calls"), t);
    PlainHasNoTag(FoldChar, TagOf(false, "longcat_tool_call"), t);
    OnePiece(Words(t));
    hide TagOf, HasTag;
    assert !Is(FoldChar, true, "tool_calls", Words(t)) && !Is(FoldChar, false, "longcat_tool_call", Words(t));
  }

  lemma QuietValue(f: Field, tool: string)
    requires PlainField(f, tool)
    ensures Quiet([Words(f.value)])
  {
    OnePiece(Words(f.value));
    hide TagOf, HasTag;
    assert !Is(FoldChar, true, "tool_calls", Words(f.value)) && !Is(FoldChar, false, "longcat_tool_call", Words(f.value));
  }

  /** What matches in lower case matches with case folded. */
  lemma {:induction false} LowerWithinFold(closing: bool, w: string, t: string)
    requires IsName(w) && !HasTag(FoldChar, TagOf(closing, w), t)
    ensures !HasTag(LowerChar, TagOf(closing, w), t)
  {
    if t != "" {
      LowerWithinFold(closing, w, t[1..]);
      if Under(LowerChar, TagOf(closing, w), t) {
        LowerIsFold(closing, w, t);
      }
    }
  }

  lemma LowerIsFold(closing: bool, w: string, t: string)
    requires IsName(w) && Under(LowerChar, TagOf(closing, w), t)
    ensures Under(FoldChar, TagOf(closing, w), t)
  {
    var tag := TagOf(closing, w);
    forall k | 0 <= k < |tag| ensures tag[k] != '\U{17f}' {
      assert closing && k >= 2 && k - 2 < |w| ==> tag[k] == w[k - 2];
      assert !closing && k >= 1 && k - 1 < |w| ==> tag[k] == w[k - 1];
    }
    hide TagOf;
    forall k | 0 <= k < |tag| ensures FoldChar(t[k]) == tag[k] {
      assert LowerChar(t[k]) == tag[k];
    }
  }

  lemma LacksLower(closing: bool, w: string, ps: seq<Piece>)
    requires IsName(w) && AllProper(ps) && Lacks(FoldChar, closing, w, ps)
    ensures Lacks(LowerChar, closing, w, ps)
  {
    forall i | 0 <= i < |ps| ensures !Is(LowerChar, closing, w, ps[i]) {
      assert !Is(FoldChar, closing, w, ps[i]) && Proper(ps[i]);
      if ps[i].Words? {
        LowerWithinFold(closing, w, ps[i].text);
      } else if ps[i].Opening? || ps[i].Closing? {
        NamesFoldAlike(ps[i].name, w);
      }
    }
  }

  /** Names are ASCII, where both case mappings agree. */
  lemma NamesFoldAlike(n: string, w: string)
    requires IsName(n)
    ensures Same(FoldChar, n, w) <==> Same(LowerChar, n, w)
  {
    forall k | 0 <= k < |n| ensures FoldChar(n[k]) == LowerChar(n[k]) {
      assert NameChar(n[k]);
    }
  }

  lemma {:induction false} FieldsQuiet(fs: seq<Field>, tool: string)
    requires forall i :: 0 <= i < |fs| ==> PlainField(fs[i], tool)
    ensures Quiet(FieldPieces(fs)) && Lacks(Exactly, true, tool, FieldPieces(fs))
  {
    if fs != [] {
      var f := fs[0];
      assert PlainField(f, tool);
      FieldsQuiet(fs[1..], tool);
      QuietWords(f.gap);
      QuietTag(Opening(f.key));
      QuietValue(f, tool);
      QuietTag(Closing(f.key));
      SameExactly(f.key, tool);
      FieldsEnd(fs[1..]);
      NoToolEnd(f, tool);
      var rest := FieldPieces(fs[1..]);
      hide Quiet, Same, Unreserved, NoAngle, IsName, FieldPieces, PlainField;
      QuietAppend([Closing(f.key)], rest);
      QuietAppend([Words(f.value)], [Closing(f.key)] + rest);
      QuietAppend([Opening(f.key)], [Words(f.value)] + ([Closing(f.key)] + rest));
      QuietAppend([Words(f.gap)], [Opening(f.key)] + ([Words(f.value)] + ([Closing(f.key)] + rest)));
      FieldsStep(fs);
    }
  }

  lemma NoToolEnd(f: Field, tool: string)
    requires PlainField(f, tool)
    ensures !Is(Exactly, true, tool, Words(f.gap)) && !Is(Exactly, true, tool, Words(f.value))
    ensures !Is(Exactly, true, tool, Opening(f.key)) && !Is(Exactly, true, tool, Closing(f.key))
  {
    FoldMaps();
    TagBegins(true, tool);
    PlainHasNoTag(Exactly, TagOf(true, tool), f.gap);
    SameExactly(f.key, tool);
    hide TagOf, HasTag, Same;
  }

  /** Fields end in a tag. */
  lemma {:induction false} FieldsEnd(fs: seq<Field>)
    ensures fs != [] ==> FieldPieces(fs) != [] && !FieldPieces(fs)[|FieldPieces(fs)| - 1].Words?
  {
    if fs != [] {
      FieldsEnd(fs[1..]);
      FieldsStep(fs);
    }
  }

  lemma FieldsStep(fs: seq<Field>)
    requires fs != []
    ensures FieldPieces(fs)
            == [Words(fs[0].gap)] + ([Opening(fs[0].key)] + ([Words(fs[0].value)] + ([Closing(fs[0].key)] + FieldPieces(fs[1..]))))
  {
  }

  lemma SameExactly(n: string, w: string)
    ensures Same(Exactly, n, w) <==> n == w
  {
  }

  lemma {:induction false} ToolsQuiet(ts: seq<Tool>)
    requires forall i :: 0 <= i < |ts| ==> PlainTool(ts[i])
    ensures Quiet(ToolPieces(ts))
  {
    if ts != [] {
      var t := ts[0];
      assert PlainTool(t);
      ToolsQuiet(ts[1..]);
      FieldsQuiet(t.fields, t.name);
      QuietWords(t.gap);
      QuietTag(Opening(t.name));
      QuietWords(t.tail);
      QuietTag(Closing(t.name));
      FieldsEnd(t.fields);
      var inner, rest := InnerPieces(t), ToolPieces(ts[1..]);
      hide Quiet, Unreserved, NoAngle, IsName, PlainTool, PlainField, FieldPieces, Lacks;
      QuietAppend(FieldPieces(t.fields), [Words(t.tail)]);
      QuietAppend([Closing(t.name)], rest);
      QuietAppend(inner, [Closing(t.name)] + rest);
      QuietAppend([Opening(t.name)], inner + ([Closing(t.name)] + rest));
      QuietAppend([Words(t.gap)], [Opening(t.name)] + (inner + ([Closing(t.name)] + rest)));
    }
  }

  /** Tools end in a tag. */
  lemma {:induction false} ToolsEnd(ts: seq<Tool>)
    ensures ts != [] ==> ToolPieces(ts) != [] && !ToolPieces(ts)[|ToolPieces(ts)| - 1].Words?
  {
    hide InnerPieces;
    if ts != [] {
      ToolsEnd(ts[1..]);
    }
  }

  lemma Cut(a: string, b: string)
    ensures (a + b)[..|a|] == a && (a + b)[|a|..] == b && |a + b| == |a| + |b|
  {
  }

  // ---------- Reading the tags of a container ----------

  lemma {:induction false} TagsPastWords(t: string, rest: string)
    requires NoAngle(t)
    ensures Tags(t + rest) == Tags(rest)
  {
    if t == "" {
      assert t + rest == rest;
    } else {
      var s := t + rest;
      assert s[0] == t[0] && t[0] in t;
      assert s[1..] == t[1..] + rest;
      assert NoAngle(t[1..]) by {
        assert forall c :: c in t[1..] ==> c in t;
      }
      TagsPastWords(t[1..], rest);
    }
  }

  lemma {:induction false} NameLengthIs(n: string, rest: string)
    requires (forall i :: 0 <= i < |n| ==> NameChar(n[i])) && (rest != "" ==> !NameChar(rest[0]))
    ensures NameLength(n + rest) == |n|
  {
    if n == "" {
      assert n + rest == rest;
    } else {
      assert (n + rest)[1..] == n[1..] + rest;
      NameLengthIs(n[1..], rest);
    }
  }

  /** A tag whose closing tag is the first one after its body is read as that tag. */
  lemma TagRead(name: string, body: string, rest: string)
    requires IsName(name) && FindExact(CloseTag(name), body + CloseTag(name) + rest) == |body|
    ensures Tags(OpenTag(name) + body + CloseTag(name) + rest) == [(name, body)] + Tags(rest)
  {
    var close := CloseTag(name);
    var inner, s := body + close + rest, OpenTag(name) + body + close + rest;
    TagReadParts(name, body, close, rest);
    NameLengthIs(name, ">" + inner);
    TagSlices(name, inner);
    Cut(body, close + rest);
    assert "</" + name + ">" == close;
    hide FindExact, NameLength, OpenTag, CloseTag;
    TagFoundAt(s, name, close, inner, body, rest);
    OneTag(s, name, body, rest);
  }

  lemma TagReadParts(name: string, body: string, close: string, rest: string)
    ensures var s := ("<" + (name + ">")) + body + close + rest;
            && s == "<" + (name + (">" + (body + close + rest)))
            && |s| == 2 + |name| + |body| + |close| + |rest|
            && s[2 + |name| + |body| + |close|..] == rest
    ensures body + close + rest == body + (close + rest)
  {
  }

  lemma TagSlices(name: string, inner: string)
    ensures var s := "<" + (name + (">" + inner));
            && s[0] == '<' && s[1..] == name + (">" + inner) && 1 + |name| < |s|
            && s[1 + |name|] == '>' && s[1..1 + |name|] == name && s[2 + |name|..] == inner
  {
  }

  lemma TagFoundAt(s: string, name: string, close: string, inner: string, body: string, rest: string)
    requires name != "" && 1 + |name| < |s| && s[0] == '<' && NameLength(s[1..]) == |name|
    requires s[1 + |name|] == '>' && s[1..1 + |name|] == name && s[2 + |name|..] == inner
    requires close == "</" + name + ">" && FindExact(close, inner) == |body|
    requires |body| <= |inner| && inner[..|body|] == body && |inner| == |body| + |close| + |rest|
    ensures TagAt(s) == Tag(name, body, |s| - |rest|)
  {
    hide FindExact, NameLength;
  }

  lemma OneTag(s: string, name: string, body: string, rest: string)
    requires |rest| < |s| && TagAt(s) == Tag(name, body, |s| - |rest|) && s[|s| - |rest|..] == rest
    ensures Tags(s) == [(name, body)] + Tags(rest)
  {
    hide TagAt;
  }

  lemma ClosesAt(name: string, ps: seq<Piece>, rest: string)
    requires IsName(name) && AllProper(ps) && Guarded(ps) && Lacks(Exactly, true, name, ps)
    ensures FindExact(CloseTag(name), Written(ps) + CloseTag(name) + rest) == |Written(ps)|
  {
    assert TagOf(true, name) == CloseTag(name);
    FindExactPast(true, name, ps, CloseTag(name) + rest);
    assert Written(ps) + (CloseTag(name) + rest) == Written(ps) + CloseTag(name) + rest;
    assert FindExact(CloseTag(name), CloseTag(name) + rest) == 0;
  }

  lemma WordsWritten(t: string)
    ensures Written([Words(t)]) == t && Guarded([Words(t)]) && AllProper([Words(t)])
  {
    assert Written([Words(t)]) == t + "";
  }

  lemma WordsLack(f: char -> char, closing: bool, w: string, t: string)
    requires Mapping(f) && NoAngle(t)
    ensures Lacks(f, closing, w, [Words(t)])
  {
    TagBegins(closing, w);
    PlainHasNoTag(f, TagOf(closing, w), t);
  }

  /** A value runs up to the closing tag after it. */
  lemma ValueCloses(key: string, value: string, rest: string)
    requires IsName(key) && !HasTag(Exactly, TagOf(true, key), value)
    ensures FindExact(CloseTag(key), value + CloseTag(key) + rest) == |value|
  {
    WordsWritten(value);
    hide HasTag, Written;
    ClosesAt(key, [Words(value)], rest);
  }

  lemma {:induction false} FieldsRead(fs: seq<Field>, tool: string, tail: string)
    requires NoAngle(tail) && forall i :: 0 <= i < |fs| ==> PlainField(fs[i], tool)
    ensures Tags(Written(FieldPieces(fs)) + tail) == FieldPairs(fs)
  {
    if fs == [] {
      TagsPastWords(tail, "");
      assert tail + "" == tail && "" + tail == tail;
    } else {
      var f, rest := fs[0], Written(FieldPieces(fs[1..])) + tail;
      assert PlainField(f, tool);
      FieldsRead(fs[1..], tool, tail);
      FieldWritten(fs, tail);
      hide NoAngle, Tags, IsName, Unreserved, FieldPieces, CloseTag, OpenTag, HasTag;
      ValueCloses(f.key, f.value, rest);
      TagRead(f.key, f.value, rest);
      TagsPastWords(f.gap, OpenTag(f.key) + f.value + CloseTag(f.key) + rest);
    }
  }

  lemma WrittenCons(p: Piece, ps: seq<Piece>)
    ensures Written([p] + ps) == PieceText(p) + Written(ps)
  {
    assert ([p] + ps)[1..] == ps;
  }

  lemma FieldWritten(fs: seq<Field>, tail: string)
    requires fs != []
    ensures var f, rest := fs[0], Written(FieldPieces(fs[1..])) + tail;
            Written(FieldPieces(fs)) + tail == f.gap + (OpenTag(f.key) + f.value + CloseTag(f.key) + rest)
  {
    var f, after := fs[0], FieldPieces(fs[1..]);
    FieldsStep(fs);
    assert PieceText(Opening(f.key)) == OpenTag(f.key) && PieceText(Closing(f.key)) == CloseTag(f.key);
    hide FieldPieces, Written, OpenTag, CloseTag;
    WrittenCons(Closing(f.key), after);
    WrittenCons(Words(f.value), [Closing(f.key)] + after);
    WrittenCons(Opening(f.key), [Words(f.value)] + ([Closing(f.key)] + after));
    WrittenCons(Words(f.gap), [Opening(f.key)] + ([Words(f.value)] + ([Closing(f.key)] + after)));
    FourParts(f.gap, OpenTag(f.key), f.value, CloseTag(f.key), Written(after), tail);
  }

  lemma FourParts(a: string, b: string, c: string, d: string, e: string, tail: string)
    ensures (a + (b + (c + (d + e)))) + tail == a + (b + c + d + (e + tail))
  {
  }

  /** The tags of a container: each tool's name and what it encloses. */
  function ToolTags(ts: seq<Tool>): seq<(string, string)> {
    if ts == [] then [] else [(ts[0].name, Written(InnerPieces(ts[0])))] + ToolTags(ts[1..])
  }

  lemma InnerFacts(t: Tool)
    requires PlainTool(t)
    ensures AllProper(InnerPieces(t)) && Guarded(InnerPieces(t)) && Lacks(Exactly, true, t.name, InnerPieces(t))
    ensures Written(InnerPieces(t)) == Written(FieldPieces(t.fields)) + t.tail
  {
    FieldsQuiet(t.fields, t.name);
    FieldsEnd(t.fields);
    FoldMaps();
    WordsWritten(t.tail);
    WordsLack(Exactly, true, t.name, t.tail);
    WrittenAppend(FieldPieces(t.fields), [Words(t.tail)]);
    GuardedAppend(FieldPieces(t.fields), [Words(t.tail)]);
    hide Is, Proper, FieldPieces, Written, Guarded, Joins;
  }

  lemma ToolWritten(ts: seq<Tool>, tail: string)
    requires ts != []
    ensures var t, rest := ts[0], Written(ToolPieces(ts[1..])) + tail;
            Written(ToolPieces(ts)) + tail == t.gap + (OpenTag(t.name) + Written(InnerPieces(t)) + CloseTag(t.name) + rest)
  {
    var t, after := ts[0], ToolPieces(ts[1..]);
    assert ToolPieces(ts) == [Words(t.gap)] + ([Opening(t.name)] + (InnerPieces(t) + ([Closing(t.name)] + after)));
    assert PieceText(Opening(t.name)) == OpenTag(t.name) && PieceText(Closing(t.name)) == CloseTag(t.name);
    hide ToolPieces, InnerPieces, Written, OpenTag, CloseTag;
    WrittenCons(Closing(t.name), after);
    WrittenAppend(InnerPieces(t), [Closing(t.name)] + after);
    WrittenCons(Opening(t.name), InnerPieces(t) + ([Closing(t.name)] + after));
    WrittenCons(Words(t.gap), [Opening(t.name)] + (InnerPieces(t) + ([Closing(t.name)] + after)));
    FourParts(t.gap, OpenTag(t.name), Written(InnerPieces(t)), CloseTag(t.name), Written(after), tail);
  }

  lemma {:induction false} ToolsRead(ts: seq<Tool>, tail: string)
    requires NoAngle(tail) && forall i :: 0 <= i < |ts| ==> PlainTool(ts[i])
    ensures Tags(Written(ToolPieces(ts)) + tail) == ToolTags(ts)
  {
    if ts == [] {
      TagsPastWords(tail, "");
      assert tail + "" == tail && "" + tail == tail;
    } else {
      var t, rest := ts[0], Written(ToolPieces(ts[1..])) + tail;
      assert PlainTool(t);
      ToolsRead(ts[1..], tail);
      ToolWritten(ts, tail);
      InnerFacts(t);
      hide NoAngle, Tags, IsName, Unreserved, ToolPieces, InnerPieces, CloseTag, OpenTag, PlainField;
      ClosesAt(t.name, InnerPieces(t), rest);
      TagRead(t.name, Written(InnerPieces(t)), rest);
      TagsPastWords(t.gap, OpenTag(t.name) + Written(InnerPieces(t)) + CloseTag(t.name) + rest);
    }
  }

  lemma {:induction false} FieldsAreArguments(loads: Loads, d: seq<(string, Json)>, fs: seq<Field>)
    ensures TagArguments(loads, d, FieldPairs(fs)) == AttributeArguments(loads, d, ArgumentFields(fs))
    decreases fs
  {
    if fs != [] {
      var f, more := fs[0], Assign(d, ArgumentName(fs[0].key), Coerce(loads, fs[0].value));
      hide Coerce, ArgumentName, Assign, TagArguments, AttributeArguments;
      TakesTag(loads, d, f.key, f.value, FieldPairs(fs[1..]));
      if '.' in f.key {
        FieldsAreArguments(loads, d, fs[1..]);
        assert [] + ArgumentFields(fs[1..]) == ArgumentFields(fs[1..]);
      } else {
        FieldsAreArguments(loads, more, fs[1..]);
        TakesAttribute(loads, d, f.key, f.value, ArgumentFields(fs[1..]));
      }
    }
  }

  lemma TakesTag(loads: Loads, d: seq<(string, Json)>, key: string, value: string, more: seq<(string, string)>)
    ensures TagArguments(loads, d, [(key, value)] + more)
            == TagArguments(loads, if '.' in key then d else Assign(d, ArgumentName(key), Coerce(loads, value)), more)
  {
    hide Coerce, ArgumentName, Assign;
    assert ([(key, value)] + more)[1..] == more;
  }

  lemma TakesAttribute(loads: Loads, d: seq<(string, Json)>, key: string, value: string, more: seq<(string, string)>)
    ensures AttributeArguments(loads, d, [(key, value)] + more)
            == AttributeArguments(loads, Assign(d, ArgumentName(key), Coerce(loads, value)), more)
  {
    hide Coerce, ArgumentName, Assign;
    assert ([(key, value)] + more)[1..] == more;
  }

  lemma {:induction false} ToolCallsRead(loads: Loads, ts: seq<Tool>)
    requires forall i :: 0 <= i < |ts| ==> PlainTool(ts[i])
    ensures TagCalls(loads, ToolTags(ts)) == ToolCallsOf(loads, ts)
  {
    if ts != [] {
      var t := ts[0];
      assert PlainTool(t);
      ToolCallsRead(loads, ts[1..]);
      InnerFacts(t);
      FieldsRead(t.fields, t.name, t.tail);
      FieldsAreArguments(loads, [], t.fields);
      hide Tags, TagArguments, AttributeArguments, InnerPieces, PlainTool;
      assert ToolTags(ts)[1..] == ToolTags(ts[1..]);
    }
  }

  // ---------- The containers of a text ----------

  lemma BoxFacts(b: Box)
    requires PlainBox(b)
    ensures Quiet(BoxPieces(b)) && Written(BoxPieces(b)) == Written(ToolPieces(b.tools)) + b.tail
  {
    ToolsQuiet(b.tools);
    ToolsEnd(b.tools);
    QuietWords(b.tail);
    WordsWritten(b.tail);
    WrittenAppend(ToolPieces(b.tools), [Words(b.tail)]);
    hide Quiet, Written, ToolPieces;
    QuietAppend(ToolPieces(b.tools), [Words(b.tail)]);
  }

  lemma BoxRead(loads: Loads, b: Box)
    requires PlainBox(b)
    ensures TagCalls(loads, Tags(Written(BoxPieces(b)))) == ToolCallsOf(loads, b.tools)
  {
    BoxFacts(b);
    ToolsRead(b.tools, b.tail);
    ToolCallsRead(loads, b.tools);
  }

  lemma ContainerTags()
    ensures CONTAINER_OPEN == TagOf(false, "tool_calls") && CONTAINER_CLOSE == TagOf(true, "tool_calls")
    ensures OPEN == TagOf(false, "longcat_tool_call") && IsName("tool_calls") && IsName("longcat_tool_call")
    ensures CONTAINER_OPEN != "" && CONTAINER_CLOSE != ""
  {
  }

  lemma TagFound(closing: bool, rest: string)
    ensures var tag := TagOf(closing, "tool_calls"); Find(tag, tag + rest) == 0
  {
    var tag := TagOf(closing, "tool_calls");
    assert forall k :: 0 <= k < |tag| ==> FoldChar(tag[k]) == tag[k];
    assert Starts(tag, tag + rest);
  }

  lemma DocStep(lead: string, boxes: seq<Box>)
    requires boxes != []
    ensures Written(BoxDoc(lead, boxes))
            == lead + CONTAINER_OPEN + (Written(BoxPieces(boxes[0])) + CONTAINER_CLOSE + Written(BoxDoc(boxes[0].text, boxes[1..])))
  {
    var inner, after := BoxPieces(boxes[0]), BoxDoc(boxes[0].text, boxes[1..]);
    assert BoxDoc(lead, boxes) == [Words(lead)] + ([Opening("tool_calls")] + (inner + ([Closing("tool_calls")] + after)));
    ContainerTags();
    hide BoxDoc, BoxPieces;
    Around(lead, "tool_calls", inner, after);
  }

  lemma Around(lead: string, name: string, inner: seq<Piece>, after: seq<Piece>)
    ensures Written([Words(lead)] + ([Opening(name)] + (inner + ([Closing(name)] + after))))
            == lead + OpenTag(name) + (Written(inner) + CloseTag(name) + Written(after))
  {
    assert PieceText(Opening(name)) == OpenTag(name) && PieceText(Closing(name)) == CloseTag(name);
    hide Written, OpenTag, CloseTag;
    WrittenCons(Closing(name), after);
    WrittenAppend(inner, [Closing(name)] + after);
    WrittenCons(Opening(name), inner + ([Closing(name)] + after));
    WrittenCons(Words(lead), [Opening(name)] + (inner + ([Closing(name)] + after)));
    FiveParts(lead, OpenTag(name), Written(inner), CloseTag(name), Written(after));
  }

  lemma FiveParts(a: string, b: string, c: string, d: string, e: string)
    ensures a + (b + (c + (d + e))) == a + b + (c + d + e)
  {
  }

  lemma {:induction false} BoxesRead(loads: Loads, lead: string, boxes: seq<Box>)
    requires PlainBoxes(lead, boxes)
    ensures Outside(CONTAINER_OPEN, CONTAINER_CLOSE, Written(BoxDoc(lead, boxes))) == BoxText(lead, boxes)
    ensures ContainerCalls(loads, Bodies(CONTAINER_OPEN, CONTAINER_CLOSE, Written(BoxDoc(lead, boxes)))) == BoxCallsOf(loads, boxes)
    decreases boxes
  {
    ContainerTags();
    WordsWritten(lead);
    if boxes == [] {
      FindInPlain(CONTAINER_OPEN, lead, "");
      assert lead + "" == lead;
    } else {
      var b := boxes[0];
      assert PlainBox(b);
      var inner, rest := Written(BoxPieces(b)), Written(BoxDoc(b.text, boxes[1..]));
      BoxesRead(loads, b.text, boxes[1..]);
      DocStep(lead, boxes);
      BoxFacts(b);
      BoxRead(loads, b);
      hide BoxDoc, BoxPieces, Written, Tags, TagCalls, NoAngle, PlainTool;
      TagFound(false, inner + CONTAINER_CLOSE + rest);
      TagFound(true, rest);
      hide Find;
      FindInPlain(CONTAINER_OPEN, lead, CONTAINER_OPEN + (inner + CONTAINER_CLOSE + rest));
      FindPast(true, "tool_calls", BoxPieces(b), CONTAINER_CLOSE + rest);
      BoxFound(CONTAINER_OPEN, CONTAINER_CLOSE, lead, inner, rest);
      MoreBoxes(loads, inner, Bodies(CONTAINER_OPEN, CONTAINER_CLOSE, rest));
    }
  }

  lemma BoxFound(open: string, close: string, lead: string, inner: string, rest: string)
    requires open != "" && close != ""
    requires Find(open, lead + (open + (inner + close + rest))) == |lead|
    requires Find(close, inner + (close + rest)) == |inner|
    ensures var s := lead + open + (inner + close + rest);
            && Bodies(open, close, s) == [inner] + Bodies(open, close, rest)
            && Outside(open, close, s) == lead + Outside(open, close, rest)
  {
    hide Find, Bodies, Outside;
    assert lead + (open + (inner + close + rest)) == lead + open + (inner + close + rest);
    assert inner + (close + rest) == inner + close + rest;
    PairText(open, close, lead, inner, rest);
  }

  lemma MoreBoxes(loads: Loads, body: string, bodies: seq<string>)
    ensures ContainerCalls(loads, [body] + bodies) == TagCalls(loads, Tags(body)) + ContainerCalls(loads, bodies)
  {
    assert ([body] + bodies)[1..] == bodies;
  }

  /** Nothing in the text starts a longcat block. */
  ghost predicate NoLongcat(ps: seq<Piece>) {
    AllProper(ps) && Guarded(ps) && Lacks(FoldChar, false, "longcat_tool_call", ps)
  }

  lemma NoLongcatAppend(a: seq<Piece>, b: seq<Piece>)
    requires NoLongcat(a) && NoLongcat(b) && Joins(a, b)
    ensures NoLongcat(a + b)
  {
    GuardedAppend(a, b);
    hide Is, Proper, Guarded, Joins;
  }

  lemma {:induction false} BoxDocLacksLongcat(lead: string, boxes: seq<Box>)
    requires PlainBoxes(lead, boxes)
    ensures NoLongcat(BoxDoc(lead, boxes))
    decreases boxes
  {
    QuietWords(lead);
    if boxes != [] {
      var inner, after := BoxPieces(boxes[0]), BoxDoc(boxes[0].text, boxes[1..]);
      assert PlainBox(boxes[0]);
      BoxDocLacksLongcat(boxes[0].text, boxes[1..]);
      BoxFacts(boxes[0]);
      ContainerLacksLongcat();
      assert BoxDoc(lead, boxes) == [Words(lead)] + ([Opening("tool_calls")] + (inner + ([Closing("tool_calls")] + after)));
      assert NoLongcat(inner) && NoLongcat([Words(lead)]);
      hide BoxPieces, BoxDoc, PlainBox, Written, NoAngle, NoLongcat, Quiet;
      NoLongcatAppend([Closing("tool_calls")], after);
      NoLongcatAppend(inner, [Closing("tool_calls")] + after);
      NoLongcatAppend([Opening("tool_calls")], inner + ([Closing("tool_calls")] + after));
      NoLongcatAppend([Words(lead)], [Opening("tool_calls")] + (inner + ([Closing("tool_calls")] + after)));
    }
  }

  lemma ContainerLacksLongcat()
    ensures NoLongcat([Opening("tool_calls")]) && NoLongcat([Closing("tool_calls")])
  {
    assert IsName("tool_calls") && |"tool_calls"| != |"longcat_tool_call"|;
  }

  lemma {:induction false} InLowerAt(t: string, tag: string, rest: string)
    requires tag != "" && forall k :: 0 <= k < |tag| ==> LowerChar(tag[k]) == tag[k]
    ensures InLower(tag, t + tag + rest)
  {
    var s := t + tag + rest;
    if t == "" {
      assert forall k :: 0 <= k < |tag| ==> s[k] == tag[k];
    } else {
      assert s[1..] == t[1..] + tag + rest;
      InLowerAt(t[1..], tag, rest);
    }
  }

  lemma {:induction false} BoxTextNoAngle(lead: string, boxes: seq<Box>)
    requires PlainBoxes(lead, boxes)
    ensures NoAngle(BoxText(lead, boxes))
    decreases boxes
  {
    if boxes != [] {
      assert PlainBox(boxes[0]);
      BoxTextNoAngle(boxes[0].text, boxes[1..]);
    }
  }

  lemma ContainerVisible(lead: string, boxes: seq<Box>)
    requires boxes != []
    ensures InLower(CONTAINER_OPEN, Written(BoxDoc(lead, boxes)))
  {
    DocStep(lead, boxes);
    hide Written, BoxDoc, BoxPieces;
    InLowerAt(lead, CONTAINER_OPEN, Written(BoxPieces(boxes[0])) + CONTAINER_CLOSE + Written(BoxDoc(boxes[0].text, boxes[1..])));
  }

  /** The second pass reads a text with containers back as the calls of their dotted tags and the text around them, tidied. */
  lemma ContainerPassRoundTrip(loads: Loads, lead: string, boxes: seq<Box>)
    requires PlainBoxes(lead, boxes)
    ensures BlockPass(loads, Written(BoxDoc(lead, boxes)))
            == (if boxes == [] then lead else Tidy(BoxText(lead, boxes)), BoxCallsOf(loads, boxes))
  {
    BoxesRead(loads, lead, boxes);
    WordsWritten(lead);
    if boxes == [] {
      NoTagInLower(CONTAINER_OPEN, lead);
      hide InLower;
    } else {
      ContainerVisible(lead, boxes);
      hide InLower, Written, Outside, Bodies, Tidy, ContainerCalls, BoxDoc, BoxPieces, LowerChar;
    }
  }

  /** All three passes: nothing in such a text is taken for a longcat block, and nothing is left for the third pass. */
  lemma ContainerRoundTrip(loads: Loads, lead: string, boxes: seq<Box>)
    requires PlainBoxes(lead, boxes)
    ensures Extract(loads, Written(BoxDoc(lead, boxes)))
            == (if boxes == [] then lead else Tidy(BoxText(lead, boxes)), BoxCallsOf(loads, boxes))
  {
    var text := if boxes == [] then lead else Tidy(BoxText(lead, boxes));
    ContainerPassRoundTrip(loads, lead, boxes);
    BoxTextNoAngle(lead, boxes);
    TidyNoAngle(BoxText(lead, boxes));
    ContainerTags();
    BoxDocLacksLongcat(lead, boxes);
    LacksLower(false, "longcat_tool_call", BoxDoc(lead, boxes));
    NotInLower(false, "longcat_tool_call", BoxDoc(lead, boxes));
    hide BlockPass, Written, InLower, Tidy, BoxDoc;
    OnlySecondPass(loads, Written(BoxDoc(lead, boxes)), text, BoxCallsOf(loads, boxes));
  }

  lemma OnlySecondPass(loads: Loads, content: string, text: string, calls: seq<Call>)
    requires !InLower(OPEN, content) && BlockPass(loads, content) == (text, calls) && NoAngle(text)
    ensures Extract(loads, content) == (text, calls)
  {
    hide BlockPass, InLower, InlineScan;
    assert [] + calls + [] == calls;
  }

  lemma OnlyThirdPass(loads: Loads, content: string)
    requires !InLower(OPEN, content) && !InLower(CONTAINER_OPEN, content)
    ensures Extract(loads, content) == InlinePass(loads, content)
  {
    hide InlinePass, InLower;
    assert [] + [] + InlinePass(loads, content).1 == InlinePass(loads, content).1;
  }

  // ---------- Self-closing tags as written ----------

  /** `space key="value"`. */
  datatype Attr = Attr(space: string, key: string, value: string)

  /** A self-closing tag and the text up to the next one. */
  datatype Self = Self(name: string, attrs: seq<Attr>, tail: string, text: string)

  function AttrText(a: Attr): string {
    a.space + (a.key + ("=" + ("\"" + (a.value + "\""))))
  }

  function AttrsText(attrs: seq<Attr>): string {
    if attrs == [] then "" else AttrText(attrs[0]) + AttrsText(attrs[1..])
  }

  /** What stands between the name of a tag and its end. */
  function Within(t: Self): string {
    AttrsText(t.attrs) + t.tail
  }

  function SelfDoc(lead: string, tags: seq<Self>): seq<Piece>
    decreases tags
  {
    if tags == [] then [Words(lead)]
    else [Words(lead)] + ([Empty(tags[0].name, Within(tags[0]))] + SelfDoc(tags[0].text, tags[1..]))
  }

  ghost predicate AllSpace(s: string) {
    forall i :: 0 <= i < |s| ==> IsSpace(s[i])
  }

  ghost predicate PlainAttr(a: Attr) {
    a.space != "" && AllSpace(a.space) && IsName(a.key) && FreeOfAngles(a.value) && '"' !in a.value
  }

  ghost predicate PlainSelf(t: Self) {
    NoAngle(t.text) && IsName(t.name) && AllSpace(t.tail) && forall i :: 0 <= i < |t.attrs| ==> PlainAttr(t.attrs[i])
  }

  ghost predicate PlainSelves(lead: string, tags: seq<Self>) {
    NoAngle(lead) && forall i :: 0 <= i < |tags| ==> PlainSelf(tags[i])
  }

  function AttrPairs(attrs: seq<Attr>): seq<(string, string)> {
    if attrs == [] then [] else [(attrs[0].key, attrs[0].value)] + AttrPairs(attrs[1..])
  }

  /** A call for each tag with a dotted name. */
  function SelfCallsOf(loads: Loads, tags: seq<Self>): seq<Call> {
    if tags == [] then []
    else (if '.' in tags[0].name then [Call(tags[0].name, AttributeArguments(loads, [], AttrPairs(tags[0].attrs)))] else [])
         + SelfCallsOf(loads, tags[1..])
  }

  /** The text left: tags without a dot stay as they were written. */
  function SelfText(lead: string, tags: seq<Self>): string
    decreases tags
  {
    if tags == [] then lead
    else lead + ((if '.' in tags[0].name then "" else PieceText(Empty(tags[0].name, Within(tags[0])))) + SelfText(tags[0].text, tags[1..]))
  }

  // ---------- Reading attributes ----------

  lemma {:induction false} AttributesPastSpace(t: string, rest: string)
    requires AllSpace(t)
    ensures Attributes(t + rest) == Attributes(rest)
  {
    if t == "" {
      assert t + rest == rest;
    } else {
      var s := t + rest;
      assert s[0] == t[0] && IsSpace(t[0]) && !NameChar(t[0]);
      assert s[1..] == t[1..] + rest;
      assert NameLength(s) == 0;
      AttributesPastSpace(t[1..], rest);
    }
  }

  lemma {:induction false} QuoteFound(t: string, rest: string)
    requires '"' !in t
    ensures FindExact("\"", t + ("\"" + rest)) == |t|
  {
    var s := t + ("\"" + rest);
    if t != "" {
      assert s[0] == t[0] && t[0] in t;
      assert s[1..] == t[1..] + ("\"" + rest);
      assert '"' !in t[1..] by {
        assert forall c :: c in t[1..] ==> c in t;
      }
      QuoteFound(t[1..], rest);
    }
  }

  lemma AttributeRead(key: string, value: string, rest: string)
    requires IsName(key) && '"' !in value
    ensures Attributes(key + ("=" + ("\"" + (value + ("\"" + rest))))) == [(key, value)] + Attributes(rest)
  {
    hide AttributeAt, Attributes, NameLength, FindExact, SkipSpace;
    var quoted := value + ("\"" + rest);
    var u := "\"" + quoted;
    var t := "=" + u;
    var s := key + t;
    NameLengthIs(key, t);
    LeftTrimmed(t);
    LeftTrimmed(u);
    hide NameChar, IsSpace;
    QuoteFound(value, rest);
    AttributeSlices(key, value, rest);
    AttributeTail(key, value, rest);
    AttributeFound(s, key, t, u, quoted, value, rest);
    OneAttribute(s, key, value, rest);
  }

  lemma AttributeSlices(key: string, value: string, rest: string)
    ensures var quoted := value + ("\"" + rest);
            var u := "\"" + quoted;
            var t := "=" + u;
            var s := key + t;
            && |key| <= |s| && s[|key|..] == t && s[..|key|] == key && t[1..] == u && u[1..] == quoted
            && quoted[..|value|] == value && |quoted| == |value| + 1 + |rest|
  {
  }

  lemma LeftTrimmed(t: string)
    requires t != "" && !IsSpace(t[0])
    ensures SkipSpace(t) == t
  {
  }

  lemma AttributeFound(s: string, key: string, t: string, u: string, quoted: string, value: string, rest: string)
    requires key != "" && NameLength(s) == |key| <= |s| && s[|key|..] == t && s[..|key|] == key
    requires SkipSpace(t) == t != "" && t[0] == '=' && t[1..] == u && SkipSpace(u) == u != "" && u[0] == '"' && u[1..] == quoted
    requires FindExact("\"", quoted) == |value| < |quoted| && quoted[..|value|] == value && |quoted| == |value| + 1 + |rest|
    ensures AttributeAt(s) == Tag(key, value, |s| - |rest|)
  {
    hide NameLength, SkipSpace, FindExact;
  }

  lemma AttributeTail(key: string, value: string, rest: string)
    ensures var s := key + ("=" + ("\"" + (value + ("\"" + rest)))); s != "" && |rest| < |s| && s[|s| - |rest|..] == rest
  {
  }

  lemma OneAttribute(s: string, key: string, value: string, rest: string)
    requires s != "" && |rest| < |s| && AttributeAt(s) == Tag(key, value, |s| - |rest|) && s[|s| - |rest|..] == rest
    ensures Attributes(s) == [(key, value)] + Attributes(rest)
  {
    hide AttributeAt;
  }

  lemma {:induction false} AttributesRead(attrs: seq<Attr>, tail: string)
    requires AllSpace(tail) && forall i :: 0 <= i < |attrs| ==> PlainAttr(attrs[i])
    ensures Attributes(AttrsText(attrs) + tail) == AttrPairs(attrs)
  {
    if attrs == [] {
      AttributesPastSpace(tail, "");
      assert tail + "" == tail && "" + tail == tail;
    } else {
      var a, rest := attrs[0], AttrsText(attrs[1..]) + tail;
      assert PlainAttr(a);
      AttributesRead(attrs[1..], tail);
      hide Attributes, AllSpace, IsName, FreeOfAngles;
      AttributeParts(a, AttrsText(attrs[1..]), tail);
      AttributesPastSpace(a.space, a.key + ("=" + ("\"" + (a.value + ("\"" + rest)))));
      AttributeRead(a.key, a.value, rest);
    }
  }

  lemma AttributeParts(a: Attr, more: string, tail: string)
    ensures (AttrText(a) + more) + tail == a.space + (a.key + ("=" + ("\"" + (a.value + ("\"" + (more + tail))))))
  {
  }

  // ---------- Reading self-closing tags ----------

  lemma {:induction false} WithinFacts(attrs: seq<Attr>, tail: string)
    requires AllSpace(tail) && forall i :: 0 <= i < |attrs| ==> PlainAttr(attrs[i])
    ensures var s := AttrsText(attrs) + tail; FreeOfAngles(s) && (s != "" ==> IsSpace(s[0]))
  {
    if attrs == [] {
      assert "" + tail == tail;
    } else {
      var a, more := attrs[0], AttrsText(attrs[1..]) + tail;
      assert PlainAttr(a);
      WithinFacts(attrs[1..], tail);
      assert (AttrText(a) + AttrsText(attrs[1..])) + tail == AttrText(a) + more;
      AttrFacts(a);
      hide AttrText, AttrsText, PlainAttr, AllSpace;
      AnglesAppend(AttrText(a), more);
    }
  }

  lemma AttrFacts(a: Attr)
    requires PlainAttr(a)
    ensures AttrText(a) != "" && IsSpace(AttrText(a)[0]) && FreeOfAngles(AttrText(a))
  {
    assert FreeOfAngles(a.space) && FreeOfAngles(a.key);
    hide PlainAttr, AllSpace, IsName;
    AnglesAppend(a.value, "\"");
    AnglesAppend("\"", a.value + "\"");
    AnglesAppend("=", "\"" + (a.value + "\""));
    AnglesAppend(a.key, "=" + ("\"" + (a.value + "\"")));
    AnglesAppend(a.space, a.key + ("=" + ("\"" + (a.value + "\""))));
  }

  lemma AnglesAppend(a: string, b: string)
    requires FreeOfAngles(a) && FreeOfAngles(b)
    ensures FreeOfAngles(a + b)
  {
  }

  lemma {:induction false} FirstAngleIs(t: string, rest: string)
    requires FreeOfAngles(t) && rest != "" && (rest[0] == '<' || rest[0] == '>')
    ensures FirstAngle(t + rest) == |t|
  {
    if t == "" {
      assert t + rest == rest;
    } else {
      assert (t + rest)[1..] == t[1..] + rest;
      FirstAngleIs(t[1..], rest);
    }
  }

  lemma InlineRead(name: string, within: string, rest: string)
    requires IsName(name) && FreeOfAngles(within) && (within != "" ==> IsSpace(within[0]))
    ensures var p := PieceText(Empty(name, within));
            InlineAt(p + rest) == Tag(name, within, |p|) && (p + rest)[|p|..] == rest && (p + rest)[..|p|] == p
  {
    var p := PieceText(Empty(name, within));
    var slashed, end := within + "/", ">" + rest;
    EmptyParts(name, within, rest);
    Cut(p, rest);
    hide PieceText;
    NameLengthIs(name, slashed + end);
    AnglesAppend(within, "/");
    FirstAngleIs(slashed, end);
    Cut(name, slashed + end);
    InlineSlices(name, within, rest);
    InlineFound(p + rest, name, slashed + end, within);
  }

  lemma InlineSlices(name: string, within: string, rest: string)
    ensures var after := (within + "/") + (">" + rest);
            && |within| + 1 < |after| && after[..|within|] == within && after[|within|] == '/' && after[|within| + 1] == '>'
    ensures var s := "<" + (name + ((within + "/") + (">" + rest)));
            s[0] == '<' && s[1..] == name + ((within + "/") + (">" + rest))
  {
  }

  lemma EmptyParts(name: string, within: string, rest: string)
    ensures PieceText(Empty(name, within)) + rest == "<" + (name + ((within + "/") + (">" + rest)))
    ensures |PieceText(Empty(name, within))| == |name| + |within| + 3
    ensures ((within + "/") + (">" + rest))[0] == if within == "" then '/' else within[0]
  {
    assert PieceText(Empty(name, within)) == "<" + (name + (within + "/>"));
  }

  lemma InlineFound(s: string, name: string, after: string, within: string)
    requires name != "" && s != "" && s[0] == '<' && s[1..] == name + after && NameLength(s[1..]) == |name|
    requires |s| == 1 + |name| + |after| && FirstAngle(after) == |within| + 1 < |after|
    requires after[..|within|] == within && after[|within|] == '/' && after[|within| + 1] == '>'
    requires within != "" ==> IsSpace(within[0])
    ensures InlineAt(s) == Tag(name, within, |name| + |within| + 3)
  {
    NameSlices(s, name, after);
    assert within != "" ==> after[0] == within[0];
    hide NameLength, FirstAngle;
  }

  lemma NameSlices(s: string, name: string, after: string)
    requires s != "" && s[1..] == name + after
    ensures s[1..1 + |name|] == name && s[1 + |name|..] == after
  {
    assert s == [s[0]] + (name + after);
  }

  lemma {:induction false} ScanPastWords(loads: Loads, t: string, rest: string)
    requires NoAngle(t)
    ensures InlineScan(loads, t + rest) == (t + InlineScan(loads, rest).0, InlineScan(loads, rest).1)
  {
    if t == "" {
      assert t + rest == rest;
      assert "" + InlineScan(loads, rest).0 == InlineScan(loads, rest).0;
    } else {
      var s := t + rest;
      assert s[0] == t[0] && t[0] in t;
      assert s[1..] == t[1..] + rest;
      assert NoAngle(t[1..]) by {
        assert forall c :: c in t[1..] ==> c in t;
      }
      ScanPastWords(loads, t[1..], rest);
      assert InlineAt(s) == NoTag;
      var more := InlineScan(loads, rest).0;
      assert [s[0]] + (t[1..] + more) == t + more;
    }
  }

  lemma ScanTag(loads: Loads, t: Self, rest: string)
    requires PlainSelf(t)
    ensures var p, more := PieceText(Empty(t.name, Within(t))), InlineScan(loads, rest);
            InlineScan(loads, p + rest)
            == if '.' in t.name then (more.0, [Call(t.name, AttributeArguments(loads, [], AttrPairs(t.attrs)))] + more.1)
               else (p + more.0, more.1)
  {
    WithinFacts(t.attrs, t.tail);
    AttributesRead(t.attrs, t.tail);
    InlineRead(t.name, Within(t), rest);
    hide InlineAt, Attributes, AttributeArguments, PlainSelf, Within;
  }

  lemma {:induction false} SelvesRead(loads: Loads, lead: string, tags: seq<Self>)
    requires PlainSelves(lead, tags)
    ensures InlineScan(loads, Written(SelfDoc(lead, tags))) == (SelfText(lead, tags), SelfCallsOf(loads, tags))
    decreases tags
  {
    hide InlineScan, Written, SelfDoc, PieceText, Within, AttributeArguments, NoAngle, PlainSelf;
    if tags == [] {
      LeadRead(loads, lead);
    } else {
      var t := tags[0];
      assert PlainSelf(t);
      var p, rest := PieceText(Empty(t.name, Within(t))), Written(SelfDoc(t.text, tags[1..]));
      TextAfter(lead, tags);
      SelvesRead(loads, t.text, tags[1..]);
      SelfStep(lead, tags);
      ScanPastWords(loads, lead, p + rest);
      ScanTag(loads, t, rest);
      assert "" + SelfText(t.text, tags[1..]) == SelfText(t.text, tags[1..]);
      assert [] + SelfCallsOf(loads, tags[1..]) == SelfCallsOf(loads, tags[1..]);
    }
  }

  lemma TextAfter(lead: string, tags: seq<Self>)
    requires PlainSelves(lead, tags) && tags != []
    ensures PlainSelves(tags[0].text, tags[1..])
  {
    assert PlainSelf(tags[0]);
  }

  lemma LeadRead(loads: Loads, lead: string)
    requires NoAngle(lead)
    ensures InlineScan(loads, Written(SelfDoc(lead, []))) == (lead, [])
  {
    WordsWritten(lead);
    ScanPastWords(loads, lead, "");
    assert lead + "" == lead;
    assert InlineScan(loads, "") == ("", []);
  }

  lemma SelfStep(lead: string, tags: seq<Self>)
    requires tags != []
    ensures Written(SelfDoc(lead, tags)) == lead + (PieceText(Empty(tags[0].name, Within(tags[0]))) + Written(SelfDoc(tags[0].text, tags[1..])))
  {
    var tag, after := Empty(tags[0].name, Within(tags[0])), SelfDoc(tags[0].text, tags[1..]);
    assert SelfDoc(lead, tags) == [Words(lead)] + ([tag] + after);
    hide SelfDoc, Written, Within;
    WrittenCons(tag, after);
    WrittenCons(Words(lead), [tag] + after);
  }

  lemma {:induction false} SelfDocLacks(f: char -> char, w: string, lead: string, tags: seq<Self>)
    requires Mapping(f) && PlainSelves(lead, tags)
    ensures var ps := SelfDoc(lead, tags); AllProper(ps) && Guarded(ps) && Lacks(f, false, w, ps)
    decreases tags
  {
    WordsWritten(lead);
    WordsLack(f, false, w, lead);
    if tags != [] {
      var t, after := tags[0], SelfDoc(tags[0].text, tags[1..]);
      assert PlainSelf(t);
      WithinFacts(t.attrs, t.tail);
      SelfDocLacks(f, w, t.text, tags[1..]);
      var tag := [Empty(t.name, Within(t))];
      assert AllProper(tag) && Guarded(tag) && Lacks(f, false, w, tag);
      assert SelfDoc(lead, tags) == [Words(lead)] + (tag + after);
      hide PlainSelf, Within, SelfDoc, NoAngle, Is, Proper;
      GuardedAppend(tag, after);
      GuardedAppend([Words(lead)], tag + after);
      hide Guarded;
    }
  }

  lemma {:induction false} EndFound(s: string, t: string)
    ensures FindExact("/>", s + ("/>" + t)) < |s + ("/>" + t)|
  {
    var all := s + ("/>" + t);
    if s != "" {
      assert all[1..] == s[1..] + ("/>" + t);
      EndFound(s[1..], t);
    }
  }

  lemma SelfVisible(lead: string, tags: seq<Self>)
    requires tags != []
    ensures var s := Written(SelfDoc(lead, tags)); '<' in s && FindExact("/>", s) != |s|
  {
    var t, rest := tags[0], Written(SelfDoc(tags[0].text, tags[1..]));
    var start := "<" + (t.name + Within(t));
    SelfStep(lead, tags);
    assert PieceText(Empty(t.name, Within(t))) == "<" + (t.name + (Within(t) + "/>"));
    hide SelfDoc, Written, Within, FindExact, PieceText;
    TagParts(lead, t.name, Within(t), rest);
    EndFound(lead + start, rest);
    assert Written(SelfDoc(lead, tags)) == (lead + start) + ("/>" + rest);
  }

  lemma TagParts(lead: string, name: string, within: string, rest: string)
    ensures var s := lead + (("<" + (name + (within + "/>"))) + rest);
            s == (lead + ("<" + (name + within))) + ("/>" + rest) && '<' in s
  {
    var s := lead + (("<" + (name + (within + "/>"))) + rest);
    assert s[|lead|] == '<';
  }

  /** The third pass: the calls of the dotted tags in order, and the text with exactly those tags taken out, tidied. */
  lemma InlinePassRoundTrip(loads: Loads, lead: string, tags: seq<Self>)
    requires PlainSelves(lead, tags)
    ensures InlinePass(loads, Written(SelfDoc(lead, tags)))
            == (if tags == [] then lead else Tidy(SelfText(lead, tags)), SelfCallsOf(loads, tags))
  {
    SelvesRead(loads, lead, tags);
    if tags == [] {
      WordsWritten(lead);
    } else {
      SelfVisible(lead, tags);
    }
    hide Written, Tidy, SelfDoc, InlineScan, FindExact;
  }

  /** All three passes on a text with self-closing tags; tags without a dot stay in the text. */
  lemma InlineRoundTrip(loads: Loads, lead: string, tags: seq<Self>)
    requires PlainSelves(lead, tags)
    ensures Extract(loads, Written(SelfDoc(lead, tags)))
            == (if tags == [] then lead else Tidy(SelfText(lead, tags)), SelfCallsOf(loads, tags))
  {
    var s := Written(SelfDoc(lead, tags));
    ContainerTags();
    FoldMaps();
    SelfDocLacks(LowerChar, "longcat_tool_call", lead, tags);
    SelfDocLacks(LowerChar, "tool_calls", lead, tags);
    NotInLower(false, "longcat_tool_call", SelfDoc(lead, tags));
    NotInLower(false, "tool_calls", SelfDoc(lead, tags));
    InlinePassRoundTrip(loads, lead, tags);
    hide Written, InLower, Tidy, SelfDoc, InlinePass, Extract;
    OnlyThirdPass(loads, s);
  }

  // ---------- Arguments ----------

  /** The arguments under their aliased names, with coerced values. */
  function NamedValues(loads: Loads, kvs: seq<(string, string)>): seq<(string, Json)> {
    if kvs == [] then [] else [(ArgumentName(kvs[0].0), Coerce(loads, kvs[0].1))] + NamedValues(loads, kvs[1..])
  }

  /** Arguments of a tag whose names differ after aliasing are all kept, in order. */
  lemma {:induction false} TagArgumentsKept(loads: Loads, d: seq<(string, Json)>, kvs: seq<(string, string)>)
    requires DistinctKeys(d + NamedValues(loads, kvs))
    ensures AttributeArguments(loads, d, kvs) == d + NamedValues(loads, kvs)
    decreases kvs
  {
    if kvs == [] {
      assert d + [] == d;
    } else {
      hide Coerce, ArgumentName;
      var k, v, rest := ArgumentName(kvs[0].0), Coerce(loads, kvs[0].1), NamedValues(loads, kvs[1..]);
      assert d + ([(k, v)] + rest) == d + [(k, v)] + rest;
      FirstKeyFresh(d, k, v, rest);
      AssignFresh(d, k, v);
      TagArgumentsKept(loads, d + [(k, v)], kvs[1..]);
      hide DistinctKeys, Assign, NamedValues;
    }
  }
}
