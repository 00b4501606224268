/**
 Longcat blocks written into a text are read back exactly: the proof views the
 rendered text as a list of tokens, whose tags cannot be confused.
 */
module EmbeddedRoundTrip {
  import opened Text
  import opened Payloads
  import opened EmbeddedCalls

  datatype Token = Plain(text: string) | Open | Close | KeyOpen | KeyClose | ValueOpen | ValueClose

  function TagText(t: Token): string {
    match t
    case Plain(text) => text
    case Open => OPEN
    case Close => CLOSE
    case KeyOpen => KEY_OPEN
    case KeyClose => KEY_CLOSE
    case ValueOpen => VALUE_OPEN
    case ValueClose => VALUE_CLOSE
  }

  function Render(ts: seq<Token>): string {
    if ts == [] then "" else TagText(ts[0]) + Render(ts[1..])
  }

  ghost predicate NoAngle(s: string) {
    '<' !in s
  }

  /** Plain tokens hold no angle bracket. */
  ghost predicate WellFormed(ts: seq<Token>) {
    forall i :: 0 <= i < |ts| && ts[i].Plain? ==> NoAngle(ts[i].text)
  }

  lemma {:induction false} RenderAppend(a: seq<Token>, b: seq<Token>)
    ensures Render(a + b) == Render(a) + Render(b)
  {
    if a == [] {
      assert a + b == b;
    } else {
      assert (a + b)[1..] == a[1..] + b;
      RenderAppend(a[1..], b);
    }
  }

  // ---------- Finding a tag in rendered tokens ----------

  /** Lower-case throughout, with one angle bracket, the first character. */
  ghost predicate TagLike(s: string) {
    |s| > 15 && s[0] == '<' && NoAngle(s[1..]) && forall k :: 0 <= k < |s| ==> FoldChar(s[k]) == s[k]
  }

  lemma TagIsTagLike(t: Token)
    requires !t.Plain?
    ensures TagLike(TagText(t))
  {
    var s := TagText(t);
    assert |s| > 15 && s[0] == '<';
    TagFolds(t);
    assert NoAngle(s[1..]) by {
      forall k | 1 <= k < |s| ensures s[k] != '<' {
      }
    }
  }

  lemma TagFolds(t: Token)
    requires !t.Plain?
    ensures forall k :: 0 <= k < |TagText(t)| ==> FoldChar(TagText(t)[k]) == TagText(t)[k]
  {
  }

  /** A place where two tags differ. */
  function DifferAt(tag: Token, other: Token): nat {
    if tag.Open? || tag.KeyOpen? || tag.ValueOpen? then
      if other.Close? || other.KeyClose? || other.ValueClose? then 1 else if tag.Open? || other.Open? then 9 else 13
    else
      if other.Open? || other.KeyOpen? || other.ValueOpen? then 1 else if tag.Close? || other.Close? then 10 else 14
  }

  lemma TagsDiffer(tag: Token, other: Token)
    requires !tag.Plain? && !other.Plain? && tag != other
    ensures var d := DifferAt(tag, other);
            d < |TagText(tag)| && d < |TagText(other)| && TagText(tag)[d] != TagText(other)[d]
  {
  }

  lemma OtherTagDoesNotStart(tag: Token, other: Token, rest: string)
    requires !tag.Plain? && !other.Plain? && tag != other
    ensures !Starts(TagText(tag), TagText(other) + rest)
  {
    TagsDiffer(tag, other);
    TagIsTagLike(other);
    hide TagText, FoldChar;
    var d, o := DifferAt(tag, other), TagText(other);
    assert (o + rest)[d] == o[d] && FoldChar(o[d]) == o[d];
  }

  lemma {:induction false} FindInPlain(tag: string, t: string, rest: string)
    requires tag != "" && tag[0] == '<' && NoAngle(t)
    ensures Find(tag, t + rest) == |t| + Find(tag, rest)
  {
    if t == "" {
      assert t + rest == rest;
    } else {
      var s := t + rest;
      assert s[0] == t[0] && t[0] in t;
      assert s[1..] == t[1..] + rest;
      assert NoAngle(t[1..]) by {
        assert forall c :: c in t[1..] ==> c in t;
      }
      assert !Starts(tag, s) by {
        assert FoldChar(s[0]) != '<';
      }
      FindInPlain(tag, t[1..], rest);
    }
  }

  function FirstOf(tag: Token, ts: seq<Token>): (i: nat)
    ensures i <= |ts|
  {
    if ts == [] || ts[0] == tag then 0 else 1 + FirstOf(tag, ts[1..])
  }

  lemma FindPastHead(tag: Token, t: Token, rest: string)
    requires !tag.Plain? && (t.Plain? ==> NoAngle(t.text))
    ensures Find(TagText(tag), TagText(t) + rest) == if t == tag then 0 else |TagText(t)| + Find(TagText(tag), rest)
  {
    hide FoldChar, Starts, Find;
    if t == tag {
      TagStarts(tag, rest);
    } else if t.Plain? {
      TagIsTagLike(tag);
      FindInPlain(TagText(tag), t.text, rest);
    } else {
      SkipTag(tag, t, rest);
    }
  }

  /** A tag occurs in the rendered text exactly where its first token is. */
  lemma {:induction false} FindToken(tag: Token, ts: seq<Token>)
    requires !tag.Plain? && WellFormed(ts)
    ensures Find(TagText(tag), Render(ts)) == |Render(ts[..FirstOf(tag, ts)])|
  {
    if ts == [] {
      assert Find(TagText(tag), "") == 0;
    } else {
      hide TagText, Find, NoAngle;
      FindPastHead(tag, ts[0], Render(ts[1..]));
      FindToken(tag, ts[1..]);
      if ts[0] != tag {
        var front := ts[..FirstOf(tag, ts)];
        assert front[0] == ts[0] && front[1..] == ts[1..][..FirstOf(tag, ts[1..])];
      }
    }
  }

  lemma TagStarts(tag: Token, rest: string)
    requires !tag.Plain?
    ensures Starts(TagText(tag), TagText(tag) + rest) && Find(TagText(tag), TagText(tag) + rest) == 0
  {
    TagIsTagLike(tag);
    hide TagText;
  }

  lemma SkipTag(tag: Token, other: Token, rest: string)
    requires !tag.Plain? && !other.Plain? && tag != other
    ensures Find(TagText(tag), TagText(other) + rest) == |TagText(other)| + Find(TagText(tag), rest)
  {
    OtherTagDoesNotStart(tag, other, rest);
    TagIsTagLike(tag);
    TagIsTagLike(other);
    hide TagText, FoldChar, Starts;
    var o := TagText(other);
    assert (o + rest)[1..] == o[1..] + rest;
    FindInPlain(TagText(tag), o[1..], rest);
  }

  lemma {:induction false} FirstOfSplit(tag: Token, a: seq<Token>, b: seq<Token>)
    requires tag !in a
    ensures FirstOf(tag, a + [tag] + b) == |a|
    ensures FirstOf(tag, a) == |a|
  {
    if a != [] {
      assert a[0] in a && forall t :: t in a[1..] ==> t in a;
      assert (a + [tag] + b)[1..] == a[1..] + [tag] + b;
      FirstOfSplit(tag, a[1..], b);
    }
  }

  /** The first matching pair of tags in rendered tokens. */
  lemma PairFound(open: Token, close: Token, a: seq<Token>, b: seq<Token>, c: seq<Token>)
    requires !open.Plain? && !close.Plain? && open !in a && close !in b
    requires WellFormed(a + [open] + b + [close] + c)
    ensures var s := Render(a + [open] + b + [close] + c);
            && Bodies(TagText(open), TagText(close), s) == [Render(b)] + Bodies(TagText(open), TagText(close), Render(c))
            && Outside(TagText(open), TagText(close), s) == Render(a) + Outside(TagText(open), TagText(close), Render(c))
  {
    var tail := b + [close] + c;
    var ts := a + [open] + tail;
    assert a + [open] + b + [close] + c == ts;
    assert WellFormed(tail) by { assert forall i :: 0 <= i < |tail| ==> tail[i] == ts[|a| + 1 + i]; }
    FirstOfSplit(open, a, tail);
    FindToken(open, ts);
    assert ts[..|a|] == a;
    FirstOfSplit(close, b, c);
    FindToken(close, tail);
    assert tail[..|b|] == b;
    RenderSplit(open, a, tail);
    RenderSplit(close, b, c);
    TagIsTagLike(open);
    TagIsTagLike(close);
    PairText(TagText(open), TagText(close), Render(a), Render(b), Render(c));
  }

  lemma RenderSplit(tag: Token, a: seq<Token>, b: seq<Token>)
    ensures Render(a + [tag] + b) == Render(a) + TagText(tag) + Render(b)
  {
    RenderAppend(a + [tag], b);
    RenderAppend(a, [tag]);
    hide TagText;
    assert Render([tag]) == TagText(tag) + "";
  }

  lemma PairText(open: string, close: string, a: string, b: string, c: string)
    requires open != "" && close != ""
    requires Find(open, a + open + (b + close + c)) == |a|
    requires Find(close, b + close + c) == |b|
    ensures var s := a + open + (b + close + c);
            && Bodies(open, close, s) == [b] + Bodies(open, close, c)
            && Outside(open, close, s) == a + Outside(open, close, c)
  {
    var rest := b + close + c;
    var s := a + open + rest;
    assert s[|a| + |open|..] == rest;
    assert rest[..|b|] == b && rest[|b| + |close|..] == c && s[..|a|] == a;
    assert NextPair(open, close, s) == Pair(a, b, c);
  }

  lemma NoPairFound(open: Token, close: Token, ts: seq<Token>)
    requires !open.Plain? && !close.Plain? && open !in ts && WellFormed(ts)
    ensures Bodies(TagText(open), TagText(close), Render(ts)) == []
    ensures Outside(TagText(open), TagText(close), Render(ts)) == Render(ts)
  {
    FindToken(open, ts);
    FirstOfSplit(open, ts, []);
    assert ts[..|ts|] == ts;
    TagIsTagLike(open);
    TagIsTagLike(close);
  }

  // ---------- Documents ----------

  /** One argument as written: texts between the tags may hold anything but an angle bracket. */
  datatype Arg = Arg(key: string, gap: string, value: string, tail: string)

  datatype Block = Block(head: string, args: seq<Arg>)

  /** A block and the text up to the next one. */
  datatype Part = Part(block: Block, text: string)

  function KeyPart(a: Arg): seq<Token> {
    [KeyOpen, Plain(a.key), KeyClose, Plain(a.gap)]
  }

  function AfterKey(a: Arg): seq<Token> {
    [Plain(a.gap), ValueOpen, Plain(a.value), ValueClose, Plain(a.tail)]
  }

  function ArgTokens(args: seq<Arg>): seq<Token> {
    if args == [] then []
    else KeyPart(args[0]) + [ValueOpen] + [Plain(args[0].value)] + [ValueClose] + ([Plain(args[0].tail)] + ArgTokens(args[1..]))
  }

  function BlockTokens(b: Block): seq<Token> {
    [Plain(b.head)] + ArgTokens(b.args)
  }

  function DocTokens(lead: string, parts: seq<Part>): seq<Token>
    decreases parts
  {
    if parts == [] then [Plain(lead)]
    else [Plain(lead)] + [Open] + BlockTokens(parts[0].block) + [Close] + DocTokens(parts[0].text, parts[1..])
  }

  ghost predicate PlainArg(a: Arg) {
    NoAngle(a.key) && NoAngle(a.gap) && NoAngle(a.value) && NoAngle(a.tail)
  }

  ghost predicate PlainArgs(args: seq<Arg>) {
    forall i :: 0 <= i < |args| ==> PlainArg(args[i])
  }

  ghost predicate PlainPart(p: Part) {
    NoAngle(p.text) && NoAngle(p.block.head) && PlainArgs(p.block.args)
  }

  ghost predicate PlainDoc(lead: string, parts: seq<Part>) {
    NoAngle(lead) && forall i :: 0 <= i < |parts| ==> PlainPart(parts[i])
  }

  function Keys(args: seq<Arg>): seq<string> {
    if args == [] then [] else [args[0].key] + Keys(args[1..])
  }

  function Values(args: seq<Arg>): seq<string> {
    if args == [] then [] else [args[0].value] + Values(args[1..])
  }

  lemma WellFormedAppend(a: seq<Token>, b: seq<Token>)
    requires WellFormed(a) && WellFormed(b)
    ensures WellFormed(a + b)
  {
    hide NoAngle;
  }

  lemma {:induction false} ArgTokensFacts(args: seq<Arg>)
    requires PlainArgs(args)
    ensures WellFormed(ArgTokens(args)) && Open !in ArgTokens(args) && Close !in ArgTokens(args)
  {
    if args != [] {
      ArgTokensFacts(args[1..]);
      assert PlainArg(args[0]);
      hide NoAngle;
      var a := args[0];
      var first := KeyPart(a) + [ValueOpen] + [Plain(a.value)] + [ValueClose];
      WellFormedAppend([Plain(a.tail)], ArgTokens(args[1..]));
      WellFormedAppend(first, [Plain(a.tail)] + ArgTokens(args[1..]));
    }
  }

  lemma Reassociate(a: seq<Token>, b: seq<Token>, c: seq<Token>, d: seq<Token>, e: seq<Token>, f: seq<Token>)
    ensures a + (b + c + d + e + f) == a + b + c + d + e + f
  {
  }

  /** The tokens of the first argument, around its key. */
  lemma SplitAtKey(before: seq<Token>, args: seq<Arg>)
    requires args != []
    ensures before + ArgTokens(args) ==
            before + [KeyOpen] + [Plain(args[0].key)] + [KeyClose] + (AfterKey(args[0]) + ArgTokens(args[1..]))
  {
    var last := AfterKey(args[0]) + ArgTokens(args[1..]);
    assert ArgTokens(args) == [] + [KeyOpen] + [Plain(args[0].key)] + [KeyClose] + last;
    Reassociate(before, [], [KeyOpen], [Plain(args[0].key)], [KeyClose], last);
    assert before + [] == before;
  }

  /** The tokens of the first argument, around its value. */
  lemma SplitAtValue(before: seq<Token>, args: seq<Arg>)
    requires args != []
    ensures before + ArgTokens(args) ==
            before + KeyPart(args[0]) + [ValueOpen] + [Plain(args[0].value)] + [ValueClose]
            + ([Plain(args[0].tail)] + ArgTokens(args[1..]))
  {
    hide KeyPart;
    Reassociate(before, KeyPart(args[0]), [ValueOpen], [Plain(args[0].value)], [ValueClose],
                [Plain(args[0].tail)] + ArgTokens(args[1..]));
  }

  lemma ArgPartFacts(a: Arg)
    requires PlainArg(a)
    ensures WellFormed(KeyPart(a)) && ValueOpen !in KeyPart(a)
    ensures WellFormed(AfterKey(a)) && KeyOpen !in AfterKey(a)
    ensures WellFormed([Plain(a.tail)]) && ValueOpen !in [Plain(a.tail)]
  {
  }

  lemma RenderPlain(text: string)
    ensures Render([Plain(text)]) == text
  {
    assert Render([Plain(text)]) == text + "";
  }

  /** Keys are read back, whatever keyless tokens come first. */
  lemma {:induction false} KeysFound(before: seq<Token>, args: seq<Arg>)
    requires WellFormed(before) && KeyOpen !in before && PlainArgs(args)
    ensures Bodies(KEY_OPEN, KEY_CLOSE, Render(before + ArgTokens(args))) == Keys(args)
    decreases args
  {
    ArgTokensFacts(args);
    WellFormedAppend(before, ArgTokens(args));
    if args == [] {
      assert before + [] == before;
      NoPairFound(KeyOpen, KeyClose, before);
    } else {
      SplitAtKey(before, args);
      assert PlainArg(args[0]);
      ArgPartFacts(args[0]);
      hide Bodies, Render, Outside, PlainArg, AfterKey, WellFormed, ArgTokens;
      PairFound(KeyOpen, KeyClose, before, [Plain(args[0].key)], AfterKey(args[0]) + ArgTokens(args[1..]));
      KeysFound(AfterKey(args[0]), args[1..]);
      RenderPlain(args[0].key);
    }
  }

  lemma {:induction false} ValuesFound(before: seq<Token>, args: seq<Arg>)
    requires WellFormed(before) && ValueOpen !in before && PlainArgs(args)
    ensures Bodies(VALUE_OPEN, VALUE_CLOSE, Render(before + ArgTokens(args))) == Values(args)
    decreases args
  {
    ArgTokensFacts(args);
    WellFormedAppend(before, ArgTokens(args));
    if args == [] {
      assert before + [] == before;
      NoPairFound(ValueOpen, ValueClose, before);
    } else {
      SplitAtValue(before, args);
      assert PlainArg(args[0]);
      ArgPartFacts(args[0]);
      hide Bodies, Render, Outside, PlainArg, KeyPart, WellFormed, ArgTokens;
      PairFound(ValueOpen, ValueClose, before + KeyPart(args[0]), [Plain(args[0].value)],
                [Plain(args[0].tail)] + ArgTokens(args[1..]));
      ValuesFound([Plain(args[0].tail)], args[1..]);
      RenderPlain(args[0].value);
    }
  }

  /** What a block says: the stripped head, and the arguments in order. */
  function CallOf(loads: Loads, b: Block): seq<Call> {
    if Strip(b.head) == "" then []
    else [Call(Strip(b.head), ArgumentsOf(loads, [], StripEach(Keys(b.args)), StripEach(Values(b.args))))]
  }

  function CallsOf(loads: Loads, parts: seq<Part>): seq<Call> {
    if parts == [] then [] else CallOf(loads, parts[0].block) + CallsOf(loads, parts[1..])
  }

  function PlainText(lead: string, parts: seq<Part>): string
    decreases parts
  {
    if parts == [] then lead else lead + PlainText(parts[0].text, parts[1..])
  }

  /** The head ends where the first key begins, or is the whole body. */
  lemma HeadFound(b: Block)
    requires NoAngle(b.head)
    ensures var body := Render(BlockTokens(b)); body[..FindExact(KEY_OPEN, body)] == b.head
  {
    var args := Render(ArgTokens(b.args));
    assert BlockTokens(b)[1..] == ArgTokens(b.args);
    assert Render(BlockTokens(b)) == b.head + args;
    assert args == "" || KEY_OPEN <= args by {
      if b.args != [] {
        assert ArgTokens(b.args)[0] == KeyOpen;
      }
    }
    FindExactInPlain(KEY_OPEN, b.head, args);
    assert (b.head + args)[..|b.head|] == b.head;
  }

  lemma {:induction false} FindExactInPlain(tag: string, t: string, rest: string)
    requires tag != "" && tag[0] == '<' && NoAngle(t) && (rest == "" || tag <= rest)
    ensures FindExact(tag, t + rest) == |t|
  {
    if t == "" {
      assert t + rest == rest;
    } else {
      var s := t + rest;
      assert s[0] == t[0] && t[0] in t;
      assert s[1..] == t[1..] + rest;
      assert NoAngle(t[1..]) by {
        assert forall c :: c in t[1..] ==> c in t;
      }
      FindExactInPlain(tag, t[1..], rest);
    }
  }

  lemma BlockReadBack(loads: Loads, b: Block)
    requires NoAngle(b.head) && PlainArgs(b.args)
    ensures LongcatCall(loads, Render(BlockTokens(b))) == CallOf(loads, b)
  {
    HeadFound(b);
    KeysFound([Plain(b.head)], b.args);
    ValuesFound([Plain(b.head)], b.args);
  }

  lemma {:induction false} DocTokensWellFormed(lead: string, parts: seq<Part>)
    requires PlainDoc(lead, parts)
    ensures WellFormed(DocTokens(lead, parts))
    decreases parts
  {
    if parts != [] {
      assert PlainPart(parts[0]);
      DocTokensWellFormed(parts[0].text, parts[1..]);
      ArgTokensFacts(parts[0].block.args);
    }
  }

  lemma {:induction false} DocReadBack(loads: Loads, lead: string, parts: seq<Part>)
    requires PlainDoc(lead, parts)
    ensures Outside(OPEN, CLOSE, Render(DocTokens(lead, parts))) == PlainText(lead, parts)
    ensures LongcatCalls(loads, Bodies(OPEN, CLOSE, Render(DocTokens(lead, parts)))) == CallsOf(loads, parts)
    decreases parts
  {
    DocTokensWellFormed(lead, parts);
    RenderPlain(lead);
    if parts == [] {
      NoPairFound(Open, Close, [Plain(lead)]);
    } else {
      var p := parts[0];
      assert PlainPart(p);
      ArgTokensFacts(p.block.args);
      hide Render, Bodies, Outside, NoAngle, LongcatCall, CallOf;
      PairFound(Open, Close, [Plain(lead)], BlockTokens(p.block), DocTokens(p.text, parts[1..]));
      DocReadBack(loads, p.text, parts[1..]);
      BlockReadBack(loads, p.block);
      MoreCalls(loads, Render(BlockTokens(p.block)), Bodies(OPEN, CLOSE, Render(DocTokens(p.text, parts[1..]))));
    }
  }

  lemma MoreCalls(loads: Loads, body: string, bodies: seq<string>)
    ensures LongcatCalls(loads, [body] + bodies) == LongcatCall(loads, body) + LongcatCalls(loads, bodies)
  {
    assert ([body] + bodies)[1..] == bodies;
  }

  // ---------- The round trip ----------

  lemma {:induction false} PlainTextNoAngle(lead: string, parts: seq<Part>)
    requires PlainDoc(lead, parts)
    ensures NoAngle(PlainText(lead, parts))
    decreases parts
  {
    if parts != [] {
      assert PlainPart(parts[0]);
      PlainTextNoAngle(parts[0].text, parts[1..]);
    }
  }

  lemma {:induction false} CollapseNoAngle(s: string, run: nat)
    requires NoAngle(s)
    ensures NoAngle(Collapse(s, run))
    decreases s
  {
    if s != "" {
      assert s[0] in s && forall c :: c in s[1..] ==> c in s;
      CollapseNoAngle(s[1..], if s[0] == '\n' then run + 1 else 0);
    }
  }

  lemma TidyNoAngle(s: string)
    requires NoAngle(s)
    ensures NoAngle(Tidy(s))
  {
    CollapseNoAngle(s, 0);
    StripMeaning(Collapse(s, 0));
  }

  function WithoutNewlines(s: string): string {
    if s == "" then "" else (if s[0] == '\n' then "" else [s[0]]) + WithoutNewlines(s[1..])
  }

  /** Newlines directly before position `i`, `run` of them before the text. */
  function RunBefore(s: string, run: nat, i: nat): nat
    requires i <= |s|
  {
    if i == 0 then run else if s[i - 1] == '\n' then RunBefore(s, run, i - 1) + 1 else 0
  }

  /** Collapsing leaves at most two newlines in a row and every other character in place. */
  lemma {:induction false} CollapseMeaning(s: string, run: nat)
    requires run <= 2
    ensures WithoutNewlines(Collapse(s, run)) == WithoutNewlines(s)
    ensures forall i :: 0 <= i <= |Collapse(s, run)| ==> RunBefore(Collapse(s, run), run, i) <= 2
    decreases s
  {
    if s != "" {
      if s[0] == '\n' && run == 2 {
        CollapseCapped(s[1..], 3, 2);
        assert Collapse(s, 2) == "" + Collapse(s[1..], 3) == Collapse(s[1..], 2);
        CollapseMeaning(s[1..], 2);
      } else {
        var next := if s[0] == '\n' then run + 1 else 0;
        CollapseMeaning(s[1..], next);
        var t := Collapse(s[1..], next);
        assert Collapse(s, run) == [s[0]] + t && ([s[0]] + t)[1..] == t;
        forall i | 0 <= i <= |t| + 1 ensures RunBefore([s[0]] + t, run, i) <= 2 {
          if i > 0 {
            RunShift(s[0], t, run, next, i - 1);
          }
        }
      }
    }
  }

  lemma {:induction false} CollapseCapped(s: string, run: nat, other: nat)
    requires run >= 2 && other >= 2
    ensures Collapse(s, run) == Collapse(s, other)
    decreases s
  {
    if s != "" && s[0] == '\n' {
      CollapseCapped(s[1..], run + 1, other + 1);
    }
  }

  lemma {:induction false} RunShift(c: char, t: string, run: nat, next: nat, i: nat)
    requires i <= |t| && next == (if c == '\n' then run + 1 else 0)
    ensures RunBefore([c] + t, run, i + 1) == RunBefore(t, next, i)
  {
    assert ([c] + t)[i] == if i == 0 then c else t[i - 1];
    if i > 0 {
      RunShift(c, t, run, next, i - 1);
    }
  }

  lemma {:induction false} NoTagInLower(tag: string, s: string)
    requires tag != "" && tag[0] == '<' && NoAngle(s)
    ensures !InLower(tag, s)
  {
    if s != "" {
      assert s[0] in s && forall c :: c in s[1..] ==> c in s;
      assert LowerChar(s[0]) != '<';
      NoTagInLower(tag, s[1..]);
    }
  }

  lemma {:induction false} TagInLower(t: string, rest: string)
    ensures InLower(OPEN, t + OPEN + rest)
  {
    var s := t + OPEN + rest;
    if t == "" {
      assert forall k :: 0 <= k < |OPEN| ==> s[k] == OPEN[k] && LowerChar(OPEN[k]) == OPEN[k];
    } else {
      assert s[1..] == t[1..] + OPEN + rest;
      TagInLower(t[1..], rest);
    }
  }

  /**
   A text with longcat blocks is read back as exactly those calls, in order, and its plain parts
   with newline runs collapsed and ends trimmed; a text without blocks comes back unchanged.
   */
  lemma EmbeddedCallRoundTrip(loads: Loads, lead: string, parts: seq<Part>)
    requires PlainDoc(lead, parts)
    ensures Extract(loads, Render(DocTokens(lead, parts))) ==
            (if parts == [] then lead else Tidy(PlainText(lead, parts)), CallsOf(loads, parts))
  {
    var content := Render(DocTokens(lead, parts));
    var text := if parts == [] then lead else Tidy(PlainText(lead, parts));
    PlainTextNoAngle(lead, parts);
    TidyNoAngle(PlainText(lead, parts));
    FirstPass(loads, lead, parts);
    NoTagInLower(CONTAINER_OPEN, text);
    assert CallsOf(loads, parts) + [] + [] == CallsOf(loads, parts);
  }

  lemma FirstPass(loads: Loads, lead: string, parts: seq<Part>)
    requires PlainDoc(lead, parts)
    ensures LongcatPass(loads, Render(DocTokens(lead, parts))) ==
            (if parts == [] then lead else Tidy(PlainText(lead, parts)), CallsOf(loads, parts))
  {
    DocReadBack(loads, lead, parts);
    RenderPlain(lead);
    if parts == [] {
      NoTagInLower(OPEN, lead);
      hide InLower;
    } else {
      BlockVisible(lead, parts);
      hide InLower, Render, Outside, Bodies, Tidy, LongcatCalls;
    }
  }

  lemma BlockVisible(lead: string, parts: seq<Part>)
    requires parts != []
    ensures InLower(OPEN, Render(DocTokens(lead, parts)))
  {
    var p := parts[0];
    var tail := BlockTokens(p.block) + [Close] + DocTokens(p.text, parts[1..]);
    assert DocTokens(lead, parts) == [Plain(lead)] + [Open] + tail;
    RenderSplit(Open, [Plain(lead)], tail);
    RenderPlain(lead);
    TagInLower(lead, Render(tail));
  }

  // ---------- Arguments as a dictionary ----------

  function ArgumentPairs(loads: Loads, args: seq<Arg>): seq<(string, Json)> {
    if args == [] then []
    else [(ArgumentName(Strip(args[0].key)), Coerce(loads, Strip(args[0].value)))] + ArgumentPairs(loads, args[1..])
  }

  ghost predicate DistinctKeys(d: seq<(string, Json)>) {
    forall i, j :: 0 <= i < j < |d| ==> d[i].0 != d[j].0
  }

  lemma {:induction false} AssignFresh(d: seq<(string, Json)>, key: string, value: Json)
    requires forall i :: 0 <= i < |d| ==> d[i].0 != key
    ensures Assign(d, key, value) == d + [(key, value)]
  {
    if d != [] {
      AssignFresh(d[1..], key, value);
    }
  }

  lemma FirstKeyFresh(d: seq<(string, Json)>, k: string, v: Json, rest: seq<(string, Json)>)
    requires DistinctKeys(d + [(k, v)] + rest)
    ensures forall i :: 0 <= i < |d| ==> d[i].0 != k
  {
    var all := d + [(k, v)] + rest;
    assert all[|d|] == (k, v);
    assert forall i :: 0 <= i < |d| ==> all[i] == d[i];
  }

  /** Arguments whose keys differ after aliasing are kept, all of them, in order. */
  lemma {:induction false} DistinctArgumentsKept(loads: Loads, d: seq<(string, Json)>, args: seq<Arg>)
    requires DistinctKeys(d + ArgumentPairs(loads, args))
    ensures ArgumentsOf(loads, d, StripEach(Keys(args)), StripEach(Values(args))) == d + ArgumentPairs(loads, args)
    decreases args
  {
    if args == [] {
      assert d + [] == d;
    } else {
      hide Coerce, ArgumentName, Strip;
      var k, v, rest := ArgumentName(Strip(args[0].key)), Coerce(loads, Strip(args[0].value)), ArgumentPairs(loads, args[1..]);
      assert ArgumentPairs(loads, args) == [(k, v)] + rest;
      assert d + ([(k, v)] + rest) == d + [(k, v)] + rest;
      FirstKeyFresh(d, k, v, rest);
      AssignFresh(d, k, v);
      DistinctArgumentsKept(loads, d + [(k, v)], args[1..]);
      hide DistinctKeys, Assign, ArgumentPairs;
      assert StripEach(Keys(args))[1..] == StripEach(Keys(args[1..]));
      assert StripEach(Values(args))[1..] == StripEach(Values(args[1..]));
    }
  }
}
