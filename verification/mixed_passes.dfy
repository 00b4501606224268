/**
 One text with all three kinds of tagged calls: each pass takes out its own kind and
 leaves the others for the passes after it.
 */
module MixedPasses {
  import opened Text
  import opened Payloads
  import opened EmbeddedCalls
  import opened EmbeddedRoundTrip
  import opened TagRoundTrip

  datatype Item =
    | Longcat(block: Block)
    | Container(tools: seq<Tool>, tail: string)
    | Single(name: string, attrs: seq<Attr>, tail: string)

  /** An item and the text up to the next one. */
  datatype Then = Then(item: Item, text: string)

  // ---------- Texts as written ----------

  function ArgPieces(args: seq<Arg>): seq<Piece> {
    if args == [] then []
    else
      [Opening("longcat_arg_key")] + ([Words(args[0].key)] + ([Closing("longcat_arg_key")] + ([Words(args[0].gap)]
      + ([Opening("longcat_arg_value")] + ([Words(args[0].value)] + ([Closing("longcat_arg_value")] + ([Words(args[0].tail)]
      + ArgPieces(args[1..]))))))))
  }

  function BlockPieces(b: Block): seq<Piece> {
    [Words(b.head)] + ArgPieces(b.args)
  }

  function BoxOf(item: Item): Box
    requires item.Container?
  {
    Box(item.tools, item.tail, "")
  }

  function SelfOf(item: Item, text: string): Self
    requires item.Single?
  {
    Self(item.name, item.attrs, item.tail, text)
  }

  /** What the item encloses. */
  function Inside(item: Item): seq<Piece> {
    match item
    case Longcat(block) => BlockPieces(block)
    case Container(tools, tail) => BoxPieces(BoxOf(item))
    case Single(_, _, _) => []
  }

  function TagName(item: Item): string {
    match item
    case Longcat(_) => "longcat_tool_call"
    case Container(_, _) => "tool_calls"
    case Single(name, _, _) => name
  }

  function ItemPieces(item: Item): seq<Piece> {
    if item.Single? then [Empty(item.name, Within(SelfOf(item, "")))]
    else [Opening(TagName(item))] + (Inside(item) + [Closing(TagName(item))])
  }

  /** How many passes leave the item in the text. */
  function Stage(item: Item): nat {
    match item case Longcat(_) => 1 case Container(_, _) => 2 case Single(_, _, _) => 3
  }

  /** The text that pass `stage` finds: the items of earlier stages are gone, and the text around them has closed up. */
  function Doc(stage: nat, lead: string, items: seq<Then>): seq<Piece>
    decreases items
  {
    if items == [] then [Words(lead)]
    else if Stage(items[0].item) < stage then Doc(stage, lead + items[0].text, items[1..])
    else [Words(lead)] + (ItemPieces(items[0].item) + Doc(stage, items[0].text, items[1..]))
  }

  /** The bodies of the items that pass `stage` takes out. */
  function BodiesOf(stage: nat, items: seq<Then>): seq<string> {
    if items == [] then []
    else (if Stage(items[0].item) == stage then [Written(Inside(items[0].item))] else []) + BodiesOf(stage, items[1..])
  }

  ghost predicate PlainItem(item: Item) {
    match item
    case Longcat(block) => NoAngle(block.head) && PlainArgs(block.args)
    case Container(tools, tail) => PlainBox(BoxOf(item))
    case Single(_, _, _) => PlainSelf(SelfOf(item, ""))
  }

  ghost predicate PlainItems(lead: string, items: seq<Then>) {
    NoAngle(lead) && forall i :: 0 <= i < |items| ==> PlainItem(items[i].item) && NoAngle(items[i].text)
  }

  function LongcatCallsOf(loads: Loads, items: seq<Then>): seq<Call> {
    if items == [] then []
    else (if items[0].item.Longcat? then CallOf(loads, items[0].item.block) else []) + LongcatCallsOf(loads, items[1..])
  }

  function ContainerCallsOf(loads: Loads, items: seq<Then>): seq<Call> {
    if items == [] then []
    else (if items[0].item.Container? then ToolCallsOf(loads, items[0].item.tools) else []) + ContainerCallsOf(loads, items[1..])
  }

  /** The self-closing tags, with the text that ends up after each. */
  function SinglesOf(items: seq<Then>): seq<Self> {
    if items == [] then []
    else if items[0].item.Single? then [SelfOf(items[0].item, items[0].text + LeadOf(items[1..]))] + SinglesOf(items[1..])
    else SinglesOf(items[1..])
  }

  /** The text up to the first self-closing tag. */
  function LeadOf(items: seq<Then>): string {
    if items == [] || items[0].item.Single? then "" else items[0].text + LeadOf(items[1..])
  }

  // ---------- The pieces of a longcat block ----------

  lemma LongcatTags()
    ensures OPEN == TagOf(false, "longcat_tool_call") && CLOSE == TagOf(true, "longcat_tool_call")
    ensures KEY_OPEN == OpenTag("longcat_arg_key") && KEY_CLOSE == CloseTag("longcat_arg_key")
    ensures VALUE_OPEN == OpenTag("longcat_arg_value") && VALUE_CLOSE == CloseTag("longcat_arg_value")
  {
    BlockTags();
    KeyTags();
    ValueTags();
    hide *;
  }

  lemma BlockTags()
    ensures OPEN == TagOf(false, "longcat_tool_call") && CLOSE == TagOf(true, "longcat_tool_call")
  {
  }

  lemma KeyTags()
    ensures KEY_OPEN == OpenTag("longcat_arg_key") && KEY_CLOSE == CloseTag("longcat_arg_key")
  {
  }

  lemma ValueTags()
    ensures VALUE_OPEN == OpenTag("longcat_arg_value") && VALUE_CLOSE == CloseTag("longcat_arg_value")
  {
  }

  lemma ArgText(args: seq<Arg>)
    requires args != []
    ensures var a := args[0];
            Render(ArgTokens(args))
            == KEY_OPEN + (a.key + (KEY_CLOSE + (a.gap + (VALUE_OPEN + (a.value + (VALUE_CLOSE + (a.tail + Render(ArgTokens(args[1..])))))))))
  {
    var a, rest := args[0], ArgTokens(args[1..]);
    var front, last := KeyPart(a), [Plain(a.tail)] + rest;
    assert ArgTokens(args) == front + [ValueOpen] + [Plain(a.value)] + [ValueClose] + last;
    KeyText(a);
    hide ArgTokens, Render, KeyPart;
    RenderAppend(front + [ValueOpen] + [Plain(a.value)] + [ValueClose], last);
    RenderAppend(front + [ValueOpen] + [Plain(a.value)], [ValueClose]);
    RenderAppend(front + [ValueOpen], [Plain(a.value)]);
    RenderAppend(front, [ValueOpen]);
    RenderCons(Plain(a.tail), rest);
    RenderOne(ValueOpen);
    RenderOne(Plain(a.value));
    RenderOne(ValueClose);
    EightParts(KEY_OPEN, a.key, KEY_CLOSE, a.gap, VALUE_OPEN, a.value, VALUE_CLOSE, a.tail + Render(rest));
  }

  lemma RenderOne(t: Token)
    ensures Render([t]) == TagText(t)
  {
    assert Render([t]) == TagText(t) + "";
  }

  lemma KeyText(a: Arg)
    ensures Render(KeyPart(a)) == KEY_OPEN + (a.key + (KEY_CLOSE + a.gap))
  {
    assert KeyPart(a) == [KeyOpen] + ([Plain(a.key)] + ([KeyClose] + [Plain(a.gap)]));
    hide Render;
    RenderOne(Plain(a.gap));
    RenderCons(KeyClose, [Plain(a.gap)]);
    RenderCons(Plain(a.key), [KeyClose] + [Plain(a.gap)]);
    RenderCons(KeyOpen, [Plain(a.key)] + ([KeyClose] + [Plain(a.gap)]));
  }

  lemma EightParts(a: string, b: string, c: string, d: string, e: string, f: string, g: string, h: string)
    ensures (a + (b + (c + d))) + e + f + g + h == a + (b + (c + (d + (e + (f + (g + h))))))
  {
  }

  lemma RenderCons(t: Token, ts: seq<Token>)
    ensures Render([t] + ts) == TagText(t) + Render(ts)
  {
    assert ([t] + ts)[1..] == ts;
  }

  lemma {:induction false} ArgPiecesWritten(args: seq<Arg>)
    ensures Written(ArgPieces(args)) == Render(ArgTokens(args))
  {
    if args != [] {
      var a, rest := args[0], ArgPieces(args[1..]);
      ArgPiecesWritten(args[1..]);
      ArgText(args);
      LongcatTags();
      ArgPiecesText(args);
      hide ArgPieces, ArgTokens, Written, Render, OpenTag, CloseTag;
    }
  }

  lemma ArgPiecesText(args: seq<Arg>)
    requires args != []
    ensures var a := args[0];
            Written(ArgPieces(args))
            == OpenTag("longcat_arg_key") + (a.key + (CloseTag("longcat_arg_key") + (a.gap
               + (OpenTag("longcat_arg_value") + (a.value + (CloseTag("longcat_arg_value") + (a.tail + Written(ArgPieces(args[1..])))))))))
  {
    var a, rest := args[0], ArgPieces(args[1..]);
    var key, value := "longcat_arg_key", "longcat_arg_value";
    assert PieceText(Opening(key)) == OpenTag(key) && PieceText(Closing(key)) == CloseTag(key);
    assert PieceText(Opening(value)) == OpenTag(value) && PieceText(Closing(value)) == CloseTag(value);
    var p7 := [Words(a.tail)] + rest;
    var p6 := [Closing(value)] + p7;
    var p5 := [Words(a.value)] + p6;
    var p4 := [Opening(value)] + p5;
    var p3 := [Words(a.gap)] + p4;
    var p2 := [Closing(key)] + p3;
    var p1 := [Words(a.key)] + p2;
    assert ArgPieces(args) == [Opening(key)] + p1;
    hide ArgPieces, Written, OpenTag, CloseTag;
    WrittenCons(Words(a.tail), rest);
    WrittenCons(Closing(value), p7);
    WrittenCons(Words(a.value), p6);
    WrittenCons(Opening(value), p5);
    WrittenCons(Words(a.gap), p4);
    WrittenCons(Closing(key), p3);
    WrittenCons(Words(a.key), p2);
    WrittenCons(Opening(key), p1);
  }

  lemma BlockWritten(b: Block)
    ensures Written(BlockPieces(b)) == Render(BlockTokens(b))
  {
    ArgPiecesWritten(b.args);
    WrittenCons(Words(b.head), ArgPieces(b.args));
    RenderCons(Plain(b.head), ArgTokens(b.args));
    hide ArgPieces, ArgTokens, Written, Render;
  }

  /** Proper pieces among which the tag cannot be found. */
  ghost predicate Clear(closing: bool, w: string, ps: seq<Piece>) {
    AllProper(ps) && Guarded(ps) && Lacks(FoldChar, closing, w, ps)
  }

  lemma ClearAppend(closing: bool, w: string, a: seq<Piece>, b: seq<Piece>)
    requires Clear(closing, w, a) && Clear(closing, w, b) && Joins(a, b)
    ensures Clear(closing, w, a + b)
  {
    GuardedAppend(a, b);
    hide Is, Proper, Guarded, Joins;
  }

  lemma ClearWords(closing: bool, w: string, t: string)
    requires NoAngle(t)
    ensures Clear(closing, w, [Words(t)])
  {
    FoldMaps();
    WordsWritten(t);
    WordsLack(FoldChar, closing, w, t);
  }

  lemma ClearTag(closing: bool, w: string, p: Piece)
    requires Proper(p) && !p.Words? && !Is(FoldChar, closing, w, p)
    ensures Clear(closing, w, [p])
  {
    OnePiece(p);
    hide Is, Proper, Guarded;
  }

  lemma {:induction false} ArgsClear(args: seq<Arg>)
    requires PlainArgs(args)
    ensures Clear(true, "longcat_tool_call", ArgPieces(args))
    ensures args != [] ==> ArgPieces(args) != [] && ArgPieces(args)[0] == Opening("longcat_arg_key")
  {
    if args != [] {
      var w, key, value := "longcat_tool_call", "longcat_arg_key", "longcat_arg_value";
      var a, rest := args[0], ArgPieces(args[1..]);
      assert PlainArg(a);
      ArgsClear(args[1..]);
      ArgTagsClear();
      ClearWords(true, w, a.key);
      ClearWords(true, w, a.gap);
      ClearWords(true, w, a.value);
      ClearWords(true, w, a.tail);
      var p7 := [Words(a.tail)] + rest;
      var p6 := [Closing(value)] + p7;
      var p5 := [Words(a.value)] + p6;
      var p4 := [Opening(value)] + p5;
      var p3 := [Words(a.gap)] + p4;
      var p2 := [Closing(key)] + p3;
      var p1 := [Words(a.key)] + p2;
      assert ArgPieces(args) == [Opening(key)] + p1;
      assert args[1..] == [] ==> rest == [];
      hide ArgPieces, Clear, PlainArg, PlainArgs;
      ClearAppend(true, w, [Words(a.tail)], rest);
      ClearAppend(true, w, [Closing(value)], p7);
      ClearAppend(true, w, [Words(a.value)], p6);
      ClearAppend(true, w, [Opening(value)], p5);
      ClearAppend(true, w, [Words(a.gap)], p4);
      ClearAppend(true, w, [Closing(key)], p3);
      ClearAppend(true, w, [Words(a.key)], p2);
      ClearAppend(true, w, [Opening(key)], p1);
    }
  }

  lemma ArgTagsClear()
    ensures var w := "longcat_tool_call";
            && Clear(true, w, [Opening("longcat_arg_key")]) && Clear(true, w, [Closing("longcat_arg_key")])
            && Clear(true, w, [Opening("longcat_arg_value")]) && Clear(true, w, [Closing("longcat_arg_value")])
  {
    var w, key, value := "longcat_tool_call", "longcat_arg_key", "longcat_arg_value";
    assert IsName(key) && IsName(value);
    assert |key| != |w|;
    assert FoldChar(value[8]) == 'a' && w[8] == 't';
    assert !Same(FoldChar, key, w) && !Same(FoldChar, value, w);
    hide Same, IsName;
    ClearTag(true, w, Opening(key));
    ClearTag(true, w, Closing(key));
    ClearTag(true, w, Opening(value));
    ClearTag(true, w, Closing(value));
  }

  lemma BlockClear(b: Block)
    requires NoAngle(b.head) && PlainArgs(b.args)
    ensures Clear(true, "longcat_tool_call", BlockPieces(b))
  {
    ArgsClear(b.args);
    ClearWords(true, "longcat_tool_call", b.head);
    assert b.args == [] ==> ArgPieces(b.args) == [];
    hide ArgPieces, Clear;
    ClearAppend(true, "longcat_tool_call", [Words(b.head)], ArgPieces(b.args));
  }

  // ---------- What each pass finds and what it passes over ----------

  function NameOf(stage: nat): string {
    if stage == 1 then "longcat_tool_call" else "tool_calls"
  }

  function OpenOf(stage: nat): string {
    TagOf(false, NameOf(stage))
  }

  function CloseOf(stage: nat): string {
    TagOf(true, NameOf(stage))
  }

  lemma NamesAreNames(stage: nat)
    ensures IsName(NameOf(stage)) && OpenOf(stage) != "" && CloseOf(stage) != ""
  {
  }

  lemma StageTagFound(stage: nat, closing: bool, rest: string)
    ensures var tag := TagOf(closing, NameOf(stage)); Find(tag, tag + rest) == 0 && TagNext(tag + rest)
    ensures forall k :: 0 <= k < |OpenOf(stage)| ==> LowerChar(OpenOf(stage)[k]) == OpenOf(stage)[k]
  {
    var tag := TagOf(closing, NameOf(stage));
    assert forall k :: 0 <= k < |tag| ==> FoldChar(tag[k]) == tag[k];
    assert Starts(tag, tag + rest);
  }

  /** A later item holds nothing that an earlier pass looks for. */
  lemma ItemClear(stage: nat, item: Item)
    requires 1 <= stage < Stage(item) && PlainItem(item)
    ensures var ps := ItemPieces(item);
            Clear(false, NameOf(stage), ps) && ps != [] && !ps[0].Words? && !ps[|ps| - 1].Words?
  {
    if item.Single? {
      WithinFacts(item.attrs, item.tail);
      hide Within;
      ClearTag(false, NameOf(stage), ItemPieces(item)[0]);
    } else {
      BoxFacts(BoxOf(item));
      ContainerClear();
      var inner := BoxPieces(BoxOf(item));
      assert ItemPieces(item) == [Opening("tool_calls")] + (inner + [Closing("tool_calls")]);
      assert Clear(false, "longcat_tool_call", inner);
      hide Clear, BoxPieces, Quiet, ItemPieces;
      ClearAppend(false, "longcat_tool_call", inner, [Closing("tool_calls")]);
      ClearAppend(false, "longcat_tool_call", [Opening("tool_calls")], inner + [Closing("tool_calls")]);
    }
  }

  lemma ContainerClear()
    ensures Clear(false, "longcat_tool_call", [Opening("tool_calls")]) && Clear(false, "longcat_tool_call", [Closing("tool_calls")])
  {
    assert IsName("tool_calls") && |"tool_calls"| != |"longcat_tool_call"|;
    assert !Same(FoldChar, "tool_calls", "longcat_tool_call");
    hide Same, IsName;
    ClearTag(false, "longcat_tool_call", Opening("tool_calls"));
    ClearTag(false, "longcat_tool_call", Closing("tool_calls"));
  }

  lemma InsideClear(item: Item)
    requires Stage(item) < 3 && PlainItem(item)
    ensures Clear(true, NameOf(Stage(item)), Inside(item))
  {
    if item.Longcat? {
      BlockClear(item.block);
    } else {
      BoxFacts(BoxOf(item));
    }
    hide BlockPieces, BoxPieces;
  }

  lemma {:induction false} LeadShift(stage: nat, x: string, y: string, items: seq<Then>)
    ensures Written(Doc(stage, x + y, items)) == x + Written(Doc(stage, y, items))
    decreases items
  {
    hide ItemPieces, Written, Stage;
    if items == [] {
      WordsWritten(x + y);
      WordsWritten(y);
    } else if Stage(items[0].item) < stage {
      assert x + y + items[0].text == x + (y + items[0].text);
      LeadShift(stage, x, y + items[0].text, items[1..]);
    } else {
      var rest := ItemPieces(items[0].item) + Doc(stage, items[0].text, items[1..]);
      WrittenCons(Words(x + y), rest);
      WrittenCons(Words(y), rest);
    }
  }

  lemma ItemWritten(item: Item, lead: string, after: seq<Piece>)
    requires !item.Single?
    ensures Written([Words(lead)] + (ItemPieces(item) + after))
            == lead + OpenTag(TagName(item)) + (Written(Inside(item)) + CloseTag(TagName(item)) + Written(after))
  {
    var name, inner := TagName(item), Inside(item);
    var open, close := [Opening(name)], [Closing(name)];
    assert ItemPieces(item) == open + (inner + close);
    hide ItemPieces, Inside, Written, TagName, OpenTag, CloseTag;
    assert (open + (inner + close)) + after == open + (inner + (close + after));
    Around(lead, name, inner, after);
  }

  lemma DocAt(stage: nat, lead: string, items: seq<Then>)
    requires items != []
    ensures Doc(stage, lead, items)
            == if Stage(items[0].item) < stage then Doc(stage, lead + items[0].text, items[1..])
               else [Words(lead)] + (ItemPieces(items[0].item) + Doc(stage, items[0].text, items[1..]))
  {
    hide ItemPieces, Stage;
  }

  lemma TailPlain(lead: string, items: seq<Then>)
    requires PlainItems(lead, items) && items != []
    ensures PlainItem(items[0].item) && NoAngle(lead)
    ensures PlainItems(items[0].text, items[1..]) && PlainItems(lead + items[0].text, items[1..])
  {
    hide PlainItem;
    assert NoAngle(items[0].text);
  }

  /** What comes before the next tag to be found. */
  ghost predicate Passed(stage: nat, before: seq<Piece>) {
    Clear(false, NameOf(stage), before) && (before != [] ==> !before[|before| - 1].Words?)
  }

  lemma PassWords(stage: nat, before: seq<Piece>, lead: string)
    requires Passed(stage, before) && NoAngle(lead)
    ensures Clear(false, NameOf(stage), before + [Words(lead)]) && Written(before + [Words(lead)]) == Written(before) + lead
  {
    ClearWords(false, NameOf(stage), lead);
    WordsWritten(lead);
    WrittenAppend(before, [Words(lead)]);
    hide Clear, Written;
    ClearAppend(false, NameOf(stage), before, [Words(lead)]);
  }

  lemma PassItem(stage: nat, before: seq<Piece>, lead: string, item: Item)
    requires Passed(stage, before) && NoAngle(lead) && 1 <= stage < Stage(item) && PlainItem(item)
    ensures Passed(stage, before + [Words(lead)] + ItemPieces(item))
    ensures Written(before + [Words(lead)] + ItemPieces(item)) == Written(before) + lead + Written(ItemPieces(item))
  {
    PassWords(stage, before, lead);
    ItemClear(stage, item);
    WrittenAppend(before + [Words(lead)], ItemPieces(item));
    hide Clear, Written, ItemPieces;
    ClearAppend(false, NameOf(stage), before + [Words(lead)], ItemPieces(item));
  }

  /** The end of the text: nothing more is found. */
  lemma NothingLeft(stage: nat, before: seq<Piece>, lead: string)
    requires Passed(stage, before) && NoAngle(lead)
    ensures var s := Written(before) + lead; Outside(OpenOf(stage), CloseOf(stage), s) == s && Bodies(OpenOf(stage), CloseOf(stage), s) == []
  {
    var ps, s := before + [Words(lead)], Written(before) + lead;
    PassWords(stage, before, lead);
    NamesAreNames(stage);
    FindPast(false, NameOf(stage), ps, "");
    assert s + "" == s;
    assert Find(OpenOf(stage), "") == 0;
    hide Written, Find, NameOf;
  }

  /** The next item is found where it begins, and ends where it ends. */
  lemma ItemFound(stage: nat, before: seq<Piece>, lead: string, item: Item, rest: string)
    requires Passed(stage, before) && NoAngle(lead) && stage == Stage(item) < 3 && PlainItem(item)
    ensures var open, close, inner, a := OpenOf(stage), CloseOf(stage), Written(Inside(item)), Written(before) + lead;
            var s := a + open + (inner + close + rest);
            && Bodies(open, close, s) == [inner] + Bodies(open, close, rest)
            && Outside(open, close, s) == a + Outside(open, close, rest)
  {
    var open, close, inner, a := OpenOf(stage), CloseOf(stage), Written(Inside(item)), Written(before) + lead;
    hide Bodies, Outside, Find, Written, Inside, TagOf, NameOf, PlainItem;
    PassWords(stage, before, lead);
    NamesAreNames(stage);
    StageTagFound(stage, false, inner + close + rest);
    StageTagFound(stage, true, rest);
    FindPast(false, NameOf(stage), before + [Words(lead)], open + (inner + close + rest));
    InsideClear(item);
    FindPast(true, NameOf(stage), Inside(item), close + rest);
    BoxFound(open, close, a, inner, rest);
  }

  /** Pass `stage` takes out exactly its items, and the text closes up around them. */
  lemma {:induction false} StageRead(stage: nat, before: seq<Piece>, lead: string, items: seq<Then>)
    requires 1 <= stage <= 2 && Passed(stage, before) && PlainItems(lead, items)
    ensures var s := Written(before) + Written(Doc(stage, lead, items));
            && Outside(OpenOf(stage), CloseOf(stage), s) == Written(before) + Written(Doc(stage + 1, lead, items))
            && Bodies(OpenOf(stage), CloseOf(stage), s) == BodiesOf(stage, items)
    decreases items
  {
    NamesAreNames(stage);
    hide Outside, Bodies, Written, OpenOf, CloseOf, NameOf, Passed, ItemPieces, Inside, PlainItem, NoAngle;
    if items == [] {
      WordsWritten(lead);
      NothingLeft(stage, before, lead);
    } else {
      var item, text, rest := items[0].item, items[0].text, items[1..];
      TailPlain(lead, items);
      DocAt(stage, lead, items);
      DocAt(stage + 1, lead, items);
      BodiesAt(stage, items);
      hide Doc, BodiesOf, PlainItems;
      if Stage(item) < stage {
        StageRead(stage, before, lead + text, rest);
      } else if Stage(item) == stage {
        PassedNothing(stage);
        StageRead(stage, [], text, rest);
        StageTakes(stage, before, lead, items);
      } else {
        PassItem(stage, before, lead, item);
        StageRead(stage, before + [Words(lead)] + ItemPieces(item), text, rest);
        KeptWritten(before, lead, item, Doc(stage, text, rest));
        KeptWritten(before, lead, item, Doc(stage + 1, text, rest));
      }
    }
  }

  lemma PassedNothing(stage: nat)
    ensures Passed(stage, []) && Written([]) == ""
    ensures forall t: string :: "" + t == t
  {
  }

  lemma KeptWritten(before: seq<Piece>, lead: string, item: Item, after: seq<Piece>)
    ensures Written(before) + Written([Words(lead)] + (ItemPieces(item) + after))
            == Written(before + [Words(lead)] + ItemPieces(item)) + Written(after)
  {
    hide Written, ItemPieces;
    WrittenAppend(before + [Words(lead)], ItemPieces(item));
    WrittenAppend(before, [Words(lead)]);
    WrittenAppend([Words(lead)], ItemPieces(item) + after);
    WrittenAppend(ItemPieces(item), after);
    var a, b, c, d := Written(before), Written([Words(lead)]), Written(ItemPieces(item)), Written(after);
    assert a + (b + (c + d)) == (a + b + c) + d;
  }

  lemma {:induction false} StageTakes(stage: nat, before: seq<Piece>, lead: string, items: seq<Then>)
    requires items != [] && Passed(stage, before) && NoAngle(lead) && PlainItem(items[0].item) && stage == Stage(items[0].item) < 3
    requires var text, rest := items[0].text, items[1..];
             && Outside(OpenOf(stage), CloseOf(stage), Written(Doc(stage, text, rest))) == Written(Doc(stage + 1, text, rest))
             && Bodies(OpenOf(stage), CloseOf(stage), Written(Doc(stage, text, rest))) == BodiesOf(stage, rest)
    ensures var s := Written(before) + Written(Doc(stage, lead, items));
            && Outside(OpenOf(stage), CloseOf(stage), s) == Written(before) + Written(Doc(stage + 1, lead, items))
            && Bodies(OpenOf(stage), CloseOf(stage), s) == BodiesOf(stage, items)
  {
    NamesAreNames(stage);
    var item, text, rest := items[0].item, items[0].text, items[1..];
    var after := Doc(stage, text, rest);
    NameOfItem(item);
    hide Outside, Bodies, Written, OpenOf, CloseOf, NameOf, Passed, ItemPieces, Inside, PlainItem, NoAngle, TagName, OpenTag, CloseTag;
    DocAt(stage, lead, items);
    DocAt(stage + 1, lead, items);
    BodiesAt(stage, items);
    hide Doc, BodiesOf;
    ItemWritten(item, lead, after);
    ItemFound(stage, before, lead, item, Written(after));
    LeadShift(stage + 1, lead, text, rest);
    Regrouping(Written(before), lead, OpenOf(stage), Written(Inside(item)) + CloseOf(stage) + Written(after));
    Regrouping(Written(before), lead, Written(Doc(stage + 1, text, rest)), "");
  }

  lemma Regrouping(a: string, b: string, c: string, d: string)
    ensures a + (b + c + d) == (a + b) + c + d && a + (b + c) == (a + b) + c
  {
  }

  lemma NameOfItem(item: Item)
    requires Stage(item) < 3
    ensures OpenTag(TagName(item)) == OpenOf(Stage(item)) && CloseTag(TagName(item)) == CloseOf(Stage(item))
  {
  }

  lemma BodiesAt(stage: nat, items: seq<Then>)
    requires items != []
    ensures BodiesOf(stage, items)
            == if Stage(items[0].item) == stage then [Written(Inside(items[0].item))] + BodiesOf(stage, items[1..])
               else BodiesOf(stage, items[1..])
  {
    hide Written, Inside;
    assert [] + BodiesOf(stage, items[1..]) == BodiesOf(stage, items[1..]);
  }

  // ---------- The calls of the first two passes ----------

  lemma {:induction false} LongcatCallsRead(loads: Loads, lead: string, items: seq<Then>)
    requires PlainItems(lead, items)
    ensures LongcatCalls(loads, BodiesOf(1, items)) == LongcatCallsOf(loads, items)
    decreases items
  {
    if items != [] {
      var item := items[0].item;
      TailPlain(lead, items);
      BodiesAt(1, items);
      LongcatCallsRead(loads, items[0].text, items[1..]);
      if item.Longcat? {
        BlockWritten(item.block);
        BlockReadBack(loads, item.block);
        MoreCalls(loads, Written(BlockPieces(item.block)), BodiesOf(1, items[1..]));
      } else {
        assert [] + LongcatCallsOf(loads, items[1..]) == LongcatCallsOf(loads, items[1..]);
      }
      hide LongcatCall, CallOf, Written, BlockPieces;
    }
  }

  lemma {:induction false} ContainerCallsRead(loads: Loads, lead: string, items: seq<Then>)
    requires PlainItems(lead, items)
    ensures ContainerCalls(loads, BodiesOf(2, items)) == ContainerCallsOf(loads, items)
    decreases items
  {
    if items != [] {
      var item := items[0].item;
      TailPlain(lead, items);
      BodiesAt(2, items);
      ContainerCallsRead(loads, items[0].text, items[1..]);
      if item.Container? {
        BoxRead(loads, BoxOf(item));
        MoreBoxes(loads, Written(BoxPieces(BoxOf(item))), BodiesOf(2, items[1..]));
      } else {
        assert [] + ContainerCallsOf(loads, items[1..]) == ContainerCallsOf(loads, items[1..]);
      }
      hide TagCalls, Tags, ToolCallsOf, Written, BoxPieces;
    }
  }

  // ---------- When a pass has something to do ----------

  predicate Has(stage: nat, items: seq<Then>) {
    exists i :: 0 <= i < |items| && Stage(items[i].item) == stage
  }

  lemma {:induction false} SuffixInLower(tag: string, a: string, b: string)
    requires InLower(tag, b)
    ensures InLower(tag, a + b)
  {
    if a == "" {
      assert a + b == b;
    } else {
      assert (a + b)[1..] == a[1..] + b;
      SuffixInLower(tag, a[1..], b);
    }
  }

  lemma {:induction false} StageVisible(stage: nat, lead: string, items: seq<Then>)
    requires 1 <= stage <= 2 && Has(stage, items)
    ensures InLower(OpenOf(stage), Written(Doc(stage, lead, items)))
    decreases items
  {
    var item, text, rest := items[0].item, items[0].text, items[1..];
    DocAt(stage, lead, items);
    HasRest(stage, items);
    hide InLower, Written, OpenOf, Doc, ItemPieces, Has;
    if Stage(item) == stage {
      FirstVisible(lead, item, Doc(stage, text, rest));
    } else if Stage(item) < stage {
      StageVisible(stage, lead + text, rest);
    } else {
      StageVisible(stage, text, rest);
      LaterVisible(OpenOf(stage), [Words(lead)], ItemPieces(item), Doc(stage, text, rest));
    }
  }

  lemma {:induction false} FirstVisible(lead: string, item: Item, after: seq<Piece>)
    requires 1 <= Stage(item) <= 2
    ensures InLower(OpenOf(Stage(item)), Written([Words(lead)] + (ItemPieces(item) + after)))
  {
    var stage := Stage(item);
    StageTagFound(stage, false, "");
    NamesAreNames(stage);
    NameOfItem(item);
    hide InLower, Written, OpenOf, CloseOf, Inside, ItemPieces, TagName, OpenTag, CloseTag;
    ItemWritten(item, lead, after);
    var tail := Written(Inside(item)) + CloseOf(stage) + Written(after);
    InLowerAt(lead, OpenOf(stage), tail);
    assert lead + OpenOf(stage) + tail == Written([Words(lead)] + (ItemPieces(item) + after));
  }

  lemma {:induction false} LaterVisible(tag: string, a: seq<Piece>, b: seq<Piece>, c: seq<Piece>)
    requires InLower(tag, Written(c))
    ensures InLower(tag, Written(a + (b + c)))
  {
    hide InLower, Written;
    WrittenAppend(a, b + c);
    WrittenAppend(b, c);
    SuffixInLower(tag, Written(a) + Written(b), Written(c));
    assert Written(a) + (Written(b) + Written(c)) == Written(a) + Written(b) + Written(c);
  }

  lemma HasRest(stage: nat, items: seq<Then>)
    requires items != []
    ensures Has(stage, items) <==> Stage(items[0].item) == stage || Has(stage, items[1..])
  {
    hide Stage;
    if i :| 0 <= i < |items| && Stage(items[i].item) == stage && i > 0 {
      assert items[1..][i - 1] == items[i];
    }
    if i :| 0 <= i < |items[1..]| && Stage(items[1..][i].item) == stage {
      assert items[i + 1] == items[1..][i];
    }
  }

  /** Without items of its kind the pass finds nothing, and the text for the next pass is the same. */
  lemma {:induction false} StageIdle(stage: nat, lead: string, items: seq<Then>)
    requires 1 <= stage <= 2 && PlainItems(lead, items) && !Has(stage, items)
    ensures var ps := Doc(stage, lead, items);
            && Clear(false, NameOf(stage), ps) && ps == Doc(stage + 1, lead, items) && BodiesOf(stage, items) == []
    decreases items
  {
    hide Clear, ItemPieces, NameOf, Inside, Written;
    if items == [] {
      ClearWords(false, NameOf(stage), lead);
    } else {
      var item, text, rest := items[0].item, items[0].text, items[1..];
      TailPlain(lead, items);
      DocAt(stage, lead, items);
      DocAt(stage + 1, lead, items);
      BodiesAt(stage, items);
      HasRest(stage, items);
      hide Doc, BodiesOf, Has, PlainItems;
      if Stage(item) < stage {
        StageIdle(stage, lead + text, rest);
      } else {
        StageIdle(stage, text, rest);
        ItemClear(stage, item);
        ClearWords(false, NameOf(stage), lead);
        ClearAppend(false, NameOf(stage), ItemPieces(item), Doc(stage, text, rest));
        ClearAppend(false, NameOf(stage), [Words(lead)], ItemPieces(item) + Doc(stage, text, rest));
      }
    }
  }

  // ---------- The three passes ----------

  /** The text that pass `stage` finds. */
  function TextAt(stage: nat, lead: string, items: seq<Then>): string {
    Written(Doc(stage, lead, items))
  }

  lemma {:induction false} StageResult(stage: nat, lead: string, items: seq<Then>)
    requires 1 <= stage <= 2 && PlainItems(lead, items)
    ensures var s := TextAt(stage, lead, items);
            if Has(stage, items) then
              InLower(OpenOf(stage), s) && Outside(OpenOf(stage), CloseOf(stage), s) == TextAt(stage + 1, lead, items)
              && Bodies(OpenOf(stage), CloseOf(stage), s) == BodiesOf(stage, items)
            else !InLower(OpenOf(stage), s) && s == TextAt(stage + 1, lead, items) && BodiesOf(stage, items) == []
  {
    NamesAreNames(stage);
    if Has(stage, items) {
      StageVisible(stage, lead, items);
      PassedNothing(stage);
      hide InLower, Written, OpenOf, CloseOf, Doc, Outside, Bodies, BodiesOf;
      StageRead(stage, [], lead, items);
    } else {
      StageIdle(stage, lead, items);
      LacksLower(false, NameOf(stage), Doc(stage, lead, items));
      NotInLower(false, NameOf(stage), Doc(stage, lead, items));
      hide InLower, Written, Doc;
    }
  }

  lemma StagesAreTags()
    ensures OpenOf(1) == OPEN && CloseOf(1) == CLOSE && OpenOf(2) == CONTAINER_OPEN && CloseOf(2) == CONTAINER_CLOSE
  {
    LongcatTags();
    ContainerTags();
  }

  /** The text a pass leaves: tidied only when the pass had items to take out. */
  function Left(stage: nat, lead: string, items: seq<Then>): string {
    if Has(stage, items) then Tidy(TextAt(stage + 1, lead, items)) else TextAt(stage + 1, lead, items)
  }

  lemma {:induction false} FirstStage(loads: Loads, lead: string, items: seq<Then>)
    requires PlainItems(lead, items)
    ensures LongcatPass(loads, TextAt(1, lead, items)) == (Left(1, lead, items), LongcatCallsOf(loads, items))
  {
    StagesAreTags();
    StageResult(1, lead, items);
    LongcatCallsRead(loads, lead, items);
    hide InLower, TextAt, Outside, Bodies, Tidy, BodiesOf, LongcatCall, LongcatCallsOf, OPEN, CLOSE, OpenOf, CloseOf, Has, PlainItems;
    assert LongcatCalls(loads, []) == [];
  }

  lemma {:induction false} SecondStage(loads: Loads, lead: string, items: seq<Then>)
    requires PlainItems(lead, items)
    ensures BlockPass(loads, TextAt(2, lead, items)) == (Left(2, lead, items), ContainerCallsOf(loads, items))
  {
    StagesAreTags();
    StageResult(2, lead, items);
    ContainerCallsRead(loads, lead, items);
    hide InLower, TextAt, Outside, Bodies, Tidy, BodiesOf, TagCalls, ContainerCallsOf, CONTAINER_OPEN, CONTAINER_CLOSE, OpenOf, CloseOf, Has, PlainItems;
    assert ContainerCalls(loads, []) == [];
  }

  lemma {:induction false} LastDoc(lead: string, items: seq<Then>)
    requires PlainItems(lead, items)
    ensures Doc(3, lead, items) == SelfDoc(lead + LeadOf(items), SinglesOf(items))
    ensures PlainSelves(lead + LeadOf(items), SinglesOf(items))
    decreases items
  {
    if items == [] {
      assert lead + "" == lead;
    } else {
      var item, text, rest := items[0].item, items[0].text, items[1..];
      TailPlain(lead, items);
      DocAt(3, lead, items);
      if item.Single? {
        LastDoc(text, rest);
        LastSingle(lead, items);
      } else {
        LastDoc(lead + text, rest);
        assert lead + text + LeadOf(rest) == lead + (text + LeadOf(rest));
        hide Doc, SelfDoc, PlainSelves;
      }
    }
  }

  lemma {:induction false} LastSingle(lead: string, items: seq<Then>)
    requires items != [] && items[0].item.Single? && NoAngle(lead) && PlainItem(items[0].item)
    requires var text, rest := items[0].text, items[1..];
             Doc(3, text, rest) == SelfDoc(text + LeadOf(rest), SinglesOf(rest)) && PlainSelves(text + LeadOf(rest), SinglesOf(rest))
    ensures Doc(3, lead, items) == SelfDoc(lead + LeadOf(items), SinglesOf(items))
    ensures PlainSelves(lead + LeadOf(items), SinglesOf(items))
  {
    var item, text, rest := items[0].item, items[0].text, items[1..];
    var t, more := SelfOf(item, text + LeadOf(rest)), SinglesOf(rest);
    DocAt(3, lead, items);
    assert lead + "" == lead;
    SelvesCons(lead, t, more);
  }

  lemma {:induction false} SelvesCons(lead: string, t: Self, more: seq<Self>)
    ensures SelfDoc(lead, [t] + more) == [Words(lead)] + ([Empty(t.name, Within(t))] + SelfDoc(t.text, more))
    ensures NoAngle(lead) && PlainSelf(t) && PlainSelves(t.text, more) ==> PlainSelves(lead, [t] + more)
  {
    assert ([t] + more)[1..] == more;
    hide Within, PlainSelf;
  }
}
