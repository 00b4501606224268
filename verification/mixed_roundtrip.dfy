/**
 All three passes over one text: between two passes the text is tidied, which leaves the
 items alone as long as they hold no run of newlines.
 */
module MixedRoundTrip {
  import opened Text
  import opened Payloads
  import opened EmbeddedCalls
  import opened EmbeddedRoundTrip
  import opened TagRoundTrip
  import opened Tidying
  import opened MixedPasses

  // ---------- Tidying between the passes ----------

  /** Tidying leaves the item as it is written. */
  ghost predicate Steady(item: Item) {
    NoThreeNewlines(Written(ItemPieces(item)))
  }

  /** The items that pass `stage` leaves have no runs of newlines in them. */
  ghost predicate SteadyAfter(stage: nat, items: seq<Then>) {
    forall i :: 0 <= i < |items| && Stage(items[i].item) > stage ==> Steady(items[i].item)
  }

  ghost predicate AllFrom(stage: nat, items: seq<Then>) {
    forall i :: 0 <= i < |items| ==> Stage(items[i].item) >= stage
  }

  datatype Mixed = Mixed(lead: string, items: seq<Then>)

  /** The items that pass `stage` finds, with the text between them. */
  function Kept(stage: nat, lead: string, items: seq<Then>): Mixed
    decreases items
  {
    if items == [] then Mixed(lead, [])
    else if Stage(items[0].item) < stage then Kept(stage, lead + items[0].text, items[1..])
    else
      var rest := Kept(stage, items[0].text, items[1..]);
      Mixed(lead, [Then(items[0].item, rest.lead)] + rest.items)
  }

  function Collapsed(items: seq<Then>): seq<Then> {
    if items == [] then [] else [Then(items[0].item, Collapse(items[0].text, 0))] + Collapsed(items[1..])
  }

  function LastStripped(items: seq<Then>): seq<Then> {
    if items == [] then []
    else if |items| == 1 then [Then(items[0].item, RStrip(items[0].text))]
    else [items[0]] + LastStripped(items[1..])
  }

  /** The texts between the items once the whole is tidied. */
  function Tidied(m: Mixed): Mixed {
    if m.items == [] then Mixed(Tidy(m.lead), [])
    else Mixed(LStrip(Collapse(m.lead, 0)), LastStripped(Collapsed(m.items)))
  }

  /** What pass `stage` leaves. */
  function After(stage: nat, m: Mixed): Mixed {
    var kept := Kept(stage + 1, m.lead, m.items);
    if Has(stage, m.items) then Tidied(kept) else kept
  }

  lemma {:induction false} KeptFacts(stage: nat, lead: string, items: seq<Then>)
    requires PlainItems(lead, items)
    ensures var m := Kept(stage, lead, items);
            && Doc(stage, lead, items) == Doc(stage, m.lead, m.items) && PlainItems(m.lead, m.items) && AllFrom(stage, m.items)
    decreases items
  {
    if items != [] {
      var item, text, rest := items[0].item, items[0].text, items[1..];
      TailPlain(lead, items);
      DocAt(stage, lead, items);
      KeptFacts(stage, text, rest);
      KeptFacts(stage, lead + text, rest);
      var m := Kept(stage, lead, items);
      if Stage(item) >= stage {
        assert m.items[1..] == Kept(stage, text, rest).items;
        DocAt(stage, m.lead, m.items);
      }
      hide Doc, PlainItem, Stage, ItemPieces;
    }
  }

  // ---------- What a pass keeps for the passes after it ----------

  /** Items `a` left for pass `stage` instead of `b` give it and the passes after it the same calls. */
  ghost predicate SameLater(stage: nat, loads: Loads, a: seq<Then>, b: seq<Then>) {
    && (stage == 2 ==> (Has(2, a) <==> Has(2, b)) && ContainerCallsOf(loads, a) == ContainerCallsOf(loads, b))
    && SelfCallsOf(loads, SinglesOf(a)) == SelfCallsOf(loads, SinglesOf(b))
    && (SteadyAfter(2, b) ==> SteadyAfter(2, a))
  }

  lemma SteadyRest(items: seq<Then>)
    requires items != []
    ensures SteadyAfter(2, items) <==> (Stage(items[0].item) > 2 ==> Steady(items[0].item)) && SteadyAfter(2, items[1..])
  {
    hide Stage, Steady;
    if SteadyAfter(2, items) {
      assert forall i :: 0 <= i < |items[1..]| ==> items[1..][i] == items[i + 1];
    }
    if (Stage(items[0].item) > 2 ==> Steady(items[0].item)) && SteadyAfter(2, items[1..]) {
      forall i | 0 <= i < |items| && Stage(items[i].item) > 2 ensures Steady(items[i].item) {
        if i > 0 {
          assert items[1..][i - 1] == items[i];
        }
      }
    }
  }

  lemma SelfCallsAt(loads: Loads, items: seq<Then>)
    requires items != []
    ensures SelfCallsOf(loads, SinglesOf(items))
            == (if items[0].item.Single? && '.' in items[0].item.name then
                  [Call(items[0].item.name, AttributeArguments(loads, [], AttrPairs(items[0].item.attrs)))] else [])
               + SelfCallsOf(loads, SinglesOf(items[1..]))
  {
    var rest := SinglesOf(items[1..]);
    if items[0].item.Single? {
      assert SinglesOf(items)[1..] == rest;
    }
    assert [] + SelfCallsOf(loads, rest) == SelfCallsOf(loads, rest);
    hide AttributeArguments;
  }

  /** One item more in front on both sides. */
  lemma SameLaterCons(stage: nat, loads: Loads, x: Then, y: Then, a: seq<Then>, b: seq<Then>)
    requires x.item == y.item && SameLater(stage, loads, a, b)
    ensures SameLater(stage, loads, [x] + a, [y] + b)
  {
    assert ([x] + a)[1..] == a && ([y] + b)[1..] == b;
    HasRest(2, [x] + a);
    HasRest(2, [y] + b);
    SteadyRest([x] + a);
    SteadyRest([y] + b);
    SelfCallsAt(loads, [x] + a);
    SelfCallsAt(loads, [y] + b);
    hide Has, SteadyAfter, SelfCallsOf, SinglesOf, Stage, Steady, ToolCallsOf;
  }

  lemma {:induction false} KeptSameLater(stage: nat, loads: Loads, lead: string, items: seq<Then>)
    requires 2 <= stage <= 3
    ensures SameLater(stage, loads, Kept(stage, lead, items).items, items)
    decreases items
  {
    if items != [] {
      var item, text, rest := items[0].item, items[0].text, items[1..];
      if Stage(item) < stage {
        KeptSameLater(stage, loads, lead + text, rest);
        EarlierGone(stage, loads, items);
        hide SameLater;
      } else {
        KeptSameLater(stage, loads, text, rest);
        var m := Kept(stage, text, rest);
        SameLaterCons(stage, loads, Then(item, m.lead), items[0], m.items, rest);
        assert [items[0]] + rest == items;
        hide SameLater;
      }
    }
  }

  lemma EarlierGone(stage: nat, loads: Loads, items: seq<Then>)
    requires 2 <= stage <= 3 && items != [] && Stage(items[0].item) < stage
    ensures forall a :: SameLater(stage, loads, a, items[1..]) ==> SameLater(stage, loads, a, items)
  {
    HasRest(2, items);
    SteadyRest(items);
    SelfCallsAt(loads, items);
    if stage == 2 {
      assert ContainerCallsOf(loads, items) == [] + ContainerCallsOf(loads, items[1..]) == ContainerCallsOf(loads, items[1..]);
    }
    hide Has, SteadyAfter, SelfCallsOf, SinglesOf, Steady, ToolCallsOf, ContainerCallsOf;
  }

  ghost predicate SameItems(a: seq<Then>, b: seq<Then>) {
    |a| == |b| && forall i :: 0 <= i < |a| ==> a[i].item == b[i].item
  }

  lemma {:induction false} SameItemsLater(stage: nat, loads: Loads, a: seq<Then>, b: seq<Then>)
    requires SameItems(a, b)
    ensures SameLater(stage, loads, a, b)
  {
    if a != [] {
      SameItemsLater(stage, loads, a[1..], b[1..]);
      SameLaterCons(stage, loads, a[0], b[0], a[1..], b[1..]);
      assert [a[0]] + a[1..] == a && [b[0]] + b[1..] == b;
      hide SameLater;
    }
  }

  // ---------- The tidied text is again such a text ----------

  lemma {:induction false} CollapsedFacts(items: seq<Then>)
    ensures SameItems(Collapsed(items), items)
    ensures forall i :: 0 <= i < |items| && NoAngle(items[i].text) ==> NoAngle(Collapsed(items)[i].text)
  {
    if items != [] {
      CollapsedFacts(items[1..]);
      hide Collapse;
      if NoAngle(items[0].text) {
        CollapseNoAngle(items[0].text, 0);
      }
    }
  }

  lemma {:induction false} LastStrippedFacts(items: seq<Then>)
    ensures SameItems(LastStripped(items), items)
    ensures forall i :: 0 <= i < |items| && NoAngle(items[i].text) ==> NoAngle(LastStripped(items)[i].text)
  {
    if items != [] {
      RStripMeaning(items[0].text);
      hide RStrip;
      LastStrippedFacts(items[1..]);
    }
  }

  lemma {:induction false} TidiedFacts(m: Mixed)
    requires PlainItems(m.lead, m.items)
    ensures SameItems(Tidied(m).items, m.items) && PlainItems(Tidied(m).lead, Tidied(m).items)
  {
    hide Tidy, Collapse, LStrip, LastStripped, Collapsed, PlainItem, NoAngle;
    TidyNoAngle(m.lead);
    LeadStays(m.lead);
    CollapsedFacts(m.items);
    LastStrippedFacts(Collapsed(m.items));
  }

  lemma LeadStays(lead: string)
    requires NoAngle(lead)
    ensures NoAngle(LStrip(Collapse(lead, 0)))
  {
    CollapseNoAngle(lead, 0);
    LStripMeaning(Collapse(lead, 0));
    hide Collapse, LStrip;
  }

  /** An item begins and ends with an angle bracket. */
  lemma ItemEnds(item: Item)
    ensures var s := Written(ItemPieces(item)); s != "" && s[0] == '<' && s[|s| - 1] == '>'
  {
    var ps := ItemPieces(item);
    if item.Single? {
      TagEnds(ps[0]);
    } else {
      var name, inner := TagName(item), Inside(item);
      var close := [Closing(name)];
      assert ps == [Opening(name)] + (inner + close);
      TagEnds(Opening(name));
      TagEnds(close[0]);
      hide Inside, TagName, Written, ItemPieces;
      WrittenAppend([Opening(name)], inner + close);
      WrittenAppend(inner, close);
      BetweenEnds(Written([Opening(name)]), Written(inner), Written(close));
    }
    hide Written, Within;
  }

  lemma TagEnds(p: Piece)
    requires !p.Words?
    ensures var s := Written([p]); s != "" && s[0] == '<' && s[|s| - 1] == '>'
  {
    assert Written([p]) == PieceText(p) + "" == PieceText(p);
  }

  lemma BetweenEnds(a: string, b: string, c: string)
    requires a != "" && c != ""
    ensures var s := a + (b + c); s != "" && s[0] == a[0] && s[|s| - 1] == c[|c| - 1]
  {
  }

  /** The text of a document that begins with an item. */
  lemma DocText(stage: nat, lead: string, items: seq<Then>)
    requires items != [] && Stage(items[0].item) >= stage
    ensures Written(Doc(stage, lead, items)) == lead + (Written(ItemPieces(items[0].item)) + Written(Doc(stage, items[0].text, items[1..])))
  {
    var pieces, rest := ItemPieces(items[0].item), Doc(stage, items[0].text, items[1..]);
    DocAt(stage, lead, items);
    WordsWritten(lead);
    WrittenAppend([Words(lead)], pieces + rest);
    WrittenAppend(pieces, rest);
    hide Doc, Written, ItemPieces, Stage;
  }

  lemma DocEnd(stage: nat, lead: string)
    ensures Written(Doc(stage, lead, [])) == lead
  {
    WordsWritten(lead);
  }

  lemma {:induction false} CollapseDoc(stage: nat, lead: string, items: seq<Then>)
    requires 1 <= stage && AllFrom(stage, items) && SteadyAfter(stage - 1, items)
    ensures Collapse(Written(Doc(stage, lead, items)), 0) == Written(Doc(stage, Collapse(lead, 0), Collapsed(items)))
    decreases items
  {
    if items == [] {
      DocEnd(stage, lead);
      DocEnd(stage, Collapse(lead, 0));
    } else {
      var item, text, rest := items[0].item, items[0].text, items[1..];
      assert Stage(item) >= stage && Steady(item);
      assert AllFrom(stage, rest) && SteadyAfter(stage - 1, rest);
      assert Collapsed(items)[1..] == Collapsed(rest);
      hide Doc, Written, ItemPieces, Stage, Collapse;
      CollapseDoc(stage, text, rest);
      DocText(stage, lead, items);
      DocText(stage, Collapse(lead, 0), Collapsed(items));
      ItemEnds(item);
      NothingToCollapse(Written(ItemPieces(item)), "");
      assert "" + Written(ItemPieces(item)) == Written(ItemPieces(item));
      CollapseAround(lead, Written(ItemPieces(item)), Written(Doc(stage, text, rest)), 0);
    }
  }

  lemma {:induction false} RStripDoc(stage: nat, before: string, lead: string, items: seq<Then>)
    requires items != [] && AllFrom(stage, items)
    ensures RStrip(before + Written(Doc(stage, lead, items))) == before + Written(Doc(stage, lead, LastStripped(items)))
    decreases items
  {
    var item, text, rest, last := items[0].item, items[0].text, items[1..], LastStripped(items);
    var front := Written(ItemPieces(item));
    assert Stage(item) >= stage && AllFrom(stage, rest) && last[0].item == item;
    assert last[1..] == LastStripped(rest) && last[0].text == if rest == [] then RStrip(text) else text;
    hide Doc, Written, ItemPieces, RStrip, Stage, LastStripped, AllFrom;
    DocText(stage, lead, items);
    DocText(stage, lead, last);
    ItemEnds(item);
    FourParts(before, lead, front, Written(Doc(stage, text, rest)));
    FourParts(before, lead, front, Written(Doc(stage, last[0].text, last[1..])));
    if rest == [] {
      DocEnd(stage, text);
      DocEnd(stage, RStrip(text));
      assert LastStripped(rest) == [] by { NoneStripped(); }
      EndsBehind(before, lead, front);
      RStripBehind(before + lead + front, text);
    } else {
      RStripDoc(stage, before + lead + front, text, rest);
    }
  }

  lemma NoneStripped()
    ensures LastStripped([]) == []
  {
  }

  lemma FourParts(a: string, b: string, c: string, d: string)
    ensures a + (b + (c + d)) == a + b + c + d
  {
  }

  lemma EndsBehind(a: string, b: string, c: string)
    requires c != ""
    ensures var s := a + b + c; s != "" && s[|s| - 1] == c[|c| - 1]
  {
  }

  lemma {:induction false} TidyDoc(stage: nat, m: Mixed)
    requires 1 <= stage && AllFrom(stage, m.items) && SteadyAfter(stage - 1, m.items)
    ensures Tidy(TextAt(stage, m.lead, m.items)) == TextAt(stage, Tidied(m).lead, Tidied(m).items)
  {
    if m.items == [] {
      DocEnd(stage, m.lead);
      DocEnd(stage, Tidy(m.lead));
    } else {
      var lead, items := Collapse(m.lead, 0), Collapsed(m.items);
      CollapseDoc(stage, m.lead, m.items);
      CollapsedFacts(m.items);
      assert AllFrom(stage, items);
      assert Stage(items[0].item) >= stage;
      hide Collapse, Collapsed, Doc, Written, ItemPieces, Stage, LStrip, RStrip, LastStripped;
      DocText(stage, lead, items);
      DocText(stage, LStrip(lead), items);
      ItemEnds(items[0].item);
      LStripBefore(lead, Written(ItemPieces(items[0].item)) + Written(Doc(stage, items[0].text, items[1..])));
      RStripDoc(stage, "", LStrip(lead), items);
      var t, u := Written(Doc(stage, LStrip(lead), items)), Written(Doc(stage, LStrip(lead), LastStripped(items)));
      assert "" + t == t && "" + u == u;
    }
  }

  // ---------- The text left at the end ----------

  /** What stays of an item: a self-closing tag without a dot in its name. */
  function TagLeft(item: Item): string {
    if item.Single? && '.' !in item.name then Written(ItemPieces(item)) else ""
  }

  /** What stays of the items, and the texts after them. */
  function TagsLeft(items: seq<Then>): string {
    if items == [] then "" else TagLeft(items[0].item) + (items[0].text + TagsLeft(items[1..]))
  }

  lemma TagsLeftCons(before: string, item: Item, text: string, rest: seq<Then>)
    ensures before + TagsLeft([Then(item, text)] + rest) == before + TagLeft(item) + text + TagsLeft(rest)
  {
    assert ([Then(item, text)] + rest)[1..] == rest;
    FourParts(before, TagLeft(item), text, TagsLeft(rest));
    hide TagLeft;
  }

  lemma {:induction false} TagsLeftIsSelfText(lead: string, items: seq<Then>)
    ensures SelfText(lead + LeadOf(items), SinglesOf(items)) == lead + TagsLeft(items)
    decreases items
  {
    if items != [] {
      var item, text, rest := items[0].item, items[0].text, items[1..];
      if item.Single? {
        TagsLeftIsSelfText(text, rest);
        SelfTextCons(lead, item, text + LeadOf(rest), SinglesOf(rest));
        assert lead + "" == lead;
      } else {
        TagsLeftIsSelfText(lead + text, rest);
        Regrouping(lead, text, LeadOf(rest), "");
        Regrouping(lead, text, TagsLeft(rest), "");
        assert "" + (text + TagsLeft(rest)) == text + TagsLeft(rest);
      }
      hide SelfText, SelfOf, Written, ItemPieces;
    }
  }

  lemma SelfTextCons(lead: string, item: Item, text: string, tags: seq<Self>)
    requires item.Single?
    ensures SelfText(lead, [SelfOf(item, text)] + tags) == lead + (TagLeft(item) + SelfText(text, tags))
  {
    assert ([SelfOf(item, text)] + tags)[1..] == tags;
    var p := ItemPieces(item)[0];
    assert Written([p]) == PieceText(p) + "" == PieceText(p);
    assert ItemPieces(item) == [p];
    hide Written, PieceText;
  }

  lemma {:induction false} KeptTagsLeft(stage: nat, lead: string, items: seq<Then>)
    requires stage <= 3
    ensures var m := Kept(stage, lead, items); m.lead + TagsLeft(m.items) == lead + TagsLeft(items)
    decreases items
  {
    if items != [] {
      var item, text, rest := items[0].item, items[0].text, items[1..];
      hide TagsLeft;
      TagsLeftCons(lead, item, text, rest);
      assert [Then(item, text)] + rest == items;
      if Stage(item) < stage {
        KeptTagsLeft(stage, lead + text, rest);
        assert lead + TagLeft(item) == lead + "" == lead;
      } else {
        KeptTagsLeft(stage, text, rest);
        var m := Kept(stage, text, rest);
        TagsLeftCons(lead, item, m.lead, m.items);
        Regrouping(lead + TagLeft(item), m.lead, TagsLeft(m.items), "");
        Regrouping(lead + TagLeft(item), text, TagsLeft(rest), "");
      }
    }
  }

  lemma {:induction false} CollapsedTagsLeft(before: string, items: seq<Then>)
    ensures Collapse(before + TagsLeft(Collapsed(items)), 0) == Collapse(before + TagsLeft(items), 0)
    decreases items
  {
    if items != [] {
      var item, text, rest := items[0].item, items[0].text, items[1..];
      var start := before + TagLeft(item);
      hide TagsLeft, TagLeft, Collapse;
      CollapsedTagsLeft(start + Collapse(text, 0), rest);
      CollapsePart(start, text, TagsLeft(rest));
      TagsLeftCons(before, item, text, rest);
      TagsLeftCons(before, item, Collapse(text, 0), Collapsed(rest));
      assert [Then(item, text)] + rest == items;
    }
  }

  lemma {:induction false} StrippedTagsLeft(before: string, items: seq<Then>)
    ensures Tidy(before + TagsLeft(LastStripped(items))) == Tidy(before + TagsLeft(items))
    decreases items
  {
    if items != [] {
      var item, text, rest := items[0].item, items[0].text, items[1..];
      var start, last := before + TagLeft(item), LastStripped(items);
      assert TagsLeft([]) == "";
      hide TagsLeft, TagLeft, Tidy, RStrip;
      assert [Then(item, text)] + rest == items;
      TagsLeftCons(before, item, text, rest);
      if rest == [] {
        assert last == [Then(item, RStrip(text))] + [];
        TagsLeftCons(before, item, RStrip(text), []);
        assert start + text + "" == start + text && start + RStrip(text) + "" == start + RStrip(text);
        TidyRight(start, text);
      } else {
        assert last == [Then(item, text)] + LastStripped(rest);
        TagsLeftCons(before, item, text, LastStripped(rest));
        StrippedTagsLeft(start + text, rest);
      }
    }
  }

  lemma PartFirst(lead: string, rest: string)
    ensures Collapse(Collapse(lead, 0) + rest, 0) == Collapse(lead + rest, 0)
  {
    CollapsePart("", lead, rest);
    assert "" + Collapse(lead, 0) == Collapse(lead, 0) && "" + lead == lead;
    hide Collapse;
  }

  lemma {:induction false} TidiedTagsLeft(m: Mixed)
    ensures Tidy(Tidied(m).lead + TagsLeft(Tidied(m).items)) == Tidy(m.lead + TagsLeft(m.items))
  {
    if m.items == [] {
      assert TagsLeft(m.items) == "" && TagsLeft(Tidied(m).items) == "";
      assert m.lead + "" == m.lead && Tidy(m.lead) + "" == Tidy(m.lead);
      TidyIdempotent(m.lead);
    } else {
      var lead, items := Collapse(m.lead, 0), Collapsed(m.items);
      hide Collapse, Collapsed, TagsLeft, LStrip, LastStripped, RStrip;
      StrippedTagsLeft(LStrip(lead), items);
      TidyLeft(lead, TagsLeft(items));
      CollapsedTagsLeft(lead, m.items);
      PartFirst(m.lead, TagsLeft(m.items));
    }
  }

  // ---------- One text with everything in it ----------

  function CallsByPass(loads: Loads, items: seq<Then>): seq<Call> {
    LongcatCallsOf(loads, items) + ContainerCallsOf(loads, items) + SelfCallsOf(loads, SinglesOf(items))
  }

  ghost predicate PlainMixed(m: Mixed) {
    PlainItems(m.lead, m.items)
  }

  /** What a pass leaves is a text of the items it passed over, which give the later passes the same calls and the same rest. */
  lemma {:induction false} AfterFacts(stage: nat, loads: Loads, m: Mixed)
    requires 1 <= stage <= 2 && PlainMixed(m) && AllFrom(stage, m.items)
    requires Has(stage, m.items) ==> SteadyAfter(stage, m.items)
    ensures var n := After(stage, m);
            && PlainMixed(n) && AllFrom(stage + 1, n.items) && SameLater(stage + 1, loads, n.items, m.items)
            && Left(stage, m.lead, m.items) == TextAt(stage + 1, n.lead, n.items)
            && Tidy(n.lead + TagsLeft(n.items)) == Tidy(m.lead + TagsLeft(m.items))
  {
    hide *;
    var kept := Kept(stage + 1, m.lead, m.items);
    AfterIs(stage, m);
    KeptLater(stage + 1, loads, m);
    if Has(stage, m.items) {
      KeptSteady(stage, m.lead, m.items);
      TidiedAfter(stage + 1, loads, kept);
      SameLaterTrans(stage + 1, loads, Tidied(kept).items, kept.items, m.items);
    }
  }

  lemma AfterIs(stage: nat, m: Mixed)
    ensures var kept := Kept(stage + 1, m.lead, m.items);
            if Has(stage, m.items) then After(stage, m) == Tidied(kept) && Left(stage, m.lead, m.items) == Tidy(TextAt(stage + 1, m.lead, m.items))
            else After(stage, m) == kept && Left(stage, m.lead, m.items) == TextAt(stage + 1, m.lead, m.items)
  {
    hide Has, Kept, Tidied, TextAt, Tidy;
  }

  lemma {:induction false} KeptLater(stage: nat, loads: Loads, m: Mixed)
    requires 2 <= stage <= 3 && PlainMixed(m)
    ensures var n := Kept(stage, m.lead, m.items);
            && PlainMixed(n) && AllFrom(stage, n.items) && SameLater(stage, loads, n.items, m.items)
            && TextAt(stage, m.lead, m.items) == TextAt(stage, n.lead, n.items) && n.lead + TagsLeft(n.items) == m.lead + TagsLeft(m.items)
  {
    hide Kept, Doc, Written, PlainItems, TagsLeft, SameLater, AllFrom;
    KeptFacts(stage, m.lead, m.items);
    KeptSameLater(stage, loads, m.lead, m.items);
    KeptTagsLeft(stage, m.lead, m.items);
  }

  lemma {:induction false} TidiedAfter(stage: nat, loads: Loads, m: Mixed)
    requires 1 <= stage && PlainMixed(m) && AllFrom(stage, m.items) && SteadyAfter(stage - 1, m.items)
    ensures var n := Tidied(m);
            && PlainMixed(n) && AllFrom(stage, n.items) && SameLater(stage, loads, n.items, m.items)
            && Tidy(TextAt(stage, m.lead, m.items)) == TextAt(stage, n.lead, n.items)
            && Tidy(n.lead + TagsLeft(n.items)) == Tidy(m.lead + TagsLeft(m.items))
  {
    var n := Tidied(m);
    TidiedFacts(m);
    assert AllFrom(stage, n.items);
    hide Tidied, Stage, SameItems, PlainItems, SameLater, SteadyAfter, TextAt, TagsLeft, Tidy, AllFrom;
    SameItemsLater(stage, loads, n.items, m.items);
    TidiedTagsLeft(m);
    TidyDoc(stage, m);
  }

  lemma SameLaterTrans(stage: nat, loads: Loads, a: seq<Then>, b: seq<Then>, c: seq<Then>)
    requires SameLater(stage, loads, a, b) && SameLater(stage, loads, b, c)
    ensures SameLater(stage, loads, a, c)
  {
    hide Has, SteadyAfter, SelfCallsOf, SinglesOf, ContainerCallsOf;
  }

  lemma {:induction false} KeptSteady(stage: nat, lead: string, items: seq<Then>)
    requires SteadyAfter(stage, items)
    ensures SteadyAfter(stage, Kept(stage + 1, lead, items).items)
    decreases items
  {
    if items != [] {
      hide Stage, Steady;
      assert forall i :: 0 <= i < |items[1..]| ==> items[1..][i] == items[i + 1];
      KeptSteady(stage, items[0].text, items[1..]);
      KeptSteady(stage, lead + items[0].text, items[1..]);
    }
  }

  /** What the last pass makes of the items left for it. */
  lemma {:induction false} ThirdStage(loads: Loads, m: Mixed)
    requires PlainMixed(m) && AllFrom(3, m.items)
    ensures InlinePass(loads, TextAt(3, m.lead, m.items))
            == (if m.items == [] then m.lead else Tidy(m.lead + TagsLeft(m.items)), SelfCallsOf(loads, SinglesOf(m.items)))
  {
    LastDoc(m.lead, m.items);
    InlinePassRoundTrip(loads, m.lead + LeadOf(m.items), SinglesOf(m.items));
    TagsLeftIsSelfText(m.lead, m.items);
    if m.items == [] {
      assert m.lead + "" == m.lead;
    } else {
      assert Stage(m.items[0].item) >= 3;
      assert SinglesOf(m.items) != [];
    }
    hide InlinePass, Written, Doc, SelfDoc, SelfText, Tidy, SelfCallsOf, PlainItems, TagsLeft;
  }

  /** A text that loses all its items to the passes is tidy. */
  lemma {:induction false} NothingAfter(stage: nat, m: Mixed)
    requires 1 <= stage && AllFrom(stage, m.items) && After(stage, m).items == []
    ensures var n := After(stage, m); Tidy(n.lead) == n.lead || (m.items == [] && n.lead == m.lead)
  {
    var kept := Kept(stage + 1, m.lead, m.items);
    if m.items != [] {
      assert Stage(m.items[0].item) >= stage;
      if Stage(m.items[0].item) == stage {
        assert Has(stage, m.items);
        TidyIdempotent(kept.lead);
      }
    }
    hide Tidy, Stage;
  }

  /**
   A text with longcat blocks, containers and self-closing tags in any order: the calls come out pass by pass, each pass's in
   the order of the text, and what stays is the text between the items with the undotted self-closing tags, tidied once. Tidying
   after a pass reaches into the items still to be read, so those must not hold three newlines in a row.
   */
  lemma {:induction false} MixedRoundTrip(loads: Loads, lead: string, items: seq<Then>)
    requires PlainItems(lead, items)
    requires Has(1, items) ==> SteadyAfter(1, items)
    requires Has(2, items) ==> SteadyAfter(2, items)
    ensures Extract(loads, TextAt(1, lead, items))
            == (if items == [] then lead else Tidy(lead + TagsLeft(items)),
                CallsByPass(loads, items))
  {
    var m := Mixed(lead, items);
    var n := After(1, m);
    AllItems(items);
    FirstStage(loads, lead, items);
    AfterFacts(1, loads, m);
    hide LongcatPass, BlockPass, InlinePass, TextAt, Tidy, LongcatCallsOf, ContainerCallsOf, SelfCallsOf, SinglesOf, TagsLeft, PlainItems,
         Has, SteadyAfter, After, Left, AllFrom;
    LastTwoStages(loads, n);
    if After(2, n).items == [] {
      AllGone(loads, m);
    }
    if items == [] {
      NoItemsStay(m);
    }
  }

  lemma NoItemsStay(m: Mixed)
    requires m.items == []
    ensures After(2, After(1, m)).items == []
  {
  }

  lemma {:induction false} LastTwoStages(loads: Loads, m: Mixed)
    requires PlainMixed(m) && AllFrom(2, m.items) && (Has(2, m.items) ==> SteadyAfter(2, m.items))
    ensures var n := After(2, m);
            && BlockPass(loads, TextAt(2, m.lead, m.items)) == (TextAt(3, n.lead, n.items), ContainerCallsOf(loads, m.items))
            && InlinePass(loads, TextAt(3, n.lead, n.items))
               == (if n.items == [] then n.lead else Tidy(m.lead + TagsLeft(m.items)), SelfCallsOf(loads, SinglesOf(m.items)))
            && Tidy(n.lead + TagsLeft(n.items)) == Tidy(m.lead + TagsLeft(m.items)) && AllFrom(3, n.items)
  {
    SecondStage(loads, m.lead, m.items);
    AfterFacts(2, loads, m);
    ThirdStage(loads, After(2, m));
    hide BlockPass, InlinePass, TextAt, Tidy, ContainerCallsOf, SelfCallsOf, SinglesOf, TagsLeft, PlainItems, Has, SteadyAfter, After, Left,
         AllFrom;
  }

  lemma AllItems(items: seq<Then>)
    ensures AllFrom(1, items)
  {
  }

  lemma {:induction false} AllGone(loads: Loads, m: Mixed)
    requires AllFrom(1, m.items) && AllFrom(2, After(1, m).items) && After(2, After(1, m)).items == []
    ensures var n := After(2, After(1, m)); if m.items == [] then n.lead == m.lead else n.lead == Tidy(n.lead + TagsLeft(n.items))
  {
    var m1 := After(1, m);
    var n := After(2, m1);
    NothingAfter(2, m1);
    if m1.items == [] {
      NothingAfter(1, m);
    }
    if m.items == [] {
      assert m1 == m && n == m;
    }
    assert n.lead + TagsLeft(n.items) == n.lead + "" == n.lead;
    hide Tidy, Stage;
  }

  // ---------- Where tidying reaches into an argument ----------

  /** A longcat block, and right after it a self-closing tag whose attribute holds the value. */
  function WithValue(value: string): seq<Then> {
    [Then(Longcat(Block("t", [])), "")] + [Then(Single("a.b", [Attr(" ", "c", value)], ""), "")]
  }

  function ValueTag(value: string): string {
    "<a.b c=\"" + (value + "\"/>")
  }

  lemma WithValuePlain(value: string)
    requires FreeOfAngles(value) && '"' !in value
    ensures PlainItems("", WithValue(value)) && PlainMixed(Mixed("", WithValue(value)[1..]))
    ensures Has(1, WithValue(value)) && !Has(2, WithValue(value)[1..]) && AllFrom(2, WithValue(value)[1..])
  {
    var items := WithValue(value);
    var block, tag := items[0].item, items[1].item;
    assert IsName("a.b") && IsName("c") && AllSpace(" ");
    assert PlainItem(block);
    assert PlainItem(tag) by { assert PlainAttr(tag.attrs[0]); }
    hide IsName, AllSpace, FreeOfAngles, PlainItem;
  }

  lemma WithValueWritten(value: string)
    ensures TextAt(2, "", WithValue(value)) == ValueTag(value) == TextAt(2, "", WithValue(value)[1..])
  {
    var items := WithValue(value);
    var tag := items[1..];
    var attrs := tag[0].item.attrs;
    assert Stage(items[0].item) == 1 && Stage(tag[0].item) == 3;
    assert AttrsText(attrs) == AttrText(attrs[0]) + "";
    var p := ItemPieces(tag[0].item)[0];
    assert ItemPieces(tag[0].item) == [p];
    assert Written([p]) == PieceText(p) + "";
    assert PieceText(p) == "<" + ("a.b" + ((" " + ("c" + ("=" + ("\"" + (value + "\"")))) + "" + "") + "/>"));
    assert "<" + ("a.b" + ((" " + ("c" + ("=" + ("\"" + (value + "\"")))) + "" + "") + "/>")) == ValueTag(value);
    assert tag[1..] == [];
    hide PieceText, Written, ItemPieces, Stage, ValueTag;
    DocAt(2, "", items);
    DocText(2, "", tag);
    DocEnd(2, "");
    assert "" + "" == "" && "" + (Written([p]) + "") == Written([p]);
  }

  lemma {:induction false} ThreeNewlinesCut(back: string, three: string, two: string)
    requires Collapse(back, 3) == back && three == ['\n', '\n', '\n'] && two == ['\n', '\n']
    ensures Collapse(three + back, 0) == two + back
  {
    assert three + back == ['\n'] + (['\n'] + (['\n'] + back)) && two + back == "\n" + ("\n" + back);
    CollapseCons('\n', ['\n'] + (['\n'] + back), 0);
    CollapseCons('\n', ['\n'] + back, 1);
    CollapseCons('\n', back, 2);
    hide Collapse;
  }

  lemma {:induction false} TidiedAround(front: string, back: string, three: string, two: string)
    requires front != "" && !IsSpace(front[0]) && front[|front| - 1] != '\n' && Collapse(front, 0) == front
    requires back != "" && !IsSpace(back[|back| - 1]) && Collapse(back, 3) == back && three == ['\n', '\n', '\n'] && two == ['\n', '\n']
    ensures Tidy(front + (three + back)) == front + (two + back)
  {
    hide Collapse, RunAfter, Strip, IsSpace;
    NoRunAfter(front, 0);
    CollapseAppend(front, three + back, 0);
    ThreeNewlinesCut(back, three, two);
    BetweenEnds(front, two, back);
    StripTrimmed(front + (two + back));
  }

  lemma TidiedTag()
    ensures Tidy(ValueTag("x\n\n\ny")) == ValueTag("x\n\ny")
  {
    var front, back, three, two := "<a.b c=\"x", "y\"/>", "\n\n\n", "\n\n";
    assert ValueTag("x\n\n\ny") == front + (three + back) && ValueTag("x\n\ny") == front + (two + back);
    TagParts(front, back);
    hide Tidy, Collapse, ValueTag;
    TidiedAround(front, back, three, two);
  }

  lemma TagParts(front: string, back: string)
    requires front == "<a.b c=\"x" && back == "y\"/>"
    ensures Collapse(front, 0) == front && Collapse(back, 3) == back
  {
    assert "" + front == front && "" + back == back;
    assert Collapse(back, 3) == Collapse(back, 0);
    hide Collapse;
    NothingToCollapse(front, "");
    NothingToCollapse(back, "");
  }

  lemma ValueArguments(loads: Loads, value: string)
    requires value != "" && Trimmed(value) && loads(value).None?
    ensures AttributeArguments(loads, [], AttrPairs([Attr(" ", "c", value)])) == [(ArgumentName("c"), Str(value))]
  {
    var attrs := [Attr(" ", "c", value)];
    var pairs := AttrPairs(attrs);
    StripTrimmed(value);
    assert AttrPairs(attrs[1..]) == [];
    assert pairs == [("c", value)] + [];
    assert pairs == [("c", value)];
    hide AttrPairs, ArgumentName, Strip;
  }

  lemma {:induction false} WithValueCalls(loads: Loads, value: string)
    requires value != "" && Trimmed(value) && loads(value).None?
    ensures var items, call := WithValue(value), [Call("a.b", [(ArgumentName("c"), Str(value))])];
            && LongcatCallsOf(loads, items) == CallOf(loads, Block("t", []))
            && ContainerCallsOf(loads, items) == ContainerCallsOf(loads, items[1..]) == []
            && SelfCallsOf(loads, SinglesOf(items)) == SelfCallsOf(loads, SinglesOf(items[1..])) == call
            && CallsByPass(loads, items) == CallOf(loads, Block("t", [])) + [] + call
  {
    var items := WithValue(value);
    var tag := items[1..];
    assert tag[1..] == [];
    ValueArguments(loads, value);
    SelfCallsAt(loads, items);
    SelfCallsAt(loads, tag);
    assert SinglesOf([]) == [] && SelfCallsOf(loads, []) == [];
    hide AttributeArguments, ArgumentName, CallOf, SelfCallsOf, SinglesOf, AttrPairs, Trimmed;
    assert ContainerCallsOf(loads, tag) == [] + [] && ContainerCallsOf(loads, items) == [] + ContainerCallsOf(loads, tag);
    assert LongcatCallsOf(loads, tag) == [] + [] && LongcatCallsOf(loads, items) == CallOf(loads, Block("t", [])) + LongcatCallsOf(loads, tag);
  }

  /** The calls for one value when tidying makes it the other. */
  lemma {:induction false} ValueTidied(loads: Loads, wide: string, narrow: string)
    requires FreeOfAngles(wide) && '"' !in wide && wide != "" && Trimmed(wide) && loads(wide).None?
    requires FreeOfAngles(narrow) && '"' !in narrow && narrow != "" && Trimmed(narrow) && loads(narrow).None?
    requires wide != narrow && Tidy(ValueTag(wide)) == ValueTag(narrow)
    ensures PlainItems("", WithValue(wide))
    ensures Extract(loads, TextAt(1, "", WithValue(wide))).1 == CallsByPass(loads, WithValue(narrow)) != CallsByPass(loads, WithValue(wide))
  {
    WithValuePlain(wide);
    WithValuePlain(narrow);
    WithValueWritten(wide);
    WithValueWritten(narrow);
    WithValueCalls(loads, wide);
    WithValueCalls(loads, narrow);
    FirstStage(loads, "", WithValue(wide));
    assert Left(1, "", WithValue(wide)) == Tidy(TextAt(2, "", WithValue(wide)));
    var first, tag := CallOf(loads, Block("t", [])), Mixed("", WithValue(narrow)[1..]);
    hide LongcatPass, BlockPass, InlinePass, TextAt, Tidy, LongcatCallsOf, ContainerCallsOf, SelfCallsOf, SinglesOf, CallsByPass, Has, After, Left,
         WithValue, ValueTag, CallOf, ArgumentName, PlainItems, AllFrom, TagsLeft, FreeOfAngles, Trimmed;
    LastTwoStages(loads, tag);
    OtherCall(first + [], Call("a.b", [(ArgumentName("c"), Str(wide))]), Call("a.b", [(ArgumentName("c"), Str(narrow))]));
  }

  lemma OtherCall(first: seq<Call>, a: Call, b: Call)
    requires a != b
    ensures first + [a] != first + [b]
  {
    assert (first + [a])[|first|] != (first + [b])[|first|];
  }

  /** Tidying after the first pass takes a newline out of the argument that the third pass is to read. */
  lemma {:induction false} TidyingCanChangeAnArgument(loads: Loads)
    requires loads("x\n\n\ny").None? && loads("x\n\ny").None?
    ensures PlainItems("", WithValue("x\n\n\ny"))
    ensures Extract(loads, TextAt(1, "", WithValue("x\n\n\ny"))).1 == CallsByPass(loads, WithValue("x\n\ny"))
            != CallsByPass(loads, WithValue("x\n\n\ny"))
  {
    TidiedTag();
    hide ValueTag, Tidy, WithValue, CallsByPass, PlainItems, TextAt, Extract;
    ValueTidied(loads, "x\n\n\ny", "x\n\ny");
  }
}
