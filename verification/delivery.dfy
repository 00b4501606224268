/**
 The parser of a task's delivery text: lines go to the section of the heading
 above them, and sections without lines take matching ones from the result.
 */
module Delivery {
  import opened Collections
  import opened Text
  import opened Payloads

  datatype Section = Result | Evidence | Pending | Incomplete

  /** The heading words of a section, and the words by which a line is taken for one of it. */
  datatype Markers = Markers(heading: Section -> seq<string>, infer: Section -> seq<string>)

  datatype Lists = Lists(result: seq<string>, evidence: seq<string>, pending: seq<string>, incomplete: seq<string>)

  datatype Delivered = Delivered(section: Section, content: string, present: bool)

  function In(l: Lists, s: Section): seq<string> {
    match s case Result => l.result case Evidence => l.evidence case Pending => l.pending case Incomplete => l.incomplete
  }

  function With(l: Lists, s: Section, lines: seq<string>): (m: Lists)
    ensures forall t :: In(m, t) == if t == s then lines else In(l, t)
  {
    match s
    case Result => l.(result := lines)
    case Evidence => l.(evidence := lines)
    case Pending => l.(pending := lines)
    case Incomplete => l.(incomplete := lines)
  }

  // ---------- Headings ----------

  function LStripOf(s: string, chars: set<char>): string {
    if s != "" && s[0] in chars then LStripOf(s[1..], chars) else s
  }

  function RStripOf(s: string, chars: set<char>): string {
    if s != "" && s[|s| - 1] in chars then RStripOf(s[..|s| - 1], chars) else s
  }

  function StripOf(s: string, chars: set<char>): string {
    RStripOf(LStripOf(s, chars), chars)
  }

  function Normalized(host: Host, title: string): string {
    host.lower(StripOf(Strip(StripOf(Strip(title), {'#'})), {':', '\U{ff1a}'}))
  }

  predicate StartsWithAny(s: string, marks: seq<string>) {
    exists i :: 0 <= i < |marks| && marks[i] <= s
  }

  const ORDER := [Result, Evidence, Pending, Incomplete]

  function Place(s: Section): (i: nat)
    ensures i < 4 && ORDER[i] == s
  {
    match s case Result => 0 case Evidence => 1 case Pending => 2 case Incomplete => 3
  }

  function FirstWhere(sections: seq<Section>, f: Section -> bool): Option<Section> {
    if sections == [] then None else if f(sections[0]) then Some(sections[0]) else FirstWhere(sections[1..], f)
  }

  function Exact(marks: Markers, title: string): Section -> bool {
    s => title in marks.heading(s)
  }

  function Starts(marks: Markers, title: string): Section -> bool {
    s => StartsWithAny(title, marks.heading(s))
  }

  /** `_match_section`: a heading word itself wins over any heading that only starts with one. */
  function Heading(host: Host, marks: Markers, line: string): Option<Section> {
    var title := Normalized(host, line);
    var exact := FirstWhere(ORDER, Exact(marks, title));
    if exact.Some? then exact else FirstWhere(ORDER, Starts(marks, title))
  }

  lemma {:induction false} FirstWhereFinds(sections: seq<Section>, f: Section -> bool)
    ensures var r := FirstWhere(sections, f);
            if r.Some? then exists i :: 0 <= i < |sections| && sections[i] == r.value && f(r.value) && forall j :: 0 <= j < i ==> !f(sections[j])
            else forall i :: 0 <= i < |sections| ==> !f(sections[i])
  {
    if sections != [] && !f(sections[0]) {
      FirstWhereFinds(sections[1..], f);
      var r := FirstWhere(sections[1..], f);
      if r.Some? {
        var i :| 0 <= i < |sections[1..]| && sections[1..][i] == r.value && forall j :: 0 <= j < i ==> !f(sections[1..][j]);
        assert forall j :: 0 <= j < i + 1 ==> !f(sections[j]) by {
          assert forall j :: 1 <= j < i + 1 ==> sections[j] == sections[1..][j - 1];
        }
        assert sections[i + 1] == r.value;
      } else {
        assert forall i :: 1 <= i < |sections| ==> sections[i] == sections[1..][i - 1];
      }
    }
  }

  /** A line is a heading exactly when it starts, after normalising, with a heading word; the section found owns such a word. */
  lemma HeadingIff(host: Host, marks: Markers, line: string)
    ensures var title, h := Normalized(host, line), Heading(host, marks, line);
            && (h.Some? <==> exists s :: StartsWithAny(title, marks.heading(s)))
            && (h.Some? ==> StartsWithAny(title, marks.heading(h.value)))
            && (forall s :: title in marks.heading(s) ==> h.Some? && title in marks.heading(h.value))
  {
    var title := Normalized(host, line);
    var exact, starts := Exact(marks, title), Starts(marks, title);
    FirstWhereFinds(ORDER, exact);
    FirstWhereFinds(ORDER, starts);
    forall s | title in marks.heading(s) ensures StartsWithAny(title, marks.heading(s)) {
      var i :| 0 <= i < |marks.heading(s)| && marks.heading(s)[i] == title;
      assert marks.heading(s)[i] <= title;
    }
    forall s ensures exact(s) <==> title in marks.heading(s)
             ensures starts(s) <==> StartsWithAny(title, marks.heading(s)) {
    }
    forall s | StartsWithAny(title, marks.heading(s)) ensures Heading(host, marks, line).Some? {
      assert starts(ORDER[Place(s)]);
    }
    forall s | title in marks.heading(s) ensures FirstWhere(ORDER, exact).Some? {
      assert exact(ORDER[Place(s)]);
    }
  }

  // ---------- Lines ----------

  predicate IsBreak(c: char) {
    '\U{a}' <= c <= '\U{d}' || '\U{1c}' <= c <= '\U{1e}' || c == '\U{85}' || c == '\U{2028}' || c == '\U{2029}'
  }

  function LineLength(s: string): (k: nat)
    ensures k <= |s| && (k < |s| ==> IsBreak(s[k])) && forall i :: 0 <= i < k ==> !IsBreak(s[i])
  {
    if s == "" || IsBreak(s[0]) then 0 else 1 + LineLength(s[1..])
  }

  /** A carriage return and the line feed after it are one line break. */
  function BreakWidth(s: string, k: nat): (w: nat)
    requires k < |s| && IsBreak(s[k])
    ensures 1 <= w <= |s| - k && forall i :: k <= i < k + w ==> IsBreak(s[i])
  {
    if s[k] == '\r' && k + 1 < |s| && s[k + 1] == '\n' then 2 else 1
  }

  function AfterLine(s: string): (rest: string)
    requires LineLength(s) < |s|
    ensures |rest| < |s|
  {
    s[LineLength(s) + BreakWidth(s, LineLength(s))..]
  }

  /** `str.splitlines`. */
  function SplitLines(s: string): seq<string> {
    if s == "" then []
    else
      var k := LineLength(s);
      if k == |s| then [s] else [s[..k]] + SplitLines(AfterLine(s))
  }

  function WithoutBreaks(s: string): string {
    if s == "" then "" else (if IsBreak(s[0]) then [] else [s[0]]) + WithoutBreaks(s[1..])
  }

  lemma {:induction false} WithoutBreaksAppend(a: string, b: string)
    ensures WithoutBreaks(a + b) == WithoutBreaks(a) + WithoutBreaks(b)
  {
    if a == "" {
      assert a + b == b;
    } else {
      assert (a + b)[1..] == a[1..] + b;
      WithoutBreaksAppend(a[1..], b);
    }
  }

  lemma {:induction false} NoBreaks(a: string)
    requires forall i :: 0 <= i < |a| ==> !IsBreak(a[i])
    ensures WithoutBreaks(a) == a
  {
    if a != "" {
      NoBreaks(a[1..]);
    }
  }

  lemma InThree<T>(s: seq<T>, i: nat, j: nat)
    requires i <= j <= |s|
    ensures s == s[..i] + s[i..j] + s[j..]
  {
  }

  lemma SplitStep(s: string)
    requires LineLength(s) < |s|
    ensures var k := LineLength(s);
            SplitLines(s) == [s[..k]] + SplitLines(AfterLine(s))
  {
    hide LineLength, AfterLine;
  }

  /** Splitting loses nothing but the line breaks. */
  lemma {:induction false} LinesAreTheText(s: string)
    ensures Concat(SplitLines(s)) == WithoutBreaks(s)
    decreases |s|
  {
    var k := LineLength(s);
    if k == |s| {
      NoBreaks(s);
      assert s == s[..k];
      assert Concat([s]) == s + Concat<char>([]);
    } else {
      var w := BreakWidth(s, k);
      SplitStep(s);
      hide WithoutBreaks, LineLength, SplitLines, IsBreak, BreakWidth;
      InThree(s, k, k + w);
      var rest := s[k + w..];
      LinesAreTheText(rest);
      LineAndBreak(s[..k], s[k..k + w], rest);
      assert ([s[..k]] + SplitLines(rest))[1..] == SplitLines(rest);
    }
  }

  lemma LineAndBreak(line: string, gap: string, rest: string)
    requires forall i :: 0 <= i < |line| ==> !IsBreak(line[i])
    requires forall i :: 0 <= i < |gap| ==> IsBreak(gap[i])
    ensures WithoutBreaks(line + gap + rest) == line + WithoutBreaks(rest)
  {
    hide WithoutBreaks, IsBreak;
    WithoutBreaksAppend(line + gap, rest);
    WithoutBreaksAppend(line, gap);
    NoBreaks(line);
    BreaksOnly(gap);
  }

  lemma {:induction false} BreaksOnly(a: string)
    requires forall i :: 0 <= i < |a| ==> IsBreak(a[i])
    ensures WithoutBreaks(a) == ""
  {
    if a != "" {
      BreaksOnly(a[1..]);
    }
  }

  // ---------- Placement ----------

  /** The section of the last heading above line `i`, the result when there is none. */
  function Governing(host: Host, marks: Markers, lines: seq<string>, i: nat): Section
    requires i <= |lines|
  {
    if i == 0 then Result
    else
      var h := Heading(host, marks, lines[i - 1]);
      if h.Some? then h.value else Governing(host, marks, lines, i - 1)
  }

  function PlacedAt(host: Host, marks: Markers, lines: seq<string>, s: Section): nat -> bool {
    (k: nat) => k < |lines| && Heading(host, marks, lines[k]).None? && Governing(host, marks, lines, k) == s
  }

  function LinesAt(lines: seq<string>, ks: seq<nat>): (r: seq<string>)
    requires forall i :: 0 <= i < |ks| ==> ks[i] < |lines|
  {
    seq(|ks|, i requires 0 <= i < |ks| => lines[ks[i]])
  }

  /** The lines of a section among the first `n`: the lines that are no headings and are governed by it, in order. */
  function Placed(host: Host, marks: Markers, lines: seq<string>, n: nat, s: Section): seq<string>
    requires n <= |lines|
  {
    LinesAt(lines, Positions(PlacedAt(host, marks, lines, s), n))
  }

  function Parsed(host: Host, marks: Markers, lines: seq<string>): (l: Lists) {
    Lists(Placed(host, marks, lines, |lines|, Result), Placed(host, marks, lines, |lines|, Evidence),
          Placed(host, marks, lines, |lines|, Pending), Placed(host, marks, lines, |lines|, Incomplete))
  }

  lemma PlacedStep(host: Host, marks: Markers, lines: seq<string>, n: nat, s: Section)
    requires n < |lines|
    ensures Placed(host, marks, lines, n + 1, s)
            == if Heading(host, marks, lines[n]).None? && Governing(host, marks, lines, n) == s then Placed(host, marks, lines, n, s) + [lines[n]]
               else Placed(host, marks, lines, n, s)
  {
    hide Heading, Governing;
    var f := PlacedAt(host, marks, lines, s);
    PositionsStep(f, n);
    assert f(n) <==> Heading(host, marks, lines[n]).None? && Governing(host, marks, lines, n) == s;
  }

  /** Every line that is no heading is in exactly one section, its governing one; headings are in none. */
  lemma {:induction false} LineInOneSection(host: Host, marks: Markers, lines: seq<string>, k: nat, s: Section)
    requires k < |lines|
    ensures k in Positions(PlacedAt(host, marks, lines, s), |lines|)
            <==> Heading(host, marks, lines[k]).None? && s == Governing(host, marks, lines, k)
  {
    hide Heading, Governing;
    var f := PlacedAt(host, marks, lines, s);
    PositionsExact(f, |lines|);
    assert f(k) <==> Heading(host, marks, lines[k]).None? && s == Governing(host, marks, lines, k);
  }

  function NoHeading(host: Host, marks: Markers): string -> bool {
    line => Heading(host, marks, line).None?
  }

  function Everything(l: Lists): multiset<string> {
    multiset(l.result) + multiset(l.evidence) + multiset(l.pending) + multiset(l.incomplete)
  }

  function AllPlacedLines(host: Host, marks: Markers, lines: seq<string>, n: nat): multiset<string>
    requires n <= |lines|
  {
    multiset(Placed(host, marks, lines, n, Result)) + multiset(Placed(host, marks, lines, n, Evidence))
    + multiset(Placed(host, marks, lines, n, Pending)) + multiset(Placed(host, marks, lines, n, Incomplete))
  }

  lemma NonePlaced(host: Host, marks: Markers, lines: seq<string>)
    ensures AllPlacedLines(host, marks, lines, 0) == multiset{}
    ensures Filter(lines[..0], NoHeading(host, marks)) == []
  {
    hide Heading, Governing;
    assert forall s :: Placed(host, marks, lines, 0, s) == [];
  }

  lemma AllPlacedStep(host: Host, marks: Markers, lines: seq<string>, n: nat)
    requires n < |lines|
    ensures AllPlacedLines(host, marks, lines, n + 1)
            == AllPlacedLines(host, marks, lines, n) + Only(lines[n], Heading(host, marks, lines[n]).None?)
  {
    hide Heading, Governing, Placed, Only;
    PlacedCount(host, marks, lines, n, Result);
    PlacedCount(host, marks, lines, n, Evidence);
    PlacedCount(host, marks, lines, n, Pending);
    PlacedCount(host, marks, lines, n, Incomplete);
    OneMore(multiset(Placed(host, marks, lines, n, Result)), multiset(Placed(host, marks, lines, n, Evidence)),
            multiset(Placed(host, marks, lines, n, Pending)), multiset(Placed(host, marks, lines, n, Incomplete)),
            lines[n], Heading(host, marks, lines[n]).None?, Governing(host, marks, lines, n));
  }

  lemma {:induction false} PlacementConserves(host: Host, marks: Markers, lines: seq<string>, n: nat)
    requires n <= |lines|
    ensures AllPlacedLines(host, marks, lines, n) == multiset(Filter(lines[..n], NoHeading(host, marks)))
  {
    hide Heading, Governing, Placed, Filter, Only, AllPlacedLines;
    if n == 0 {
      NonePlaced(host, marks, lines);
    } else {
      var more, f := lines[..n], NoHeading(host, marks);
      assert more[..n - 1] == lines[..n - 1] && more[n - 1] == lines[n - 1];
      PlacementConserves(host, marks, lines, n - 1);
      AllPlacedStep(host, marks, lines, n - 1);
      FilterCount(more, f);
      assert f(lines[n - 1]) <==> Heading(host, marks, lines[n - 1]).None?;
    }
  }

  function Only(x: string, here: bool): multiset<string> {
    if here then multiset{x} else multiset{}
  }

  lemma OneMore(r: multiset<string>, e: multiset<string>, p: multiset<string>, i: multiset<string>, x: string, on: bool, s: Section)
    ensures (r + Only(x, on && s == Result)) + (e + Only(x, on && s == Evidence)) + (p + Only(x, on && s == Pending))
            + (i + Only(x, on && s == Incomplete)) == (r + e + p + i) + Only(x, on)
  {
    var none: multiset<string> := multiset{};
    assert r + none == r && e + none == e && p + none == p && i + none == i;
    assert (r + e + p + i) + none == r + e + p + i;
    if on {
      match s
      case Result =>
      case Evidence =>
      case Pending =>
      case Incomplete =>
    }
  }

  lemma PlacedCount(host: Host, marks: Markers, lines: seq<string>, n: nat, s: Section)
    requires n < |lines|
    ensures multiset(Placed(host, marks, lines, n + 1, s))
            == multiset(Placed(host, marks, lines, n, s))
               + Only(lines[n], Heading(host, marks, lines[n]).None? && Governing(host, marks, lines, n) == s)
  {
    PlacedStep(host, marks, lines, n, s);
    hide Heading, Governing, Placed;
  }

  // ---------- Inference ----------

  /** `any(m in line.lower() for m in markers)` for the section's markers. */
  predicate Hits(host: Host, marks: Markers, s: Section, line: string) {
    exists i :: 0 <= i < |marks.infer(s)| && InText(marks.infer(s)[i], host.lower(line))
  }

  /** Where a line of the result belongs: the first section that is empty and whose markers it hits. */
  function Destination(host: Host, marks: Markers, l: Lists, line: string): Section {
    if l.evidence == [] && Hits(host, marks, Evidence, line) then Evidence
    else if l.pending == [] && Hits(host, marks, Pending, line) then Pending
    else if l.incomplete == [] && Hits(host, marks, Incomplete, line) then Incomplete
    else Result
  }

  function BoundFor(host: Host, marks: Markers, l: Lists, s: Section): string -> bool {
    line => Destination(host, marks, l, line) == s
  }

  /** Every result line goes to its destination, in order; sections that have lines keep exactly those. */
  function Inferred(host: Host, marks: Markers, l: Lists): (m: Lists) {
    Lists(Filter(l.result, BoundFor(host, marks, l, Result)),
          if l.evidence != [] then l.evidence else Filter(l.result, BoundFor(host, marks, l, Evidence)),
          if l.pending != [] then l.pending else Filter(l.result, BoundFor(host, marks, l, Pending)),
          if l.incomplete != [] then l.incomplete else Filter(l.result, BoundFor(host, marks, l, Incomplete)))
  }

  function Hitting(host: Host, marks: Markers, s: Section): string -> bool {
    line => Hits(host, marks, s, line)
  }

  function Missing(host: Host, marks: Markers, s: Section): string -> bool {
    line => !Hits(host, marks, s, line)
  }

  /** One section of the inference. */
  function Promoted(host: Host, marks: Markers, l: Lists, s: Section): Lists {
    if In(l, s) != [] then l
    else With(With(l, s, Filter(l.result, Hitting(host, marks, s))), Result, Filter(l.result, Missing(host, marks, s)))
  }

  /** The result lines a section takes, and those it leaves, stage by stage. */
  lemma AfterEvidence(host: Host, marks: Markers, l: Lists)
    ensures var a, r := Promoted(host, marks, l, Evidence), (line: string) => Destination(host, marks, l, line) != Evidence;
            && a.result == Filter(l.result, r)
            && a.evidence == Inferred(host, marks, l).evidence && a.pending == l.pending && a.incomplete == l.incomplete
  {
    hide Hits;
    var kept := (line: string) => Destination(host, marks, l, line) != Evidence;
    if l.evidence != [] {
      FilterAll(l.result, kept);
    } else {
      FilterSame(l.result, kept, Missing(host, marks, Evidence));
      FilterSame(l.result, BoundFor(host, marks, l, Evidence), Hitting(host, marks, Evidence));
    }
  }

  lemma AfterPending(host: Host, marks: Markers, l: Lists)
    ensures var b := Promoted(host, marks, Promoted(host, marks, l, Evidence), Pending);
            var r := (line: string) => Destination(host, marks, l, line) in {Incomplete, Result};
            && b.result == Filter(l.result, r)
            && b.evidence == Inferred(host, marks, l).evidence && b.pending == Inferred(host, marks, l).pending && b.incomplete == l.incomplete
  {
    hide Hits;
    AfterEvidence(host, marks, l);
    var first := (line: string) => Destination(host, marks, l, line) != Evidence;
    var kept := (line: string) => Destination(host, marks, l, line) in {Incomplete, Result};
    if l.pending != [] {
      FilterSame(l.result, first, kept);
    } else {
      FilterTwice(l.result, first, Missing(host, marks, Pending), kept);
      FilterTwice(l.result, first, Hitting(host, marks, Pending), BoundFor(host, marks, l, Pending));
    }
  }

  /** Done section by section, the inference sends every result line to its destination. */
  lemma PromotionsInfer(host: Host, marks: Markers, l: Lists)
    ensures Promoted(host, marks, Promoted(host, marks, Promoted(host, marks, l, Evidence), Pending), Incomplete)
            == Inferred(host, marks, l)
  {
    hide Hits, Filter;
    AfterPending(host, marks, l);
    var second := (line: string) => Destination(host, marks, l, line) in {Incomplete, Result};
    if l.incomplete != [] {
      FilterSame(l.result, second, BoundFor(host, marks, l, Result));
    } else {
      FilterTwice(l.result, second, Missing(host, marks, Incomplete), BoundFor(host, marks, l, Result));
      FilterTwice(l.result, second, Hitting(host, marks, Incomplete), BoundFor(host, marks, l, Incomplete));
    }
  }

  lemma {:induction false} FiltersSplit(s: seq<string>, e: string -> bool, p: string -> bool, i: string -> bool, r: string -> bool)
    requires forall x :: x in s ==> (e(x) && !p(x) && !i(x) && !r(x)) || (!e(x) && p(x) && !i(x) && !r(x))
                                    || (!e(x) && !p(x) && i(x) && !r(x)) || (!e(x) && !p(x) && !i(x) && r(x))
    ensures multiset(Filter(s, r)) + multiset(Filter(s, e)) + multiset(Filter(s, p)) + multiset(Filter(s, i)) == multiset(s)
  {
    if s != [] {
      var front, last := s[..|s| - 1], s[|s| - 1];
      assert s == front + [last];
      assert last in s;
      FiltersSplit(front, e, p, i, r);
      FilterCount(s, e);
      FilterCount(s, p);
      FilterCount(s, i);
      FilterCount(s, r);
      hide Filter;
    }
  }

  lemma FilterCount(s: seq<string>, f: string -> bool)
    requires s != []
    ensures multiset(Filter(s, f)) == multiset(Filter(s[..|s| - 1], f)) + Only(s[|s| - 1], f(s[|s| - 1]))
  {
  }

  /** A section ends up with what it had and the result lines bound for it. */
  lemma Share(host: Host, marks: Markers, l: Lists, s: Section)
    requires s != Result
    ensures multiset(In(Inferred(host, marks, l), s)) == multiset(In(l, s)) + multiset(Filter(l.result, BoundFor(host, marks, l, s)))
  {
    hide Hits;
    if In(l, s) != [] {
      FilterNone(l.result, BoundFor(host, marks, l, s));
    }
  }

  lemma Regroup<T>(r: multiset<T>, e: multiset<T>, p: multiset<T>, i: multiset<T>, e': multiset<T>, p': multiset<T>, i': multiset<T>)
    ensures r + (e' + e) + (p' + p) + (i' + i) == (r + e + p + i) + e' + p' + i'
  {
  }

  /** No line is lost or invented. */
  lemma InferenceConserves(host: Host, marks: Markers, l: Lists)
    ensures Everything(Inferred(host, marks, l)) == Everything(l)
  {
    hide Hits;
    var e, p, i, r := BoundFor(host, marks, l, Evidence), BoundFor(host, marks, l, Pending), BoundFor(host, marks, l, Incomplete),
                      BoundFor(host, marks, l, Result);
    FiltersSplit(l.result, e, p, i, r);
    var m := Inferred(host, marks, l);
    Share(host, marks, l, Evidence);
    Share(host, marks, l, Pending);
    Share(host, marks, l, Incomplete);
    assert m.result == Filter(l.result, r);
    hide Filter, BoundFor, Destination, Inferred;
    var fr, fe, fp, fi := multiset(Filter(l.result, r)), multiset(Filter(l.result, e)), multiset(Filter(l.result, p)), multiset(Filter(l.result, i));
    Regroup(fr, fe, fp, fi, multiset(l.evidence), multiset(l.pending), multiset(l.incomplete));
    assert multiset(l.result) == fr + fe + fp + fi;
    assert multiset(m.evidence) == multiset(l.evidence) + fe;
    assert multiset(m.pending) == multiset(l.pending) + fp;
    assert multiset(m.incomplete) == multiset(l.incomplete) + fi;
  }

  /** A section other than the result changes exactly when it has no lines and some result line hits it but no empty section before it. */
  lemma SectionFilledIff(host: Host, marks: Markers, l: Lists, s: Section)
    requires s != Result
    ensures In(Inferred(host, marks, l), s) != In(l, s)
            <==> In(l, s) == [] && exists x :: x in l.result && HitsFirst(host, marks, l, s, x)
  {
    hide Hits;
    var bound := Filter(l.result, BoundFor(host, marks, l, s));
    FilterMembers(l.result, BoundFor(host, marks, l, s));
    forall x ensures In(l, s) == [] ==> (Destination(host, marks, l, x) == s <==> HitsFirst(host, marks, l, s, x)) {
      if In(l, s) == [] {
        HitsFirstIff(host, marks, l, s, x);
      }
    }
    hide HitsFirst, Destination;
    if In(l, s) == [] {
      assert In(Inferred(host, marks, l), s) == bound;
      assert bound != [] ==> bound[0] in bound;
    }
  }

  /** The line has a word of section `s`, and none of an earlier section that is empty. */
  ghost predicate HitsFirst(host: Host, marks: Markers, l: Lists, s: Section, x: string) {
    Hits(host, marks, s, x) && forall t :: t != Result && Place(t) < Place(s) && In(l, t) == [] ==> !Hits(host, marks, t, x)
  }

  lemma HitsFirstIff(host: Host, marks: Markers, l: Lists, s: Section, x: string)
    requires s != Result && In(l, s) == []
    ensures Destination(host, marks, l, x) == s <==> HitsFirst(host, marks, l, s, x)
  {
    hide Hits;
    assert Place(Evidence) == 1 && Place(Pending) == 2 && Place(Incomplete) == 3;
    match s
    case Evidence =>
    case Pending => assert In(l, Evidence) == l.evidence;
    case Incomplete => assert In(l, Evidence) == l.evidence && In(l, Pending) == l.pending;
  }

  /** A second inference finds nothing to do. */
  lemma InferenceIdempotent(host: Host, marks: Markers, l: Lists)
    ensures Inferred(host, marks, Inferred(host, marks, l)) == Inferred(host, marks, l)
  {
    hide Hits;
    var m := Inferred(host, marks, l);
    FilterMembers(l.result, BoundFor(host, marks, l, Result));
    forall x | x in m.result ensures Destination(host, marks, m, x) == Result {
      assert Destination(host, marks, l, x) == Result;
    }
    FilterAll(m.result, BoundFor(host, marks, m, Result));
    FilterNone(m.result, BoundFor(host, marks, m, Evidence));
    FilterNone(m.result, BoundFor(host, marks, m, Pending));
    FilterNone(m.result, BoundFor(host, marks, m, Incomplete));
  }

  // ---------- Contents ----------

  predicate Blank(s: string) {
    Strip(s) == ""
  }

  function Visible(lines: seq<string>): seq<string> {
    Filter(lines, line => !Blank(line))
  }

  function Content(lines: seq<string>): string {
    Strip(JoinLines(Visible(lines)))
  }

  function Entry(l: Lists, s: Section): Delivered {
    Delivered(s, Content(In(l, s)), Content(In(l, s)) != "")
  }

  /** `_parse_delivery_sections`. */
  function Sections(host: Host, marks: Markers, output: string): seq<Delivered> {
    if Blank(output) then [Delivered(Result, "", false), Delivered(Evidence, "", false), Delivered(Pending, "", false), Delivered(Incomplete, "", false)]
    else
      var l := Inferred(host, marks, Parsed(host, marks, SplitLines(Strip(output))));
      [Entry(l, Result), Entry(l, Evidence), Entry(l, Pending), Entry(l, Incomplete)]
  }

  lemma {:induction false} BlankIff(s: string)
    ensures Blank(s) <==> forall i :: 0 <= i < |s| ==> IsSpace(s[i])
  {
    LStripMeaning(s);
    RStripMeaning(LStrip(s));
    var t := LStrip(s);
    if Blank(s) {
      AllSpace(t);
      SpaceBefore(s);
    } else {
      var u := Strip(s);
      assert u == t[..|u|];
      assert !IsSpace(u[|u| - 1]);
      assert s[|s| - |t| + |u| - 1] == u[|u| - 1];
    }
  }

  lemma {:induction false} AllSpace(t: string)
    requires RStrip(t) == ""
    ensures forall i :: 0 <= i < |t| ==> IsSpace(t[i])
  {
    if t != "" {
      AllSpace(t[..|t| - 1]);
    }
  }

  lemma {:induction false} SpaceBefore(s: string)
    ensures forall i :: 0 <= i < |s| - |LStrip(s)| ==> IsSpace(s[i])
  {
    if s != "" && IsSpace(s[0]) {
      SpaceBefore(s[1..]);
      forall i | 0 <= i < |s| - |LStrip(s)| ensures IsSpace(s[i]) {
        if i > 0 {
          assert s[i] == s[1..][i - 1];
        }
      }
    }
  }

  lemma {:induction false} JoinedCharacters(parts: seq<string>, k: nat, i: nat)
    requires k < |parts| && i < |parts[k]|
    ensures exists j :: 0 <= j < |JoinLines(parts)| && JoinLines(parts)[j] == parts[k][i]
  {
    var all := JoinLines(parts);
    if k == 0 {
      assert all[i] == parts[0][i];
    } else {
      JoinedCharacters(parts[1..], k - 1, i);
      var rest := JoinLines(parts[1..]);
      var j :| 0 <= j < |rest| && rest[j] == parts[1..][k - 1][i];
      assert all[|parts[0]| + 1 + j] == rest[j];
    }
  }

  /** A section is present exactly when it has a line that is not blank. */
  lemma PresentIff(lines: seq<string>)
    ensures Content(lines) != "" <==> exists k :: 0 <= k < |lines| && !Blank(lines[k])
  {
    assert Content(lines) == "" <==> Blank(JoinLines(Visible(lines)));
    hide Blank;
    var visible := Visible(lines);
    var f := (line: string) => !Blank(line);
    FilterMembers(lines, f);
    BlankIff(JoinLines(visible));
    if visible == [] {
      forall k | 0 <= k < |lines| ensures Blank(lines[k]) {
        assert lines[k] in visible <==> !Blank(lines[k]);
      }
    } else {
      assert visible[0] in visible;
      BlankIff(visible[0]);
      var i :| 0 <= i < |visible[0]| && !IsSpace(visible[0][i]);
      JoinedCharacters(visible, 0, i);
    }
  }

  // ---------- The buckets, filled in place ----------

  class Buckets {
    var result: seq<string>
    var evidence: seq<string>
    var pending: seq<string>
    var incomplete: seq<string>

    ghost function Contents(): Lists
      reads this
    {
      Lists(result, evidence, pending, incomplete)
    }

    constructor ()
      ensures Contents() == Lists([], [], [], [])
    {
      result, evidence, pending, incomplete := [], [], [], [];
    }

    method Read(s: Section) returns (lines: seq<string>)
      ensures lines == In(Contents(), s)
    {
      match s
      case Result => lines := result;
      case Evidence => lines := evidence;
      case Pending => lines := pending;
      case Incomplete => lines := incomplete;
    }

    method Assign(s: Section, lines: seq<string>)
      modifies this
      ensures Contents() == With(old(Contents()), s, lines)
    {
      match s
      case Result => result := lines;
      case Evidence => evidence := lines;
      case Pending => pending := lines;
      case Incomplete => incomplete := lines;
    }

    method Append(s: Section, line: string)
      modifies this
      ensures Contents() == With(old(Contents()), s, In(old(Contents()), s) + [line])
    {
      var lines := Read(s);
      Assign(s, lines + [line]);
    }

    /** The pass of the inference over one section. */
    method Promote(host: Host, marks: Markers, s: Section)
      requires s != Result
      modifies this
      ensures Contents() == Promoted(host, marks, old(Contents()), s)
    {
      hide Hits;
      var lines := Read(s);
      if lines != [] {
        return;
      }
      var promoted: seq<string>, remaining: seq<string> := [], [];
      for j := 0 to |result|
        invariant promoted == Filter(result[..j], Hitting(host, marks, s))
        invariant remaining == Filter(result[..j], Missing(host, marks, s))
      {
        assert result[..j + 1][..j] == result[..j];
        if Hits(host, marks, s, result[j]) {
          promoted := promoted + [result[j]];
        } else {
          remaining := remaining + [result[j]];
        }
      }
      assert result[..|result|] == result;
      if promoted != [] {
        Assign(s, promoted);
        Assign(Result, remaining);
      } else {
        FilterMembers(result, Hitting(host, marks, s));
        assert forall x :: x in result ==> !Hitting(host, marks, s)(x);
        FilterAll(result, Missing(host, marks, s));
      }
    }

    /** `_infer_missing_sections`. */
    method InferMissing(host: Host, marks: Markers)
      modifies this
      ensures Contents() == Inferred(host, marks, old(Contents()))
    {
      PromotionsInfer(host, marks, Contents());
      hide *;
      Promote(host, marks, Evidence);
      Promote(host, marks, Pending);
      Promote(host, marks, Incomplete);
    }
  }

  method ParseDelivery(host: Host, marks: Markers, output: string) returns (sections: seq<Delivered>)
    ensures sections == Sections(host, marks, output)
  {
    OrderLength();
    hide *;
    SectionsOf(host, marks, output);
    var text := Strip(output);
    if text == "" {
      return [Delivered(Result, "", false), Delivered(Evidence, "", false), Delivered(Pending, "", false), Delivered(Incomplete, "", false)];
    }
    var lines := SplitLines(text);
    var buckets := new Buckets();
    var current: Option<Section> := None;
    StartEmpty(host, marks, lines);
    for j := 0 to |lines|
      invariant Governing(host, marks, lines, j) == if current.Some? then current.value else Result
      invariant Holds(host, marks, lines, j, buckets.Contents())
    {
      ghost var before := buckets.Contents();
      var h := Heading(host, marks, lines[j]);
      GoverningStep(host, marks, lines, j);
      if h.Some? {
        current := h;
      } else if current.None? {
        buckets.Append(Result, lines[j]);
      } else {
        buckets.Append(current.value, lines[j]);
      }
      NextLine(host, marks, lines, j, before, buckets.Contents());
    }
    AllPlaced(host, marks, lines, buckets.Contents());
    buckets.InferMissing(host, marks);
    ghost var outcome := buckets.Contents();
    NoEntries(outcome);
    sections := [];
    for k := 0 to 4
      invariant buckets.Contents() == outcome && sections == Entries(outcome, k)
    {
      var inside := buckets.Read(ORDER[k]);
      var content := Content(inside);
      sections := sections + [Delivered(ORDER[k], content, content != "")];
      EntriesStep(outcome, k);
    }
  }

  ghost predicate Holds(host: Host, marks: Markers, lines: seq<string>, j: nat, l: Lists) {
    j <= |lines| && forall s :: In(l, s) == Placed(host, marks, lines, j, s)
  }

  lemma StartEmpty(host: Host, marks: Markers, lines: seq<string>)
    ensures Governing(host, marks, lines, 0) == Result && Holds(host, marks, lines, 0, Lists([], [], [], []))
  {
  }

  lemma GoverningStep(host: Host, marks: Markers, lines: seq<string>, j: nat)
    requires j < |lines|
    ensures Governing(host, marks, lines, j + 1)
            == if Heading(host, marks, lines[j]).Some? then Heading(host, marks, lines[j]).value else Governing(host, marks, lines, j)
  {
  }

  lemma NextLine(host: Host, marks: Markers, lines: seq<string>, j: nat, before: Lists, after: Lists)
    requires j < |lines| && Holds(host, marks, lines, j, before)
    requires var s := Governing(host, marks, lines, j);
             after == if Heading(host, marks, lines[j]).Some? then before else With(before, s, In(before, s) + [lines[j]])
    ensures Holds(host, marks, lines, j + 1, after)
  {
    hide Heading, Governing, Placed;
    forall s ensures In(after, s) == Placed(host, marks, lines, j + 1, s) {
      PlacedStep(host, marks, lines, j, s);
    }
  }

  lemma AllPlaced(host: Host, marks: Markers, lines: seq<string>, l: Lists)
    requires Holds(host, marks, lines, |lines|, l)
    ensures l == Parsed(host, marks, lines)
  {
    hide Placed;
    assert In(l, Result) == l.result && In(l, Evidence) == l.evidence && In(l, Pending) == l.pending && In(l, Incomplete) == l.incomplete;
  }

  function Entries(l: Lists, k: nat): seq<Delivered>
    requires k <= 4
  {
    if k == 0 then [] else Entries(l, k - 1) + [Entry(l, ORDER[k - 1])]
  }

  lemma EntriesStep(l: Lists, k: nat)
    requires k < 4
    ensures Entries(l, k + 1) == Entries(l, k) + [Delivered(ORDER[k], Content(In(l, ORDER[k])), Content(In(l, ORDER[k])) != "")]
  {
  }

  lemma SectionsOf(host: Host, marks: Markers, output: string)
    ensures Strip(output) != "" ==>
              Sections(host, marks, output) == Entries(Inferred(host, marks, Parsed(host, marks, SplitLines(Strip(output)))), 4)
    ensures Strip(output) == "" ==>
              Sections(host, marks, output)
              == [Delivered(Result, "", false), Delivered(Evidence, "", false), Delivered(Pending, "", false), Delivered(Incomplete, "", false)]
  {
    hide Strip, SplitLines, Parsed, Inferred, Content;
    var l := Inferred(host, marks, Parsed(host, marks, SplitLines(Strip(output))));
    assert ORDER[0] == Result && ORDER[1] == Evidence && ORDER[2] == Pending && ORDER[3] == Incomplete;
    assert Entries(l, 1) == [] + [Entry(l, Result)];
    assert Entries(l, 2) == Entries(l, 1) + [Entry(l, Evidence)];
    assert Entries(l, 3) == Entries(l, 2) + [Entry(l, Pending)];
    assert Entries(l, 4) == Entries(l, 3) + [Entry(l, Incomplete)];
  }

  lemma OrderLength()
    ensures |ORDER| == 4
  {
  }

  lemma NoEntries(l: Lists)
    ensures Entries(l, 0) == []
  {
  }

  // ---------- What the sections say about the text ----------

  /** Where line `i` of the text ends up: its governing section, or the destination of a result line. */
  function Final(host: Host, marks: Markers, lines: seq<string>, i: nat): Section
    requires i < |lines|
  {
    var s := Governing(host, marks, lines, i);
    if s == Result then Destination(host, marks, Parsed(host, marks, lines), lines[i]) else s
  }

  lemma {:induction false} PlacedMembers(host: Host, marks: Markers, lines: seq<string>, s: Section, x: string)
    ensures x in Placed(host, marks, lines, |lines|, s)
            <==> exists i :: 0 <= i < |lines| && lines[i] == x && Heading(host, marks, x).None? && Governing(host, marks, lines, i) == s
  {
    hide Heading, Governing;
    var ks := Positions(PlacedAt(host, marks, lines, s), |lines|);
    var placed := Placed(host, marks, lines, |lines|, s);
    assert |placed| == |ks| && forall a :: 0 <= a < |ks| ==> ks[a] < |lines| && placed[a] == lines[ks[a]];
    hide Positions, Placed, PlacedAt;
    forall i | 0 <= i < |lines|
      ensures i in ks <==> Heading(host, marks, lines[i]).None? && s == Governing(host, marks, lines, i)
    {
      LineInOneSection(host, marks, lines, i, s);
    }
    if x in placed {
      var a :| 0 <= a < |placed| && placed[a] == x;
      assert ks[a] in ks;
    }
    if i :| 0 <= i < |lines| && lines[i] == x && Heading(host, marks, x).None? && Governing(host, marks, lines, i) == s {
      assert i in ks;
      var a :| 0 <= a < |ks| && ks[a] == i;
      assert placed[a] == x;
    }
  }

  /** A line is in a section of the outcome exactly when some occurrence of it in the text ends up there. */
  lemma FinalMembers(host: Host, marks: Markers, lines: seq<string>, s: Section, x: string)
    ensures x in In(Inferred(host, marks, Parsed(host, marks, lines)), s)
            <==> exists i :: 0 <= i < |lines| && lines[i] == x && Heading(host, marks, x).None? && Final(host, marks, lines, i) == s
  {
    hide Heading, Governing, Placed, Hits;
    var l := Parsed(host, marks, lines);
    FilterMembers(l.result, BoundFor(host, marks, l, s));
    PlacedMembers(host, marks, lines, Result, x);
    PlacedMembers(host, marks, lines, s, x);
    assert In(l, s) == Placed(host, marks, lines, |lines|, s);
    if In(l, s) != [] && s != Result {
      assert Destination(host, marks, l, x) != s;
    } else {
      assert s != Result ==> x !in In(l, s);
    }
  }

  /** For every text: a section is reported present exactly when some line that is neither blank nor a heading ends up in it. */
  lemma SectionPresentIff(host: Host, marks: Markers, output: string, k: nat)
    requires k < 4
    ensures var lines := SplitLines(Strip(output));
            && |Sections(host, marks, output)| == 4 && Sections(host, marks, output)[k].section == ORDER[k]
            && (Sections(host, marks, output)[k].present <==>
                exists i :: 0 <= i < |lines| && !Blank(lines[i]) && Heading(host, marks, lines[i]).None? && Final(host, marks, lines, i) == ORDER[k])
  {
    SectionAt(host, marks, output, k);
    PresentInside(host, marks, SplitLines(Strip(output)), ORDER[k]);
    hide Heading, Final, Inferred, Parsed, SplitLines, Strip, Content, Sections;
  }

  lemma SectionAt(host: Host, marks: Markers, output: string, k: nat)
    requires k < 4
    ensures var lines := SplitLines(Strip(output));
            && |Sections(host, marks, output)| == 4
            && Sections(host, marks, output)[k] == if lines == [] then Delivered(ORDER[k], "", false)
                                                   else Entry(Inferred(host, marks, Parsed(host, marks, lines)), ORDER[k])
  {
    SomeLines(Strip(output));
    hide Strip, SplitLines, Parsed, Inferred, Content;
    assert k == 0 || k == 1 || k == 2 || k == 3;
  }

  lemma SomeLines(s: string)
    ensures SplitLines(s) == [] <==> s == ""
  {
  }

  lemma PresentInside(host: Host, marks: Markers, lines: seq<string>, s: Section)
    ensures Content(In(Inferred(host, marks, Parsed(host, marks, lines)), s)) != ""
            <==> exists i :: 0 <= i < |lines| && !Blank(lines[i]) && Heading(host, marks, lines[i]).None? && Final(host, marks, lines, i) == s
  {
    hide Heading, Final, Inferred, Parsed, Blank, Content;
    var inside := In(Inferred(host, marks, Parsed(host, marks, lines)), s);
    PresentIff(inside);
    if a :| 0 <= a < |inside| && !Blank(inside[a]) {
      FinalMembers(host, marks, lines, s, inside[a]);
    }
    if i :| 0 <= i < |lines| && !Blank(lines[i]) && Heading(host, marks, lines[i]).None? && Final(host, marks, lines, i) == s {
      FinalMembers(host, marks, lines, s, lines[i]);
      var a :| 0 <= a < |inside| && inside[a] == lines[i];
    }
  }

  /** Parsing and inference together keep every line that is no heading, each once. */
  lemma ParsingConserves(host: Host, marks: Markers, lines: seq<string>)
    ensures Everything(Inferred(host, marks, Parsed(host, marks, lines))) == multiset(Filter(lines, NoHeading(host, marks)))
  {
    hide Inferred, Placed;
    PlacementConserves(host, marks, lines, |lines|);
    assert lines[..|lines|] == lines;
    InferenceConserves(host, marks, Parsed(host, marks, lines));
  }

  // ---------- Headings and lines by their characters ----------

  lemma IsBreakIff(c: char)
    ensures IsBreak(c) <==> c as int in {10, 11, 12, 13, 28, 29, 30, 133, 8232, 8233}
  {
  }

  /** `t` is what is left of the text when characters of `chars` are taken from both ends. */
  ghost predicate StrippedOf(s: string, chars: set<char>, t: string) {
    && (exists before, after :: s == before + t + after && (forall c :: c in before + after ==> c in chars))
    && (t != "" ==> t[0] !in chars && t[|t| - 1] !in chars)
  }

  ghost predicate SpaceStripped(s: string, t: string) {
    && (exists before, after :: s == before + t + after && forall c :: c in before + after ==> IsSpace(c))
    && (t != "" ==> !IsSpace(t[0]) && !IsSpace(t[|t| - 1]))
  }

  /** The heading a line would be: without white space around it, number signs around that, and colons around the rest, in lower case. */
  ghost predicate TitleOf(host: Host, line: string, title: string) {
    exists a, b, c, d ::
      && SpaceStripped(line, a) && StrippedOf(a, {'#'}, b) && SpaceStripped(b, c) && StrippedOf(c, {':', '\U{ff1a}'}, d) && title == host.lower(d)
  }

  lemma {:induction false} LStripOfIs(s: string, chars: set<char>) returns (before: string)
    ensures var t := LStripOf(s, chars);
            s == before + t && (forall c :: c in before ==> c in chars) && (t != "" ==> t[0] !in chars)
  {
    if s != "" && s[0] in chars {
      var rest := LStripOfIs(s[1..], chars);
      before := [s[0]] + rest;
    } else {
      before := "";
    }
  }

  lemma {:induction false} RStripOfIs(s: string, chars: set<char>) returns (after: string)
    ensures var t := RStripOf(s, chars);
            s == t + after && (forall c :: c in after ==> c in chars) && (t != "" ==> t[|t| - 1] !in chars && t[0] == s[0])
  {
    if s != "" && s[|s| - 1] in chars {
      var rest := RStripOfIs(s[..|s| - 1], chars);
      after := rest + [s[|s| - 1]];
      assert s == s[..|s| - 1] + [s[|s| - 1]];
    } else {
      after := "";
    }
  }

  lemma StripOfIs(s: string, chars: set<char>)
    ensures StrippedOf(s, chars, StripOf(s, chars))
  {
    var before := LStripOfIs(s, chars);
    var after := RStripOfIs(LStripOf(s, chars), chars);
    var t := StripOf(s, chars);
    hide LStripOf, RStripOf;
    assert s == before + t + after;
  }

  lemma {:induction false} LeftSpaces(s: string) returns (before: string)
    ensures s == before + LStrip(s) && (forall c :: c in before ==> IsSpace(c)) && (LStrip(s) != "" ==> !IsSpace(LStrip(s)[0]))
  {
    hide IsSpace;
    if s != "" && IsSpace(s[0]) {
      var rest := LeftSpaces(s[1..]);
      before := [s[0]] + rest;
    } else {
      before := "";
    }
  }

  lemma {:induction false} RightSpaces(s: string) returns (after: string)
    ensures s == RStrip(s) + after && (forall c :: c in after ==> IsSpace(c))
    ensures RStrip(s) != "" ==> !IsSpace(RStrip(s)[|RStrip(s)| - 1]) && RStrip(s)[0] == s[0]
  {
    hide IsSpace;
    if s != "" && IsSpace(s[|s| - 1]) {
      var rest := RightSpaces(s[..|s| - 1]);
      after := rest + [s[|s| - 1]];
      assert s == s[..|s| - 1] + [s[|s| - 1]];
    } else {
      after := "";
    }
  }

  lemma StripIs(s: string)
    ensures SpaceStripped(s, Strip(s))
  {
    var before := LeftSpaces(s);
    var after := RightSpaces(LStrip(s));
    hide IsSpace, LStrip, RStrip;
    assert s == before + Strip(s) + after;
    assert forall c :: c in before + after ==> c in before || c in after;
  }

  lemma TitleIs(host: Host, line: string)
    ensures TitleOf(host, line, Normalized(host, line))
  {
    var a := Strip(line);
    var b := StripOf(a, {'#'});
    var c := Strip(b);
    var d := StripOf(c, {':', '\U{ff1a}'});
    StripIs(line);
    StripOfIs(a, {'#'});
    StripIs(b);
    StripOfIs(c, {':', '\U{ff1a}'});
    assert Normalized(host, line) == host.lower(d);
    hide Strip, StripOf, SpaceStripped, StrippedOf, Normalized;
  }

  ghost predicate BeginsWithWord(title: string, words: seq<string>) {
    exists i, rest :: 0 <= i < |words| && title == words[i] + rest
  }

  ghost predicate IsAWord(title: string, words: seq<string>) {
    exists i :: 0 <= i < |words| && words[i] == title
  }

  /** `h` is the first of the four sections, in their order, for which `f` holds. */
  ghost predicate FirstOf(f: Section -> bool, h: Option<Section>) {
    match h
    case None => !f(Result) && !f(Evidence) && !f(Pending) && !f(Incomplete)
    case Some(Result) => f(Result)
    case Some(Evidence) => !f(Result) && f(Evidence)
    case Some(Pending) => !f(Result) && !f(Evidence) && f(Pending)
    case Some(Incomplete) => !f(Result) && !f(Evidence) && !f(Pending) && f(Incomplete)
  }

  lemma FirstOfIs(f: Section -> bool)
    ensures FirstOf(f, FirstWhere(ORDER, f))
  {
    assert ORDER[1..] == [Evidence, Pending, Incomplete] && ORDER[1..][1..] == [Pending, Incomplete] && ORDER[1..][1..][1..] == [Incomplete];
    assert ORDER[1..][1..][1..][1..] == [];
  }

  lemma BeginsIff(title: string, words: seq<string>)
    ensures StartsWithAny(title, words) <==> BeginsWithWord(title, words)
  {
    if i :| 0 <= i < |words| && words[i] <= title {
      assert title == words[i] + title[|words[i]|..];
    }
    if BeginsWithWord(title, words) {
      var i, rest :| 0 <= i < |words| && title == words[i] + rest;
      assert words[i] <= title;
    }
  }

  /** The section a line is the heading of: the first, in the order result, evidence, pending, incomplete, that has its title for a
      word, or else the first that has a word the title begins with. */
  lemma HeadingTells(host: Host, marks: Markers, line: string) returns (title: string)
    ensures TitleOf(host, line, title)
    ensures var exact := (s: Section) => exists i :: 0 <= i < |marks.heading(s)| && marks.heading(s)[i] == title;
            if exists s :: IsAWord(title, marks.heading(s)) then FirstOf(exact, Heading(host, marks, line))
            else FirstOf(Starts(marks, title), Heading(host, marks, line)) && forall s :: Starts(marks, title)(s) <==> BeginsWithWord(title, marks.heading(s))
  {
    title := Normalized(host, line);
    TitleIs(host, line);
    var exact := (s: Section) => exists i :: 0 <= i < |marks.heading(s)| && marks.heading(s)[i] == title;
    var f, g := Exact(marks, title), Starts(marks, title);
    FirstOfIs(f);
    FirstOfIs(g);
    FirstWhereFinds(ORDER, f);
    forall s ensures f(s) <==> exact(s) ensures exact(s) <==> IsAWord(title, marks.heading(s)) ensures g(s) <==> BeginsWithWord(title, marks.heading(s)) {
      BeginsIff(title, marks.heading(s));
    }
    hide TitleOf, Normalized, BeginsWithWord, FirstWhere;
    if s :| IsAWord(title, marks.heading(s)) {
      assert f(ORDER[Place(s)]);
    }
  }

  // ---------- Splitting into lines ----------

  /** What ends a line: one break, or a carriage return and the line feed after it. */
  ghost predicate EndsLine(gap: string, rest: string) {
    || gap == "\r\n"
    || (|gap| == 1 && gap[0] as int in {10, 11, 12, 13, 28, 29, 30, 133, 8232, 8233} && !(gap == "\r" && rest != "" && rest[0] == '\n'))
  }

  /** The lines of a text: what stands between the line ends, and what follows the last of them unless that is nothing. */
  ghost predicate AreLines(s: string, lines: seq<string>)
    decreases |s|, |lines|
  {
    if lines == [] then s == ""
    else
      && (forall c :: c in lines[0] ==> c as int !in {10, 11, 12, 13, 28, 29, 30, 133, 8232, 8233})
      && ((s == lines[0] != "" && |lines| == 1)
          || exists gap, rest :: |rest| < |s| && s == lines[0] + gap + rest && EndsLine(gap, rest) && AreLines(rest, lines[1..]))
  }

  lemma {:induction false} SplitLinesSay(s: string)
    ensures AreLines(s, SplitLines(s))
    decreases |s|
  {
    if s != "" {
      var k, lines := LineLength(s), SplitLines(s);
      forall c | c in s[..k] ensures c as int !in {10, 11, 12, 13, 28, 29, 30, 133, 8232, 8233} {
        var i :| 0 <= i < |s[..k]| && s[..k][i] == c;
        assert !IsBreak(s[i]);
        IsBreakIff(c);
      }
      if k == |s| {
        assert s[..k] == s;
      } else {
        SplitStep(s);
        var w := BreakWidth(s, k);
        var gap, rest := s[k..k + w], AfterLine(s);
        LineEnds(s, k);
        SplitLinesSay(rest);
        InThree(s, k, k + w);
        hide SplitLines, LineLength, BreakWidth, EndsLine, IsBreak, AreLines;
        OneMoreLine(s, s[..k], gap, rest, SplitLines(rest));
      }
    }
  }

  lemma OneMoreLine(s: string, line: string, gap: string, rest: string, lines: seq<string>)
    requires forall c :: c in line ==> c as int !in {10, 11, 12, 13, 28, 29, 30, 133, 8232, 8233}
    requires |rest| < |s| && s == line + gap + rest && EndsLine(gap, rest) && AreLines(rest, lines)
    ensures AreLines(s, [line] + lines)
  {
    hide EndsLine;
    assert ([line] + lines)[1..] == lines;
  }

  lemma LineEnds(s: string, k: nat)
    requires k < |s| && IsBreak(s[k])
    ensures EndsLine(s[k..k + BreakWidth(s, k)], s[k + BreakWidth(s, k)..])
  {
    IsBreakIff(s[k]);
    var w := BreakWidth(s, k);
    var gap := s[k..k + w];
    if s[k] == '\r' && k + 1 < |s| && s[k + 1] == '\n' {
      assert gap == "\r\n";
    } else {
      assert gap == [s[k]];
    }
  }

  // ---------- Markers and contents ----------

  /** A line is one of a section when it contains, in lower case, one of the section's words. */
  lemma HitsIff(host: Host, marks: Markers, s: Section, line: string)
    ensures Hits(host, marks, s, line) <==> exists i :: 0 <= i < |marks.infer(s)| && Occurs(marks.infer(s)[i], host.lower(line))
  {
    forall part ensures InText(part, host.lower(line)) <==> Occurs(part, host.lower(line)) {
      InTextIff(part, host.lower(line));
    }
    hide InText, Occurs;
  }

  /** The lines that are not blank, one a line. */
  ghost function VisibleText(lines: seq<string>): string {
    if lines == [] then ""
    else
      var front, last := VisibleText(lines[..|lines| - 1]), lines[|lines| - 1];
      if forall c :: c in last ==> IsSpace(c) then front else if front == "" then last else front + "\n" + last
  }

  lemma {:induction false} JoinLinesSnoc(parts: seq<string>, last: string)
    ensures JoinLines(parts + [last]) == if parts == [] then last else JoinLines(parts) + "\n" + last
  {
    if parts != [] {
      assert (parts + [last])[1..] == parts[1..] + [last];
      JoinLinesSnoc(parts[1..], last);
    }
  }

  lemma {:induction false} VisibleIs(lines: seq<string>)
    ensures JoinLines(Visible(lines)) == VisibleText(lines)
    ensures VisibleText(lines) == "" <==> Visible(lines) == []
  {
    if lines != [] {
      var front, last := lines[..|lines| - 1], lines[|lines| - 1];
      VisibleIs(front);
      BlankIff(last);
      JoinLinesSnoc(Visible(front), last);
      assert Visible(lines) == Visible(front) + if Blank(last) then [] else [last];
      assert Visible(front) + [] == Visible(front);
      hide Blank, IsSpace, Visible, JoinLines;
      assert (forall c :: c in last ==> IsSpace(c)) <==> forall i :: 0 <= i < |last| ==> IsSpace(last[i]);
    }
  }

  /** What a section delivers: its lines that are not blank, one a line, stripped. */
  lemma EntrySays(l: Lists, s: Section)
    ensures var e := Entry(l, s);
            e.section == s && SpaceStripped(VisibleText(In(l, s)), e.content) && (e.present <==> e.content != "")
  {
    VisibleIs(In(l, s));
    StripIs(VisibleText(In(l, s)));
    hide Strip, VisibleText, JoinLines, SpaceStripped, Visible;
  }
}
