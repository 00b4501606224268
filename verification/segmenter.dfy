/**
 The text segmenter of the multimodal memory module: sentences are packed
 greedily into segments of at most `targetChars` characters.
 */
module Segmenter {
  import opened Collections
  import opened Text

  datatype Segment = Segment(start: int, end: int, text: string)

  // ---------- Normalisation ----------

  function WordLength(s: string): (n: nat)
    ensures n <= |s| && SpaceFree(s[..n])
    ensures n < |s| ==> IsSpace(s[n])
  {
    if s == [] || IsSpace(s[0]) then 0
    else
      var n := 1 + WordLength(s[1..]);
      assert forall i :: 1 <= i < n ==> s[..n][i] == s[1..][..n - 1][i - 1];
      n
  }

  function Words(s: string): seq<string>
    decreases |s|
  {
    var t := LStrip(s);
    if t == [] then [] else [t[..WordLength(t)]] + Words(t[WordLength(t)..])
  }

  function Normalize(s: string): string {
    Strip(JoinSpace(Words(s)))
  }

  ghost predicate Word(w: string) {
    w != [] && SpaceFree(w)
  }

  ghost predicate AllWords(ws: seq<string>) {
    forall k :: 0 <= k < |ws| ==> Word(ws[k])
  }

  /** Trimmed, and every white space character is a lone blank. */
  ghost predicate Compact(s: string) {
    && Trimmed(s)
    && (forall i :: 0 <= i < |s| && IsSpace(s[i]) ==> s[i] == ' ' && 0 < i < |s| - 1)
    && (forall i, j :: 0 <= i < j < |s| && j == i + 1 && IsSpace(s[i]) ==> !IsSpace(s[j]))
  }

  lemma {:induction false} WordsAreWords(s: string)
    ensures AllWords(Words(s))
    decreases |s|
  {
    var t := LStrip(s);
    LStripMeaning(s);
    if t != [] {
      WordsAreWords(t[WordLength(t)..]);
    }
  }

  lemma {:induction false} JoinedWordsAreCompact(ws: seq<string>)
    requires AllWords(ws)
    ensures Compact(JoinSpace(ws)) && (ws != [] ==> JoinSpace(ws) != [])
  {
    assert IsSpace(' ');
    hide IsSpace;
    if |ws| > 1 {
      JoinedWordsAreCompact(ws[1..]);
      var w, rest := ws[0], JoinSpace(ws[1..]);
      assert Word(w);
      var s := JoinSpace(ws);
      assert s == w + " " + rest;
      assert forall i :: |w| < i < |s| ==> s[i] == rest[i - |w| - 1];
      assert forall i :: 0 <= i < |w| ==> s[i] == w[i];
      assert s[|w| + 1] == rest[0];
    } else if |ws| == 1 {
      assert Word(ws[0]);
    }
  }

  lemma {:induction false} WordLengthIs(s: string, n: nat)
    requires n <= |s| && SpaceFree(s[..n]) && (n < |s| ==> IsSpace(s[n]))
    ensures WordLength(s) == n
  {
    hide IsSpace;
    if n > 0 {
      assert s[..n][0] == s[0];
      assert s[1..][..n - 1] == s[..n][1..];
      WordLengthIs(s[1..], n - 1);
    }
  }

  lemma FirstWord(w: string, tail: string)
    requires Word(w) && (tail != [] ==> IsSpace(tail[0]))
    ensures Words(w + tail) == [w] + Words(tail)
  {
    hide IsSpace;
    var s := w + tail;
    assert s[0] == w[0];
    assert LStrip(s) == s;
    assert s[..|w|] == w && s[|w|..] == tail;
    WordLengthIs(s, |w|);
  }

  lemma FirstOfMany(w: string, rest: string)
    requires Word(w)
    ensures Words(w + " " + rest) == [w] + Words(rest)
  {
    var tail := " " + rest;
    assert tail[1..] == rest;
    assert LStrip(tail) == LStrip(rest);
    assert Words(tail) == Words(rest);
    FirstWord(w, tail);
    assert w + tail == w + " " + rest;
  }

  lemma {:induction false} WordsOfJoin(ws: seq<string>)
    requires AllWords(ws)
    ensures Words(JoinSpace(ws)) == ws
  {
    if ws != [] {
      var w := ws[0];
      assert Word(w);
      WordsOfJoin(ws[1..]);
      assert ws == [w] + ws[1..];
      if |ws| == 1 {
        FirstWord(w, "");
        assert w + "" == w;
      } else {
        FirstOfMany(w, JoinSpace(ws[1..]));
      }
    }
  }

  lemma NormalizeForm(s: string)
    ensures Normalize(s) == JoinSpace(Words(s)) && Compact(Normalize(s))
  {
    WordsAreWords(s);
    JoinedWordsAreCompact(Words(s));
    StripTrimmed(JoinSpace(Words(s)));
  }

  /** Normalising keeps exactly the words of the text, one blank apart, and is idempotent. */
  lemma NormalizeSound(s: string)
    ensures Words(Normalize(s)) == Words(s)
    ensures Normalize(Normalize(s)) == Normalize(s)
    ensures Normalize(s) == [] <==> Words(s) == []
  {
    NormalizeForm(s);
    WordsAreWords(s);
    WordsOfJoin(Words(s));
    JoinedWordsAreCompact(Words(s));
  }

  // ---------- Sentences ----------

  predicate Terminator(c: char) {
    c in "\U{3002}\U{ff01}\U{ff1f}.!?"
  }

  /** A split point of the pattern: white space directly after a terminator. */
  predicate SplitPoint(s: string, i: nat)
    requires i < |s|
  {
    0 < i && IsSpace(s[i]) && Terminator(s[i - 1])
  }

  function NextSplit(s: string, from: nat): (i: nat)
    requires from <= |s|
    ensures from <= i <= |s|
    ensures forall j :: from <= j < i ==> !SplitPoint(s, j)
    ensures i < |s| ==> SplitPoint(s, i)
    decreases |s| - from
  {
    if from == |s| || SplitPoint(s, from) then from else NextSplit(s, from + 1)
  }

  /** `re.split` at white space runs preceded by a terminator. */
  function SplitAfterTerminators(s: string): (pieces: seq<string>)
    ensures pieces != []
    decreases |s|
  {
    var i := NextSplit(s, 0);
    if i == |s| then [s] else [s[..i]] + SplitAfterTerminators(LStrip(s[i..]))
  }

  function StripAll(pieces: seq<string>): seq<string> {
    if pieces == [] then []
    else (if Strip(pieces[0]) != [] then [Strip(pieces[0])] else []) + StripAll(pieces[1..])
  }

  function Sentences(compact: string): seq<string> {
    var found := StripAll(SplitAfterTerminators(compact));
    if found == [] then [compact] else found
  }

  /** A sentence: trimmed, not empty, and with no split point inside. */
  ghost predicate Sentence(s: string) {
    s != [] && Trimmed(s) && forall i :: 0 <= i < |s| ==> !SplitPoint(s, i)
  }

  ghost predicate Terminated(s: string) {
    s != [] && Terminator(s[|s| - 1])
  }

  /** Every entry is a sentence, and all but the last end in a terminator. */
  ghost predicate SentenceList(ss: seq<string>) {
    && (forall k :: 0 <= k < |ss| ==> Sentence(ss[k]))
    && (forall k :: 0 <= k < |ss| - 1 ==> Terminated(ss[k]))
  }

  lemma CompactTail(s: string, i: nat)
    requires Compact(s) && i < |s| && SplitPoint(s, i)
    ensures i + 1 < |s| && Compact(s[i + 1..]) && LStrip(s[i..]) == s[i + 1..]
  {
    hide IsSpace;
    assert s[i..][0] == s[i] && s[i..][1..] == s[i + 1..];
    assert s[i + 1..][0] == s[i + 1];
  }

  lemma SentenceHead(s: string, i: nat)
    requires Compact(s) && i < |s| && SplitPoint(s, i)
    requires forall j :: 0 <= j < i ==> !SplitPoint(s, j)
    ensures Sentence(s[..i]) && Terminated(s[..i])
  {
    hide IsSpace, Terminator;
    var head := s[..i];
    assert head[i - 1] == s[i - 1] && head[0] == s[0];
    forall j | 0 <= j < |head| ensures !SplitPoint(head, j) {
      assert !SplitPoint(s, j);
    }
  }

  lemma CutAtSplit(s: string, i: nat)
    requires Compact(s) && i == NextSplit(s, 0) < |s|
    ensures LStrip(s[i..]) == s[i + 1..] != [] && Compact(s[i + 1..])
    ensures Sentence(s[..i]) && Terminated(s[..i])
    ensures s == s[..i] + " " + s[i + 1..]
  {
    assert SplitPoint(s, i) && s[i] == ' ';
    hide SplitPoint, IsSpace, Compact, Sentence, Terminated, Trimmed;
    CompactTail(s, i);
    SentenceHead(s, i);
    SplitAtBlank(s, i);
  }

  lemma SplitAtBlank(s: string, i: nat)
    requires i < |s| && s[i] == ' '
    ensures s == s[..i] + " " + s[i + 1..]
  {
  }

  lemma {:induction false} PiecesAreSentences(s: string)
    requires Compact(s) && s != []
    ensures JoinSpace(SplitAfterTerminators(s)) == s
    ensures SentenceList(SplitAfterTerminators(s))
    decreases |s|
  {
    var i := NextSplit(s, 0);
    if i < |s| {
      CutAtSplit(s, i);
      PiecesAreSentences(s[i + 1..]);
      PrependSentence(s[..i], SplitAfterTerminators(s[i + 1..]));
    }
  }

  lemma PrependSentence(head: string, ss: seq<string>)
    requires Sentence(head) && Terminated(head) && SentenceList(ss) && ss != []
    ensures SentenceList([head] + ss) && JoinSpace([head] + ss) == head + " " + JoinSpace(ss)
  {
    hide Sentence, Terminated;
    var all := [head] + ss;
    assert all[1..] == ss;
    assert forall k :: 1 <= k < |all| ==> all[k] == ss[k - 1];
  }

  lemma {:induction false} StripAllKeeps(ps: seq<string>)
    requires forall k :: 0 <= k < |ps| ==> ps[k] != [] && Trimmed(ps[k])
    ensures StripAll(ps) == ps
  {
    hide IsSpace, LStrip, RStrip;
    if ps != [] {
      StripTrimmed(ps[0]);
      StripAllKeeps(ps[1..]);
    }
  }

  /**
   The sentences are the text cut at exactly the blanks that follow a terminator:
   nothing is lost, no sentence has a cut inside, every cut is at a terminator.
   */
  lemma SentencesSound(text: string)
    requires Normalize(text) != []
    ensures Sentences(Normalize(text)) != []
    ensures JoinSpace(Sentences(Normalize(text))) == Normalize(text)
    ensures SentenceList(Sentences(Normalize(text)))
  {
    NormalizeForm(text);
    var pieces := SplitAfterTerminators(Normalize(text));
    PiecesAreSentences(Normalize(text));
    assert forall k :: 0 <= k < |pieces| ==> Sentence(pieces[k]);
    StripAllKeeps(pieces);
  }

  // ---------- Greedy packing ----------

  /** A group of sentences a segment may hold: one sentence, or few enough characters. */
  ghost predicate Admissible(group: seq<string>, target: int) {
    |group| == 1 || (|group| > 1 && |JoinSpace(group)| <= target)
  }

  ghost predicate Grouping(groups: seq<seq<string>>, ss: seq<string>, target: int) {
    Concat(groups) == ss && forall g :: g in groups ==> Admissible(g, target)
  }

  /** How far a group of the first `k` sentences grows. */
  function Extend(ss: seq<string>, k: nat, target: int): (r: nat)
    requires 1 <= k <= |ss|
    ensures k <= r <= |ss|
    ensures r > k ==> |JoinSpace(ss[..r])| <= target
    ensures r < |ss| ==> |JoinSpace(ss[..r + 1])| > target
    decreases |ss| - k
  {
    if k < |ss| && |JoinSpace(ss[..k + 1])| <= target then Extend(ss, k + 1, target) else k
  }

  function Groups(ss: seq<string>, target: int): seq<seq<string>>
    decreases |ss|
  {
    if ss == [] then []
    else
      var k := Extend(ss, 1, target);
      [ss[..k]] + Groups(ss[k..], target)
  }

  lemma {:induction false} GroupsAreGrouping(ss: seq<string>, target: int)
    ensures Grouping(Groups(ss, target), ss, target)
    decreases |ss|
  {
    if ss != [] {
      var k := Extend(ss, 1, target);
      GroupsAreGrouping(ss[k..], target);
      assert ss == ss[..k] + ss[k..];
    }
  }

  lemma {:induction false} JoinGrows(ss: seq<string>, j: nat, k: nat)
    requires 0 < j <= k <= |ss|
    ensures |JoinSpace(ss[..j])| <= |JoinSpace(ss[..k])|
  {
    if j < k {
      assert ss[..k] == ss[..j] + ss[j..k];
      JoinSpaceAppend(ss[..j], ss[j..k]);
    }
  }

  /** The greedy first group is the longest admissible prefix. */
  lemma FirstGroupIsLongest(ss: seq<string>, m: nat, target: int)
    requires 1 <= m <= |ss| && Admissible(ss[..m], target)
    ensures m <= Extend(ss, 1, target)
  {
    var k := Extend(ss, 1, target);
    if k < m {
      JoinGrows(ss, k + 1, m);
    }
  }

  /** If the greedy first group has `k` sentences, then after dropping `d < k` of them it still reaches at least as far. */
  lemma FirstGroupReaches(ss: seq<string>, d: nat, target: int)
    requires ss != [] && d < Extend(ss, 1, target)
    ensures Extend(ss, 1, target) <= d + Extend(ss[d..], 1, target)
  {
    var k, t := Extend(ss, 1, target), ss[d..];
    if 0 < d {
      assert ss[..k] == ss[..d] + t[..k - d];
      JoinSpaceAppend(ss[..d], t[..k - d]);
    } else {
      assert t == ss;
    }
    FirstGroupIsLongest(t, k - d, target);
  }

  /** Dropping leading sentences never costs a segment. */
  lemma {:induction false} FewerSentencesFewerGroups(ss: seq<string>, d: nat, target: int)
    requires d <= |ss|
    ensures |Groups(ss[d..], target)| <= |Groups(ss, target)|
    decreases |ss|, d
  {
    hide JoinSpace, Extend;
    if 0 < d {
      var k := Extend(ss, 1, target);
      if k <= d {
        FewerSentencesFewerGroups(ss[k..], d - k, target);
        DropDrop(ss, k, d);
      } else {
        FirstGroupReaches(ss, d, target);
        var e := d + Extend(ss[d..], 1, target);
        FewerSentencesFewerGroups(ss[k..], e - k, target);
        DropDrop(ss, k, e);
        DropDrop(ss, d, e);
      }
    } else {
      assert ss[0..] == ss;
    }
  }

  /** Greedy packing uses the fewest segments of all admissible groupings. */
  lemma {:induction false} GreedyIsOptimal(ss: seq<string>, other: seq<seq<string>>, target: int)
    requires Grouping(other, ss, target)
    ensures |Groups(ss, target)| <= |other|
    decreases |other|
  {
    if other != [] {
      var g, m := other[0], |other[0]|;
      assert Admissible(g, target);
      assert ss == g + Concat(other[1..]);
      assert ss[..m] == g && ss[m..] == Concat(other[1..]);
      FirstGroupIsLongest(ss, m, target);
      hide JoinSpace, Extend;
      var k := Extend(ss, 1, target);
      GreedyIsOptimal(ss[m..], other[1..], target);
      DropDrop(ss, m, k);
      FewerSentencesFewerGroups(ss[m..], k - m, target);
    }
  }

  // ---------- Offsets ----------

  /** Characters the sentences take up, each followed by one separator. */
  function Span(ss: seq<string>): nat {
    if ss == [] then 0 else |ss[0]| + 1 + Span(ss[1..])
  }

  /** Where the group really begins in the joined text. */
  function TrueStart(groups: seq<seq<string>>, j: nat): nat
    requires j <= |groups|
  {
    Span(Concat(groups[..j]))
  }

  /** The segment reported for group `j`: from the second one on, the start is short by the first sentence and its separator. */
  function Reported(groups: seq<seq<string>>, j: nat): Segment
    requires j < |groups| && groups[j] != []
  {
    var text := JoinSpace(groups[j]);
    var start := TrueStart(groups, j) - (if j == 0 then 0 else |groups[j][0]| + 1);
    Segment(start, start + |text|, text)
  }

  lemma {:induction false} SpanAppend(a: seq<string>, b: seq<string>)
    ensures Span(a + b) == Span(a) + Span(b)
  {
    if a == [] {
      assert a + b == b;
    } else {
      assert (a + b)[1..] == a[1..] + b;
      SpanAppend(a[1..], b);
    }
  }

  lemma {:induction false} SpanIsJoinLength(ss: seq<string>)
    requires ss != []
    ensures Span(ss) == |JoinSpace(ss)| + 1
  {
    if |ss| > 1 {
      SpanIsJoinLength(ss[1..]);
    }
  }

  /** In the packing loop: `groups` cover the sentences before `b`, and the greedy group from `b` reaches `i` at least. */
  ghost predicate Packing(ss: seq<string>, groups: seq<seq<string>>, b: nat, i: nat, target: int) {
    && b <= i <= |ss| && (b < i || i == 0)
    && (b == 0 <==> groups == [])
    && Concat(groups) == ss[..b]
    && groups + Groups(ss[b..], target) == Groups(ss, target)
    && (b < i ==> Extend(ss[b..], 1, target) == Extend(ss[b..], i - b, target))
  }

  ghost predicate Recorded(groups: seq<seq<string>>, segments: seq<Segment>) {
    && |segments| == |groups|
    && forall j :: 0 <= j < |groups| ==> groups[j] != [] && segments[j] == Reported(groups, j)
  }

  /** The variables of the packing loop after `i` sentences, the open group beginning at `b`. */
  ghost predicate LoopState(ss: seq<string>, target: int, groups: seq<seq<string>>, b: nat, i: nat,
                            segments: seq<Segment>, current: string, startOffset: int, cursor: int)
  {
    && Packing(ss, groups, b, i, target)
    && Recorded(groups, segments)
    && current == JoinSpace(ss[b..i]) && (current == "" <==> i == 0)
    && cursor == Span(ss[..i])
    && (b < i ==> startOffset == Span(ss[..b]) - (if b == 0 then 0 else |ss[b]| + 1))
  }

  /** Packing loop over the sentences, with the offsets exactly as the loop computes them. */
  method PackSentences(sentences: seq<string>, targetChars: int) returns (segments: seq<Segment>)
    requires forall k :: 0 <= k < |sentences| ==> sentences[k] != []
    ensures Recorded(Groups(sentences, targetChars), segments)
  {
    segments := [];
    var current, startOffset, cursor := "", 0, 0;
    ghost var groups: seq<seq<string>> := [];
    ghost var b := 0;  // first sentence of the open group
    LoopBegins(sentences, targetChars);
    hide *;
    for i := 0 to |sentences|
      invariant LoopState(sentences, targetChars, groups, b, i, segments, current, startOffset, cursor)
    {
      var sentence := sentences[i];
      if current == "" {
        FirstSentence(sentences, targetChars, groups, b, i, segments, current, startOffset, cursor);
        startOffset := cursor;
        current := sentence;
      } else if |current| + 1 + |sentence| <= targetChars {
        GrowGroup(sentences, targetChars, groups, b, i, segments, current, startOffset, cursor);
        current := current + " " + sentence;
      } else {
        NextGroup(sentences, targetChars, groups, b, i, segments, current, startOffset, cursor);
        segments := segments + [Segment(startOffset, startOffset + |current|, current)];
        startOffset := cursor - |sentence| - 1;
        current := sentence;
        groups, b := groups + [sentences[b..i]], i;
      }
      cursor := cursor + |sentence| + 1;
    }
    LoopEnds(sentences, targetChars, groups, b, segments, current, startOffset, cursor);
    if current != "" {
      segments := segments + [Segment(startOffset, startOffset + |current|, current)];
    }
  }

  lemma LoopBegins(ss: seq<string>, target: int)
    ensures LoopState(ss, target, [], 0, 0, [], "", 0, 0)
  {
    assert ss[0..] == ss;
  }

  lemma NextSentence(ss: seq<string>, b: nat, i: nat)
    requires b <= i < |ss|
    ensures Span(ss[..i + 1]) == Span(ss[..i]) + |ss[i]| + 1
    ensures JoinSpace(ss[i..i + 1]) == ss[i]
    ensures b < i ==> JoinSpace(ss[b..i + 1]) == JoinSpace(ss[b..i]) + " " + ss[i]
  {
    assert ss[..i + 1] == ss[..i] + [ss[i]];
    SpanAppend(ss[..i], [ss[i]]);
    if b < i {
      assert ss[b..i + 1] == ss[b..i] + [ss[i]];
      JoinSpaceAppend(ss[b..i], [ss[i]]);
    }
  }

  lemma FirstSentence(ss: seq<string>, target: int, groups: seq<seq<string>>, b: nat, i: nat,
                      segments: seq<Segment>, current: string, startOffset: int, cursor: int)
    requires i < |ss| && ss[i] != [] && current == ""
    requires LoopState(ss, target, groups, b, i, segments, current, startOffset, cursor)
    ensures LoopState(ss, target, groups, b, i + 1, segments, ss[i], cursor, cursor + |ss[i]| + 1)
  {
    NextSentence(ss, b, i);
    hide JoinSpace, Groups, Reported;
  }

  lemma GrowGroup(ss: seq<string>, target: int, groups: seq<seq<string>>, b: nat, i: nat,
                  segments: seq<Segment>, current: string, startOffset: int, cursor: int)
    requires i < |ss| && current != "" && |current| + 1 + |ss[i]| <= target
    requires LoopState(ss, target, groups, b, i, segments, current, startOffset, cursor)
    ensures LoopState(ss, target, groups, b, i + 1, segments, current + " " + ss[i], startOffset, cursor + |ss[i]| + 1)
  {
    NextSentence(ss, b, i);
    hide JoinSpace, Groups, Reported, Span;
    assert ss[b..][..i - b + 1] == ss[b..i + 1];
  }

  /** The open group [b, i) is complete. */
  lemma NextGroup(ss: seq<string>, target: int, groups: seq<seq<string>>, b: nat, i: nat,
                  segments: seq<Segment>, current: string, startOffset: int, cursor: int)
    requires i < |ss| && ss[i] != [] && current != "" && |current| + 1 + |ss[i]| > target
    requires LoopState(ss, target, groups, b, i, segments, current, startOffset, cursor)
    ensures b < i
    ensures LoopState(ss, target, groups + [ss[b..i]], i, i + 1,
                      segments + [Segment(startOffset, startOffset + |current|, current)],
                      ss[i], cursor - |ss[i]| - 1, cursor + |ss[i]| + 1)
  {
    NextSentence(ss, b, i);
    GroupCloses(ss, groups, b, i, target);
    RecordGroup(ss, groups, segments, startOffset, b, i);
    hide JoinSpace, Groups, Reported, Span, Packing, Recorded;
  }

  lemma LoopEnds(ss: seq<string>, target: int, groups: seq<seq<string>>, b: nat,
                 segments: seq<Segment>, current: string, startOffset: int, cursor: int)
    requires LoopState(ss, target, groups, b, |ss|, segments, current, startOffset, cursor)
    ensures current == "" ==> Recorded(Groups(ss, target), segments)
    ensures current != "" ==>
              Recorded(Groups(ss, target), segments + [Segment(startOffset, startOffset + |current|, current)])
  {
    if current != "" {
      GroupCloses(ss, groups, b, |ss|, target);
      RecordGroup(ss, groups, segments, startOffset, b, |ss|);
      hide *;
    } else {
      NoGroups(target);
      assert ss == [] && groups == [];
      hide *;
    }
  }

  lemma RecordGroup(ss: seq<string>, groups: seq<seq<string>>, segments: seq<Segment>, start: int, b: nat, i: nat)
    requires b < i <= |ss| && Recorded(groups, segments)
    requires Concat(groups) == ss[..b] && (b == 0 <==> groups == [])
    requires start == Span(ss[..b]) - (if b == 0 then 0 else |ss[b]| + 1)
    ensures var text := JoinSpace(ss[b..i]);
            Recorded(groups + [ss[b..i]], segments + [Segment(start, start + |text|, text)])
  {
    hide JoinSpace, Span;
    var more, text := groups + [ss[b..i]], JoinSpace(ss[b..i]);
    var after := segments + [Segment(start, start + |text|, text)];
    assert more[..|groups|] == groups;
    forall j | 0 <= j < |more| ensures more[j] != [] && after[j] == Reported(more, j) {
      if j < |groups| {
        assert more[..j] == groups[..j];
        assert groups[j] != [] && segments[j] == Reported(groups, j);
      }
    }
  }

  lemma NoGroups(target: int)
    ensures Groups([], target) == []
  {
  }

  lemma GreedyGroup(ss: seq<string>, b: nat, i: nat, target: int)
    requires b < i <= |ss| && Extend(ss[b..], 1, target) == Extend(ss[b..], i - b, target)
    requires i < |ss| ==> |JoinSpace(ss[b..i + 1])| > target
    ensures Groups(ss[b..], target) == [ss[b..i]] + Groups(ss[i..], target)
  {
    var open := ss[b..];
    assert open[..i - b] == ss[b..i];
    DropDrop(ss, b, i);
    if i < |ss| {
      assert open[..i - b + 1] == ss[b..i + 1];
    }
    assert Extend(open, i - b, target) == i - b;
  }

  lemma GroupCloses(ss: seq<string>, groups: seq<seq<string>>, b: nat, i: nat, target: int)
    requires b < i && Packing(ss, groups, b, i, target)
    requires i < |ss| ==> |JoinSpace(ss[b..i + 1])| > target
    ensures var more := groups + [ss[b..i]];
            if i < |ss| then Packing(ss, more, i, i + 1, target) else more == Groups(ss, target)
  {
    hide JoinSpace, Extend, Groups, Concat;
    GreedyGroup(ss, b, i, target);
    ConcatSnoc(groups, ss[b..i]);
    assert ss[..b] + ss[b..i] == ss[..i];
    var g, rest := [ss[b..i]], Groups(ss[i..], target);
    assert groups + g + rest == groups + (g + rest);
    if i == |ss| {
      NoGroups(target);
      assert ss[i..] == [];
    }
  }

  /** The segmenter: nothing for blank text, otherwise the greedy groups of its sentences. */
  method SegmentText(text: string, targetChars: int) returns (segments: seq<Segment>)
    ensures Normalize(text) == [] ==> segments == []
    ensures Normalize(text) != [] ==>
              Recorded(Groups(Sentences(Normalize(text)), targetChars), segments)
  {
    var compact := Normalize(text);
    if compact == [] {
      return [];
    }
    SentencesSound(text);
    segments := PackSentences(Sentences(compact), targetChars);
  }

  // ---------- What the segments mean for the text ----------

  function Texts(groups: seq<seq<string>>): seq<string> {
    if groups == [] then [] else [JoinSpace(groups[0])] + Texts(groups[1..])
  }

  lemma {:induction false} JoinOfTexts(groups: seq<seq<string>>)
    requires forall g :: g in groups ==> g != []
    ensures JoinSpace(Texts(groups)) == JoinSpace(Concat(groups))
    ensures groups != [] ==> Concat(groups) != [] && Texts(groups) != []
  {
    if groups != [] {
      assert groups[0] in groups && forall g :: g in groups[1..] ==> g in groups;
      JoinOfTexts(groups[1..]);
      if |groups| > 1 {
        JoinSpaceAppend(groups[0], Concat(groups[1..]));
      } else {
        assert groups[0] + [] == groups[0];
      }
    }
  }

  /** Joining the segment texts with single blanks gives back the normalised text, and each segment is admissible. */
  lemma SegmentationIsLossless(text: string, target: int)
    requires Normalize(text) != []
    ensures var groups := Groups(Sentences(Normalize(text)), target);
            && JoinSpace(Texts(groups)) == Normalize(text)
            && forall g :: g in groups ==> |JoinSpace(g)| <= target || (|g| == 1 && Sentence(g[0]))
  {
    SentencesSound(text);
    var ss := Sentences(Normalize(text));
    GroupsAreGrouping(ss, target);
    var groups := Groups(ss, target);
    JoinOfTexts(groups);
    forall g | g in groups ensures |JoinSpace(g)| <= target || (|g| == 1 && Sentence(g[0])) {
      if |g| == 1 {
        MemberOfConcat(groups, g);
        assert g[0] in ss;
      }
    }
  }

  lemma {:induction false} MemberOfConcat<T>(parts: seq<seq<T>>, p: seq<T>)
    requires p in parts
    ensures forall x :: x in p ==> x in Concat(parts)
  {
    if p != parts[0] {
      MemberOfConcat(parts[1..], p);
    }
  }

  /** Cut at their true starts, the segments are slices of the text, one separator apart. */
  lemma TrueStartsAreSlices(text: string, target: int, j: nat)
    requires Normalize(text) != []
    requires j < |Groups(Sentences(Normalize(text)), target)|
    ensures var groups := Groups(Sentences(Normalize(text)), target);
            var at, len := TrueStart(groups, j), |JoinSpace(groups[j])|;
            && at + len <= |Normalize(text)|
            && Normalize(text)[at..at + len] == JoinSpace(groups[j])
            && TrueStart(groups, j + 1) == at + len + 1
            && (j + 1 == |groups| ==> at + len == |Normalize(text)|)
  {
    SentencesSound(text);
    var ss := Sentences(Normalize(text));
    GroupsAreGrouping(ss, target);
    assert Admissible(Groups(ss, target)[j], target);
    GroupsAreSlices(ss, Groups(ss, target), j);
  }

  lemma GroupsAreSlices(ss: seq<string>, groups: seq<seq<string>>, j: nat)
    requires Concat(groups) == ss && j < |groups| && groups[j] != []
    ensures var at, len := TrueStart(groups, j), |JoinSpace(groups[j])|;
            && at + len <= |JoinSpace(ss)|
            && JoinSpace(ss)[at..at + len] == JoinSpace(groups[j])
            && TrueStart(groups, j + 1) == at + len + 1
            && (j + 1 == |groups| ==> at + len == |JoinSpace(ss)|)
  {
    hide JoinSpace, Span;
    var before, g, after := Concat(groups[..j]), groups[j], Concat(groups[j + 1..]);
    ConcatAt(groups, j);
    SpanAppend(before, g);
    SpanIsJoinLength(g);
    JoinOfPart(before, g, after);
    if j + 1 == |groups| {
      NothingAfter(groups);
    }
  }

  lemma ConcatAt<T>(parts: seq<seq<T>>, j: nat)
    requires j < |parts|
    ensures Concat(parts) == Concat(parts[..j]) + (parts[j] + Concat(parts[j + 1..]))
    ensures Concat(parts[..j + 1]) == Concat(parts[..j]) + parts[j]
  {
    assert parts == parts[..j] + parts[j..] && parts[j..] == [parts[j]] + parts[j + 1..];
    ConcatAppend(parts[..j], parts[j..]);
    assert parts[..j + 1] == parts[..j] + [parts[j]];
    ConcatSnoc(parts[..j], parts[j]);
  }

  lemma NothingAfter<T>(parts: seq<seq<T>>)
    ensures Concat(parts[|parts|..]) == []
  {
  }

  lemma JoinOfPart(before: seq<string>, g: seq<string>, after: seq<string>)
    requires g != []
    ensures var s, at, len := JoinSpace(before + (g + after)), Span(before), |JoinSpace(g)|;
            && at + len <= |s| && s[at..at + len] == JoinSpace(g)
            && (after == [] ==> at + len == |s|)
  {
    var tail := JoinSpace(g + after);
    assert JoinSpace(g) <= tail && (after == [] ==> tail == JoinSpace(g)) by {
      if after == [] { assert g + after == g; } else { JoinSpaceAppend(g, after); }
    }
    if before == [] {
      assert before + (g + after) == g + after;
    } else {
      JoinSpaceAppend(before, g + after);
      SpanIsJoinLength(before);
    }
  }

  /** The reported interval of every segment but the first is too low by its first sentence's length plus one. */
  lemma ReportedOffsetError(text: string, target: int, j: nat)
    requires Normalize(text) != []
    requires j < |Groups(Sentences(Normalize(text)), target)|
    ensures var groups := Groups(Sentences(Normalize(text)), target);
            && groups[j] != [] && groups[j][0] != []
            && var s := Reported(groups, j);
            && s.end - s.start == |s.text|
            && TrueStart(groups, j) - s.start == (if j == 0 then 0 else |groups[j][0]| + 1)
  {
    SentencesSound(text);
    var ss := Sentences(Normalize(text));
    GroupsAreGrouping(ss, target);
    var groups := Groups(ss, target);
    assert Admissible(groups[j], target);
    MemberOfConcat(groups, groups[j]);
    assert groups[j][0] in ss;
  }

  ghost predicate OffsetsAreTrue(groups: seq<seq<string>>) {
    forall j :: 0 <= j < |groups| ==> groups[j] != [] && Reported(groups, j).start == TrueStart(groups, j)
  }

  /** All reported offsets are right exactly when the text fits one segment: it is short enough or a single sentence. */
  lemma OffsetsRightIff(text: string, target: int)
    requires Normalize(text) != []
    ensures OffsetsAreTrue(Groups(Sentences(Normalize(text)), target)) <==>
            |Normalize(text)| <= target || |Sentences(Normalize(text))| == 1
  {
    SentencesSound(text);
    PackedOffsetsRightIff(Sentences(Normalize(text)), target);
  }

  lemma PackedOffsetsRightIff(ss: seq<string>, target: int)
    requires ss != []
    ensures OffsetsAreTrue(Groups(ss, target)) <==> |JoinSpace(ss)| <= target || |ss| == 1
  {
    var groups := Groups(ss, target);
    var k := Extend(ss, 1, target);
    assert groups == [ss[..k]] + Groups(ss[k..], target);
    if k == |ss| {
      assert ss[..k] == ss;
      assert groups == [ss];
    } else {
      assert |JoinSpace(ss[..k + 1])| > target;
      JoinGrows(ss, k + 1, |ss|);
      assert ss[..|ss|] == ss;
      GroupsAreGrouping(ss, target);
      assert Admissible(groups[1], target);
      assert Reported(groups, 1).start != TrueStart(groups, 1);
    }
  }

  /** The second reported start is the first segment's length minus that of the second segment's own first sentence: negative
      exactly when that sentence is longer than the whole first segment. */
  lemma SecondStart(text: string, target: int)
    requires Normalize(text) != []
    requires |Groups(Sentences(Normalize(text)), target)| >= 2
    ensures var groups := Groups(Sentences(Normalize(text)), target);
            && groups[0] != [] && groups[1] != []
            && Reported(groups, 1).start == |JoinSpace(groups[0])| - |groups[1][0]|
            && (Reported(groups, 1).start < 0 <==> |JoinSpace(groups[0])| < |groups[1][0]|)
  {
    var groups := Groups(Sentences(Normalize(text)), target);
    ReportedOffsetError(text, target, 0);
    ReportedOffsetError(text, target, 1);
    assert groups[..1] == [groups[0]];
    assert Concat([groups[0]]) == groups[0] + Concat<string>([]) == groups[0];
    SpanIsJoinLength(groups[0]);
    assert TrueStart(groups, 1) == Span(groups[0]);
  }

  lemma SentencesOfTwo(a: string, b: string)
    requires Word(a) && Terminated(a) && Word(b)
    ensures Normalize(a + " " + b) == a + " " + b && Sentences(a + " " + b) == [a, b]
  {
    var text, ws := a + " " + b, [a, b];
    assert ws[1..] == [b];
    assert JoinSpace(ws) == text;
    WordsOfJoin(ws);
    NormalizeForm(text);
    var i := |a|;
    assert SplitPoint(text, i);
    assert forall j :: 0 <= j < i ==> text[j] == a[j] && !SplitPoint(text, j);
    assert NextSplit(text, 0) == i;
    assert text[..i] == a && text[i..] == " " + b && (" " + b)[1..] == b;
    assert LStrip(text[i..]) == LStrip(b) == b;
    assert NextSplit(b, 0) == |b|;
    assert SplitAfterTerminators(text) == [a] + SplitAfterTerminators(b) == [a, b];
    var pieces := SplitAfterTerminators(text);
    assert pieces == [a, b];
    StripAllKeeps(pieces);
    assert Sentences(text) == pieces;
  }

  /** For every target some text gets a negative start. */
  lemma ReportedStartCanBeNegative(target: nat) returns (text: string)
    ensures Normalize(text) != []
    ensures var groups := Groups(Sentences(Normalize(text)), target);
            |groups| >= 2 && groups[1] != [] && Reported(groups, 1).start < 0
  {
    var long := seq(target + 3, _ => 'b');
    text := "a." + " " + long;
    SentencesOfTwo("a.", long);
    var ss := ["a.", long];
    assert ss[..2] == ss && ss[..1] == ["a."] && ss[1..] == [long];
    assert |JoinSpace(ss)| > target;
    assert Extend(ss, 1, target) == 1;
    assert [long][..1] == [long] && [long][1..] == [];
    assert Groups([long], target) == [[long]] + Groups([], target);
    assert Groups(ss, target) == [["a."], [long]];
    SecondStart(text, target);
    assert JoinSpace(["a."]) == "a.";
  }

  /** Sentences end in a full stop, exclamation or question mark, ASCII or full width. */
  lemma TerminatorIff(c: char)
    ensures Terminator(c) <==> c as int in {33, 46, 63, 0x3002, 0xff01, 0xff1f}
  {
    var all := "\U{3002}\U{ff01}\U{ff1f}.!?";
    assert all[0] as int == 0x3002 && all[1] as int == 0xff01 && all[2] as int == 0xff1f && all[3] as int == 46 && all[4] as int == 33
           && all[5] as int == 63;
    if c as int in {33, 46, 63, 0x3002, 0xff01, 0xff1f} {
      assert c == all[0] || c == all[1] || c == all[2] || c == all[3] || c == all[4] || c == all[5];
    }
  }
}
