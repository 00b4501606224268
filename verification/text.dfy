/**
 The string operations the models share: white space as Python's `str.split`,
 `str.strip` and the regular-expression class `\s` see it, and joining.
 */
module Text {

  /** The characters for which `str.isspace` holds. */
  predicate IsSpace(c: char) {
    || '\U{9}' <= c <= '\U{d}'
    || '\U{1c}' <= c <= ' '
    || c == '\U{85}' || c == '\U{a0}' || c == '\U{1680}'
    || '\U{2000}' <= c <= '\U{200a}'
    || c == '\U{2028}' || c == '\U{2029}' || c == '\U{202f}' || c == '\U{205f}' || c == '\U{3000}'
  }

  ghost predicate SpaceFree(s: string) {
    forall i :: 0 <= i < |s| ==> !IsSpace(s[i])
  }

  /** Neither the first nor the last character is white space. */
  predicate Trimmed(s: string) {
    s != [] ==> !IsSpace(s[0]) && !IsSpace(s[|s| - 1])
  }

  function LStrip(s: string): (t: string)
    ensures |t| <= |s|
  {
    if s == [] then s else if IsSpace(s[0]) then LStrip(s[1..]) else s
  }

  function RStrip(s: string): (t: string)
    ensures |t| <= |s|
  {
    if s == [] then s else if IsSpace(s[|s| - 1]) then RStrip(s[..|s| - 1]) else s
  }

  function Strip(s: string): string {
    RStrip(LStrip(s))
  }

  lemma {:induction false} LStripMeaning(s: string)
    ensures var t := LStrip(s); t == s[|s| - |t|..] && (t != [] ==> !IsSpace(t[0]))
  {
    if s != [] && IsSpace(s[0]) {
      LStripMeaning(s[1..]);
    }
  }

  lemma {:induction false} RStripMeaning(s: string)
    ensures var t := RStrip(s); t == s[..|t|] && (t != [] ==> !IsSpace(t[|t| - 1]))
  {
    if s != [] && IsSpace(s[|s| - 1]) {
      RStripMeaning(s[..|s| - 1]);
    }
  }

  /** Stripping leaves a slice of the text with no white space at either end. */
  lemma StripMeaning(s: string)
    ensures Trimmed(Strip(s))
    ensures exists i, j :: 0 <= i <= j <= |s| && Strip(s) == s[i..j]
  {
    LStripMeaning(s);
    RStripMeaning(LStrip(s));
    var i := |s| - |LStrip(s)|;
    assert Strip(s) == s[i..i + |Strip(s)|];
  }

  lemma StripTrimmed(s: string)
    requires Trimmed(s)
    ensures Strip(s) == s
  {
  }

  /** The words joined with single spaces, as `" ".join(words)` does. */
  function JoinSpace(words: seq<string>): string {
    if words == [] then ""
    else if |words| == 1 then words[0]
    else words[0] + " " + JoinSpace(words[1..])
  }

  lemma {:induction false} JoinSpaceAppend(a: seq<string>, b: seq<string>)
    requires a != [] && b != []
    ensures JoinSpace(a + b) == JoinSpace(a) + " " + JoinSpace(b)
  {
    if |a| == 1 {
      assert (a + b)[1..] == b;
    } else {
      assert (a + b)[1..] == a[1..] + b;
      JoinSpaceAppend(a[1..], b);
    }
  }

  /** All strings of the list one after the other, as `"".join(parts)` does. */
  function Concat<T>(parts: seq<seq<T>>): seq<T> {
    if parts == [] then [] else parts[0] + Concat(parts[1..])
  }

  lemma {:induction false} ConcatAppend<T>(a: seq<seq<T>>, b: seq<seq<T>>)
    ensures Concat(a + b) == Concat(a) + Concat(b)
  {
    if a == [] {
      assert a + b == b;
    } else {
      assert (a + b)[1..] == a[1..] + b;
      ConcatAppend(a[1..], b);
    }
  }

  lemma ConcatSnoc<T>(a: seq<seq<T>>, x: seq<T>)
    ensures Concat(a + [x]) == Concat(a) + x
  {
    ConcatAppend(a, [x]);
    assert Concat([x]) == x + Concat<T>([]);
  }

  /** `part in s`. */
  predicate InText(part: string, s: string) {
    part <= s || (s != "" && InText(part, s[1..]))
  }

  ghost predicate Occurs(part: string, s: string) {
    exists before, after :: s == before + part + after
  }

  lemma {:induction false} InTextIff(part: string, s: string)
    ensures InText(part, s) <==> Occurs(part, s)
  {
    if part <= s {
      assert s == "" + part + s[|part|..];
    } else if s != "" {
      InTextIff(part, s[1..]);
      if before, after :| s[1..] == before + part + after {
        assert s == ([s[0]] + before) + part + after;
      }
      if before, after :| s == before + part + after {
        OccursAtStart(s, before, part, after);
        assert s[1..] == before[1..] + part + after;
      }
    } else if before, after :| s == before + part + after {
      OccursAtStart(s, before, part, after);
    }
  }

  lemma OccursAtStart(s: string, before: string, part: string, after: string)
    requires s == before + part + after
    ensures before == "" || s == "" ==> part <= s
  {
  }

  /** White space by character code. */
  lemma IsSpaceIff(c: char)
    ensures var n := c as int;
            IsSpace(c) <==> n in {9, 10, 11, 12, 13, 28, 29, 30, 31, 32, 133, 160, 5760, 8232, 8233, 8239, 8287, 12288} || 8192 <= n <= 8202
  {
  }
}
