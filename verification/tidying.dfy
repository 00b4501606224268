/**
 What tidying a text does to its parts: runs of newlines are cut to two and white
 space goes from both ends, so tidying twice, or tidying a part first, changes nothing.
 */
module Tidying {
  import opened Text
  import opened EmbeddedCalls
  import opened EmbeddedRoundTrip
  import opened TagRoundTrip

  /** The newlines directly before what follows `s`. */
  function RunAfter(s: string, run: nat): nat {
    if s == "" then run else RunAfter(s[1..], if s[0] == '\n' then run + 1 else 0)
  }

  lemma {:induction false} CollapseAppend(a: string, b: string, run: nat)
    ensures Collapse(a + b, run) == Collapse(a, run) + Collapse(b, RunAfter(a, run))
    decreases a
  {
    if a == "" {
      assert a + b == b;
    } else {
      assert (a + b)[1..] == a[1..] + b;
      CollapseAppend(a[1..], b, if a[0] == '\n' then run + 1 else 0);
    }
  }

  /** A part that is collapsed first, knowing of no more newlines before it, is cut no further than in the whole. */
  lemma {:induction false} CollapseAbsorbs(a: string, rest: string, inner: nat, outer: nat)
    requires inner <= outer
    ensures Collapse(Collapse(a, inner) + rest, outer) == Collapse(a + rest, outer)
    decreases a
  {
    if a == "" {
      assert "" + rest == rest;
    } else {
      var next, t := (if a[0] == '\n' then inner + 1 else 0), a[1..];
      var after := if a[0] == '\n' then outer + 1 else 0;
      hide Collapse;
      var part := Collapse(t, next);
      CollapseAbsorbs(t, rest, next, after);
      assert [a[0]] + t == a;
      FirstApart(a[0], t, rest);
      FirstApart(a[0], part, rest);
      CollapseCons(a[0], t, inner);
      CollapseCons(a[0], t + rest, outer);
      if a[0] == '\n' && inner >= 2 {
        CollapseCapped(part + rest, outer, outer + 1);
      } else {
        CollapseCons(a[0], part + rest, outer);
      }
    }
  }

  lemma FirstApart(c: char, s: string, rest: string)
    ensures ([c] + s) + rest == [c] + (s + rest)
  {
  }

  lemma CollapseCons(c: char, s: string, run: nat)
    ensures Collapse([c] + s, run)
            == if c != '\n' then [c] + Collapse(s, 0) else if run < 2 then "\n" + Collapse(s, run + 1) else Collapse(s, run + 1)
  {
    assert ([c] + s)[1..] == s;
    assert "" + Collapse(s, run + 1) == Collapse(s, run + 1);
  }

  lemma {:induction false} CollapsePart(before: string, part: string, rest: string)
    ensures Collapse(before + Collapse(part, 0) + rest, 0) == Collapse(before + part + rest, 0)
  {
    var run := RunAfter(before, 0);
    assert before + Collapse(part, 0) + rest == before + (Collapse(part, 0) + rest);
    assert before + part + rest == before + (part + rest);
    CollapseAppend(before, Collapse(part, 0) + rest, 0);
    CollapseAppend(before, part + rest, 0);
    hide Collapse, RunAfter;
    CollapseAbsorbs(part, rest, 0, run);
  }

  lemma {:induction false} NoRunAfter(s: string, run: nat)
    requires s != "" && s[|s| - 1] != '\n'
    ensures RunAfter(s, run) == 0
    decreases s
  {
    if |s| > 1 {
      NoRunAfter(s[1..], if s[0] == '\n' then run + 1 else 0);
    }
  }

  /** Newlines do not run across a part that neither begins nor ends with one. */
  lemma {:induction false} CollapseAround(a: string, part: string, b: string, run: nat)
    requires part != "" && part[0] != '\n' && part[|part| - 1] != '\n' && Collapse(part, 0) == part
    ensures Collapse(a + (part + b), run) == Collapse(a, run) + (part + Collapse(b, 0))
  {
    var inner := RunAfter(a, run);
    assert Collapse(part, inner) == Collapse(part, 0);
    CollapseAppend(a, part + b, run);
    CollapseAppend(part, b, inner);
    NoRunAfter(part, inner);
  }

  ghost predicate NoThreeNewlines(s: string) {
    forall i :: 0 <= i < |s| - 2 ==> s[i] != '\n' || s[i + 1] != '\n' || s[i + 2] != '\n'
  }

  lemma {:induction false} NothingToCollapse(s: string, before: string)
    requires NoThreeNewlines(before + s) && |before| <= 2 && forall i :: 0 <= i < |before| ==> before[i] == '\n'
    ensures Collapse(s, |before|) == s
    decreases s
  {
    if s != "" {
      var t := before + s;
      assert t[|before|] == s[0] && (|before| == 2 ==> t[0] == '\n' && t[1] == '\n');
      if s[0] == '\n' {
        assert (before + "\n") + s[1..] == t;
        NothingToCollapse(s[1..], before + "\n");
      } else {
        assert forall i :: 0 <= i < |s| - 1 ==> ("" + s[1..])[i] == t[|before| + 1 + i];
        NothingToCollapse(s[1..], "");
      }
    }
  }

  // ---------- The ends ----------

  lemma {:induction false} LStripAllSpace(w: string, s: string)
    requires AllSpace(w)
    ensures LStrip(w + s) == LStrip(s)
  {
    if w == "" {
      assert w + s == s;
    } else {
      assert (w + s)[1..] == w[1..] + s;
      LStripAllSpace(w[1..], s);
    }
  }

  lemma {:induction false} RStripAllSpace(s: string, w: string)
    requires AllSpace(w)
    ensures RStrip(s + w) == RStrip(s)
    decreases w
  {
    if w == "" {
      assert s + w == s;
    } else {
      assert (s + w)[..|s + w| - 1] == s + w[..|w| - 1];
      RStripAllSpace(s, w[..|w| - 1]);
    }
  }

  lemma {:induction false} LStripBefore(a: string, s: string)
    requires s != "" && !IsSpace(s[0])
    ensures LStrip(a + s) == LStrip(a) + s
  {
    if a == "" {
      assert a + s == s;
    } else {
      assert (a + s)[1..] == a[1..] + s;
      LStripBefore(a[1..], s);
    }
  }

  lemma {:induction false} RStripBehind(s: string, b: string)
    requires s != "" && !IsSpace(s[|s| - 1])
    ensures RStrip(s + b) == s + RStrip(b)
    decreases b
  {
    if b == "" {
      assert s + b == s;
    } else {
      assert (s + b)[..|s + b| - 1] == s + b[..|b| - 1];
      RStripBehind(s, b[..|b| - 1]);
    }
  }

  lemma {:induction false} StripTrailing(s: string, w: string)
    requires AllSpace(w)
    ensures Strip(s + w) == Strip(s)
    decreases s
  {
    if s == "" {
      assert s + w == w + "";
      LStripAllSpace(w, "");
    } else if IsSpace(s[0]) {
      assert (s + w)[1..] == s[1..] + w;
      StripTrailing(s[1..], w);
    } else {
      RStripAllSpace(s, w);
    }
  }

  lemma {:induction false} CollapseAllSpace(w: string, run: nat)
    requires AllSpace(w)
    ensures AllSpace(Collapse(w, run))
    decreases w
  {
    if w != "" {
      CollapseAllSpace(w[1..], if w[0] == '\n' then run + 1 else 0);
    }
  }

  /** How many newlines came before matters to nothing but the white space a text begins with. */
  lemma {:induction false} LStripForgetsRun(s: string, run: nat, other: nat)
    ensures LStrip(Collapse(s, run)) == LStrip(Collapse(s, other))
    decreases s
  {
    if s != "" && s[0] == '\n' {
      LStripForgetsRun(s[1..], run + 1, other + 1);
      LStripAllSpace(if run < 2 then "\n" else "", Collapse(s[1..], run + 1));
      LStripAllSpace(if other < 2 then "\n" else "", Collapse(s[1..], other + 1));
    }
  }

  lemma {:induction false} TidyLeading(w: string, s: string)
    requires AllSpace(w)
    ensures Tidy(w + s) == Tidy(s)
  {
    CollapseAppend(w, s, 0);
    CollapseAllSpace(w, 0);
    hide Collapse, RStrip, LStrip;
    LStripAllSpace(Collapse(w, 0), Collapse(s, RunAfter(w, 0)));
    LStripForgetsRun(s, RunAfter(w, 0), 0);
  }

  lemma {:induction false} TidyTrailing(s: string, w: string)
    requires AllSpace(w)
    ensures Tidy(s + w) == Tidy(s)
  {
    CollapseAppend(s, w, 0);
    CollapseAllSpace(w, RunAfter(s, 0));
    hide Collapse, Strip;
    StripTrailing(Collapse(s, 0), Collapse(w, RunAfter(s, 0)));
  }

  lemma {:induction false} LStripLoses(s: string)
    ensures AllSpace(s[..|s| - |LStrip(s)|]) && s == s[..|s| - |LStrip(s)|] + LStrip(s)
  {
    if s != "" && IsSpace(s[0]) {
      LStripLoses(s[1..]);
      var w := s[1..][..|s| - 1 - |LStrip(s)|];
      assert s[..|s| - |LStrip(s)|] == [s[0]] + w;
    }
  }

  lemma {:induction false} RStripLoses(s: string)
    ensures AllSpace(s[|RStrip(s)|..]) && s == RStrip(s) + s[|RStrip(s)|..]
  {
    if s != "" && IsSpace(s[|s| - 1]) {
      var n := |RStrip(s)|;
      RStripLoses(s[..|s| - 1]);
      var w := s[..|s| - 1][n..];
      assert s[n..] == w + [s[|s| - 1]];
    }
  }

  lemma {:induction false} TidyLeft(s: string, rest: string)
    ensures Tidy(LStrip(s) + rest) == Tidy(s + rest)
  {
    LStripLoses(s);
    var w, t := s[..|s| - |LStrip(s)|], LStrip(s);
    assert s + rest == w + (t + rest);
    hide Tidy, LStrip;
    TidyLeading(w, t + rest);
  }

  lemma {:induction false} TidyRight(before: string, s: string)
    ensures Tidy(before + RStrip(s)) == Tidy(before + s)
  {
    RStripLoses(s);
    var w, t := s[|RStrip(s)|..], RStrip(s);
    assert before + s == (before + t) + w;
    hide Tidy, RStrip;
    TidyTrailing(before + t, w);
  }

  /** Tidying again changes nothing. */
  lemma {:induction false} TidyIdempotent(s: string)
    ensures Tidy(Tidy(s)) == Tidy(s)
  {
    var t := Collapse(s, 0);
    TidyLeft(t, "");
    TidyRight("", LStrip(t));
    CollapseAbsorbs(s, "", 0, 0);
    assert t + "" == t && s + "" == s && LStrip(t) + "" == LStrip(t);
    assert "" + RStrip(LStrip(t)) == Strip(t) && "" + LStrip(t) == LStrip(t);
    assert Tidy(t) == Strip(Collapse(t, 0)) == Tidy(s);
    hide Collapse, LStrip, RStrip;
  }
}
