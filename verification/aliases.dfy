/**
 Tool names for a provider that accepts only `[A-Za-z0-9_-]`: other names are
 sent under an alias, and the alias map undoes this on the way back.
 */
module ToolAliases {
  import opened Text
  import opened Payloads
  import opened ToolCalls
  import opened StreamReader

  predicate SafeChar(c: char) {
    'A' <= c <= 'Z' || 'a' <= c <= 'z' || '0' <= c <= '9' || c == '_' || c == '-'
  }

  predicate Safe(s: string) {
    forall i :: 0 <= i < |s| ==> SafeChar(s[i])
  }

  // ---------- Building an alias ----------

  /** `re.sub("[^A-Za-z0-9_-]+", "_", s)`; `inRun` tells whether the run before `s` was already replaced. */
  function Squash(s: string, inRun: bool): string {
    if s == "" then ""
    else if SafeChar(s[0]) then [s[0]] + Squash(s[1..], false)
    else (if inRun then "" else "_") + Squash(s[1..], true)
  }

  function TrimLeft(s: string): string {
    if s != "" && s[0] == '_' then TrimLeft(s[1..]) else s
  }

  function TrimRight(s: string): string {
    if s != "" && s[|s| - 1] == '_' then TrimRight(s[..|s| - 1]) else s
  }

  function Sanitized(name: string): string {
    var s := TrimRight(TrimLeft(Squash(name, false)));
    if s != "" then s else "tool"
  }

  function Digit(d: nat): char
    requires d < 10
  {
    "0123456789"[d]
  }

  function Decimal(n: nat): (s: string)
    ensures s != ""
  {
    if n < 10 then [Digit(n)] else Decimal(n / 10) + [Digit(n % 10)]
  }

  const PREFIX := "deepseek_tool_"

  function Alias(index: nat, name: string): string {
    PREFIX + Decimal(index) + "_" + Sanitized(name)
  }

  /** The stripped name of each tool is what the aliases stand for. */
  function PreparedName(index: nat, original: string): string {
    if original != "" && !Safe(original) then Alias(index, original) else original
  }

  function Originals(names: seq<string>): (os: seq<string>)
    ensures |os| == |names|
  {
    seq(|names|, i requires 0 <= i < |names| => Strip(names[i]))
  }

  function Prepared(originals: seq<string>): (ps: seq<string>)
    ensures |ps| == |originals|
  {
    seq(|originals|, i requires 0 <= i < |originals| => PreparedName(i + 1, originals[i]))
  }

  function AliasMap(originals: seq<string>): map<string, string> {
    if originals == [] then map[]
    else
      var n := |originals|;
      var front := AliasMap(originals[..n - 1]);
      if originals[n - 1] != "" then front[PreparedName(n, originals[n - 1]) := originals[n - 1]] else front
  }

  function Decode(aliases: map<string, string>, name: string): string {
    if name in aliases then aliases[name] else name
  }

  /** `_prepare_provider_tools` on the tools' names; None is "no tools to send". */
  method PrepareProviderTools(provider: string, names: seq<string>)
      returns (prepared: Option<seq<string>>, aliases: map<string, string>)
    ensures names == [] ==> prepared == None && aliases == map[]
    ensures names != [] && provider != "deepseek_direct" ==> prepared == Some(names) && aliases == map[]
    ensures names != [] && provider == "deepseek_direct" ==>
              prepared == Some(Prepared(Originals(names))) && aliases == AliasMap(Originals(names))
  {
    if names == [] {
      return None, map[];
    }
    if provider != "deepseek_direct" {
      return Some(names), map[];
    }
    var list: seq<string> := [];
    aliases := map[];
    ghost var originals := Originals(names);
    assert originals[..0] == [];
    hide *;
    for i := 0 to |names|
      invariant list == Prepared(originals[..i])
      invariant aliases == AliasMap(originals[..i])
    {
      var originalName := Strip(names[i]);
      var aliasedName := originalName;
      if originalName != "" && !Safe(originalName) {
        aliasedName := Alias(i + 1, originalName);
      }
      OneMoreTool(names, i, aliasedName);
      list := list + [aliasedName];
      if originalName != "" {
        aliases := aliases[aliasedName := originalName];
      }
    }
    assert originals[..|names|] == originals;
    prepared := Some(list);
  }

  lemma OneMoreTool(names: seq<string>, i: nat, aliasedName: string)
    requires i < |names|
    requires var original := Strip(names[i]);
             aliasedName == if original != "" && !Safe(original) then Alias(i + 1, original) else original
    ensures var originals, original := Originals(names), Strip(names[i]);
            && Prepared(originals[..i + 1]) == Prepared(originals[..i]) + [aliasedName]
            && AliasMap(originals[..i + 1]) ==
               if original != "" then AliasMap(originals[..i])[aliasedName := original] else AliasMap(originals[..i])
  {
    hide Safe, Alias, Strip;
    var originals := Originals(names);
    assert originals[..i + 1][..i] == originals[..i];
    assert originals[..i + 1][i] == Strip(names[i]);
  }

  // ---------- Prepared names are safe ----------

  lemma SafeAppend(a: string, b: string)
    ensures Safe(a + b) <==> Safe(a) && Safe(b)
  {
    hide SafeChar;
    var s := a + b;
    if Safe(s) {
      assert forall i :: 0 <= i < |a| ==> a[i] == s[i];
      assert forall i :: 0 <= i < |b| ==> b[i] == s[|a| + i];
    }
  }

  lemma {:induction false} SquashSafe(s: string, inRun: bool)
    ensures Safe(Squash(s, inRun))
    decreases s
  {
    if s != "" {
      SquashSafe(s[1..], !SafeChar(s[0]));
      SafeAppend(if SafeChar(s[0]) then [s[0]] else if inRun then "" else "_", Squash(s[1..], !SafeChar(s[0])));
    }
  }

  lemma {:induction false} TrimLeftSafe(s: string)
    requires Safe(s)
    ensures Safe(TrimLeft(s))
  {
    if s != "" && s[0] == '_' {
      SafeAppend([s[0]], s[1..]);
      assert s == [s[0]] + s[1..];
      TrimLeftSafe(s[1..]);
    }
  }

  lemma {:induction false} TrimRightSafe(s: string)
    requires Safe(s)
    ensures Safe(TrimRight(s))
  {
    if s != "" && s[|s| - 1] == '_' {
      var t := s[..|s| - 1];
      assert s == t + [s[|s| - 1]];
      SafeAppend(t, [s[|s| - 1]]);
      TrimRightSafe(t);
    }
  }

  lemma {:induction false} DecimalDigits(n: nat)
    ensures Safe(Decimal(n)) && '_' !in Decimal(n)
  {
    if n >= 10 {
      DecimalDigits(n / 10);
      SafeAppend(Decimal(n / 10), [Digit(n % 10)]);
    }
  }

  /** Every name sent to the provider is in its alphabet, whatever the tool was called. */
  lemma PreparedNamesAreSafe(index: nat, original: string)
    ensures Safe(PreparedName(index, original)) && (PreparedName(index, original) == "" <==> original == "")
  {
    if original != "" && !Safe(original) {
      AliasIsSafe(index, original);
    }
  }

  lemma AliasIsSafe(index: nat, name: string)
    ensures Safe(Alias(index, name)) && Alias(index, name) != ""
  {
    SquashSafe(name, false);
    TrimLeftSafe(Squash(name, false));
    TrimRightSafe(TrimLeft(Squash(name, false)));
    DecimalDigits(index);
    assert Safe(PREFIX) && Safe("_") && Safe("tool");
    hide Safe;
    SafeAppend(PREFIX, Decimal(index));
    SafeAppend(PREFIX + Decimal(index), "_");
    SafeAppend(PREFIX + Decimal(index) + "_", Sanitized(name));
  }

  // ---------- Decoding undoes preparing ----------

  lemma {:induction false} DecimalInjective(m: nat, n: nat)
    requires Decimal(m) == Decimal(n)
    ensures m == n
  {
    var s, t := Decimal(m), Decimal(n);
    assert s[|s| - 1] == Digit(m % 10) && t[|t| - 1] == Digit(n % 10);
    if m >= 10 && n >= 10 {
      assert s[..|s| - 1] == Decimal(m / 10) && t[..|t| - 1] == Decimal(n / 10);
      DecimalInjective(m / 10, n / 10);
    }
  }

  /** Aliases of different tools differ: the digits end at the first underscore. */
  lemma AliasIndexUnique(i: nat, a: string, j: nat, b: string)
    requires Alias(i, a) == Alias(j, b)
    ensures i == j
  {
    DecimalDigits(i);
    DecimalDigits(j);
    var d, e, x, y := Decimal(i), Decimal(j), "_" + Sanitized(a), "_" + Sanitized(b);
    hide Safe, Decimal, Sanitized;
    SamePrefix(PREFIX, d + x, e + y) by {
      assert PREFIX + d + x == PREFIX + (d + x) && PREFIX + e + y == PREFIX + (e + y);
      assert PREFIX + d + "_" + Sanitized(a) == PREFIX + d + x && PREFIX + e + "_" + Sanitized(b) == PREFIX + e + y;
    }
    UnderscoreEndsDigits(d, x, e, y);
    DecimalInjective(i, j);
  }

  lemma SamePrefix(p: string, x: string, y: string)
    requires p + x == p + y
    ensures x == y
  {
    assert x == (p + x)[|p|..] && y == (p + y)[|p|..];
  }

  lemma UnderscoreEndsDigits(d: string, x: string, e: string, y: string)
    requires d + x == e + y && x != "" && y != "" && x[0] == '_' && y[0] == '_'
    requires '_' !in d && '_' !in e
    ensures d == e
  {
    var s := d + x;
    assert s[|d|] == '_' && s[|e|] == '_';
    assert forall k :: 0 <= k < |d| ==> s[k] == d[k] && d[k] in d;
    assert forall k :: 0 <= k < |e| ==> s[k] == e[k] && e[k] in e;
    assert d == s[..|d|] && e == s[..|e|];
  }

  ghost predicate NeedsAlias(original: string) {
    original != "" && !Safe(original)
  }

  /** Some tool already bears the alias made for another one. */
  ghost predicate Collision(originals: seq<string>) {
    exists i, j :: 0 <= i < |originals| && 0 <= j < |originals| && NeedsAlias(originals[i])
                   && originals[j] == Alias(i + 1, originals[i])
  }

  /** The alias map holds, for each prepared name, the last original sent under it. */
  lemma {:induction false} DecodeIsSomeOriginal(originals: seq<string>, name: string)
    ensures name in AliasMap(originals) <==>
            exists j :: 0 <= j < |originals| && originals[j] != "" && PreparedName(j + 1, originals[j]) == name
    ensures name in AliasMap(originals) ==>
            exists j :: 0 <= j < |originals| && originals[j] != "" && PreparedName(j + 1, originals[j]) == name
                        && AliasMap(originals)[name] == originals[j]
  {
    hide PreparedName;
    if originals != [] {
      var n := |originals|;
      var front := originals[..n - 1];
      DecodeIsSomeOriginal(front, name);
      assert forall j :: 0 <= j < n - 1 ==> front[j] == originals[j];
      if originals[n - 1] != "" && PreparedName(n, originals[n - 1]) == name {
        assert AliasMap(originals)[name] == originals[n - 1];
      } else {
        assert name in AliasMap(originals) <==> name in AliasMap(front);
      }
    }
  }

  lemma SamePreparedName(originals: seq<string>, i: nat, j: nat)
    requires i < |originals| && j < |originals|
    requires PreparedName(i + 1, originals[i]) == PreparedName(j + 1, originals[j])
    requires !Collision(originals)
    ensures originals[i] == originals[j]
  {
    if NeedsAlias(originals[i]) && NeedsAlias(originals[j]) {
      AliasIndexUnique(i + 1, originals[i], j + 1, originals[j]);
    }
  }

  /** Decoding gives back every original name exactly when no tool already bears the alias of another. */
  lemma {:induction false} RoundTripIff(originals: seq<string>)
    ensures (forall i :: 0 <= i < |originals| ==> Decode(AliasMap(originals), Prepared(originals)[i]) == originals[i])
            <==> !Collision(originals)
  {
    if Collision(originals) {
      var i, j :| 0 <= i < |originals| && 0 <= j < |originals| && NeedsAlias(originals[i])
                  && originals[j] == Alias(i + 1, originals[i]);
      CollisionClashes(originals, i, j);
      hide *;
    } else {
      forall i | 0 <= i < |originals| ensures Decode(AliasMap(originals), Prepared(originals)[i]) == originals[i] {
        RoundTripAt(originals, i);
      }
    }
  }

  lemma CollisionClashes(originals: seq<string>, i: nat, j: nat)
    requires i < |originals| && j < |originals| && NeedsAlias(originals[i]) && originals[j] == Alias(i + 1, originals[i])
    ensures Prepared(originals)[i] == Prepared(originals)[j] && originals[i] != originals[j]
  {
    hide Alias;
    AliasIsSafe(i + 1, originals[i]);
  }

  lemma {:induction false} RoundTripAt(originals: seq<string>, i: nat)
    requires i < |originals| && !Collision(originals)
    ensures Decode(AliasMap(originals), Prepared(originals)[i]) == originals[i]
  {
    hide Collision, Safe, Alias, AliasMap;
    var name := PreparedName(i + 1, originals[i]);
    DecodeIsSomeOriginal(originals, name);
    if name in AliasMap(originals) {
      var j :| 0 <= j < |originals| && originals[j] != "" && PreparedName(j + 1, originals[j]) == name
               && AliasMap(originals)[name] == originals[j];
      SamePreparedName(originals, i, j);
    } else {
      PreparedNamesAreSafe(i + 1, originals[i]);
      assert originals[i] == "";
    }
  }

  /** A collision: the second tool bears the alias made for the first. */
  lemma CollisionExists()
    ensures Collision(["a.b", "deepseek_tool_1_a_b"])
  {
    assert "a.b"[1..] == ".b" && ".b"[1..] == "b" && "b"[1..] == "";
    assert Squash("b", true) == "b";
    assert Squash(".b", false) == "_b";
    assert Squash("a.b", false) == "a_b";
    assert Sanitized("a.b") == "a_b";
    assert Decimal(1) == "1";
    assert Alias(1, "a.b") == "deepseek_tool_1_a_b";
    assert !SafeChar("a.b"[1]);
    assert NeedsAlias("a.b");
    var originals := ["a.b", "deepseek_tool_1_a_b"];
    assert originals[1] == Alias(0 + 1, originals[0]);
  }

  /** Names that do not begin like an alias cannot collide. */
  lemma NoAliasLikeNameNoCollision(originals: seq<string>)
    requires forall i :: 0 <= i < |originals| ==> !(PREFIX <= originals[i])
    ensures !Collision(originals)
  {
    forall i | 0 <= i < |originals| ensures PREFIX <= Alias(i + 1, originals[i]) {
    }
  }

  // ---------- Through the stream ----------

  function RawName(host: Host, raw: Fields): string {
    TextOr(host, Get(SubObject(raw, "function"), "name"), "")
  }

  /** The name fragments sent for entry `k`, as they arrive. */
  function NameFragments(host: Host, raws: seq<Fields>, k: int): seq<string> {
    if raws == [] then []
    else (if AsInt(host, Get(raws[0], "index")) == Some(k) then [RawName(host, raws[0])] else [])
         + NameFragments(host, raws[1..], k)
  }

  /** The argument text one raw call carries. */
  function RawArguments(host: Host, raw: Fields): string {
    if ArgumentsPart(raw) != Null then StrOf(host, ArgumentsPart(raw)) else ""
  }

  /** The argument fragments sent for entry `k`, as they arrive. */
  function ArgumentFragments(host: Host, raws: seq<Fields>, k: int): seq<string> {
    if raws == [] then []
    else (if AsInt(host, Get(raws[0], "index")) == Some(k) then [RawArguments(host, raws[0])] else [])
         + ArgumentFragments(host, raws[1..], k)
  }

  ghost predicate Indexed(host: Host, raws: seq<Fields>) {
    forall i :: 0 <= i < |raws| ==> AsInt(host, Get(raws[i], "index")).Some?
  }

  /** A raw call with an index survives normalisation with its index and its stripped name. */
  lemma NormalizedDelta(host: Host, raw: Fields)
    requires AsInt(host, Get(raw, "index")).Some?
    ensures Normalized(host, raw).Some?
    ensures var d := DeltaOf(host, Normalized(host, raw).value);
            d.index == AsInt(host, Get(raw, "index")) && d.name == Strip(RawName(host, raw)) && d.arguments == RawArguments(host, raw)
  {
    hide Strip;
    var call := Normalized(host, raw).value;
    assert Get(raw, "index") != Null;
    assert Get(call, "index") == Get(raw, "index");
    assert Get(SubObject(call, "function"), "name") == Str(Strip(RawName(host, raw)));
    assert Get(SubObject(call, "function"), "arguments") == if ArgumentsPart(raw) != Null then ArgumentsPart(raw) else Str("");
    assert Get(call, "name") == Null && Get(call, "tool_name") == Null && Get(call, "function_name") == Null;
  }

  lemma {:induction false} SafePartsStrip(parts: seq<string>)
    requires Safe(Concat(parts))
    ensures forall i :: 0 <= i < |parts| ==> Safe(parts[i]) && Strip(parts[i]) == parts[i]
  {
    if parts != [] {
      SafeAppend(parts[0], Concat(parts[1..]));
      SafePartsStrip(parts[1..]);
      assert Trimmed(parts[0]);
      StripTrimmed(parts[0]);
    }
  }

  lemma {:induction false} StreamedNames(host: Host, raws: seq<Fields>, k: int)
    requires Indexed(host, raws)
    ensures AllIndexed(StreamedCalls(host, raws))
    ensures var names := Names(For(StreamedCalls(host, raws), k));
            |names| == |NameFragments(host, raws, k)|
            && forall i :: 0 <= i < |names| ==> names[i] == Strip(NameFragments(host, raws, k)[i])
  {
    hide Normalized, DeltaOf, AsInt, RawName, Strip;
    if raws != [] {
      NormalizedDelta(host, raws[0]);
      StreamedNames(host, raws[1..], k);
      var d := DeltaOf(host, Normalized(host, raws[0]).value);
      var rest := StreamedCalls(host, raws[1..]);
      assert StreamedCalls(host, raws) == [d] + rest;
      assert ([d] + rest)[1..] == rest;
    }
  }

  /** The assembled arguments are the fragments as they arrived, one after the other. */
  lemma {:induction false} StreamedArguments(host: Host, raws: seq<Fields>, k: int)
    requires Indexed(host, raws)
    ensures Arguments(For(StreamedCalls(host, raws), k)) == ArgumentFragments(host, raws, k)
  {
    hide Normalized, DeltaOf, AsInt, RawArguments, RawName, Strip;
    if raws != [] {
      NormalizedDelta(host, raws[0]);
      StreamedArguments(host, raws[1..], k);
      var d := DeltaOf(host, Normalized(host, raws[0]).value);
      var rest := StreamedCalls(host, raws[1..]);
      assert StreamedCalls(host, raws) == [d] + rest;
      assert ([d] + rest)[1..] == rest;
    }
  }

  lemma StreamedArgumentsAssembled(host: Host, raws: seq<Fields>, k: int)
    requires Indexed(host, raws)
    ensures Entry(MergeAll(map[], StreamedCalls(host, raws)), k).arguments == Concat(ArgumentFragments(host, raws, k))
  {
    StreamedNames(host, raws, k);
    StreamedArguments(host, raws, k);
    hide StreamedCalls, ArgumentFragments, Indexed;
    EntryIsConcatenation(StreamedCalls(host, raws), k);
  }

  /**
   However a prepared name is cut into fragments and interleaved with other calls, the assembled
   call decodes to the original tool name.
   */
  lemma {:induction false} StreamedNameDecodes(host: Host, raws: seq<Fields>, k: int, originals: seq<string>, i: nat)
    requires Indexed(host, raws) && i < |originals| && !Collision(originals)
    requires Concat(NameFragments(host, raws, k)) == Prepared(originals)[i]
    ensures var call := Entry(MergeAll(map[], StreamedCalls(host, raws)), k);
            Decode(AliasMap(originals), Strip(call.name)) == originals[i]
  {
    var ds, fragments := StreamedCalls(host, raws), NameFragments(host, raws, k);
    PreparedNamesAreSafe(i + 1, originals[i]);
    SafePartsStrip(fragments);
    StreamedNames(host, raws, k);
    assert Names(For(ds, k)) == fragments;
    EntryIsConcatenation(ds, k);
    SafePartsStrip([Prepared(originals)[i]]) by {
      assert Concat([Prepared(originals)[i]]) == Prepared(originals)[i];
    }
    assert [Prepared(originals)[i]][0] == Prepared(originals)[i];
    RoundTripAt(originals, i);
  }

  // ---------- The form of an alias ----------

  /** A letter, digit, underscore or hyphen of ASCII. */
  ghost predicate Plain(c: char) {
    || 48 <= c as int <= 57 || 65 <= c as int <= 90 || 97 <= c as int <= 122 || c as int == 45 || c as int == 95
  }

  ghost predicate AllPlain(s: string) {
    forall i :: 0 <= i < |s| ==> Plain(s[i])
  }

  /** The number that decimal digits write. */
  function ValueOf(digits: string): int {
    if digits == "" then 0 else 10 * ValueOf(digits[..|digits| - 1]) + (digits[|digits| - 1] as int - 48)
  }

  /** Digits that write the number, without leading zeros. */
  ghost predicate Writes(digits: string, n: nat) {
    && ValueOf(digits) == n && digits != "" && (forall i :: 0 <= i < |digits| ==> 48 <= digits[i] as int <= 57)
    && (digits[0] == '0' ==> n == 0)
  }

  /** Each run of characters that are not plain becomes one underscore. */
  ghost function Underscored(s: string): string {
    if s == "" then ""
    else
      var front, last := s[..|s| - 1], s[|s| - 1];
      if Plain(last) then Underscored(front) + [last]
      else if front != "" && !Plain(front[|front| - 1]) then Underscored(front)
      else Underscored(front) + "_"
  }

  ghost predicate Underscores(s: string) {
    forall i :: 0 <= i < |s| ==> s[i] == '_'
  }

  /** What is left of a name once its underscored form has lost the underscores at both ends; `tool` for nothing. */
  ghost predicate IsStem(name: string, stem: string) {
    exists before, core, after ::
      && Underscored(name) == before + core + after && Underscores(before) && Underscores(after)
      && (core != "" ==> core[0] != '_' && core[|core| - 1] != '_')
      && stem == if core == "" then "tool" else core
  }

  lemma PlainIff(c: char)
    ensures Plain(c) <==> SafeChar(c)
  {
  }

  lemma AllPlainIff(s: string)
    ensures AllPlain(s) <==> Safe(s)
  {
    forall c ensures Plain(c) <==> SafeChar(c) {
      PlainIff(c);
    }
    hide Plain, SafeChar;
  }

  lemma {:induction false} DecimalWrites(n: nat)
    ensures Writes(Decimal(n), n)
  {
    if n < 10 {
      DigitIs(n);
      var s := Decimal(n);
      assert ValueOf(s) == 10 * ValueOf(s[..0]) + (s[0] as int - 48);
    } else {
      DecimalWrites(n / 10);
      DigitIs(n % 10);
      hide Digit;
      var s := Decimal(n / 10);
      assert (s + [Digit(n % 10)])[..|s|] == s;
    }
  }

  lemma DigitIs(d: nat)
    requires d < 10
    ensures Digit(d) as int == 48 + d
  {
  }

  lemma {:induction false} SquashSnoc(s: string, last: char, inRun: bool)
    ensures var run := if s == "" then inRun else !SafeChar(s[|s| - 1]);
            Squash(s + [last], inRun) == Squash(s, inRun) + if SafeChar(last) then [last] else if run then "" else "_"
    decreases s
  {
    hide SafeChar;
    if s == "" {
      assert s + [last] == [last] && [last][1..] == "";
    } else {
      var all, first := s + [last], if SafeChar(s[0]) then [s[0]] else if inRun then "" else "_";
      assert all[0] == s[0] && all[1..] == s[1..] + [last];
      SquashSnoc(s[1..], last, !SafeChar(s[0]));
      assert Squash(all, inRun) == first + Squash(all[1..], !SafeChar(s[0])) && Squash(s, inRun) == first + Squash(s[1..], !SafeChar(s[0]));
      hide Squash;
    }
  }

  lemma {:induction false} SquashIsUnderscored(s: string)
    ensures Squash(s, false) == Underscored(s)
  {
    if s != "" {
      var front, last := s[..|s| - 1], s[|s| - 1];
      SquashIsUnderscored(front);
      SquashSnoc(front, last, false);
      PlainIff(last);
      if front != "" {
        PlainIff(front[|front| - 1]);
      }
      assert Underscored(s) == if Plain(last) then Underscored(front) + [last]
                               else if front != "" && !Plain(front[|front| - 1]) then Underscored(front) else Underscored(front) + "_";
      hide SafeChar, Plain, Squash, Underscored;
      assert front + [last] == s;
      assert Underscored(front) + "" == Underscored(front);
    }
  }

  lemma {:induction false} TrimLeftIs(s: string) returns (before: string)
    ensures s == before + TrimLeft(s) && Underscores(before) && (TrimLeft(s) != "" ==> TrimLeft(s)[0] != '_')
  {
    if s != "" && s[0] == '_' {
      var rest := TrimLeftIs(s[1..]);
      before := [s[0]] + rest;
    } else {
      before := "";
    }
  }

  lemma {:induction false} TrimRightIs(s: string) returns (after: string)
    ensures s == TrimRight(s) + after && Underscores(after) && (TrimRight(s) != "" ==> TrimRight(s)[|TrimRight(s)| - 1] != '_')
    ensures TrimRight(s) != "" ==> TrimRight(s)[0] == s[0]
  {
    if s != "" && s[|s| - 1] == '_' {
      var rest := TrimRightIs(s[..|s| - 1]);
      after := rest + [s[|s| - 1]];
      assert s == s[..|s| - 1] + [s[|s| - 1]];
    } else {
      after := "";
    }
  }

  lemma StemIs(name: string)
    ensures IsStem(name, Sanitized(name))
  {
    SquashIsUnderscored(name);
    var s := Squash(name, false);
    var before := TrimLeftIs(s);
    var after := TrimRightIs(TrimLeft(s));
    var core := TrimRight(TrimLeft(s));
    assert s == before + core + after;
    assert Sanitized(name) == if core == "" then "tool" else core;
    hide Squash, TrimLeft, TrimRight, Underscored, Sanitized;
  }

  /** A name of plain characters is sent as it is; any other as the prefix, the tool's number and what is left of the name. */
  lemma AliasForm(index: nat, original: string)
    ensures AllPlain(original) ==> PreparedName(index, original) == original
    ensures !AllPlain(original) ==> exists digits, stem :: Writes(digits, index) && IsStem(original, stem)
                                                           && PreparedName(index, original) == "deepseek_tool_" + digits + "_" + stem
    ensures AllPlain(PreparedName(index, original))
  {
    AllPlainIff(original);
    AllPlainIff(PreparedName(index, original));
    PreparedNamesAreSafe(index, original);
    DecimalWrites(index);
    StemIs(original);
    hide Safe, AllPlain, Writes, IsStem, Decimal, Sanitized;
  }
}
