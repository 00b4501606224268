/**
 Context pruning: a scored greedy selection under a token budget, with
 protected and range-guarded items, and the replay of the resulting plan.
 */
module ContextPruning {
  import opened Ordering
  import opened Text
  import opened Payloads
  import opened Sorting

  datatype Ref = Ref(kind: string, id: string)

  /** What an entry gives as its reference: nothing, a reference, or just an id. */
  datatype GivenRef = NoRef | Whole(ref: Ref) | IdOnly(id: string)

  /** A context entry that is a dictionary; `overlap` counts the objective's terms found in it. */
  datatype Item = Item(ref: GivenRef, id: string, kind: string, title: string, content: string,
                       importance: real, estimatedTokens: Option<int>, overlap: nat)

  /** One entry of `currentContext`; None is an entry that is no dictionary. */
  type Context = seq<Option<Item>>

  // ---------- Classification ----------

  function Marker(host: Host, item: Item): string {
    host.lower(item.id + " " + item.kind + " " + item.title)
  }

  predicate ContractProtected(host: Host, item: Item) {
    var marker := Marker(host, item);
    || InText("responserequirements", marker)
    || InText("restartmessage", marker)
    || InText("worktree", marker)
    || InText("takeoverprotocol", marker)
  }

  predicate Foundation(host: Host, item: Item) {
    || host.lower(Strip(item.kind)) in {"carry-forward-package", "retrieval-summary", "mailbox-message"}
    || ContractProtected(host, item)
  }

  /** The reference of the entry at `index`: its own, one made from its id, or a generated one. */
  function RefOf(item: Item, index: nat, defaultKind: string, generated: nat -> string): Ref {
    match item.ref
    case Whole(ref) => ref
    case IdOnly(id) => Ref(defaultKind, if id != "" then id else if item.id != "" then item.id else generated(index))
    case NoRef => Ref(defaultKind, if item.id != "" then item.id else generated(index))
  }

  function Tokens(item: Item): nat {
    match item.estimatedTokens
    case Some(n) => if n > 1 then n else 1
    case None => if |item.content| / 4 > 1 then |item.content| / 4 else 1
  }

  // ---------- The compressible range ----------

  /** Length of the foundation prefix. */
  function PrefixGuard(host: Host, context: Context): (n: nat)
    ensures n <= |context|
    ensures forall i :: 0 <= i < n ==> context[i].Some? && Foundation(host, context[i].value)
    ensures n < |context| ==> context[n].None? || !Foundation(host, context[n].value)
  {
    if context != [] && context[0].Some? && Foundation(host, context[0].value)
    then 1 + PrefixGuard(host, context[1..]) else 0
  }

  method CompressionRangeBounds(host: Host, context: Context, maxTail: int) returns (start: nat, end: int)
    ensures start == PrefixGuard(host, context)
    ensures end == |context| - (if maxTail > 0 then maxTail else 0) - 2
  {
    start := 0;
    for i := 0 to |context|
      invariant start == i
      invariant PrefixGuard(host, context) == start + PrefixGuard(host, context[i..])
    {
      hide Foundation;
      assert context[i..][0] == context[i] && context[i..][1..] == context[i + 1..];
      if context[i].Some? && Foundation(host, context[i].value) {
        start := start + 1;
      } else {
        break;
      }
    }
    end := |context| - ((if maxTail > 0 then maxTail else 0) + 1) - 1;
  }

  // ---------- Scoring and ranking ----------

  datatype Scored = Scored(ref: Ref, index: nat, score: real, tokens: nat, compressible: bool, item: Item)

  /** What a planning request fixes besides the context. */
  datatype Request = Request(protectedRefs: seq<Ref>, budget: int, maxTail: int)

  function ContractRefs(host: Host, context: Context, generated: nat -> string, from: nat): seq<Ref>
    decreases |context| - from
  {
    if from >= |context| then []
    else (match context[from]
          case Some(item) => if ContractProtected(host, item) then [RefOf(item, from, "context-item", generated)] else []
          case None => [])
         + ContractRefs(host, context, generated, from + 1)
  }

  function ProtectedIds(host: Host, context: Context, generated: nat -> string, request: Request): set<string> {
    set r | r in request.protectedRefs + ContractRefs(host, context, generated, 0) :: r.id
  }

  function Score(item: Item, isProtected: bool): real {
    item.importance + item.overlap as real
    - (if item.kind in {"retrieval-summary", "summary"} then 0.25 else 0.0)
    + (if isProtected then 10.0 else 0.0)
  }

  predicate Compressible(host: Host, context: Context, maxTail: int, index: nat) {
    PrefixGuard(host, context) <= index <= |context| - (if maxTail > 0 then maxTail else 0) - 2
  }

  function ScoredAt(host: Host, context: Context, generated: nat -> string, request: Request, index: nat): Scored
    requires index < |context| && context[index].Some?
  {
    var item := context[index].value;
    var ref := RefOf(item, index, "node", generated);
    Scored(ref, index, Score(item, ref.id in ProtectedIds(host, context, generated, request)), Tokens(item),
           Compressible(host, context, request.maxTail, index), item)
  }

  function ScoredItems(host: Host, context: Context, generated: nat -> string, request: Request, from: nat): seq<Scored>
    decreases |context| - from
  {
    if from >= |context| then []
    else (if context[from].Some? then [ScoredAt(host, context, generated, request, from)] else [])
         + ScoredItems(host, context, generated, request, from + 1)
  }

  /** The sort key `(-score, id)`: `a` comes strictly before `b`. */
  predicate Before(a: Scored, b: Scored) {
    a.score > b.score || (a.score == b.score && Less(a.ref.id, b.ref.id))
  }

  /** The stable sort by that key. */
  function Ranked(s: seq<Scored>): seq<Scored> {
    SortBy(s, Before)
  }

  lemma RankedContents(s: seq<Scored>)
    ensures multiset(Ranked(s)) == multiset(s)
  {
    SortByContents(s, Before);
  }

  ghost predicate InOrder(s: seq<Scored>) {
    forall i, j :: 0 <= i < j < |s| ==> !Before(s[j], s[i])
  }

  /** "Not before" composes: x not before y and y not before z give x not before z. */
  lemma NotBeforeTransitive(x: Scored, y: Scored, z: Scored)
    requires !Before(x, y) && !Before(y, z)
    ensures !Before(x, z)
  {
    LessTotal(x.ref.id, y.ref.id);
    LessTotal(y.ref.id, z.ref.id);
    if x.score == y.score == z.score && Less(x.ref.id, z.ref.id) {
      if Less(y.ref.id, x.ref.id) {
        LessTransitive(y.ref.id, x.ref.id, z.ref.id);
      }
    }
  }

  lemma BeforeAsymmetric(x: Scored, y: Scored)
    requires Before(x, y)
    ensures !Before(y, x)
  {
    LessIrreflexive(x.ref.id);
    if Less(x.ref.id, y.ref.id) && Less(y.ref.id, x.ref.id) {
      LessTransitive(x.ref.id, y.ref.id, x.ref.id);
    }
  }

  lemma BeforeIsStrict()
    ensures StrictOrder(Before)
  {
    forall x, y | Before(x, y) ensures !Before(y, x) {
      BeforeAsymmetric(x, y);
    }
    forall x, y, z | !Before(x, y) && !Before(y, z) ensures !Before(x, z) {
      NotBeforeTransitive(x, y, z);
    }
  }

  /** The ranking is by falling score, ties by reference id, and stable. */
  lemma RankedInOrder(s: seq<Scored>) returns (ks: seq<nat>)
    ensures InOrder(Ranked(s)) && Arranges(ks, s, Ranked(s), Before)
  {
    BeforeIsStrict();
    ks := SortByIsStable(s, Before);
    hide Before;
  }

  // ---------- Selection ----------

  function TokenSum(s: seq<Scored>): nat {
    if s == [] then 0 else TokenSum(s[..|s| - 1]) + s[|s| - 1].tokens
  }

  function Refs(s: seq<Scored>): (rs: seq<Ref>)
    ensures |rs| == |s|
  {
    seq(|s|, i requires 0 <= i < |s| => s[i].ref)
  }

  /** Kept whatever the budget: protected, or outside the compressible range. */
  predicate Guarded(x: Scored, ids: set<string>) {
    x.ref.id in ids || !x.compressible
  }

  predicate Keeps(x: Scored, ids: set<string>, budget: int, soFar: nat) {
    Guarded(x, ids) || soFar + x.tokens <= budget
  }

  /** The three outcomes, each in rank order. */
  datatype Selection = Selection(retained: seq<Scored>, compressed: seq<Scored>, dropped: seq<Scored>)

  function Decide(sel: Selection, x: Scored, ids: set<string>, budget: int): Selection {
    if Keeps(x, ids, budget, TokenSum(sel.retained)) then sel.(retained := sel.retained + [x])
    else if x.score >= 1.0 then sel.(compressed := sel.compressed + [x])
    else sel.(dropped := sel.dropped + [x])
  }

  function Select(ranked: seq<Scored>, ids: set<string>, budget: int): Selection {
    if ranked == [] then Selection([], [], [])
    else Decide(Select(ranked[..|ranked| - 1], ids, budget), ranked[|ranked| - 1], ids, budget)
  }

  datatype KeepReason = Protected | RangeGuard | WithinBudget
  datatype DiscardReason = CompressedLowPriority | DroppedUnderBudgetPressure

  datatype Plan = Plan(retainedRefs: seq<Ref>, compressedRefs: seq<Ref>, droppedRefs: seq<Ref>,
                       estimatedRetainedTokens: nat, estimatedCompressedTokens: nat,
                       kept: seq<(Ref, KeepReason)>, discarded: seq<(Ref, DiscardReason)>)

  function ReasonFor(x: Scored, ids: set<string>): KeepReason {
    if x.ref.id in ids then Protected else if !x.compressible then RangeGuard else WithinBudget
  }

  function KeepReasons(s: seq<Scored>, ids: set<string>): (rs: seq<(Ref, KeepReason)>)
    ensures |rs| == |s|
  {
    seq(|s|, i requires 0 <= i < |s| => (s[i].ref, ReasonFor(s[i], ids)))
  }

  function DiscardReasons(s: seq<Scored>, reason: DiscardReason): (rs: seq<(Ref, DiscardReason)>)
    ensures |rs| == |s|
  {
    seq(|s|, i requires 0 <= i < |s| => (s[i].ref, reason))
  }

  /** Tokens of the ranked items whose reference is listed, as the plan estimates them. */
  function TokensListed(ranked: seq<Scored>, refs: seq<Ref>): nat {
    if ranked == [] then 0
    else TokensListed(ranked[..|ranked| - 1], refs) + (if ranked[|ranked| - 1].ref in refs then ranked[|ranked| - 1].tokens else 0)
  }

  /** The plan a selection amounts to: the discards are all compressed items, then all dropped ones. */
  function PlanOf(ranked: seq<Scored>, ids: set<string>, budget: int): Plan {
    var sel := Select(ranked, ids, budget);
    Plan(Refs(sel.retained), Refs(sel.compressed), Refs(sel.dropped), TokenSum(sel.retained),
         TokensListed(ranked, Refs(sel.compressed)), KeepReasons(sel.retained, ids),
         DiscardReasons(sel.compressed, CompressedLowPriority) + DiscardReasons(sel.dropped, DroppedUnderBudgetPressure))
  }

  /** `plan`: the selection loop over the ranked items. */
  method MakePlan(host: Host, context: Context, generated: nat -> string, request: Request) returns (plan: Plan)
    ensures plan == PlanOf(Ranked(ScoredItems(host, context, generated, request, 0)),
                           ProtectedIds(host, context, generated, request), request.budget)
    ensures plan == PlanFor(host, context, generated, request)
  {
    assert PlanFor(host, context, generated, request)
           == PlanOf(Ranked(ScoredItems(host, context, generated, request, 0)), ProtectedIds(host, context, generated, request), request.budget);
    hide *;
    var ids := ProtectedIds(host, context, generated, request);
    var ranked := Ranked(ScoredItems(host, context, generated, request, 0));
    ghost var ks := RankedInOrder(ScoredItems(host, context, generated, request, 0));
    var retained, compressed, dropped: seq<Ref> := [], [], [];
    var kept: seq<(Ref, KeepReason)> := [];
    var discarded: seq<(Ref, DiscardReason)> := [];
    var retainedTokens: nat := 0;
    assert ranked[..0] == [] && ranked[..|ranked|] == ranked;
    NothingPlanned(ids, request.budget);
    for i := 0 to |ranked|
      invariant Planned(ranked[..i], ids, request.budget, retained, compressed, dropped, retainedTokens, kept, discarded)
    {
      var x := ranked[i];
      if Keeps(x, ids, request.budget, retainedTokens) {
        KeepStep(ranked, i, ids, request.budget, retained, compressed, dropped, retainedTokens, kept, discarded);
        retained := retained + [x.ref];
        retainedTokens := retainedTokens + x.tokens;
        kept := kept + [(x.ref, ReasonFor(x, ids))];
        continue;
      }
      if x.score >= 1.0 {
        CompressStep(ranked, i, ids, request.budget, retained, compressed, dropped, retainedTokens, kept, discarded);
        compressed := compressed + [x.ref];
        discarded := discarded + [(x.ref, CompressedLowPriority)];
        continue;
      }
      DropStep(ranked, i, ids, request.budget, retained, compressed, dropped, retainedTokens, kept, discarded);
      dropped := dropped + [x.ref];
      discarded := discarded + [(x.ref, DroppedUnderBudgetPressure)];
    }
    plan := Plan(retained, compressed, dropped, retainedTokens, TokensListed(ranked, compressed), kept, discarded);
    PlannedIsPlan(ranked, ids, request.budget, retained, compressed, dropped, retainedTokens, kept, discarded);
  }

  /** The variables of the selection loop after the ranked items `s`. */
  ghost predicate Planned(s: seq<Scored>, ids: set<string>, budget: int, retained: seq<Ref>, compressed: seq<Ref>,
                          dropped: seq<Ref>, tokens: nat, kept: seq<(Ref, KeepReason)>, discarded: seq<(Ref, DiscardReason)>)
  {
    var sel := Select(s, ids, budget);
    && retained == Refs(sel.retained) && compressed == Refs(sel.compressed) && dropped == Refs(sel.dropped)
    && tokens == TokenSum(sel.retained)
    && kept == KeepReasons(sel.retained, ids)
    && discarded == DiscardReasons(sel.compressed, CompressedLowPriority)
                    + DiscardReasons(sel.dropped, DroppedUnderBudgetPressure)
  }

  lemma NothingPlanned(ids: set<string>, budget: int)
    ensures Planned([], ids, budget, [], [], [], 0, [], [])
  {
  }

  lemma PlannedIsPlan(ranked: seq<Scored>, ids: set<string>, budget: int, retained: seq<Ref>, compressed: seq<Ref>,
                      dropped: seq<Ref>, tokens: nat, kept: seq<(Ref, KeepReason)>, discarded: seq<(Ref, DiscardReason)>)
    requires Planned(ranked, ids, budget, retained, compressed, dropped, tokens, kept, discarded)
    ensures PlanOf(ranked, ids, budget) ==
            Plan(retained, compressed, dropped, tokens, TokensListed(ranked, compressed), kept, discarded)
  {
  }

  lemma KeepStep(ranked: seq<Scored>, i: nat, ids: set<string>, budget: int, retained: seq<Ref>, compressed: seq<Ref>,
                 dropped: seq<Ref>, tokens: nat, kept: seq<(Ref, KeepReason)>, discarded: seq<(Ref, DiscardReason)>)
    requires i < |ranked| && Keeps(ranked[i], ids, budget, tokens)
    requires Planned(ranked[..i], ids, budget, retained, compressed, dropped, tokens, kept, discarded)
    ensures Planned(ranked[..i + 1], ids, budget, retained + [ranked[i].ref], compressed, dropped,
                    tokens + ranked[i].tokens, kept + [(ranked[i].ref, ReasonFor(ranked[i], ids))], discarded)
  {
    SelectStep(ranked, i, ids, budget);
    RefsSnoc(Select(ranked[..i], ids, budget).retained, ranked[i], ids);
    hide Keeps, Select, ReasonFor, TokenSum, Refs, KeepReasons, DiscardReasons;
  }

  lemma CompressStep(ranked: seq<Scored>, i: nat, ids: set<string>, budget: int, retained: seq<Ref>, compressed: seq<Ref>,
                     dropped: seq<Ref>, tokens: nat, kept: seq<(Ref, KeepReason)>, discarded: seq<(Ref, DiscardReason)>)
    requires i < |ranked| && InOrder(ranked) && !Keeps(ranked[i], ids, budget, tokens) && ranked[i].score >= 1.0
    requires Planned(ranked[..i], ids, budget, retained, compressed, dropped, tokens, kept, discarded)
    ensures Planned(ranked[..i + 1], ids, budget, retained, compressed + [ranked[i].ref], dropped, tokens, kept,
                    discarded + [(ranked[i].ref, CompressedLowPriority)])
  {
    var sel := Select(ranked[..i], ids, budget);
    SelectStep(ranked, i, ids, budget);
    RefsSnoc(sel.compressed, ranked[i], ids);
    NothingDroppedYet(ranked, i, ids, budget);
    assert DiscardReasons(sel.dropped, DroppedUnderBudgetPressure) == [];
    hide InOrder, Keeps, Select, TokenSum, Refs, KeepReasons, DiscardReasons;
  }

  lemma DropStep(ranked: seq<Scored>, i: nat, ids: set<string>, budget: int, retained: seq<Ref>, compressed: seq<Ref>,
                 dropped: seq<Ref>, tokens: nat, kept: seq<(Ref, KeepReason)>, discarded: seq<(Ref, DiscardReason)>)
    requires i < |ranked| && !Keeps(ranked[i], ids, budget, tokens) && ranked[i].score < 1.0
    requires Planned(ranked[..i], ids, budget, retained, compressed, dropped, tokens, kept, discarded)
    ensures Planned(ranked[..i + 1], ids, budget, retained, compressed, dropped + [ranked[i].ref], tokens, kept,
                    discarded + [(ranked[i].ref, DroppedUnderBudgetPressure)])
  {
    SelectStep(ranked, i, ids, budget);
    RefsSnoc(Select(ranked[..i], ids, budget).dropped, ranked[i], ids);
    hide Keeps, Select, TokenSum, Refs, KeepReasons, DiscardReasons;
  }

  lemma RefsSnoc(s: seq<Scored>, x: Scored, ids: set<string>)
    ensures Refs(s + [x]) == Refs(s) + [x.ref]
    ensures TokenSum(s + [x]) == TokenSum(s) + x.tokens
    ensures KeepReasons(s + [x], ids) == KeepReasons(s, ids) + [(x.ref, ReasonFor(x, ids))]
    ensures DiscardReasons(s + [x], CompressedLowPriority) == DiscardReasons(s, CompressedLowPriority) + [(x.ref, CompressedLowPriority)]
    ensures DiscardReasons(s + [x], DroppedUnderBudgetPressure) ==
            DiscardReasons(s, DroppedUnderBudgetPressure) + [(x.ref, DroppedUnderBudgetPressure)]
  {
    TokenSumSnoc(s, x);
  }

  lemma SelectStep(ranked: seq<Scored>, i: nat, ids: set<string>, budget: int)
    requires i < |ranked|
    ensures Select(ranked[..i + 1], ids, budget) == Decide(Select(ranked[..i], ids, budget), ranked[i], ids, budget)
  {
    assert ranked[..i + 1][..i] == ranked[..i];
  }

  lemma TokenSumSnoc(s: seq<Scored>, x: Scored)
    ensures TokenSum(s + [x]) == TokenSum(s) + x.tokens
  {
    assert (s + [x])[..|s|] == s;
  }

  /** Up to an item scored 1.0 or more, nothing has been dropped. */
  lemma {:induction false} NothingDroppedYet(ranked: seq<Scored>, i: nat, ids: set<string>, budget: int)
    requires InOrder(ranked) && i < |ranked| && ranked[i].score >= 1.0
    ensures Select(ranked[..i], ids, budget).dropped == []
  {
    if i > 0 {
      assert !Before(ranked[i], ranked[i - 1]);
      NothingDroppedYet(ranked, i - 1, ids, budget);
      SelectStep(ranked, i - 1, ids, budget);
    }
  }

  // ---------- Laws of the selection ----------

  /** Position `i` of the ranking is kept. */
  predicate KeptAt(ranked: seq<Scored>, ids: set<string>, budget: int, i: nat)
    requires i < |ranked|
  {
    Keeps(ranked[i], ids, budget, TokenSum(Select(ranked[..i], ids, budget).retained))
  }

  ghost predicate Splits(sel: Selection, s: seq<Scored>) {
    && multiset(sel.retained) + multiset(sel.compressed) + multiset(sel.dropped) == multiset(s)
    && TokenSum(sel.retained) + TokenSum(sel.compressed) + TokenSum(sel.dropped) == TokenSum(s)
  }

  /** The outcomes split the items exactly, and their tokens add up. */
  lemma {:induction false} SelectionPartitions(ranked: seq<Scored>, ids: set<string>, budget: int)
    ensures Splits(Select(ranked, ids, budget), ranked)
  {
    if ranked != [] {
      var front, x := ranked[..|ranked| - 1], ranked[|ranked| - 1];
      SelectionPartitions(front, ids, budget);
      assert ranked == front + [x];
      hide Decide, Splits;
      DecideSplits(Select(front, ids, budget), front, x, ids, budget);
    }
  }

  lemma DecideSplits(sel: Selection, s: seq<Scored>, x: Scored, ids: set<string>, budget: int)
    requires Splits(sel, s)
    ensures Splits(Decide(sel, x, ids, budget), s + [x])
  {
    SplitsSnoc(sel, s, x);
    hide Splits, Keeps;
  }

  lemma SplitsSnoc(sel: Selection, s: seq<Scored>, x: Scored)
    requires Splits(sel, s)
    ensures Splits(sel.(retained := sel.retained + [x]), s + [x])
    ensures Splits(sel.(compressed := sel.compressed + [x]), s + [x])
    ensures Splits(sel.(dropped := sel.dropped + [x]), s + [x])
  {
    TokenSumSnoc(s, x);
    TokenSumSnoc(sel.retained, x);
    TokenSumSnoc(sel.compressed, x);
    TokenSumSnoc(sel.dropped, x);
    MultisetSnoc(s, x);
    MultisetSnoc(sel.retained, x);
    MultisetSnoc(sel.compressed, x);
    MultisetSnoc(sel.dropped, x);
    hide TokenSum;
    AddAnywhere(multiset(sel.retained), multiset(sel.compressed), multiset(sel.dropped), multiset{x});
  }

  lemma MultisetSnoc<T>(s: seq<T>, x: T)
    ensures multiset(s + [x]) == multiset(s) + multiset{x}
  {
  }

  lemma AddAnywhere<T>(a: multiset<T>, b: multiset<T>, c: multiset<T>, x: multiset<T>)
    ensures a + x + b + c == a + b + c + x
    ensures a + (b + x) + c == a + b + c + x
    ensures a + b + (c + x) == a + b + c + x
  {
  }

  /** Guarded items are always retained; what is compressed scores at least 1.0, what is dropped less. */
  lemma {:induction false} OutcomesFit(ranked: seq<Scored>, ids: set<string>, budget: int)
    ensures var sel := Select(ranked, ids, budget);
            && (forall x :: x in ranked && Guarded(x, ids) ==> x in sel.retained)
            && (forall x :: x in sel.compressed ==> x.score >= 1.0 && !Guarded(x, ids))
            && (forall x :: x in sel.dropped ==> x.score < 1.0 && !Guarded(x, ids))
  {
    if ranked != [] {
      var front, x := ranked[..|ranked| - 1], ranked[|ranked| - 1];
      OutcomesFit(front, ids, budget);
      assert ranked == front + [x];
    }
  }

  /** The items kept only because they fit. */
  function Fitting(s: seq<Scored>, ids: set<string>): seq<Scored> {
    if s == [] then []
    else Fitting(s[..|s| - 1], ids) + (if Guarded(s[|s| - 1], ids) then [] else [s[|s| - 1]])
  }

  lemma {:induction false} FittingAtMost(s: seq<Scored>, ids: set<string>)
    ensures TokenSum(Fitting(s, ids)) <= TokenSum(s)
  {
    if s != [] {
      FittingAtMost(s[..|s| - 1], ids);
      TokenSumSnoc(Fitting(s[..|s| - 1], ids), s[|s| - 1]);
      assert Fitting(s[..|s| - 1], ids) + [] == Fitting(s[..|s| - 1], ids);
    }
  }

  /** Items kept because they fit never exceed the budget together. */
  lemma {:induction false} FittingWithinBudget(ranked: seq<Scored>, ids: set<string>, budget: int)
    ensures var fitting := Fitting(Select(ranked, ids, budget).retained, ids);
            fitting != [] ==> TokenSum(fitting) <= budget
  {
    if ranked != [] {
      var front, x := ranked[..|ranked| - 1], ranked[|ranked| - 1];
      FittingWithinBudget(front, ids, budget);
      var before := Select(front, ids, budget).retained;
      FittingAtMost(before, ids);
      assert (before + [x])[..|before|] == before;
      TokenSumSnoc(Fitting(before, ids), x);
      assert Fitting(before, ids) + [] == Fitting(before, ids);
    }
  }

  /** Retained tokens only grow along the ranking. */
  lemma {:induction false} RetainedGrows(ranked: seq<Scored>, ids: set<string>, budget: int, i: nat, j: nat)
    requires i <= j <= |ranked|
    ensures TokenSum(Select(ranked[..i], ids, budget).retained) <= TokenSum(Select(ranked[..j], ids, budget).retained)
  {
    hide *;
    if i < j {
      RetainedGrows(ranked, ids, budget, i, j - 1);
      SelectStep(ranked, j - 1, ids, budget);
      DecideGrows(Select(ranked[..j - 1], ids, budget), ranked[j - 1], ids, budget);
    }
  }

  lemma DecideGrows(sel: Selection, x: Scored, ids: set<string>, budget: int)
    ensures TokenSum(sel.retained) <= TokenSum(Decide(sel, x, ids, budget).retained)
  {
    TokenSumSnoc(sel.retained, x);
  }

  lemma {:induction false} DiscardedPosition(ranked: seq<Scored>, ids: set<string>, budget: int, x: Scored) returns (i: nat)
    requires x in Select(ranked, ids, budget).compressed + Select(ranked, ids, budget).dropped
    ensures i < |ranked| && ranked[i] == x && !KeptAt(ranked, ids, budget, i)
  {
    var n := |ranked| - 1;
    var front := Select(ranked[..n], ids, budget);
    if x in front.compressed + front.dropped {
      i := DiscardedPosition(ranked[..n], ids, budget, x);
      assert ranked[..n][..i] == ranked[..i];
    } else {
      i := n;
    }
  }

  /** No discarded item could be added back: with it the retained total would exceed the budget. */
  lemma {:induction false} SelectionIsMaximal(ranked: seq<Scored>, ids: set<string>, budget: int, x: Scored)
    requires x in Select(ranked, ids, budget).compressed + Select(ranked, ids, budget).dropped
    ensures TokenSum(Select(ranked, ids, budget).retained) + x.tokens > budget
  {
    var i := DiscardedPosition(ranked, ids, budget, x);
    RetainedGrows(ranked, ids, budget, i, |ranked|);
    assert ranked[..|ranked|] == ranked;
  }

  /** An unguarded item is kept past a higher-ranked discarded one only if it is strictly smaller. */
  lemma {:induction false} InversionOnlyForSmaller(ranked: seq<Scored>, ids: set<string>, budget: int, i: nat, j: nat)
    requires i < j < |ranked| && !KeptAt(ranked, ids, budget, i) && KeptAt(ranked, ids, budget, j)
    requires !Guarded(ranked[j], ids)
    ensures ranked[j].tokens < ranked[i].tokens
  {
    RetainedGrows(ranked, ids, budget, i, j);
  }

  // ---------- The range guard on the context ----------

  lemma {:induction false} ScoredItemsAreTheEntries(host: Host, context: Context, generated: nat -> string, request: Request, from: nat)
    ensures forall i :: from <= i < |context| && context[i].Some? ==>
              ScoredAt(host, context, generated, request, i) in ScoredItems(host, context, generated, request, from)
    ensures forall x :: x in ScoredItems(host, context, generated, request, from) ==>
              from <= x.index < |context| && context[x.index].Some? && x == ScoredAt(host, context, generated, request, x.index)
    decreases |context| - from
  {
    hide ScoredAt;
    if from < |context| {
      ScoredItemsAreTheEntries(host, context, generated, request, from + 1);
      IndexOfScored(host, context, generated, request, from);
    }
  }

  lemma IndexOfScored(host: Host, context: Context, generated: nat -> string, request: Request, i: nat)
    requires i < |context|
    ensures context[i].Some? ==> ScoredAt(host, context, generated, request, i).index == i
  {
  }

  /** The foundation prefix, the last `maxTail + 1` entries and every protected entry are retained, whatever the budget. */
  lemma GuardedEntriesRetained(host: Host, context: Context, generated: nat -> string, request: Request, i: nat)
    requires i < |context| && context[i].Some?
    requires var x := ScoredAt(host, context, generated, request, i);
             || i < PrefixGuard(host, context)
             || i + (if request.maxTail > 0 then request.maxTail else 0) + 1 >= |context|
             || x.ref.id in ProtectedIds(host, context, generated, request)
    ensures ScoredAt(host, context, generated, request, i) in
            Select(Ranked(ScoredItems(host, context, generated, request, 0)),
                   ProtectedIds(host, context, generated, request), request.budget).retained
  {
    var items := ScoredItems(host, context, generated, request, 0);
    var x, ids := ScoredAt(host, context, generated, request, i), ProtectedIds(host, context, generated, request);
    ScoredItemsAreTheEntries(host, context, generated, request, 0);
    RankedContents(items);
    assert x in multiset(Ranked(items));
    OutcomesFit(Ranked(items), ids, request.budget);
    assert Guarded(x, ids);
  }

  // ---------- What the plan prefers ----------

  function SelectionFor(host: Host, context: Context, generated: nat -> string, request: Request): Selection {
    Select(Ranked(ScoredItems(host, context, generated, request, 0)), ProtectedIds(host, context, generated, request), request.budget)
  }

  function PlanFor(host: Host, context: Context, generated: nat -> string, request: Request): Plan {
    PlanOf(Ranked(ScoredItems(host, context, generated, request, 0)), ProtectedIds(host, context, generated, request), request.budget)
  }

  ghost predicate IsProtected(host: Host, context: Context, generated: nat -> string, request: Request, i: nat)
    requires i < |context| && context[i].Some?
  {
    RefOf(context[i].value, i, "node", generated).id in ProtectedIds(host, context, generated, request)
  }

  /** Neither protected nor in the foundation prefix nor among the last entries: the budget decides. */
  ghost predicate LeftToBudget(host: Host, context: Context, generated: nat -> string, request: Request, i: nat)
    requires i < |context| && context[i].Some?
  {
    && !IsProtected(host, context, generated, request, i)
    && PrefixGuard(host, context) <= i && i + (if request.maxTail > 0 then request.maxTail else 0) + 1 < |context|
  }

  /** Why an entry is kept: first because it is protected, then because of where it stands, then because it fits. */
  ghost predicate KeptFor(host: Host, context: Context, generated: nat -> string, request: Request, i: nat, reason: KeepReason)
    requires i < |context| && context[i].Some?
  {
    match reason
    case Protected => IsProtected(host, context, generated, request, i)
    case RangeGuard => !IsProtected(host, context, generated, request, i) && !LeftToBudget(host, context, generated, request, i)
    case WithinBudget => LeftToBudget(host, context, generated, request, i)
  }

  /** Every entry has one outcome, and the plan names it there. */
  lemma PlanNamesEntry(host: Host, context: Context, generated: nat -> string, request: Request, i: nat)
    requires i < |context| && context[i].Some?
    ensures var plan, sel := PlanFor(host, context, generated, request), SelectionFor(host, context, generated, request);
            var x, ref := ScoredAt(host, context, generated, request, i), RefOf(context[i].value, i, "node", generated);
            && (x in sel.retained ==> ref in plan.retainedRefs && exists reason :: (ref, reason) in plan.kept && KeptFor(host, context, generated, request, i, reason))
            && (x in sel.compressed ==> ref in plan.compressedRefs && (ref, CompressedLowPriority) in plan.discarded)
            && (x in sel.dropped ==> ref in plan.droppedRefs && (ref, DroppedUnderBudgetPressure) in plan.discarded)
            && (x in sel.retained || x in sel.compressed || x in sel.dropped)
  {
    var items := ScoredItems(host, context, generated, request, 0);
    var ids, sel := ProtectedIds(host, context, generated, request), SelectionFor(host, context, generated, request);
    var x := ScoredAt(host, context, generated, request, i);
    ScoredItemsAreTheEntries(host, context, generated, request, 0);
    RankedContents(items);
    SelectionPartitions(Ranked(items), ids, request.budget);
    assert x in multiset(Ranked(items));
    assert x in multiset(sel.retained) + multiset(sel.compressed) + multiset(sel.dropped);
    ListedRef(sel.retained, x, CompressedLowPriority);
    ListedReason(sel.retained, x, ids);
    assert KeptFor(host, context, generated, request, i, ReasonFor(x, ids));
    ListedRef(sel.compressed, x, CompressedLowPriority);
    ListedRef(sel.dropped, x, DroppedUnderBudgetPressure);
    hide KeptFor, ReasonFor, Select, Ranked, ScoredItems, ProtectedIds, RefOf, Score, Tokens, Compressible, Refs, DiscardReasons, KeepReasons, TokensListed, TokenSum;
  }

  lemma ListedReason(s: seq<Scored>, x: Scored, ids: set<string>)
    ensures x in s ==> (x.ref, ReasonFor(x, ids)) in KeepReasons(s, ids)
  {
    hide ReasonFor;
    if k :| 0 <= k < |s| && s[k] == x {
      assert KeepReasons(s, ids)[k] == (x.ref, ReasonFor(x, ids));
    }
  }

  lemma ListedRef(s: seq<Scored>, x: Scored, reason: DiscardReason)
    ensures x in s ==> x.ref in Refs(s) && (x.ref, reason) in DiscardReasons(s, reason)
  {
    if k :| 0 <= k < |s| && s[k] == x {
      assert Refs(s)[k] == x.ref && DiscardReasons(s, reason)[k] == (x.ref, reason);
    }
  }

  lemma {:induction false} KeptIsRetained(ranked: seq<Scored>, ids: set<string>, budget: int, i: nat)
    requires i < |ranked| && KeptAt(ranked, ids, budget, i)
    ensures ranked[i] in Select(ranked, ids, budget).retained
  {
    var n := |ranked| - 1;
    assert Select(ranked, ids, budget) == Decide(Select(ranked[..n], ids, budget), ranked[n], ids, budget);
    hide Select, TokenSum, Keeps;
    if i < n {
      assert ranked[..n][..i] == ranked[..i];
      KeptIsRetained(ranked[..n], ids, budget, i);
    }
  }

  lemma {:induction false} RetainedPosition(ranked: seq<Scored>, ids: set<string>, budget: int, x: Scored) returns (i: nat)
    requires x in Select(ranked, ids, budget).retained
    ensures i < |ranked| && ranked[i] == x && KeptAt(ranked, ids, budget, i)
  {
    var n := |ranked| - 1;
    if x in Select(ranked[..n], ids, budget).retained {
      i := RetainedPosition(ranked[..n], ids, budget, x);
      assert ranked[..n][..i] == ranked[..i];
    } else {
      i := n;
    }
  }

  /** The base of an entry is importance plus overlap, less a quarter for a summary; protection adds ten. The ranking follows it. */
  lemma RankFollowsBase(host: Host, context: Context, generated: nat -> string, request: Request, i: nat, j: nat, p: nat, q: nat)
    requires i < |context| && context[i].Some? && j < |context| && context[j].Some?
    requires var a, b := context[i].value, context[j].value;
             a.importance + a.overlap as real - (if a.kind == "retrieval-summary" || a.kind == "summary" then 0.25 else 0.0)
             + (if IsProtected(host, context, generated, request, i) then 10.0 else 0.0)
             > b.importance + b.overlap as real - (if b.kind == "retrieval-summary" || b.kind == "summary" then 0.25 else 0.0)
               + (if IsProtected(host, context, generated, request, j) then 10.0 else 0.0)
    requires var ranked := Ranked(ScoredItems(host, context, generated, request, 0));
             p < |ranked| && ranked[p].index == i && q < |ranked| && ranked[q].index == j
    ensures p < q
  {
    var items := ScoredItems(host, context, generated, request, 0);
    var ranked := Ranked(items);
    var ks := RankedInOrder(items);
    assert q < p ==> !Before(ranked[p], ranked[q]);
    EntryAt(host, context, generated, request, p);
    EntryAt(host, context, generated, request, q);
    assert ranked[p].score > ranked[q].score;
    hide Ranked, ScoredItems, ScoredAt, Score;
    assert Before(ranked[p], ranked[q]);
  }

  lemma EntryAt(host: Host, context: Context, generated: nat -> string, request: Request, p: nat)
    requires p < |Ranked(ScoredItems(host, context, generated, request, 0))|
    ensures var x := Ranked(ScoredItems(host, context, generated, request, 0))[p];
            x.index < |context| && context[x.index].Some? && x == ScoredAt(host, context, generated, request, x.index)
  {
    var items := ScoredItems(host, context, generated, request, 0);
    ScoredItemsAreTheEntries(host, context, generated, request, 0);
    RankedContents(items);
    hide Ranked, ScoredItems, ScoredAt;
    var x := Ranked(items)[p];
    assert x in multiset(Ranked(items));
    assert x in items;
  }

  /** Of two entries left to the budget, the one with the higher base is never discarded while the other is kept, unless it is
      the larger one. */
  lemma BetterEntryStays(host: Host, context: Context, generated: nat -> string, request: Request, i: nat, j: nat)
    requires i < |context| && context[i].Some? && j < |context| && context[j].Some?
    requires LeftToBudget(host, context, generated, request, i) && LeftToBudget(host, context, generated, request, j)
    requires var a, b := context[i].value, context[j].value;
             && Tokens(a) <= Tokens(b)
             && a.importance + a.overlap as real - (if a.kind == "retrieval-summary" || a.kind == "summary" then 0.25 else 0.0)
                > b.importance + b.overlap as real - (if b.kind == "retrieval-summary" || b.kind == "summary" then 0.25 else 0.0)
    ensures var sel := SelectionFor(host, context, generated, request);
            ScoredAt(host, context, generated, request, j) in sel.retained ==> ScoredAt(host, context, generated, request, i) in sel.retained
  {
    var items, ids := ScoredItems(host, context, generated, request, 0), ProtectedIds(host, context, generated, request);
    var ranked, x, y := Ranked(items), ScoredAt(host, context, generated, request, i), ScoredAt(host, context, generated, request, j);
    var sel := SelectionFor(host, context, generated, request);
    PlanNamesEntry(host, context, generated, request, i);
    assert x.index == i && y.index == j && x.tokens <= y.tokens && !Guarded(y, ids);
    if y in sel.retained && x !in sel.retained {
      var p := DiscardedPosition(ranked, ids, request.budget, x);
      var q := RetainedPosition(ranked, ids, request.budget, y);
      RankFollowsBase(host, context, generated, request, i, j, p, q);
      hide Ranked, ScoredItems, ScoredAt, Guarded;
      InversionOnlyForSmaller(ranked, ids, request.budget, p, q);
      assert false;
    }
  }

  /** In particular, more terms of the objective found in an entry never make the plan prefer the other, all else being equal;
      nor does more importance. */
  lemma MoreOverlapStays(host: Host, context: Context, generated: nat -> string, request: Request, i: nat, j: nat)
    requires i < |context| && context[i].Some? && j < |context| && context[j].Some?
    requires LeftToBudget(host, context, generated, request, i) && LeftToBudget(host, context, generated, request, j)
    requires var a, b := context[i].value, context[j].value;
             && a.kind == b.kind && Tokens(a) == Tokens(b) && a.importance >= b.importance && a.overlap >= b.overlap
             && (a.importance > b.importance || a.overlap > b.overlap)
    ensures var sel := SelectionFor(host, context, generated, request);
            ScoredAt(host, context, generated, request, j) in sel.retained ==> ScoredAt(host, context, generated, request, i) in sel.retained
  {
    BetterEntryStays(host, context, generated, request, i, j);
    hide SelectionFor, ScoredAt, Tokens, LeftToBudget;
  }

  lemma {:induction false} ScoredOnce(host: Host, context: Context, generated: nat -> string, request: Request, from: nat, x: Scored)
    ensures multiset(ScoredItems(host, context, generated, request, from))[x] <= 1
    decreases |context| - from
  {
    if from < |context| {
      var rest := ScoredItems(host, context, generated, request, from + 1);
      ScoredOnce(host, context, generated, request, from + 1, x);
      ScoredItemsAreTheEntries(host, context, generated, request, from + 1);
      hide ScoredAt;
      if context[from].Some? {
        IndexOfScored(host, context, generated, request, from);
        var first := ScoredAt(host, context, generated, request, from);
        assert multiset([first] + rest)[first] == 1 + multiset(rest)[first];
        assert first !in rest;
      } else {
        assert [] + rest == rest;
      }
    }
  }

  lemma OneOutcome(host: Host, context: Context, generated: nat -> string, request: Request, x: Scored)
    requires x in SelectionFor(host, context, generated, request).retained
    ensures x !in SelectionFor(host, context, generated, request).compressed && x !in SelectionFor(host, context, generated, request).dropped
  {
    var items, sel := ScoredItems(host, context, generated, request, 0), SelectionFor(host, context, generated, request);
    ScoredOnce(host, context, generated, request, 0, x);
    RankedContents(items);
    SelectionPartitions(Ranked(items), ProtectedIds(host, context, generated, request), request.budget);
    hide Select, Ranked, ScoredItems, ProtectedIds, TokenSum;
    assert (multiset(sel.retained) + multiset(sel.compressed) + multiset(sel.dropped))[x] <= 1;
    assert multiset(sel.retained)[x] > 0;
  }

  /** A discarded entry is compressed when its base reaches 1.0 and dropped otherwise. */
  lemma CompressedIff(host: Host, context: Context, generated: nat -> string, request: Request, i: nat)
    requires i < |context| && context[i].Some?
    ensures var sel, x, a := SelectionFor(host, context, generated, request), ScoredAt(host, context, generated, request, i), context[i].value;
            var base := a.importance + a.overlap as real - (if a.kind == "retrieval-summary" || a.kind == "summary" then 0.25 else 0.0);
            && (x in sel.compressed <==> x !in sel.retained && base >= 1.0)
            && (x in sel.dropped <==> x !in sel.retained && base < 1.0)
            && (x !in sel.retained ==> LeftToBudget(host, context, generated, request, i))
  {
    var items, ids := ScoredItems(host, context, generated, request, 0), ProtectedIds(host, context, generated, request);
    var x, sel := ScoredAt(host, context, generated, request, i), SelectionFor(host, context, generated, request);
    PlanNamesEntry(host, context, generated, request, i);
    OutcomesFit(Ranked(items), ids, request.budget);
    if x !in sel.retained {
      assert !Guarded(x, ids) && !IsProtected(host, context, generated, request, i);
    } else {
      OneOutcome(host, context, generated, request, x);
    }
  }

  // ---------- What is kept whatever the budget ----------

  /** The name of an entry: the id of its reference, given in full or only as an id, else its own id, else a generated one. */
  ghost predicate Called(item: Item, index: nat, generated: nat -> string, name: string) {
    match item.ref
    case Whole(ref) => name == ref.id
    case IdOnly(id) => if id != "" then name == id else if item.id != "" then name == item.id else name == generated(index)
    case NoRef => if item.id != "" then name == item.id else name == generated(index)
  }

  /** The entry belongs to the contract of the task: its id, kind or title says so. */
  ghost predicate Marked(host: Host, item: Item) {
    exists word :: word in ["responserequirements", "restartmessage", "worktree", "takeoverprotocol"]
                   && Occurs(word, host.lower(item.id + " " + item.kind + " " + item.title))
  }

  ghost predicate Founds(host: Host, item: Item) {
    Marked(host, item) || host.lower(Strip(item.kind)) in ["carry-forward-package", "retrieval-summary", "mailbox-message"]
  }

  lemma CalledIff(item: Item, index: nat, kind: string, generated: nat -> string, name: string)
    ensures Called(item, index, generated, name) <==> name == RefOf(item, index, kind, generated).id
  {
  }

  lemma MarkedIff(host: Host, item: Item)
    ensures Marked(host, item) <==> ContractProtected(host, item)
  {
    var text := Marker(host, item);
    var words := ["responserequirements", "restartmessage", "worktree", "takeoverprotocol"];
    assert words[0] in words && words[1] in words && words[2] in words && words[3] in words;
    forall word ensures InText(word, text) <==> Occurs(word, text) {
      InTextIff(word, text);
    }
    hide InText, Occurs;
    assert forall word :: word in words <==> word == words[0] || word == words[1] || word == words[2] || word == words[3];
  }

  lemma FoundsIff(host: Host, item: Item)
    ensures Founds(host, item) <==> Foundation(host, item)
  {
    MarkedIff(host, item);
    hide Marked, ContractProtected, Strip;
  }

  lemma {:induction false} ContractIds(host: Host, context: Context, generated: nat -> string, from: nat, name: string)
    ensures (exists r :: r in ContractRefs(host, context, generated, from) && r.id == name) <==>
            exists k :: from <= k < |context| && context[k].Some? && Marked(host, context[k].value) && Called(context[k].value, k, generated, name)
    decreases |context| - from
  {
    if from < |context| {
      ContractIds(host, context, generated, from + 1, name);
      var rest := ContractRefs(host, context, generated, from + 1);
      var first := match context[from]
                   case Some(item) => if ContractProtected(host, item) then [RefOf(item, from, "context-item", generated)] else []
                   case None => [];
      assert ContractRefs(host, context, generated, from) == first + rest;
      if context[from].Some? {
        MarkedIff(host, context[from].value);
        CalledIff(context[from].value, from, "context-item", generated, name);
      }
      hide ContractRefs, ContractProtected, RefOf, Marked, Called;
      assert forall r :: r in first + rest <==> r in first || r in rest;
      assert forall r :: r in first <==> first != [] && r == first[0];
    }
  }

  /** Protected: named by the request, or by an entry that belongs to the contract. */
  lemma ProtectedIff(host: Host, context: Context, generated: nat -> string, request: Request, name: string)
    ensures name in ProtectedIds(host, context, generated, request) <==>
            || (exists r :: r in request.protectedRefs && r.id == name)
            || exists k :: 0 <= k < |context| && context[k].Some? && Marked(host, context[k].value) && Called(context[k].value, k, generated, name)
  {
    ContractIds(host, context, generated, 0, name);
    var all := request.protectedRefs + ContractRefs(host, context, generated, 0);
    hide ContractRefs, Marked, Called;
    assert forall r :: r in all <==> r in request.protectedRefs || r in ContractRefs(host, context, generated, 0);
  }

  lemma PrefixIff(host: Host, context: Context, i: nat)
    requires i < |context|
    ensures i < PrefixGuard(host, context) <==> forall j :: 0 <= j <= i ==> context[j].Some? && Founds(host, context[j].value)
  {
    forall j | 0 <= j < |context| && context[j].Some? ensures Founds(host, context[j].value) <==> Foundation(host, context[j].value) {
      FoundsIff(host, context[j].value);
    }
    hide Founds, Foundation;
  }

  /** Kept whatever the budget is exactly what the request or the contract protects, the foundation the context begins with, and
      its last entries, one more than the tail asked for. */
  lemma GuardedIff(host: Host, context: Context, generated: nat -> string, request: Request, i: nat, name: string)
    requires i < |context| && context[i].Some? && Called(context[i].value, i, generated, name)
    ensures var x := ScoredAt(host, context, generated, request, i);
            && (Guarded(x, ProtectedIds(host, context, generated, request)) <==>
                  || (exists r :: r in request.protectedRefs && r.id == name)
                  || (exists k :: 0 <= k < |context| && context[k].Some? && Marked(host, context[k].value)
                                  && Called(context[k].value, k, generated, name))
                  || (forall j :: 0 <= j <= i ==> context[j].Some? && Founds(host, context[j].value))
                  || i + 1 >= |context| || i + request.maxTail + 1 >= |context|)
            && (Guarded(x, ProtectedIds(host, context, generated, request)) ==> x in SelectionFor(host, context, generated, request).retained)
  {
    ProtectedIff(host, context, generated, request, name);
    PrefixIff(host, context, i);
    CalledIff(context[i].value, i, "node", generated, name);
    var x, ids := ScoredAt(host, context, generated, request, i), ProtectedIds(host, context, generated, request);
    assert x.ref.id == name;
    assert x.compressible <==> Compressible(host, context, request.maxTail, i);
    if Guarded(x, ids) {
      GuardedEntriesRetained(host, context, generated, request, i);
    }
    hide ProtectedIds, Marked, Called, Founds, PrefixGuard, Score, Tokens, RefOf;
  }

  /** An entry counts as given, or by a quarter of its content, but as one token at least. */
  lemma TokensSay(item: Item)
    ensures Tokens(item) >= 1
    ensures forall n :: item.estimatedTokens == Some(n) && n >= 1 ==> Tokens(item) == n
    ensures forall n :: item.estimatedTokens == Some(n) && n < 1 ==> Tokens(item) == 1
    ensures item.estimatedTokens == None && |item.content| >= 4 ==> 4 * Tokens(item) <= |item.content| < 4 * Tokens(item) + 4
    ensures item.estimatedTokens == None && |item.content| < 4 ==> Tokens(item) == 1
  {
  }

  // ---------- Estimates ----------

  /** Position `i` is compressed. */
  predicate CompressedAt(ranked: seq<Scored>, ids: set<string>, budget: int, i: nat)
    requires i < |ranked|
  {
    !KeptAt(ranked, ids, budget, i) && ranked[i].score >= 1.0
  }

  lemma {:induction false} ListedAtLeast(ranked: seq<Scored>, ids: set<string>, budget: int, refs: seq<Ref>)
    requires forall x :: x in Select(ranked, ids, budget).compressed ==> x.ref in refs
    requires forall i :: 0 <= i < |ranked| ==> ranked[i].tokens > 0
    ensures TokensListed(ranked, refs) >= TokenSum(Select(ranked, ids, budget).compressed)
    ensures (TokensListed(ranked, refs) == TokenSum(Select(ranked, ids, budget).compressed)) <==>
            forall i :: 0 <= i < |ranked| && ranked[i].ref in refs ==> CompressedAt(ranked, ids, budget, i)
  {
    if ranked != [] {
      var n := |ranked| - 1;
      var front, x := ranked[..n], ranked[n];
      ListedAtLeast(front, ids, budget, refs);
      TokenSumSnoc(Select(front, ids, budget).compressed, x);
      assert Select(ranked, ids, budget) == Decide(Select(front, ids, budget), x, ids, budget);
      assert TokensListed(ranked, refs) == TokensListed(front, refs) + if x.ref in refs then x.tokens else 0;
      forall i | 0 <= i < n ensures CompressedAt(ranked, ids, budget, i) == CompressedAt(front, ids, budget, i) {
        assert front[..i] == ranked[..i];
      }
      assert CompressedAt(ranked, ids, budget, n)
             <==> !Keeps(x, ids, budget, TokenSum(Select(front, ids, budget).retained)) && x.score >= 1.0;
      hide Select, TokensListed, TokenSum, Keeps, CompressedAt;
    }
  }

  /** The compressed-token estimate is never too low, and exact exactly when no kept or dropped item shares a reference with a compressed one. */
  lemma CompressedEstimateExactIff(ranked: seq<Scored>, ids: set<string>, budget: int)
    requires forall i :: 0 <= i < |ranked| ==> ranked[i].tokens > 0
    ensures var compressed := Select(ranked, ids, budget).compressed;
            && PlanOf(ranked, ids, budget).estimatedCompressedTokens >= TokenSum(compressed)
            && (PlanOf(ranked, ids, budget).estimatedCompressedTokens == TokenSum(compressed) <==>
                forall i :: 0 <= i < |ranked| && ranked[i].ref in Refs(compressed) ==> CompressedAt(ranked, ids, budget, i))
  {
    var compressed := Select(ranked, ids, budget).compressed;
    forall x | x in compressed ensures x.ref in Refs(compressed) {
      var k :| 0 <= k < |compressed| && compressed[k] == x;
      assert Refs(compressed)[k] == x.ref;
    }
    ListedAtLeast(ranked, ids, budget, Refs(compressed));
  }

  /** Two items under one reference, the first kept, the second compressed: the estimate counts both. */
  lemma EstimateCanBeTooHigh(item: Item, ref: Ref)
    ensures var ranked := [Scored(ref, 0, 1.0, 1, true, item), Scored(ref, 1, 1.0, 1, true, item)];
            var sel, plan := Select(ranked, {}, 1), PlanOf(ranked, {}, 1);
            && InOrder(ranked) && sel.retained == [ranked[0]] && sel.compressed == [ranked[1]]
            && TokenSum(sel.compressed) == 1 && plan.estimatedCompressedTokens == 2
  {
    var x, y := Scored(ref, 0, 1.0, 1, true, item), Scored(ref, 1, 1.0, 1, true, item);
    LessIrreflexive(ref.id);
    assert InOrder([x, y]);
    SelectTwo(x, y, 1);
    ListedTwo(x, y);
    hide Select, InOrder, TokenSum, TokensListed;
  }

  lemma SelectTwo(x: Scored, y: Scored, budget: int)
    requires x.compressible && y.compressible && x.tokens <= budget < x.tokens + y.tokens && y.score >= 1.0
    ensures Select([x, y], {}, budget) == Selection([x], [y], []) && TokenSum([y]) == y.tokens
  {
    TokenSumSnoc([], x);
    TokenSumSnoc([], y);
    assert [x, y][..1] == [x] && [x][..0] == [] && [] + [x] == [x] && [] + [y] == [y];
    assert Select([x], {}, budget) == Decide(Selection([], [], []), x, {}, budget);
    hide TokenSum;
    assert TokenSum([]) == 0;
  }

  lemma ListedTwo(x: Scored, y: Scored)
    requires x.ref == y.ref
    ensures TokensListed([x, y], Refs([y])) == x.tokens + y.tokens
  {
    var refs := Refs([y]);
    assert refs[0] == y.ref && y.ref in refs;
    assert [x, y][..1] == [x] && [x][..0] == [];
    hide Refs;
    assert TokensListed([x], refs) == TokensListed([], refs) + x.tokens;
  }

  // ---------- Replay ----------

  /** The last entry with each id. */
  function ItemsById(context: Context, generated: nat -> string, upTo: nat): map<string, Item>
    requires upTo <= |context|
  {
    if upTo == 0 then map[]
    else
      var before := ItemsById(context, generated, upTo - 1);
      match context[upTo - 1]
      case None => before
      case Some(item) => before[RefOf(item, upTo - 1, "node", generated).id := item]
  }

  datatype Execution = Execution(retainedItems: seq<Item>, compressedItems: seq<(Ref, string)>, droppedItems: seq<Ref>)

  function Present(refs: seq<Ref>, items: map<string, Item>): seq<Item> {
    if refs == [] then []
    else (if refs[0].id in items then [items[refs[0].id]] else []) + Present(refs[1..], items)
  }

  /** The text a compressed item's summary is excerpted from. */
  function SummaryText(ref: Ref, items: map<string, Item>): string {
    if ref.id !in items then "" else if items[ref.id].content != "" then items[ref.id].content else items[ref.id].title
  }

  function Replay(plan: Plan, items: map<string, Item>): Execution {
    Execution(Present(plan.retainedRefs, items),
              seq(|plan.compressedRefs|, i requires 0 <= i < |plan.compressedRefs| =>
                  (plan.compressedRefs[i], SummaryText(plan.compressedRefs[i], items))),
              plan.droppedRefs)
  }

  method Execute(context: Context, generated: nat -> string, plan: Plan) returns (execution: Execution)
    ensures execution == Replay(plan, ItemsById(context, generated, |context|))
  {
    var itemsById: map<string, Item> := map[];
    for i := 0 to |context|
      invariant itemsById == ItemsById(context, generated, i)
    {
      if context[i].Some? {
        var ref := RefOf(context[i].value, i, "node", generated);
        itemsById := itemsById[ref.id := context[i].value];
      }
    }
    execution := Replay(plan, itemsById);
  }

  /** The references of the context's entries are told apart by their ids. */
  ghost predicate DistinctIds(context: Context, generated: nat -> string) {
    forall i, j :: 0 <= i < j < |context| && context[i].Some? && context[j].Some? ==>
      RefOf(context[i].value, i, "node", generated).id != RefOf(context[j].value, j, "node", generated).id
  }

  lemma {:induction false} FoundById(context: Context, generated: nat -> string, upTo: nat, i: nat)
    requires DistinctIds(context, generated) && i < upTo <= |context| && context[i].Some?
    ensures var id := RefOf(context[i].value, i, "node", generated).id;
            id in ItemsById(context, generated, upTo) && ItemsById(context, generated, upTo)[id] == context[i].value
  {
    hide RefOf;
    if i < upTo - 1 {
      FoundById(context, generated, upTo - 1, i);
    }
  }

  function ItemsOf(s: seq<Scored>): (items: seq<Item>)
    ensures |items| == |s|
  {
    seq(|s|, i requires 0 <= i < |s| => s[i].item)
  }

  lemma {:induction false} PresentOfRetained(s: seq<Scored>, items: map<string, Item>)
    requires forall i :: 0 <= i < |s| ==> s[i].ref.id in items && items[s[i].ref.id] == s[i].item
    ensures Present(Refs(s), items) == ItemsOf(s)
  {
    if s != [] {
      assert Refs(s)[1..] == Refs(s[1..]) && Refs(s)[0] == s[0].ref;
      PresentOfRetained(s[1..], items);
      assert ItemsOf(s) == [s[0].item] + ItemsOf(s[1..]);
    }
  }

  function ItemTokens(items: seq<Item>): nat {
    if items == [] then 0 else ItemTokens(items[..|items| - 1]) + Tokens(items[|items| - 1])
  }

  /** With distinct ids, executing a plan on its context returns precisely the retained items, in rank order, and their tokens are the plan's estimate. */
  lemma ExecuteReplaysPlan(host: Host, context: Context, generated: nat -> string, request: Request)
    requires DistinctIds(context, generated)
    ensures var ids := ProtectedIds(host, context, generated, request);
            var ranked := Ranked(ScoredItems(host, context, generated, request, 0));
            var plan := PlanOf(ranked, ids, request.budget);
            var execution := Replay(plan, ItemsById(context, generated, |context|));
            && execution.retainedItems == ItemsOf(Select(ranked, ids, request.budget).retained)
            && ItemTokens(execution.retainedItems) == plan.estimatedRetainedTokens
  {
    var ids := ProtectedIds(host, context, generated, request);
    var items := ScoredItems(host, context, generated, request, 0);
    var ranked := Ranked(items);
    var retained := Select(ranked, ids, request.budget).retained;
    RankedContents(items);
    SelectionPartitions(ranked, ids, request.budget);
    ScoredItemsAreTheEntries(host, context, generated, request, 0);
    forall i | 0 <= i < |retained|
      ensures var x := retained[i];
              && x.tokens == Tokens(x.item)
              && x.ref.id in ItemsById(context, generated, |context|)
              && ItemsById(context, generated, |context|)[x.ref.id] == x.item
    {
      var x := retained[i];
      assert x in multiset(retained) && x in multiset(ranked) && x in multiset(items);
      FoundById(context, generated, |context|, x.index);
    }
    PresentOfRetained(retained, ItemsById(context, generated, |context|));
    ItemTokensSum(retained);
  }

  lemma {:induction false} ItemTokensSum(s: seq<Scored>)
    requires forall i :: 0 <= i < |s| ==> s[i].tokens == Tokens(s[i].item)
    ensures ItemTokens(ItemsOf(s)) == TokenSum(s)
  {
    if s != [] {
      ItemTokensSum(s[..|s| - 1]);
      assert ItemsOf(s)[..|s| - 1] == ItemsOf(s[..|s| - 1]);
    }
  }

  /** The last entry of this name stands at `k`. */
  ghost predicate LastCalled(context: Context, generated: nat -> string, name: string, k: nat) {
    && k < |context| && context[k].Some? && Called(context[k].value, k, generated, name)
    && forall j :: k < j < |context| && context[j].Some? ==> !Called(context[j].value, j, generated, name)
  }

  lemma {:induction false} ItemsByIdAre(context: Context, generated: nat -> string, upTo: nat, name: string)
    requires upTo <= |context|
    ensures var items := ItemsById(context, generated, upTo);
            if name in items then exists k: nat :: LastCalled(context[..upTo], generated, name, k) && items[name] == context[k].value
            else forall k :: 0 <= k < upTo && context[k].Some? ==> !Called(context[k].value, k, generated, name)
  {
    if upTo > 0 {
      var n := upTo - 1;
      ItemsByIdAre(context, generated, n, name);
      if context[n].Some? {
        CalledIff(context[n].value, n, "node", generated, name);
      }
      var before, now := context[..n], context[..upTo];
      assert now[n] == context[n] && forall k :: 0 <= k < n ==> now[k] == before[k];
      hide RefOf, Called;
      if context[n].Some? && Called(context[n].value, n, generated, name) {
        assert LastCalled(now, generated, name, n);
      } else if name in ItemsById(context, generated, n) {
        var k: nat :| LastCalled(before, generated, name, k) && ItemsById(context, generated, n)[name] == context[k].value;
        assert LastCalled(now, generated, name, k);
      }
    }
  }

  /** What a compressed reference is summarised from: the content of the last entry of its name, or its title, or nothing. */
  ghost predicate SummarisedFrom(context: Context, generated: nat -> string, name: string, text: string) {
    if exists k: nat :: LastCalled(context, generated, name, k) then
      exists k: nat :: LastCalled(context, generated, name, k)
                       && if context[k].value.content == "" then text == context[k].value.title else text == context[k].value.content
    else text == ""
  }

  /** Execution hands the compressed references on in order, each with the text it is summarised from, and the dropped ones as they are. */
  lemma ExecutionSays(context: Context, generated: nat -> string, plan: Plan, i: nat)
    requires i < |plan.compressedRefs|
    ensures var e := Replay(plan, ItemsById(context, generated, |context|));
            && e.droppedItems == plan.droppedRefs && |e.compressedItems| == |plan.compressedRefs|
            && e.compressedItems[i].0 == plan.compressedRefs[i]
            && SummarisedFrom(context, generated, plan.compressedRefs[i].id, e.compressedItems[i].1)
  {
    var name := plan.compressedRefs[i].id;
    ItemsByIdAre(context, generated, |context|, name);
    assert context[..|context|] == context;
    hide ItemsById, Called;
  }
}
