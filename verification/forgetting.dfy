/**
 Soft forgetting: each pass selects the lowest-scored nodes of a branch and
 writes weaker values for them. Stability, forget rate, access score and float
 score are kept in thousandths, the grid they are rounded to.
 */
module SoftForgetting {
  import opened Collections
  import opened Payloads
  import opened Sorting

  datatype Node = Node(id: string, root: bool, content: string, importance: real, feedforward: real, edgeCount: int,
                       stability: int, forgetRate: int, access: int, floatScore: int)

  ghost predicate Nearest(round: real -> int) {
    forall x: real :: x - 0.5 <= round(x) as real <= x + 0.5
  }

  function HalfUp(x: real): int {
    (x + 0.5).Floor
  }

  /** Rounding to the nearest integer, ties either way. */
  type Rounding = round: real -> int | Nearest(round) witness HalfUp

  function RMin(a: real, b: real): real {
    if a < b then a else b
  }

  function RMax(a: real, b: real): real {
    if a > b then a else b
  }

  /** `_organizer_score`. */
  function Score(n: Node): real {
    n.importance * 0.45 + n.stability as real / 1000.0 * 0.2 + n.access as real / 1000.0 * 0.15 + n.feedforward * 0.1
    + RMin(n.edgeCount as real / 10.0, 0.1)
  }

  // ---------- One node ----------

  /** The values one pass writes for a selected node. */
  function Forget(round: Rounding, excerpt: string -> string, n: Node): Node {
    n.(content := excerpt(n.content),
       stability := round(RMax(100.0, n.stability as real * 0.9)),
       forgetRate := round(RMin(1000.0, n.forgetRate as real + 150.0)),
       access := round(RMax(0.0, n.access as real * 0.6)),
       floatScore := round(RMin(1000.0, n.floatScore as real + 200.0)))
  }

  lemma RoundInt(round: Rounding, x: real, k: int)
    requires k as real - 0.5 < x < k as real + 0.5
    ensures round(x) == k
  {
    assert x - 0.5 <= round(x) as real <= x + 0.5;
  }

  lemma StabilityStep(round: Rounding, excerpt: string -> string, n: Node)
    ensures var s := Forget(round, excerpt, n).stability;
            && 100 <= s
            && (n.stability <= 111 ==> s == 100)
            && (n.stability >= 110 ==> s <= n.stability - 10)
  {
    var x := RMax(100.0, n.stability as real * 0.9);
    assert x - 0.5 <= round(x) as real <= x + 0.5;
  }

  lemma AccessStep(round: Rounding, excerpt: string -> string, n: Node)
    ensures var a := Forget(round, excerpt, n).access;
            && (n.access <= 0 ==> a == 0)
            && (n.access == 1 ==> a == 1)
            && (n.access > 1 ==> 1 <= a < n.access)
  {
    var x := RMax(0.0, n.access as real * 0.6);
    assert x - 0.5 <= round(x) as real <= x + 0.5;
  }

  lemma RatesStep(round: Rounding, excerpt: string -> string, n: Node)
    ensures Forget(round, excerpt, n).forgetRate == if n.forgetRate + 150 < 1000 then n.forgetRate + 150 else 1000
    ensures Forget(round, excerpt, n).floatScore == if n.floatScore + 200 < 1000 then n.floatScore + 200 else 1000
  {
    RoundInt(round, RMin(1000.0, n.forgetRate as real + 150.0), if n.forgetRate + 150 < 1000 then n.forgetRate + 150 else 1000);
    RoundInt(round, RMin(1000.0, n.floatScore as real + 200.0), if n.floatScore + 200 < 1000 then n.floatScore + 200 else 1000);
  }

  /** What a pass writes for a selected node: a tenth off the stability but not below 0.1, four tenths off the access score, each
      rounded to a nearest thousandth, and more forgetting and float score up to 1. */
  lemma ForgetSays(round: Rounding, excerpt: string -> string, n: Node)
    ensures var m := Forget(round, excerpt, n);
            && m == Node(n.id, n.root, excerpt(n.content), n.importance, n.feedforward, n.edgeCount, m.stability, m.forgetRate, m.access, m.floatScore)
            && (n.stability >= 112 ==> -5 <= 10 * m.stability - 9 * n.stability <= 5)
            && (n.stability <= 111 ==> m.stability == 100)
            && (n.access >= 0 ==> -5 <= 10 * m.access - 6 * n.access <= 5)
            && (n.access < 0 ==> m.access == 0)
            && m.forgetRate == (if n.forgetRate < 850 then n.forgetRate + 150 else 1000)
            && m.floatScore == (if n.floatScore < 800 then n.floatScore + 200 else 1000)
  {
    RatesStep(round, excerpt, n);
    StabilityStep(round, excerpt, n);
    AccessStep(round, excerpt, n);
    var x, y := RMax(100.0, n.stability as real * 0.9), RMax(0.0, n.access as real * 0.6);
    assert x - 0.5 <= round(x) as real <= x + 0.5;
    assert y - 0.5 <= round(y) as real <= y + 0.5;
  }

  function ForgetTimes(round: Rounding, excerpt: string -> string, n: Node, passes: nat): Node
    decreases passes
  {
    if passes == 0 then n else ForgetTimes(round, excerpt, Forget(round, excerpt, n), passes - 1)
  }

  function Max(a: int, b: int): int {
    if a > b then a else b
  }

  /** Passes after which a node has reached its limits. */
  function PassesNeeded(n: Node): nat {
    Max(1, Max(Max((n.stability - 100 + 9) / 10, n.access - 1),
               Max((1000 - n.forgetRate + 149) / 150, (1000 - n.floatScore + 199) / 200)))
  }

  /** Where a node ends up: least stability, full forget rate and float score, access score 0 or, once positive, 0.001 for good. */
  ghost predicate AtLimit(n: Node, start: Node) {
    && n.stability == 100 && n.forgetRate == 1000 && n.floatScore == 1000
    && n.access == (if start.access > 0 then 1 else 0)
  }

  lemma ForgetCountsDown(round: Rounding, excerpt: string -> string, n: Node)
    ensures var m := Forget(round, excerpt, n);
            && (PassesNeeded(n) == 1 ==> AtLimit(m, n))
            && (PassesNeeded(n) > 1 ==> PassesNeeded(m) <= PassesNeeded(n) - 1)
            && (m.access > 0 <==> n.access > 0)
  {
    StabilityStep(round, excerpt, n);
    AccessStep(round, excerpt, n);
    RatesStep(round, excerpt, n);
  }

  lemma AtLimitStays(round: Rounding, excerpt: string -> string, n: Node, start: Node)
    requires AtLimit(n, start)
    ensures AtLimit(Forget(round, excerpt, n), start)
    ensures Forget(round, excerpt, n) == n.(content := excerpt(n.content))
  {
    StabilityStep(round, excerpt, n);
    AccessStep(round, excerpt, n);
    RatesStep(round, excerpt, n);
  }

  /** However the values start and ties are rounded, after `PassesNeeded` passes a node is at its limits, for good. */
  lemma {:induction false} NodeConverges(round: Rounding, excerpt: string -> string, n: Node, passes: nat)
    requires passes >= PassesNeeded(n)
    ensures AtLimit(ForgetTimes(round, excerpt, n, passes), n)
    decreases passes
  {
    var m := Forget(round, excerpt, n);
    ForgetCountsDown(round, excerpt, n);
    if PassesNeeded(n) == 1 {
      StaysAtLimit(round, excerpt, m, n, passes - 1);
    } else {
      NodeConverges(round, excerpt, m, passes - 1);
    }
  }

  lemma {:induction false} StaysAtLimit(round: Rounding, excerpt: string -> string, n: Node, start: Node, passes: nat)
    requires AtLimit(n, start)
    ensures AtLimit(ForgetTimes(round, excerpt, n, passes), start)
    decreases passes
  {
    if passes > 0 {
      AtLimitStays(round, excerpt, n, start);
      StaysAtLimit(round, excerpt, Forget(round, excerpt, n), start, passes - 1);
    }
  }

  // ---------- Selection ----------

  predicate Lower(a: Node, b: Node) {
    Score(a) < Score(b)
  }

  lemma LowerIsStrict()
    ensures StrictOrder(Lower)
  {
    hide Score;
  }

  /** The stable ranking by rising score. */
  function Ranked(s: seq<Node>): seq<Node> {
    SortBy(s, Lower)
  }

  /** Length of `ranked[:count]`; a negative count leaves that many out at the end. */
  function SliceLength(n: nat, count: int): (len: nat)
    ensures len <= n
  {
    if count >= 0 then if count < n then count else n else if n + count > 0 then n + count else 0
  }

  function Selected(nodes: seq<Node>, count: int): (s: seq<Node>)
  {
    SortByContents(nodes, Lower);
    Ranked(nodes)[..SliceLength(|nodes|, count)]
  }

  function Ids(s: seq<Node>): set<string> {
    set i | 0 <= i < |s| :: s[i].id
  }

  ghost predicate DistinctIds(s: seq<Node>) {
    forall i, j :: 0 <= i < j < |s| ==> s[i].id != s[j].id
  }

  /** The ranking rearranges the nodes by rising score, in listing order where scores are equal. */
  lemma RankedIsStable(nodes: seq<Node>) returns (ks: seq<nat>)
    ensures Arranges(ks, nodes, Ranked(nodes), Lower) && multiset(Ranked(nodes)) == multiset(nodes)
  {
    LowerIsStrict();
    ks := SortByIsStable(nodes, Lower);
    SortByContents(nodes, Lower);
  }

  lemma {:induction false} IdsCount(s: seq<Node>)
    requires DistinctIds(s)
    ensures |Ids(s)| == |s|
  {
    if s != [] {
      var front, last := s[..|s| - 1], s[|s| - 1];
      IdsCount(front);
      assert Ids(s) == Ids(front) + {last.id};
    }
  }

  /** Distinct ids survive ranking. */
  lemma {:induction false} DistinctByContents(s: seq<Node>, t: seq<Node>)
    requires DistinctIds(s) && multiset(s) == multiset(t)
    ensures DistinctIds(t)
  {
    forall i, j | 0 <= i < j < |t| ensures t[i].id != t[j].id {
      if t[i].id == t[j].id {
        assert t[i] in multiset(s) && t[j] in multiset(s);
        var a :| 0 <= a < |s| && s[a] == t[i];
        var b :| 0 <= b < |s| && s[b] == t[j];
        if a == b {
          TwiceInMultiset(t, i, j);
          OnceInMultiset(s, a);
        }
        assert false;
      }
    }
  }

  lemma TwiceInMultiset<T>(t: seq<T>, i: nat, j: nat)
    requires i < j < |t| && t[i] == t[j]
    ensures multiset(t)[t[i]] >= 2
  {
    assert t == t[..i] + [t[i]] + t[i + 1..j] + [t[j]] + t[j + 1..];
  }

  lemma OnceInMultiset(s: seq<Node>, a: nat)
    requires DistinctIds(s) && a < |s|
    ensures multiset(s)[s[a]] == 1
  {
    assert s == s[..a] + [s[a]] + s[a + 1..];
    assert s[a] !in s[..a] && s[a] !in s[a + 1..];
  }

  /** Nodes with these ids come before all others, by score and by listing order where scores are equal. */
  ghost predicate FirstByScore(nodes: seq<Node>, ids: set<string>) {
    forall i, j :: 0 <= i < |nodes| && 0 <= j < |nodes| && nodes[i].id in ids && nodes[j].id !in ids ==>
      Earlier(nodes, i, j, Lower)
  }

  lemma SelectedAreFirst(nodes: seq<Node>, count: int)
    requires DistinctIds(nodes)
    ensures FirstByScore(nodes, Ids(Selected(nodes, count)))
  {
    hide Lower, Earlier;
    var ranked, front := Ranked(nodes), Selected(nodes, count);
    var ks := RankedIsStable(nodes);
    hide Ranked;
    forall i, j | 0 <= i < |nodes| && 0 <= j < |nodes| && nodes[i].id in Ids(front) && nodes[j].id !in Ids(front)
      ensures Earlier(nodes, i, j, Lower)
    {
      var a :| 0 <= a < |front| && front[a].id == nodes[i].id;
      assert ranked[a] == front[a] == nodes[ks[a]];
      assert ks[a] == i;
      assert j in ks;
      var b :| 0 <= b < |ks| && ks[b] == j;
      forall x | 0 <= x < |front| ensures ks[x] != j {
        assert front[x].id in Ids(front) && front[x] == nodes[ks[x]];
      }
      assert b >= |front|;
    }
  }

  lemma SelectedCount(nodes: seq<Node>, count: int)
    requires DistinctIds(nodes)
    ensures |Ids(Selected(nodes, count))| == SliceLength(|nodes|, count)
    ensures Ids(Selected(nodes, count)) <= Ids(nodes)
  {
    var ranked, front := Ranked(nodes), Selected(nodes, count);
    SortByContents(nodes, Lower);
    DistinctByContents(nodes, ranked);
    IdsCount(front);
    forall p | p in Ids(front) ensures p in Ids(nodes) {
      InRanking(nodes, ranked, p);
      var a :| 0 <= a < |front| && front[a].id == p;
      assert ranked[a].id == p;
    }
  }

  /** The selection is the one set of the right size whose nodes come before all others. */
  lemma SelectionIff(nodes: seq<Node>, count: int, ids: set<string>)
    requires DistinctIds(nodes) && ids <= Ids(nodes)
    ensures Ids(Selected(nodes, count)) == ids <==> |ids| == SliceLength(|nodes|, count) && FirstByScore(nodes, ids)
  {
    var chosen := Ids(Selected(nodes, count));
    SelectedCount(nodes, count);
    SelectedAreFirst(nodes, count);
    if |ids| == SliceLength(|nodes|, count) && FirstByScore(nodes, ids) {
      SubsetOfSameSize(ids, chosen);
      hide Selected, Lower;
      if chosen - ids != {} {
        var p := Pick(chosen - ids, "");
        var q := Pick(ids - chosen, "");
        var i :| 0 <= i < |nodes| && nodes[i].id == p;
        var j :| 0 <= j < |nodes| && nodes[j].id == q;
        assert Earlier(nodes, i, j, Lower) && Earlier(nodes, j, i, Lower);
        LowerIsStrict();
        assert false;
      }
      SubsetOfSameSize(chosen, ids);
    }
  }

  lemma SubsetOfSameSize<T>(a: set<T>, b: set<T>)
    requires |a| == |b|
    ensures a <= b ==> a == b
    ensures a - b == {} ==> a == b
    ensures b - a != {} ==> a - b != {}
  {
    assert |a| == |a * b| + |a - b| by { assert a == a * b + (a - b); }
    assert |b| == |a * b| + |b - a| by { assert b == a * b + (b - a); }
    if |b - a| == 0 {
      assert b - a == {};
    }
    if |a - b| == 0 {
      assert a - b == {};
      assert b - a == {};
      assert a == b;
    }
  }

  lemma InRanking(nodes: seq<Node>, ranked: seq<Node>, id: string)
    requires multiset(ranked) == multiset(nodes)
    ensures id in Ids(nodes) <==> id in Ids(ranked)
    ensures forall x :: x in ranked <==> x in nodes
  {
    forall x ensures x in ranked <==> x in nodes {
      assert x in ranked <==> x in multiset(ranked);
      assert x in nodes <==> x in multiset(nodes);
    }
    if id in Ids(nodes) {
      var i :| 0 <= i < |nodes| && nodes[i].id == id;
      assert nodes[i] in ranked;
    }
    if id in Ids(ranked) {
      var i :| 0 <= i < |ranked| && ranked[i].id == id;
      assert ranked[i] in nodes;
    }
  }

  // ---------- A pass over the stored nodes ----------

  /** What `list_nodes` shows of the branch, root nodes left out. */
  function Listed(nodes: seq<Node>): (c: seq<Node>) {
    NonRoots(nodes[..if |nodes| < 300 then |nodes| else 300])
  }

  function NonRoots(nodes: seq<Node>): (c: seq<Node>)
    ensures forall n :: n in c ==> n in nodes && !n.root
  {
    if nodes == [] then [] else if nodes[0].root then NonRoots(nodes[1..]) else [nodes[0]] + NonRoots(nodes[1..])
  }

  lemma {:induction false} NonRootsDistinct(nodes: seq<Node>)
    requires DistinctIds(nodes)
    ensures DistinctIds(NonRoots(nodes))
  {
    if nodes != [] {
      NonRootsDistinct(nodes[1..]);
      forall n | n in NonRoots(nodes[1..]) ensures n.id != nodes[0].id {
        var k :| 0 <= k < |nodes[1..]| && nodes[1..][k] == n;
        assert nodes[k + 1] == n;
      }
    }
  }

  /** `targetCount`, with its default for none or zero. */
  function TargetCount(given: Option<int>): int {
    if given.Some? && given.value != 0 then given.value else 4
  }

  function SelectedIds(nodes: seq<Node>, count: int): set<string> {
    Ids(Selected(Listed(nodes), count))
  }

  /** The nodes considered: those among the first 300 that are no root, in order. */
  ghost predicate Considers(nodes: seq<Node>, ks: seq<nat>) {
    && (forall i :: 0 <= i < |ks| ==> ks[i] < |nodes|)
    && (forall i, j :: 0 <= i < j < |ks| ==> ks[i] < ks[j])
    && forall k: nat :: k < |nodes| ==> (k in ks <==> k < 300 && !nodes[k].root)
  }

  lemma {:induction false} NonRootsSnoc(nodes: seq<Node>, last: Node)
    ensures NonRoots(nodes + [last]) == NonRoots(nodes) + if last.root then [] else [last]
  {
    if nodes == [] {
      assert nodes + [last] == [last] && [last][1..] == [];
    } else {
      assert (nodes + [last])[1..] == nodes[1..] + [last];
      NonRootsSnoc(nodes[1..], last);
    }
  }

  ghost predicate StandAt(nodes: seq<Node>, c: seq<Node>, ks: seq<nat>) {
    && |ks| == |c|
    && (forall i :: 0 <= i < |ks| ==> ks[i] < |nodes| && c[i] == nodes[ks[i]])
    && (forall i, j :: 0 <= i < j < |ks| ==> ks[i] < ks[j])
    && forall k: nat :: k < |nodes| ==> (k in ks <==> !nodes[k].root)
  }

  lemma StandAtSnoc(front: seq<Node>, last: Node, c: seq<Node>, ks: seq<nat>)
    requires StandAt(front, c, ks)
    ensures last.root ==> StandAt(front + [last], c, ks)
    ensures !last.root ==> StandAt(front + [last], c + [last], ks + [|front|])
  {
    var nodes := front + [last];
    assert nodes[|front|] == last && forall k :: 0 <= k < |front| ==> nodes[k] == front[k];
    assert |front| !in ks;
  }

  lemma {:induction false} NonRootPositions(nodes: seq<Node>) returns (ks: seq<nat>)
    ensures StandAt(nodes, NonRoots(nodes), ks)
  {
    if nodes == [] {
      ks := [];
    } else {
      hide *;
      var front, last := nodes[..|nodes| - 1], nodes[|nodes| - 1];
      var ms := NonRootPositions(front);
      assert nodes == front + [last];
      NonRootsSnoc(front, last);
      StandAtSnoc(front, last, NonRoots(front), ms);
      assert NonRoots(front) + [] == NonRoots(front);
      ks := if last.root then ms else ms + [|front|];
    }
  }

  /** Whether a node with these figures comes before another one: smaller in the weighted sum, or equal and listed before. */
  ghost predicate ComesFirst(a: Node, i: nat, b: Node, j: nat) {
    var x := a.importance * 0.45 + a.stability as real / 1000.0 * 0.2 + a.access as real / 1000.0 * 0.15 + a.feedforward * 0.1
             + if a.edgeCount < 1 then a.edgeCount as real / 10.0 else 0.1;
    var y := b.importance * 0.45 + b.stability as real / 1000.0 * 0.2 + b.access as real / 1000.0 * 0.15 + b.feedforward * 0.1
             + if b.edgeCount < 1 then b.edgeCount as real / 10.0 else 0.1;
    x < y || (x == y && i < j)
  }

  lemma ComesFirstIff(s: seq<Node>, i: nat, j: nat)
    requires i < |s| && j < |s| && i != j
    ensures Earlier(s, i, j, Lower) <==> ComesFirst(s[i], i, s[j], j)
  {
    EdgeShare(s[i].edgeCount);
    EdgeShare(s[j].edgeCount);
  }

  lemma EdgeShare(count: int)
    ensures RMin(count as real / 10.0, 0.1) == if count < 1 then count as real / 10.0 else 0.1
  {
  }

  /** The nodes a pass forgets: as many as asked for, four for none or zero and all but so many for a negative number, and those
      come first by the weighted sum. */
  lemma ForgottenAre(nodes: seq<Node>, given: Option<int>) returns (ks: seq<nat>)
    requires DistinctIds(nodes)
    ensures Considers(nodes, ks)
    ensures var ids := SelectedIds(nodes, TargetCount(given));
            var wanted := if given == None || given == Some(0) then 4 else given.value;
            && |ids| == (if wanted >= |ks| then |ks| else if wanted >= 0 then wanted else if wanted + |ks| >= 0 then wanted + |ks| else 0)
            && (forall id :: id in ids ==> exists k :: k in ks && nodes[k].id == id)
            && forall i, j :: 0 <= i < |ks| && 0 <= j < |ks| && nodes[ks[i]].id in ids && nodes[ks[j]].id !in ids ==>
                 ComesFirst(nodes[ks[i]], i, nodes[ks[j]], j)
  {
    var seen := nodes[..if |nodes| < 300 then |nodes| else 300];
    var c, ids := Listed(nodes), SelectedIds(nodes, TargetCount(given));
    ks := NonRootPositions(seen);
    NonRootsDistinct(seen);
    hide NonRoots, Selected, Listed, ComesFirst, Lower, Earlier, SelectedIds, StandAt, Considers, DistinctIds;
    SelectionSize(c, given);
    FirstAmongListed(c, TargetCount(given));
    assert ids == Ids(Selected(c, TargetCount(given))) by { SelectedIdsAre(nodes, TargetCount(given)); }
    assert c == NonRoots(seen) by { ListedIs(nodes); }
    SeenStand(nodes, c, ks);
    forall id | id in ids ensures exists k :: k in ks && nodes[k].id == id {
      var i :| 0 <= i < |c| && c[i].id == id;
      assert ks[i] in ks;
    }
  }

  lemma SeenStand(nodes: seq<Node>, c: seq<Node>, ks: seq<nat>)
    requires StandAt(nodes[..if |nodes| < 300 then |nodes| else 300], c, ks)
    ensures Considers(nodes, ks) && |ks| == |c| && forall i :: 0 <= i < |ks| ==> nodes[ks[i]] == c[i]
  {
    var seen := nodes[..if |nodes| < 300 then |nodes| else 300];
    assert forall k :: 0 <= k < |seen| ==> seen[k] == nodes[k];
  }

  lemma SelectionSize(c: seq<Node>, given: Option<int>)
    requires DistinctIds(c)
    ensures var wanted := if given == None || given == Some(0) then 4 else given.value;
            |Ids(Selected(c, TargetCount(given)))|
            == if wanted >= |c| then |c| else if wanted >= 0 then wanted else if wanted + |c| >= 0 then wanted + |c| else 0
    ensures Ids(Selected(c, TargetCount(given))) <= Ids(c)
  {
    SelectedCount(c, TargetCount(given));
    hide Selected, Ids;
  }

  lemma SelectedIdsAre(nodes: seq<Node>, count: int)
    ensures SelectedIds(nodes, count) == Ids(Selected(Listed(nodes), count))
  {
  }

  lemma ListedIs(nodes: seq<Node>)
    ensures Listed(nodes) == NonRoots(nodes[..if |nodes| < 300 then |nodes| else 300])
  {
  }

  lemma FirstAmongListed(c: seq<Node>, count: int)
    requires DistinctIds(c)
    ensures var ids := Ids(Selected(c, count));
            forall i, j :: 0 <= i < |c| && 0 <= j < |c| && c[i].id in ids && c[j].id !in ids ==> ComesFirst(c[i], i, c[j], j)
  {
    SelectedAreFirst(c, count);
    var ids := Ids(Selected(c, count));
    hide Selected, Lower, ComesFirst, Earlier;
    forall i, j | 0 <= i < |c| && 0 <= j < |c| && c[i].id in ids && c[j].id !in ids ensures ComesFirst(c[i], i, c[j], j) {
      ComesFirstIff(c, i, j);
    }
  }

  function Updated(round: Rounding, excerpt: string -> string, nodes: seq<Node>, ids: set<string>): (u: seq<Node>)
    ensures |u| == |nodes|
  {
    seq(|nodes|, i requires 0 <= i < |nodes| => if nodes[i].id in ids then Forget(round, excerpt, nodes[i]) else nodes[i])
  }

  /** The nodes after one pass: the selected ones forget, all others stay as they are. */
  function Pass(round: Rounding, excerpt: string -> string, nodes: seq<Node>, count: int): (p: seq<Node>) {
    Updated(round, excerpt, nodes, SelectedIds(nodes, count))
  }

  function Passes(round: Rounding, excerpt: string -> string, nodes: seq<Node>, count: int, n: nat): (p: seq<Node>)
    decreases n
  {
    if n == 0 then nodes else Passes(round, excerpt, Pass(round, excerpt, nodes, count), count, n - 1)
  }

  lemma {:induction false} NonRootsUpdated(round: Rounding, excerpt: string -> string, nodes: seq<Node>, ids: set<string>)
    ensures NonRoots(Updated(round, excerpt, nodes, ids)) == Updated(round, excerpt, NonRoots(nodes), ids)
  {
    hide Forget;
    var u := Updated(round, excerpt, nodes, ids);
    if nodes != [] {
      NonRootsUpdated(round, excerpt, nodes[1..], ids);
      assert u[1..] == Updated(round, excerpt, nodes[1..], ids);
      ForgetKeeps(round, excerpt, nodes[0]);
      assert NonRoots(nodes) == if nodes[0].root then NonRoots(nodes[1..]) else [nodes[0]] + NonRoots(nodes[1..]);
    }
  }

  lemma ForgetKeeps(round: Rounding, excerpt: string -> string, n: Node)
    ensures var m := Forget(round, excerpt, n);
            m.id == n.id && m.root == n.root && m.importance == n.importance && m.feedforward == n.feedforward
            && m.edgeCount == n.edgeCount
  {
  }

  lemma ListedUpdated(round: Rounding, excerpt: string -> string, nodes: seq<Node>, ids: set<string>)
    ensures Listed(Updated(round, excerpt, nodes, ids)) == Updated(round, excerpt, Listed(nodes), ids)
  {
    hide Forget;
    var seen := if |nodes| < 300 then |nodes| else 300;
    assert Updated(round, excerpt, nodes, ids)[..seen] == Updated(round, excerpt, nodes[..seen], ids);
    NonRootsUpdated(round, excerpt, nodes[..seen], ids);
  }

  /** From stability 0.1 and access score 0 upwards no pass raises a score. */
  lemma ScoreNeverRises(round: Rounding, excerpt: string -> string, n: Node)
    requires n.stability >= 100 && n.access >= 0
    ensures var m := Forget(round, excerpt, n); Score(m) <= Score(n) && m.stability >= 100 && m.access >= 0
  {
    var m := Forget(round, excerpt, n);
    StabilityStep(round, excerpt, n);
    AccessStep(round, excerpt, n);
    assert m.stability <= n.stability && m.access <= n.access;
    ForgetKeeps(round, excerpt, n);
    ScoreMonotone(m, n);
  }

  lemma ScoreMonotone(m: Node, n: Node)
    requires m.importance == n.importance && m.feedforward == n.feedforward && m.edgeCount == n.edgeCount
    requires m.stability <= n.stability && m.access <= n.access
    ensures Score(m) <= Score(n)
  {
    assert m.stability as real / 1000.0 * 0.2 <= n.stability as real / 1000.0 * 0.2;
    assert m.access as real / 1000.0 * 0.15 <= n.access as real / 1000.0 * 0.15;
  }

  /** The selected nodes are at least at the floor that forgetting aims at. */
  ghost predicate Settled(nodes: seq<Node>, count: int) {
    var ids, c := SelectedIds(nodes, count), Listed(nodes);
    forall i :: 0 <= i < |c| && c[i].id in ids ==> c[i].stability >= 100 && c[i].access >= 0
  }

  /** After forgetting, every selected node still scores below every other listed one, or the same and is listed before it. */
  ghost predicate StaysFirst(round: Rounding, excerpt: string -> string, nodes: seq<Node>, count: int) {
    var ids, c := SelectedIds(nodes, count), Listed(nodes);
    forall i, j :: 0 <= i < |c| && 0 <= j < |c| && c[i].id in ids && c[j].id !in ids ==>
      StillBefore(Score(Forget(round, excerpt, c[i])), i, Score(c[j]), j)
  }

  predicate StillBefore(x: real, i: nat, y: real, j: nat) {
    x < y || (x == y && i < j)
  }

  lemma ListedDistinct(nodes: seq<Node>)
    requires DistinctIds(nodes)
    ensures DistinctIds(Listed(nodes))
  {
    NonRootsDistinct(nodes[..if |nodes| < 300 then |nodes| else 300]);
  }

  /** The next pass selects the same nodes exactly when they stay first; from then on they are at the floor. */
  lemma NextSelectionIff(round: Rounding, excerpt: string -> string, nodes: seq<Node>, count: int)
    requires DistinctIds(nodes)
    ensures SelectedIds(Pass(round, excerpt, nodes, count), count) == SelectedIds(nodes, count)
            <==> StaysFirst(round, excerpt, nodes, count)
    ensures SelectedIds(Pass(round, excerpt, nodes, count), count) == SelectedIds(nodes, count)
            ==> Settled(Pass(round, excerpt, nodes, count), count)
  {
    hide Forget, Score, Ranked, NonRoots, Selected, Listed;
    var ids, c := SelectedIds(nodes, count), Listed(nodes);
    var d := Updated(round, excerpt, c, ids);
    ListedUpdated(round, excerpt, nodes, ids);
    UpdatedIds(round, excerpt, c, ids);
    ListedDistinct(nodes);
    SelectedCount(c, count);
    SelectionIff(d, count, ids);
    forall i, j | 0 <= i < |c| && 0 <= j < |c| && c[i].id in ids && c[j].id !in ids
      ensures Earlier(d, i, j, Lower) <==> StillBefore(Score(Forget(round, excerpt, c[i])), i, Score(c[j]), j)
    {
    }
    forall i | 0 <= i < |c| && c[i].id in ids ensures d[i].stability >= 100 && d[i].access >= 0 {
      StabilityStep(round, excerpt, c[i]);
      AccessStep(round, excerpt, c[i]);
    }
  }

  /** At the floor no score rises, so the selected nodes stay first. */
  lemma SettledStaysFirst(round: Rounding, excerpt: string -> string, nodes: seq<Node>, count: int)
    requires DistinctIds(nodes) && Settled(nodes, count)
    ensures StaysFirst(round, excerpt, nodes, count)
  {
    hide Forget, Score, Ranked, NonRoots, Selected, Listed;
    var ids, c := SelectedIds(nodes, count), Listed(nodes);
    ListedDistinct(nodes);
    SelectedAreFirst(c, count);
    forall i, j | 0 <= i < |c| && 0 <= j < |c| && c[i].id in ids && c[j].id !in ids
      ensures StillBefore(Score(Forget(round, excerpt, c[i])), i, Score(c[j]), j)
    {
      assert Earlier(c, i, j, Lower);
      ScoreNeverRises(round, excerpt, c[i]);
    }
  }

  lemma UpdatedIds(round: Rounding, excerpt: string -> string, nodes: seq<Node>, ids: set<string>)
    ensures var u := Updated(round, excerpt, nodes, ids);
            && Ids(u) == Ids(nodes)
            && (forall i :: 0 <= i < |nodes| ==> u[i].id == nodes[i].id)
            && (DistinctIds(nodes) ==> DistinctIds(u))
  {
    hide Forget;
    var u := Updated(round, excerpt, nodes, ids);
    forall i | 0 <= i < |nodes| ensures u[i].id == nodes[i].id {
      ForgetKeeps(round, excerpt, nodes[i]);
    }
    forall p | p in Ids(u) ensures p in Ids(nodes) {
      var i :| 0 <= i < |u| && u[i].id == p;
      assert nodes[i].id == p;
    }
    forall p | p in Ids(nodes) ensures p in Ids(u) {
      var i :| 0 <= i < |nodes| && nodes[i].id == p;
      assert u[i].id == p;
    }
  }

  /** While they stay first, every pass selects the same nodes; they forget once a pass and no other node ever changes. */
  lemma {:induction false} SameNodesEveryPass(round: Rounding, excerpt: string -> string, nodes: seq<Node>, count: int, n: nat)
    requires DistinctIds(nodes) && StaysFirst(round, excerpt, nodes, count)
    ensures var p, ids := Passes(round, excerpt, nodes, count, n), SelectedIds(nodes, count);
            && SelectedIds(p, count) == ids && |p| == |nodes|
            && forall i :: 0 <= i < |nodes| ==>
                 p[i] == if nodes[i].id in ids then ForgetTimes(round, excerpt, nodes[i], n) else nodes[i]
    decreases n
  {
    hide Forget, Settled, Score, SelectedIds, StaysFirst;
    if n > 0 {
      var once, ids := Pass(round, excerpt, nodes, count), SelectedIds(nodes, count);
      NextSelectionIff(round, excerpt, nodes, count);
      UpdatedIds(round, excerpt, nodes, ids);
      SettledStaysFirst(round, excerpt, once, count);
      SameNodesEveryPass(round, excerpt, once, count, n - 1);
    }
  }

  /** Every pass selects the nodes of the first if and only if, after one forgetting, they still come before all others. */
  lemma ReselectsIff(round: Rounding, excerpt: string -> string, nodes: seq<Node>, count: int)
    requires DistinctIds(nodes)
    ensures (forall n: nat :: SelectedIds(Passes(round, excerpt, nodes, count, n), count) == SelectedIds(nodes, count))
            <==> StaysFirst(round, excerpt, nodes, count)
  {
    hide StaysFirst, SelectedIds;
    if StaysFirst(round, excerpt, nodes, count) {
      forall n: nat ensures SelectedIds(Passes(round, excerpt, nodes, count, n), count) == SelectedIds(nodes, count) {
        SameNodesEveryPass(round, excerpt, nodes, count, n);
      }
    } else {
      NextSelectionIff(round, excerpt, nodes, count);
      assert Passes(round, excerpt, nodes, count, 1) == Passes(round, excerpt, Pass(round, excerpt, nodes, count), count, 0);
    }
  }

  /** The whole branch converges: after enough passes every selected node is at its limits, and only contents may still change. */
  lemma BranchConverges(round: Rounding, excerpt: string -> string, nodes: seq<Node>, count: int, n: nat)
    requires DistinctIds(nodes) && StaysFirst(round, excerpt, nodes, count)
    requires forall i :: 0 <= i < |nodes| && nodes[i].id in SelectedIds(nodes, count) ==> PassesNeeded(nodes[i]) <= n
    ensures var p, q := Passes(round, excerpt, nodes, count, n), Pass(round, excerpt, Passes(round, excerpt, nodes, count, n), count);
            && |p| == |nodes| == |q|
            && forall i :: 0 <= i < |nodes| ==>
                 if nodes[i].id in SelectedIds(nodes, count) then
                   AtLimit(p[i], nodes[i]) && q[i] == p[i].(content := excerpt(p[i].content))
                 else p[i] == nodes[i] == q[i]
  {
    hide Forget, ForgetTimes, StaysFirst, Score, SelectedIds, PassesNeeded, AtLimit;
    var p, ids := Passes(round, excerpt, nodes, count, n), SelectedIds(nodes, count);
    SameNodesEveryPass(round, excerpt, nodes, count, n);
    forall i | 0 <= i < |nodes| && nodes[i].id in ids
      ensures p[i].id == nodes[i].id && AtLimit(p[i], nodes[i])
      ensures Forget(round, excerpt, p[i]) == p[i].(content := excerpt(p[i].content))
    {
      NodeConverges(round, excerpt, nodes[i], n);
      AtLimitStays(round, excerpt, p[i], nodes[i]);
      ForgetTimesKeepsId(round, excerpt, nodes[i], n);
    }
  }

  lemma {:induction false} ForgetTimesKeepsId(round: Rounding, excerpt: string -> string, n: Node, passes: nat)
    ensures ForgetTimes(round, excerpt, n, passes).id == n.id
    decreases passes
  {
    hide Forget;
    if passes > 0 {
      ForgetKeeps(round, excerpt, n);
      ForgetTimesKeepsId(round, excerpt, Forget(round, excerpt, n), passes - 1);
    }
  }

  /** Of two nodes the lower one gets selected, and the pass after selects the other. */
  ghost predicate MovesOn(round: Rounding, excerpt: string -> string, n: Node, m: Node) {
    && n.id != m.id
    && Score(n) < Score(m) && SelectedIds([n, m], 1) == {n.id}
    && SelectedIds(Pass(round, excerpt, [n, m], 1), 1) == {m.id}
  }

  /** Below either floor a pass can raise the lowest score past another, and then the next pass selects the other. */
  lemma BelowTheFloorSelectionMoves(round: Rounding, excerpt: string -> string)
    ensures exists n, m :: MovesOn(round, excerpt, n, m) && n.stability >= 100 && n.access < 0
    ensures exists n, m :: MovesOn(round, excerpt, n, m) && n.stability < 100 && n.access >= 0
  {
    var m := Node("m", false, "", 0.0, 0.0, 0, 50, 0, 0, 0);
    var a := Node("a", false, "", 0.0, 0.0, 0, 100, 0, -1000, 0);
    var b := m.(id := "b", stability := 0);
    StabilityStep(round, excerpt, a);
    AccessStep(round, excerpt, a);
    StabilityStep(round, excerpt, b);
    AccessStep(round, excerpt, b);
    RisenPast(round, excerpt, a, m);
    RisenPast(round, excerpt, b, m);
  }

  lemma RisenPast(round: Rounding, excerpt: string -> string, n: Node, m: Node)
    requires !n.root && !m.root && n.id != m.id && Score(n) < Score(m) < Score(Forget(round, excerpt, n))
    ensures MovesOn(round, excerpt, n, m)
  {
    hide Score, Forget;
    ForgetKeeps(round, excerpt, n);
    var f := Forget(round, excerpt, n);
    TwoCandidates(n, m);
    TwoCandidates(f, m);
    assert Pass(round, excerpt, [n, m], 1) == [f, m];
  }

  lemma TwoCandidates(n: Node, m: Node)
    requires !n.root && !m.root && Score(n) != Score(m)
    ensures SelectedIds([n, m], 1) == {if Score(n) < Score(m) then n.id else m.id}
  {
    hide Score, Ranked, NonRoots;
    var s, low := [n, m], if Score(n) < Score(m) then n else m;
    assert s[..2] == s;
    BothListed(n, m);
    RankedTwo(n, m);
    assert Selected(s, 1) == [low];
    hide Selected, Listed;
    assert Ids([low]) == {[low][0].id};
  }

  lemma BothListed(n: Node, m: Node)
    requires !n.root && !m.root
    ensures NonRoots([n, m]) == [n, m]
  {
    assert [n, m][1..] == [m] && [m][1..] == [];
    assert NonRoots([m]) == [m] + NonRoots([]);
  }

  lemma RankedTwo(n: Node, m: Node)
    requires Score(n) != Score(m)
    ensures Ranked([n, m]) == if Score(n) < Score(m) then [n, m] else [m, n]
  {
    hide Score;
    SortTwo(n, m, Lower);
  }

  lemma SortTwo<T>(x: T, y: T, before: (T, T) -> bool)
    ensures SortBy([x, y], before) == if before(y, x) then [y, x] else [x, y]
  {
    var one, two := [x], [x, y];
    assert one[..0] == [] && two[..1] == one;
    assert SortBy(one, before) == InsertBy(x, [], before) == [x];
    assert SortBy(two, before) == InsertBy(y, one, before);
    assert InsertBy(y, one, before) == if before(y, x) then InsertBy(y, [], before) + [x] else one + [y];
  }

  // ---------- The repository and the tool ----------

  /** The node rows of one branch, oldest first. */
  class NodeRepository {
    var nodes: seq<Node>

    /** Ids are primary keys. */
    ghost predicate Valid()
      reads this
    {
      DistinctIds(nodes)
    }

    /** `append_version`: the written values replace the node's; an unknown id is a `KeyError` and changes nothing. */
    method AppendVersion(id: string, written: Node) returns (found: bool)
      requires Valid() && written.id == id
      modifies this
      ensures Valid() && |nodes| == |old(nodes)|
      ensures found <==> id in Ids(old(nodes))
      ensures forall i :: 0 <= i < |nodes| ==> nodes[i] == if old(nodes)[i].id == id then written else old(nodes)[i]
    {
      var i := 0;
      while i < |nodes| && nodes[i].id != id
        invariant i <= |nodes|
        invariant forall j :: 0 <= j < i ==> nodes[j].id != id
      {
        i := i + 1;
      }
      found := i < |nodes|;
      if found {
        nodes := nodes[i := written];
      }
    }

    /** `apply_soft_forgetting`: a dry run changes nothing, any other run makes one pass. */
    method ApplySoftForgetting(round: Rounding, excerpt: string -> string, given: Option<int>, dryRun: bool)
      returns (adjusted: seq<string>)
      requires Valid()
      modifies this
      ensures Valid()
      ensures dryRun ==> nodes == old(nodes)
      ensures !dryRun ==> nodes == Pass(round, excerpt, old(nodes), TargetCount(given))
      ensures |adjusted| == |Selected(Listed(old(nodes)), TargetCount(given))|
      ensures forall k :: 0 <= k < |adjusted| ==> adjusted[k] == Selected(Listed(old(nodes)), TargetCount(given))[k].id
    {
      hide Forget, Score, Ranked, NonRoots, Selected, Listed;
      ghost var before := nodes;
      var selected := Selected(Listed(nodes), TargetCount(given));
      adjusted := seq(|selected|, i requires 0 <= i < |selected| => selected[i].id);
      if dryRun {
        return;
      }
      NothingUpdated(round, excerpt, nodes);
      assert selected[..0] == [];
      var k := 0;
      while k < |selected|
        invariant k <= |selected|
        invariant Valid() && nodes == Updated(round, excerpt, before, Ids(selected[..k]))
      {
        SelectedIsStored(before, TargetCount(given), k);
        ForgetKeeps(round, excerpt, selected[k]);
        UpdatedIds(round, excerpt, before, Ids(selected[..k]));
        var found := AppendVersion(selected[k].id, Forget(round, excerpt, selected[k]));
        OneMoreUpdated(round, excerpt, before, selected, k, nodes);
        k := k + 1;
      }
      assert selected[..k] == selected;
    }
  }

  lemma NothingUpdated(round: Rounding, excerpt: string -> string, nodes: seq<Node>)
    ensures Updated(round, excerpt, nodes, Ids([])) == nodes
  {
  }

  lemma SelectedIsStored(nodes: seq<Node>, count: int, k: nat)
    requires k < |Selected(Listed(nodes), count)|
    ensures Selected(Listed(nodes), count)[k] in nodes
  {
    hide Score;
    var c := Listed(nodes);
    SortByContents(c, Lower);
    InRanking(c, Ranked(c), "");
    assert Ranked(c)[k] in Ranked(c);
    assert Selected(c, count)[k] in c;
  }

  lemma OneMoreUpdated(round: Rounding, excerpt: string -> string, before: seq<Node>, selected: seq<Node>, k: nat, after: seq<Node>)
    requires DistinctIds(before) && k < |selected| && selected[k] in before && |after| == |before|
    requires var u := Updated(round, excerpt, before, Ids(selected[..k]));
             forall i :: 0 <= i < |after| ==>
               after[i] == if before[i].id == selected[k].id then Forget(round, excerpt, selected[k]) else u[i]
    ensures after == Updated(round, excerpt, before, Ids(selected[..k + 1]))
  {
    hide Forget;
    assert selected[..k + 1] == selected[..k] + [selected[k]];
    var more := Ids(selected[..k + 1]);
    assert more == Ids(selected[..k]) + {selected[k].id} by {
      forall p ensures p in more <==> p in Ids(selected[..k]) + {selected[k].id} {
        if p in Ids(selected[..k]) {
          var i :| 0 <= i < |selected[..k]| && selected[..k][i].id == p;
          assert selected[..k + 1][i].id == p;
        }
        assert selected[..k + 1][k] == selected[k];
      }
    }
    var a :| 0 <= a < |before| && before[a] == selected[k];
    forall i | 0 <= i < |after| ensures after[i] == Updated(round, excerpt, before, more)[i] {
      assert before[i].id == selected[k].id ==> i == a;
    }
  }
}
