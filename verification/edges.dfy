/**
 Latent relations: pairs of nodes that share enough words are proposed as edges,
 and a scan of a branch stores the proposals that are not linked yet.
 */
module LatentEdges {
  import opened Collections
  import opened Ordering
  import opened Text
  import opened Payloads

  datatype Node = Node(id: Option<string>, title: string, content: string, projectId: string, spaceId: string, workTreeId: string)

  /** The weight is in thousandths. */
  datatype Edge = Edge(source: string, target: string, relation: string, weight: int, reason: string)

  datatype Stored = Stored(edge: Edge, projectId: string, spaceId: string)

  /** `lower` is `str.lower`; `reason` words the shared concepts; the numbers default to 2 and 12. */
  datatype Rules = Rules(lower: string -> string, reason: set<string> -> string, minOverlap: int, maxCreated: int)

  // ---------- Words ----------

  predicate TokenChar(c: char) {
    'A' <= c <= 'Z' || 'a' <= c <= 'z' || '0' <= c <= '9' || c == '_' || c == '-' || '\U{4e00}' <= c <= '\U{9fff}'
  }

  function RunLength(s: string): (k: nat)
    ensures k <= |s|
  {
    if s != "" && TokenChar(s[0]) then 1 + RunLength(s[1..]) else 0
  }

  function Runs(s: string): seq<string> {
    if s == "" then [] else if TokenChar(s[0]) then [s[..RunLength(s)]] + Runs(s[RunLength(s)..]) else Runs(s[1..])
  }

  function Tokens(rules: Rules, n: Node): set<string> {
    set t | t in Runs(n.title + " " + n.content) :: rules.lower(t)
  }

  // ---------- Proposals ----------

  function IdOf(n: Node): string {
    if n.id.Some? then n.id.value else ""
  }

  function HasId(): Node -> bool {
    (n: Node) => n.id.Some?
  }

  /** The nodes that carry an id. */
  function Listed(nodes: seq<Node>): seq<Node> {
    Filter(nodes, HasId())
  }

  /** Words of the last node with this id. */
  function TokensFor(rules: Rules, list: seq<Node>, id: string): set<string> {
    if list == [] then {}
    else if IdOf(list[|list| - 1]) == id then Tokens(rules, list[|list| - 1])
    else TokensFor(rules, list[..|list| - 1], id)
  }

  function Overlap(rules: Rules, list: seq<Node>, i: nat, j: nat): set<string>
    requires i < |list| && j < |list|
  {
    TokensFor(rules, list, IdOf(list[i])) * TokensFor(rules, list, IdOf(list[j]))
  }

  predicate Qualifies(rules: Rules, list: seq<Node>, i: nat, j: nat)
    requires i < |list| && j < |list|
  {
    |Overlap(rules, list, i, j)| >= rules.minOverlap
  }

  /** An edge for a pair of nodes with these shared words. */
  function EdgeFor(rules: Rules, left: Node, right: Node, overlap: set<string>): Edge {
    Edge(IdOf(left), IdOf(right), "latent-related", if 200 + 100 * |overlap| < 1000 then 200 + 100 * |overlap| else 1000,
         rules.reason(overlap))
  }

  /** Positions in the list. */
  datatype Pair = Pair(left: nat, right: nat)

  predicate AllOrdered(ps: seq<Pair>, n: nat) {
    forall k :: 0 <= k < |ps| ==> ps[k].left < ps[k].right < n
  }

  /** Qualifying pairs with left index `i` and right index below `j`. */
  function Row(rules: Rules, list: seq<Node>, i: nat, j: nat): (ps: seq<Pair>)
    requires i < |list| && j <= |list|
    ensures AllOrdered(ps, |list|)
  {
    if j <= i + 1 then [] else Row(rules, list, i, j - 1) + if Qualifies(rules, list, i, j - 1) then [Pair(i, j - 1)] else []
  }

  /** Qualifying pairs with left index below `i`. */
  function Rows(rules: Rules, list: seq<Node>, i: nat): (ps: seq<Pair>)
    requires i <= |list|
    ensures AllOrdered(ps, |list|)
  {
    if i == 0 then [] else Rows(rules, list, i - 1) + Row(rules, list, i - 1, |list|)
  }

  predicate Earlier(p: Pair, q: Pair) {
    p.left < q.left || (p.left == q.left && p.right < q.right)
  }

  ghost predicate InOrder(ps: seq<Pair>) {
    forall a, b :: 0 <= a < b < |ps| ==> Earlier(ps[a], ps[b])
  }

  /** A pair of positions whose nodes share enough words. */
  ghost predicate Qualifying(rules: Rules, list: seq<Node>, p: Pair) {
    p.left < p.right < |list| && Qualifies(rules, list, p.left, p.right)
  }

  lemma {:induction false} RowExact(rules: Rules, list: seq<Node>, i: nat, j: nat)
    requires i < |list| && j <= |list|
    ensures InOrder(Row(rules, list, i, j))
    ensures forall p: Pair :: p in Row(rules, list, i, j) <==> Qualifying(rules, list, p) && p.left == i && p.right < j
  {
    hide Qualifies;
    if j > i + 1 {
      RowExact(rules, list, i, j - 1);
      var before := Row(rules, list, i, j - 1);
      forall a | 0 <= a < |before| ensures Earlier(before[a], Pair(i, j - 1)) {
        assert before[a] in before;
      }
    }
  }

  lemma InOrderAppend(ps: seq<Pair>, qs: seq<Pair>)
    requires InOrder(ps) && InOrder(qs) && forall p: Pair, q: Pair :: p in ps && q in qs ==> p.left < q.left
    ensures InOrder(ps + qs)
  {
  }

  /** The pairs are exactly the qualifying ones, in index order. */
  lemma {:induction false} RowsExact(rules: Rules, list: seq<Node>, i: nat)
    requires i <= |list|
    ensures InOrder(Rows(rules, list, i))
    ensures forall p: Pair :: p in Rows(rules, list, i) <==> Qualifying(rules, list, p) && p.left < i
  {
    hide Qualifying, Qualifies, Row;
    if i > 0 {
      RowsExact(rules, list, i - 1);
      RowExact(rules, list, i - 1, |list|);
      var before, row := Rows(rules, list, i - 1), Row(rules, list, i - 1, |list|);
      assert Rows(rules, list, i) == before + row;
      hide Rows, InOrder;
      InOrderAppend(before, row);
      forall p: Pair ensures p in before + row <==> Qualifying(rules, list, p) && p.left < i {
        QualifyingBounds(rules, list, p);
      }
    }
  }

  lemma QualifyingBounds(rules: Rules, list: seq<Node>, p: Pair)
    ensures Qualifying(rules, list, p) ==> p.left < p.right < |list|
  {
  }

  function EdgesOf(rules: Rules, list: seq<Node>, ps: seq<Pair>): (es: seq<Edge>)
    requires AllOrdered(ps, |list|)
    ensures |es| == |ps|
  {
    seq(|ps|, k requires 0 <= k < |ps| =>
          EdgeFor(rules, list[ps[k].left], list[ps[k].right], Overlap(rules, list, ps[k].left, ps[k].right)))
  }

  /** A limit below one still lets one edge through: the length is looked at after adding. */
  function Limit(rules: Rules): nat {
    if rules.maxCreated < 1 then 1 else rules.maxCreated
  }

  function FirstPairs(rules: Rules, list: seq<Node>): (ps: seq<Pair>)
    ensures AllOrdered(ps, |list|)
  {
    var all := Rows(rules, list, |list|);
    all[..if |all| < Limit(rules) then |all| else Limit(rules)]
  }

  /** Every proposed pair qualifies; a qualifying pair goes unproposed only when the limit was used up by earlier pairs. */
  lemma ProposedAreFirst(rules: Rules, list: seq<Node>, p: Pair)
    ensures var ps := FirstPairs(rules, list);
            && InOrder(ps) && |ps| <= Limit(rules)
            && (p in ps ==> Qualifying(rules, list, p))
            && (Qualifying(rules, list, p) && p !in ps ==> |ps| == Limit(rules) && forall q :: q in ps ==> Earlier(q, p))
  {
    hide Qualifies, Rows;
    var all, ps := Rows(rules, list, |list|), FirstPairs(rules, list);
    RowsExact(rules, list, |list|);
    assert forall q :: q in ps ==> q in all;
    if Qualifying(rules, list, p) && p !in ps {
      assert p in all;
      var k :| 0 <= k < |all| && all[k] == p;
      assert k >= |ps| by {
        forall m | 0 <= m < |ps| ensures all[m] != p {
          assert ps[m] in ps;
        }
      }
    }
  }

  function Proposals(rules: Rules, nodes: seq<Node>): seq<Edge> {
    EdgesOf(rules, Listed(nodes), FirstPairs(rules, Listed(nodes)))
  }

  // ---------- The nested loops find the first qualifying pairs ----------

  function Lookup(index: map<string, set<string>>, id: string): set<string> {
    if id in index then index[id] else {}
  }

  method IndexTokens(rules: Rules, list: seq<Node>) returns (index: map<string, set<string>>)
    ensures forall id :: Lookup(index, id) == TokensFor(rules, list, id)
  {
    hide Tokens;
    index := map[];
    for j := 0 to |list|
      invariant forall id :: Lookup(index, id) == TokensFor(rules, list[..j], id)
    {
      ghost var before := index;
      assert list[..j + 1][..j] == list[..j];
      index := index[IdOf(list[j]) := Tokens(rules, list[j])];
      forall id ensures Lookup(index, id) == TokensFor(rules, list[..j + 1], id) {
        assert Lookup(before, id) == TokensFor(rules, list[..j], id);
      }
    }
    assert list[..|list|] == list;
  }

  method WithIds(nodes: seq<Node>) returns (list: seq<Node>)
    ensures list == Listed(nodes)
  {
    list := [];
    for j := 0 to |nodes|
      invariant list == Filter(nodes[..j], HasId())
    {
      assert nodes[..j + 1][..j] == nodes[..j];
      if nodes[j].id.Some? {
        list := list + [nodes[j]];
      }
    }
    assert nodes[..|nodes|] == nodes;
  }

  /** The edges found before looking at the pair (`i`, `j`), none of them beyond the limit. */
  ghost predicate Found(rules: Rules, list: seq<Node>, i: nat, j: nat, edges: seq<Edge>) {
    i < |list| && i < j <= |list| && edges == EdgesOf(rules, list, Rows(rules, list, i) + Row(rules, list, i, j)) && |edges| < Limit(rules)
  }

  ghost predicate FoundRows(rules: Rules, list: seq<Node>, i: nat, edges: seq<Edge>) {
    i <= |list| && edges == EdgesOf(rules, list, Rows(rules, list, i)) && |edges| < Limit(rules)
  }

  /** `_proposed_edges`. */
  method ProposedEdges(rules: Rules, nodes: seq<Node>) returns (edges: seq<Edge>)
    ensures edges == Proposals(rules, nodes)
  {
    hide *;
    var list := WithIds(nodes);
    var index := IndexTokens(rules, list);
    edges := [];
    StartRows(rules, list);
    for i := 0 to |list|
      invariant FoundRows(rules, list, i, edges)
    {
      StartRow(rules, list, i, edges);
      for j := i + 1 to |list|
        invariant Found(rules, list, i, j, edges)
      {
        var overlap := Lookup(index, IdOf(list[i])) * Lookup(index, IdOf(list[j]));
        if |overlap| < rules.minOverlap {
          SkipPair(rules, list, i, j, edges);
          continue;
        }
        AddPair(rules, list, i, j, edges, overlap);
        edges := edges + [EdgeFor(rules, list[i], list[j], overlap)];
        if |edges| >= rules.maxCreated {
          LimitReached(rules, nodes, list, i, j + 1, edges);
          return;
        }
        BelowLimit(rules, list, i, j + 1, edges);
      }
      EndRow(rules, list, i, edges);
    }
    AllFound(rules, nodes, list, edges);
  }

  lemma StartRows(rules: Rules, list: seq<Node>)
    ensures FoundRows(rules, list, 0, [])
  {
  }

  lemma StartRow(rules: Rules, list: seq<Node>, i: nat, edges: seq<Edge>)
    requires i < |list| && FoundRows(rules, list, i, edges)
    ensures Found(rules, list, i, i + 1, edges)
  {
    assert Rows(rules, list, i) + Row(rules, list, i, i + 1) == Rows(rules, list, i);
  }

  lemma EndRow(rules: Rules, list: seq<Node>, i: nat, edges: seq<Edge>)
    requires i < |list| && Found(rules, list, i, |list|, edges)
    ensures FoundRows(rules, list, i + 1, edges)
  {
  }

  lemma SkipPair(rules: Rules, list: seq<Node>, i: nat, j: nat, edges: seq<Edge>)
    requires j < |list| && Found(rules, list, i, j, edges)
    requires |TokensFor(rules, list, IdOf(list[i])) * TokensFor(rules, list, IdOf(list[j]))| < rules.minOverlap
    ensures Found(rules, list, i, j + 1, edges)
  {
    assert Row(rules, list, i, j + 1) == Row(rules, list, i, j);
  }

  /** The edges found up to and including a pair, which may have reached the limit. */
  ghost predicate FoundThrough(rules: Rules, list: seq<Node>, i: nat, j: nat, edges: seq<Edge>) {
    i < |list| && i < j <= |list| && edges == EdgesOf(rules, list, Rows(rules, list, i) + Row(rules, list, i, j)) && |edges| <= Limit(rules)
  }

  lemma AddPair(rules: Rules, list: seq<Node>, i: nat, j: nat, edges: seq<Edge>, overlap: set<string>)
    requires j < |list| && Found(rules, list, i, j, edges)
    requires overlap == TokensFor(rules, list, IdOf(list[i])) * TokensFor(rules, list, IdOf(list[j]))
    requires |overlap| >= rules.minOverlap
    ensures FoundThrough(rules, list, i, j + 1, edges + [EdgeFor(rules, list[i], list[j], overlap)])
  {
    var before, row := Rows(rules, list, i), Row(rules, list, i, j);
    assert Row(rules, list, i, j + 1) == row + [Pair(i, j)];
    assert before + (row + [Pair(i, j)]) == before + row + [Pair(i, j)];
    assert Overlap(rules, list, i, j) == overlap;
    hide Rows, Row, Overlap, EdgeFor, TokensFor;
  }

  lemma BelowLimit(rules: Rules, list: seq<Node>, i: nat, j: nat, edges: seq<Edge>)
    requires FoundThrough(rules, list, i, j, edges) && |edges| < rules.maxCreated
    ensures Found(rules, list, i, j, edges)
  {
  }

  lemma {:induction false} RowPrefix(rules: Rules, list: seq<Node>, i: nat, j: nat, n: nat)
    requires i < |list| && j <= n <= |list|
    ensures Row(rules, list, i, j) <= Row(rules, list, i, n)
    decreases n
  {
    if j < n {
      RowPrefix(rules, list, i, j, n - 1);
    }
  }

  lemma PrefixTransitive<T>(a: seq<T>, b: seq<T>, c: seq<T>)
    requires a <= b <= c
    ensures a <= c
  {
  }

  lemma RowsStep(rules: Rules, list: seq<Node>, i: nat)
    requires i < |list|
    ensures Rows(rules, list, i) <= Rows(rules, list, i + 1)
  {
  }

  lemma {:induction false} RowsPrefix(rules: Rules, list: seq<Node>, i: nat, n: nat)
    requires i <= n <= |list|
    ensures Rows(rules, list, i) <= Rows(rules, list, n)
    decreases n
  {
    hide Rows, Row;
    if i < n {
      RowsPrefix(rules, list, i, n - 1);
      RowsStep(rules, list, n - 1);
      PrefixTransitive(Rows(rules, list, i), Rows(rules, list, n - 1), Rows(rules, list, n));
    }
  }

  lemma LimitReached(rules: Rules, nodes: seq<Node>, list: seq<Node>, i: nat, j: nat, edges: seq<Edge>)
    requires list == Listed(nodes) && FoundThrough(rules, list, i, j, edges) && |edges| >= rules.maxCreated && edges != []
    ensures edges == Proposals(rules, nodes)
  {
    var some, all := Rows(rules, list, i) + Row(rules, list, i, j), Rows(rules, list, |list|);
    RowPrefix(rules, list, i, j, |list|);
    RowsPrefix(rules, list, i + 1, |list|);
    assert some <= Rows(rules, list, i + 1);
    PrefixTransitive(some, Rows(rules, list, i + 1), all);
    FirstAre(rules, list, some);
    hide *;
  }

  lemma FirstAre(rules: Rules, list: seq<Node>, some: seq<Pair>)
    requires some <= Rows(rules, list, |list|) && |some| == Limit(rules)
    ensures FirstPairs(rules, list) == some
  {
    hide Rows;
  }

  lemma AllFound(rules: Rules, nodes: seq<Node>, list: seq<Node>, edges: seq<Edge>)
    requires list == Listed(nodes) && FoundRows(rules, list, |list|, edges)
    ensures edges == Proposals(rules, nodes)
  {
    hide Listed;
    assert FirstPairs(rules, list) == Rows(rules, list, |list|);
  }

  // ---------- No pair twice ----------

  /** A pair of ids whichever way it is directed. */
  function Key(a: string, b: string): (string, string) {
    if Less(b, a) then (b, a) else (a, b)
  }

  lemma KeyMeansPair(a: string, b: string, c: string, d: string)
    ensures Key(a, b) == Key(c, d) <==> (a == c && b == d) || (a == d && b == c)
  {
    LessTotal(a, b);
    LessTotal(c, d);
    if Less(a, b) {
      LessAsymmetric(a, b);
    }
    if Less(c, d) {
      LessAsymmetric(c, d);
    }
    LessIrreflexive(a);
  }

  function KeyOf(e: Edge): (string, string) {
    Key(e.source, e.target)
  }

  ghost predicate DistinctIds(nodes: seq<Node>) {
    forall i, j :: 0 <= i < j < |nodes| && nodes[i].id.Some? ==> nodes[i].id != nodes[j].id
  }

  lemma {:induction false} ListedDistinct(nodes: seq<Node>)
    requires DistinctIds(nodes)
    ensures var list := Listed(nodes); forall i, j :: 0 <= i < j < |list| ==> IdOf(list[i]) != IdOf(list[j])
  {
    if nodes != [] {
      var front, last := nodes[..|nodes| - 1], nodes[|nodes| - 1];
      ListedDistinct(front);
      var list := Listed(front);
      FilterMembers(front, HasId());
      forall i | 0 <= i < |list| && last.id.Some? ensures IdOf(list[i]) != IdOf(last) {
        assert list[i] in front && HasId()(list[i]);
        var k :| 0 <= k < |front| && front[k] == list[i];
        assert nodes[k] == list[i] && nodes[|nodes| - 1] == last;
      }
    }
  }

  ghost predicate DistinctKeys(es: seq<Edge>) {
    forall a, b :: 0 <= a < b < |es| ==> KeyOf(es[a]) != KeyOf(es[b])
  }

  /** With distinct ids no unordered pair of nodes is proposed twice. */
  lemma NoPairTwice(rules: Rules, nodes: seq<Node>)
    requires DistinctIds(nodes)
    ensures DistinctKeys(Proposals(rules, nodes))
  {
    var list := Listed(nodes);
    var ps, es := FirstPairs(rules, list), Proposals(rules, nodes);
    ListedDistinct(nodes);
    RowsExact(rules, list, |list|);
    hide Listed, Overlap, Rows, IdOf, Key;
    forall a, b | 0 <= a < b < |es| ensures KeyOf(es[a]) != KeyOf(es[b]) {
      var p, q := ps[a], ps[b];
      assert Earlier(p, q);
      KeyMeansPair(IdOf(list[p.left]), IdOf(list[p.right]), IdOf(list[q.left]), IdOf(list[q.right]));
      EdgeEnds(rules, list, p);
      EdgeEnds(rules, list, q);
      assert KeyOf(es[a]) == Key(IdOf(list[p.left]), IdOf(list[p.right])) && KeyOf(es[b]) == Key(IdOf(list[q.left]), IdOf(list[q.right]));
    }
  }

  lemma EdgeEnds(rules: Rules, list: seq<Node>, p: Pair)
    requires p.left < p.right < |list|
    ensures var e := EdgeFor(rules, list[p.left], list[p.right], Overlap(rules, list, p.left, p.right));
            e.source == IdOf(list[p.left]) && e.target == IdOf(list[p.right])
  {
  }

  // ---------- Scanning a branch ----------

  const VISIBLE := 500

  /** What `list_edges` shows of the branch: its oldest edges. */
  function Visible(edges: seq<Stored>): (v: seq<Stored>) {
    edges[..if |edges| < VISIBLE then |edges| else VISIBLE]
  }

  function Linked(edges: seq<Stored>): set<(string, string)> {
    set s | s in edges :: KeyOf(s.edge)
  }

  function Unlinked(linked: set<(string, string)>): Edge -> bool {
    e => KeyOf(e) !in linked
  }

  /** The proposals a scan stores. */
  function Missing(rules: Rules, nodes: seq<Node>, edges: seq<Stored>): seq<Edge> {
    Filter(Proposals(rules, nodes), Unlinked(Linked(Visible(edges))))
  }

  /** The last node with this id; ids come from the nodes themselves. */
  function NodeFor(nodes: seq<Node>, id: string): Option<Node> {
    if nodes == [] then None
    else if nodes[|nodes| - 1].id == Some(id) then Some(nodes[|nodes| - 1])
    else NodeFor(nodes[..|nodes| - 1], id)
  }

  /** The stored edge: project and space of the source node, and the work tree node of either end noted in the reason. */
  function Materialized(nodes: seq<Node>, e: Edge): Stored {
    var source, target := NodeFor(nodes, e.source), NodeFor(nodes, e.target);
    if source.None? || target.None? then Stored(e, "", "")
    else
      var given := if source.value.workTreeId != "" then source.value.workTreeId else target.value.workTreeId;
      var work := Strip(given);
      Stored(if work != "" then e.(reason := e.reason + " [source-work-tree:" + work + "]") else e,
             source.value.projectId, source.value.spaceId)
  }

  lemma {:induction false} NodeExists(nodes: seq<Node>, n: Node)
    requires n in nodes && n.id.Some?
    ensures NodeFor(nodes, IdOf(n)).Some? && NodeFor(nodes, IdOf(n)).value in nodes && NodeFor(nodes, IdOf(n)).value.id == n.id
  {
    var front, last := nodes[..|nodes| - 1], nodes[|nodes| - 1];
    if last.id != n.id {
      assert n in front;
      NodeExists(front, n);
    }
  }

  /** Both ends of a proposal are nodes that were scanned. */
  lemma ProposalEndsExist(rules: Rules, nodes: seq<Node>, e: Edge)
    requires e in Proposals(rules, nodes)
    ensures NodeFor(nodes, e.source).Some? && NodeFor(nodes, e.target).Some?
  {
    hide NodeFor;
    var list := Listed(nodes);
    var ps := FirstPairs(rules, list);
    var k :| 0 <= k < |ps| && EdgesOf(rules, list, ps)[k] == e;
    FilterMembers(nodes, HasId());
    var left, right := list[ps[k].left], list[ps[k].right];
    assert left in list && right in list;
    assert HasId()(left) && HasId()(right);
    NodeExists(nodes, left);
    NodeExists(nodes, right);
  }

  function MaterializedAll(nodes: seq<Node>, es: seq<Edge>): (ss: seq<Stored>)
    ensures |ss| == |es|
    ensures forall k :: 0 <= k < |es| ==> KeyOf(ss[k].edge) == KeyOf(es[k])
  {
    seq(|es|, k requires 0 <= k < |es| => Materialized(nodes, es[k]))
  }

  /** The branch after a scan. */
  function Scanned(rules: Rules, nodes: seq<Node>, edges: seq<Stored>): (after: seq<Stored>) {
    edges + MaterializedAll(nodes, Missing(rules, nodes, edges))
  }

  function Scans(rules: Rules, nodes: seq<Node>, edges: seq<Stored>, n: nat): (after: seq<Stored>)
    decreases n
  {
    if n == 0 then edges else Scans(rules, nodes, Scanned(rules, nodes, edges), n - 1)
  }

  /** The edge rows of one branch, oldest first. */
  class EdgeRepository {
    var edges: seq<Stored>

    method ListEdges(limit: nat) returns (rows: seq<Stored>)
      ensures rows == edges[..if |edges| < limit then |edges| else limit]
    {
      rows := edges[..if |edges| < limit then |edges| else limit];
    }

    method CreateEdge(s: Stored)
      modifies this
      ensures edges == old(edges) + [s]
    {
      edges := edges + [s];
    }

    /** `scan_branch_relations`: a dry run reports the missing edges, any other run also stores them. */
    method ScanBranch(rules: Rules, nodes: seq<Node>, dryRun: bool) returns (proposals: seq<Edge>)
      modifies this
      ensures proposals == Missing(rules, nodes, old(edges))
      ensures edges == if dryRun then old(edges) else Scanned(rules, nodes, old(edges))
    {
      hide Proposals, Materialized, Linked, Filter;
      var existing := ListEdges(VISIBLE);
      var all := ProposedEdges(rules, nodes);
      proposals := WithoutLinked(all, Linked(existing));
      if dryRun {
        return;
      }
      for k := 0 to |proposals|
        invariant edges == old(edges) + MaterializedAll(nodes, proposals[..k])
      {
        CreateEdge(Materialized(nodes, proposals[k]));
        assert MaterializedAll(nodes, proposals[..k + 1]) == MaterializedAll(nodes, proposals[..k]) + [Materialized(nodes, proposals[k])];
      }
      assert proposals[..|proposals|] == proposals;
    }
  }

  method WithoutLinked(all: seq<Edge>, pairs: set<(string, string)>) returns (proposals: seq<Edge>)
    ensures proposals == Filter(all, Unlinked(pairs))
  {
    hide KeyOf;
    proposals := [];
    for k := 0 to |all|
      invariant proposals == Filter(all[..k], Unlinked(pairs))
    {
      assert all[..k + 1][..k] == all[..k];
      if KeyOf(all[k]) !in pairs {
        proposals := proposals + [all[k]];
      }
    }
    assert all[..|all|] == all;
  }

  /** Nothing created is already linked among the edges the scan saw, and everything created was proposed. */
  lemma CreatedWereUnlinked(rules: Rules, nodes: seq<Node>, edges: seq<Stored>, e: Edge)
    ensures e in Missing(rules, nodes, edges)
            <==> e in Proposals(rules, nodes) && forall s :: s in Visible(edges) ==> KeyOf(s.edge) != KeyOf(e)
  {
    hide Proposals, Visible, Key, KeyOf;
    FilterMembers(Proposals(rules, nodes), Unlinked(Linked(Visible(edges))));
    assert KeyOf(e) in Linked(Visible(edges)) <==> exists s :: s in Visible(edges) && KeyOf(s.edge) == KeyOf(e);
  }

  lemma {:induction false} FilterDistinct(es: seq<Edge>, f: Edge -> bool)
    requires DistinctKeys(es)
    ensures DistinctKeys(Filter(es, f))
  {
    hide KeyOf;
    if es != [] {
      var front, last := es[..|es| - 1], es[|es| - 1];
      FilterDistinct(front, f);
      FilterMembers(front, f);
      forall a | 0 <= a < |Filter(front, f)| ensures KeyOf(Filter(front, f)[a]) != KeyOf(last) {
        assert Filter(front, f)[a] in front;
        var k :| 0 <= k < |front| && front[k] == Filter(front, f)[a];
        assert es[k] == front[k];
      }
    }
  }

  /** Leaving out the keys of the first `m` edges leaves the others. */
  lemma {:induction false} FilterOutFirst(es: seq<Edge>, m: nat, f: Edge -> bool)
    requires m <= |es| && DistinctKeys(es)
    requires forall k :: 0 <= k < |es| ==> (f(es[k]) <==> k >= m)
    ensures Filter(es, f) == es[m..]
  {
    if m == |es| {
      FilterNone(es, f);
    } else {
      var front, last := es[..|es| - 1], es[|es| - 1];
      FilterOutFirst(front, m, f);
      assert front[m..] + [last] == es[m..];
    }
  }

  function Room(edges: seq<Stored>): nat {
    if |edges| < VISIBLE then VISIBLE - |edges| else 0
  }

  /** What a second scan of the same nodes creates: exactly the edges of the first that it cannot see. */
  lemma SecondScanCreates(rules: Rules, nodes: seq<Node>, edges: seq<Stored>)
    requires DistinctIds(nodes)
    ensures var created, room := Missing(rules, nodes, edges), Room(edges);
            Missing(rules, nodes, Scanned(rules, nodes, edges)) == created[if |created| < room then |created| else room..]
  {
    hide Proposals, Key, KeyOf, DistinctIds;
    var all, created := Proposals(rules, nodes), Missing(rules, nodes, edges);
    var m := if |created| < Room(edges) then |created| else Room(edges);
    var after := Scanned(rules, nodes, edges);
    NoPairTwice(rules, nodes);
    var first, second := Unlinked(Linked(Visible(edges))), Unlinked(Linked(Visible(after)));
    FilterDistinct(all, first);
    SeenAfter(rules, nodes, edges, m);
    FilterMembers(all, first);
    forall k | 0 <= k < |created| ensures second(created[k]) <==> k >= m {
      assert created[k] in created;
      assert first(created[k]);
      if KeyOf(created[k]) in KeysOf(created[..m]) {
        var j :| 0 <= j < m && KeyOf(created[j]) == KeyOf(created[k]);
      }
      assert k < m ==> created[..m][k] == created[k];
    }
    FilterOutFirst(created, m, second);
    forall e | e in all ensures second(e) == (first(e) && second(e)) {
    }
    FilterTwice(all, first, second, second);
  }

  function KeysOf(es: seq<Edge>): set<(string, string)> {
    set k | 0 <= k < |es| :: KeyOf(es[k])
  }

  lemma SeenAfter(rules: Rules, nodes: seq<Node>, edges: seq<Stored>, m: nat)
    requires var created := Missing(rules, nodes, edges); m == if |created| < Room(edges) then |created| else Room(edges)
    ensures Linked(Visible(Scanned(rules, nodes, edges))) == Linked(Visible(edges)) + KeysOf(Missing(rules, nodes, edges)[..m])
  {
    hide Proposals, Key, KeyOf, Missing;
    var created := Missing(rules, nodes, edges);
    var stored := MaterializedAll(nodes, created);
    var seen := Visible(Scanned(rules, nodes, edges));
    assert seen == Visible(edges) + stored[..m];
    forall k ensures k in Linked(seen) <==> k in Linked(Visible(edges)) + KeysOf(created[..m]) {
      if k in KeysOf(created[..m]) {
        var j :| 0 <= j < m && KeyOf(created[j]) == k;
        assert stored[..m][j] in seen;
      }
      if s :| s in seen && KeyOf(s.edge) == k && s !in Visible(edges) {
        assert s in stored[..m];
        var j :| 0 <= j < m && stored[j] == s;
        assert created[..m][j] == created[j];
      }
    }
  }

  /** With distinct ids a second scan creates nothing if and only if the first did not, or its edges fit among the visible ones. */
  lemma SecondScanIdleIff(rules: Rules, nodes: seq<Node>, edges: seq<Stored>)
    requires DistinctIds(nodes)
    ensures Missing(rules, nodes, Scanned(rules, nodes, edges)) == []
            <==> Missing(rules, nodes, edges) == [] || |edges| + |Missing(rules, nodes, edges)| <= VISIBLE
  {
    hide Missing;
    SecondScanCreates(rules, nodes, edges);
  }

  /** From then on every scan leaves the branch as it is. */
  lemma {:induction false} ScansSettle(rules: Rules, nodes: seq<Node>, edges: seq<Stored>, n: nat)
    requires Missing(rules, nodes, edges) == []
    ensures Scans(rules, nodes, edges, n) == edges
    decreases n
  {
    hide Missing;
    if n > 0 {
      assert Scanned(rules, nodes, edges) == edges;
      ScansSettle(rules, nodes, edges, n - 1);
    }
  }

  /** With room for its edges one scan does what any number of scans does. */
  lemma OneScanSuffices(rules: Rules, nodes: seq<Node>, edges: seq<Stored>, n: nat)
    requires DistinctIds(nodes) && n >= 1 && |edges| + |Missing(rules, nodes, edges)| <= VISIBLE
    ensures Scans(rules, nodes, edges, n) == Scanned(rules, nodes, edges)
  {
    hide Missing;
    SecondScanIdleIff(rules, nodes, edges);
    ScansSettle(rules, nodes, Scanned(rules, nodes, edges), n - 1);
  }

  /** A full branch grows on every scan: the same unseen edges are created over and over. */
  lemma {:induction false} FullBranchGrows(rules: Rules, nodes: seq<Node>, edges: seq<Stored>, n: nat)
    requires DistinctIds(nodes) && |edges| >= VISIBLE
    ensures |Scans(rules, nodes, edges, n)| == |edges| + n * |Missing(rules, nodes, edges)|
    decreases n
  {
    hide Missing;
    if n > 0 {
      SecondScanCreates(rules, nodes, edges);
      var m := |Missing(rules, nodes, edges)|;
      FullBranchGrows(rules, nodes, Scanned(rules, nodes, edges), n - 1);
      assert n * m == (n - 1) * m + m;
    }
  }

  // ---------- A branch that is never finished ----------

  lemma {:induction false} RunLengthIs(w: string, rest: string)
    requires (forall i :: 0 <= i < |w| ==> TokenChar(w[i])) && (rest != "" ==> !TokenChar(rest[0]))
    ensures RunLength(w + rest) == |w|
  {
    if w == "" {
      assert w + rest == rest;
    } else {
      assert (w + rest)[1..] == w[1..] + rest;
      RunLengthIs(w[1..], rest);
    }
  }

  lemma RunsWord(w: string, rest: string)
    requires w != "" && forall i :: 0 <= i < |w| ==> TokenChar(w[i])
    ensures Runs(w + " " + rest) == [w] + Runs(rest)
  {
    var s, tail := w + " " + rest, " " + rest;
    assert s == w + tail;
    RunLengthIs(w, tail);
    assert s[..|w|] == w && s[|w|..] == tail && tail[1..] == rest;
    assert s[0] == w[0] && !TokenChar(tail[0]);
    hide RunLength;
    assert Runs(tail) == Runs(rest);
  }

  const ALPHA := Node(Some("a"), "alpha beta", "", "p", "s", "")
  const BETA := Node(Some("b"), "alpha beta", "", "p", "s", "")

  ghost predicate OneWord(w: string) {
    w != "" && forall i :: 0 <= i < |w| ==> TokenChar(w[i])
  }

  lemma TwoRuns(a: string, b: string)
    requires OneWord(a) && OneWord(b)
    ensures Runs(a + " " + (b + " " + "")) == [a, b]
  {
    RunsWord(a, b + " " + "");
    RunsWord(b, "");
    assert Runs("") == [];
    hide Runs;
  }

  lemma TwoWordTokens(rules: Rules, n: Node, a: string, b: string)
    requires OneWord(a) && OneWord(b) && n.title + " " + n.content == a + " " + (b + " " + "")
    ensures Tokens(rules, n) == {rules.lower(a), rules.lower(b)}
  {
    hide Runs, OneWord;
    TwoRuns(a, b);
    var runs := [a, b];
    forall t ensures t in Tokens(rules, n) <==> t in {rules.lower(a), rules.lower(b)} {
      assert runs[0] in runs && runs[1] in runs;
    }
  }

  lemma ConceptsOf(rules: Rules, n: Node)
    requires n.title == "alpha beta" && n.content == ""
    ensures Tokens(rules, n) == {rules.lower("alpha"), rules.lower("beta")}
  {
    hide Runs, RunLength, Tokens;
    assert OneWord("alpha") && OneWord("beta");
    assert n.title + " " + n.content == "alpha" + " " + ("beta" + " " + "");
    TwoWordTokens(rules, n, "alpha", "beta");
  }

  lemma TwoNodesQualify(rules: Rules)
    requires rules.minOverlap == 2 && rules.lower("alpha") != rules.lower("beta")
    ensures Listed([ALPHA, BETA]) == [ALPHA, BETA] && Qualifies(rules, [ALPHA, BETA], 0, 1)
  {
    var list := [ALPHA, BETA];
    assert list[..1] == [ALPHA] && [ALPHA][..0] == [];
    assert Filter([ALPHA], HasId()) == [ALPHA];
    ConceptsOf(rules, ALPHA);
    ConceptsOf(rules, BETA);
    hide Tokens, Filter;
    assert TokensFor(rules, [ALPHA], "a") == Tokens(rules, ALPHA);
    assert TokensFor(rules, list, "a") == Tokens(rules, ALPHA);
    assert TokensFor(rules, list, "b") == Tokens(rules, BETA);
    var both := {rules.lower("alpha"), rules.lower("beta")};
    assert Overlap(rules, list, 0, 1) == both;
    assert |both| == 2;
  }

  lemma TwoNodesProposed(rules: Rules)
    requires rules.minOverlap == 2 && rules.lower("alpha") != rules.lower("beta")
    ensures exists e :: e in Proposals(rules, [ALPHA, BETA]) && e.source == "a" && e.target == "b"
  {
    var list := [ALPHA, BETA];
    TwoNodesQualify(rules);
    hide Qualifies, Listed;
    ProposedAreFirst(rules, list, Pair(0, 1));
    assert Qualifying(rules, list, Pair(0, 1));
    var ps := FirstPairs(rules, list);
    forall q | q in ps ensures !Earlier(q, Pair(0, 1)) {
      ProposedAreFirst(rules, list, q);
    }
    assert |ps| > 0 ==> ps[0] in ps;
    assert Pair(0, 1) in ps;
    var k :| 0 <= k < |ps| && ps[k] == Pair(0, 1);
    hide FirstPairs, Overlap;
    var e := EdgesOf(rules, list, ps)[k];
    EdgeEnds(rules, list, Pair(0, 1));
    assert e in Proposals(rules, list);
  }

  /** Two nodes that share two words, in a branch with 500 older edges between other nodes: every scan links them once more. */
  lemma ScansRepeatThemselves(rules: Rules)
    requires rules.minOverlap == 2 && rules.lower("alpha") != rules.lower("beta")
    ensures var nodes, edges := [ALPHA, BETA], seq(VISIBLE, _ => Stored(Edge("x", "y", "related-to", 500, ""), "p", "s"));
            && DistinctIds(nodes)
            && Missing(rules, nodes, edges) != []
            && Missing(rules, nodes, Scanned(rules, nodes, edges)) == Missing(rules, nodes, edges)
            && forall n: nat :: |Scans(rules, nodes, edges, n)| == VISIBLE + n * |Missing(rules, nodes, edges)|
  {
    var nodes, edges := [ALPHA, BETA], seq(VISIBLE, _ => Stored(Edge("x", "y", "related-to", 500, ""), "p", "s"));
    assert |edges| == VISIBLE && DistinctIds(nodes);
    TwoNodesProposed(rules);
    KeyMeansPair("x", "y", "a", "b");
    forall s | s in edges ensures s.edge.source == "x" && s.edge.target == "y" {
      var i :| 0 <= i < |edges| && edges[i] == s;
    }
    assert forall s :: s in Visible(edges) ==> s in edges;
    hide Tokens, Listed, Visible, VISIBLE, DistinctIds, Scans, Scanned, Key, ALPHA, BETA;
    var e :| e in Proposals(rules, nodes) && e.source == "a" && e.target == "b";
    hide Proposals;
    CreatedWereUnlinked(rules, nodes, edges, e);
    hide Missing;
    assert e in Missing(rules, nodes, edges);
    SecondScanCreates(rules, nodes, edges);
    forall n: nat ensures |Scans(rules, nodes, edges, n)| == VISIBLE + n * |Missing(rules, nodes, edges)| {
      FullBranchGrows(rules, nodes, edges, n);
    }
  }

  /** However often the branch is scanned, only pairs among the first proposals are ever linked; later qualifying pairs never are. */
  lemma {:induction false} OnlyFirstProposals(rules: Rules, nodes: seq<Node>, edges: seq<Stored>, n: nat)
    ensures Linked(Scans(rules, nodes, edges, n)) <= Linked(edges) + KeysOf(Proposals(rules, nodes))
    decreases n
  {
    hide Proposals, Key, KeyOf, Visible;
    if n > 0 {
      var after := Scanned(rules, nodes, edges);
      var created := Missing(rules, nodes, edges);
      OnlyFirstProposals(rules, nodes, after, n - 1);
      FilterMembers(Proposals(rules, nodes), Unlinked(Linked(Visible(edges))));
      forall k | k in Linked(after) ensures k in Linked(edges) + KeysOf(Proposals(rules, nodes)) {
        var s :| s in after && KeyOf(s.edge) == k;
        if s !in edges {
          var j :| 0 <= j < |created| && MaterializedAll(nodes, created)[j] == s;
          assert created[j] in created;
        }
      }
    }
  }
}
