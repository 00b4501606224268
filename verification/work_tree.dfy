/**
 The report of unfinished work nodes: which nodes of a task's work tree are not
 terminal, and which of them are placeholders suggested for pruning.
 */
module WorkTree {
  import opened Collections
  import opened Text
  import opened Payloads
  import opened PayloadReading

  const TERMINAL := {"completed", "failed", "skipped", "cancelled", "canceled"}

  // ---------- The fields of a node ----------

  function NodeId(host: Host, n: Fields): string {
    Strip(TextOr(host, Or(Get(n, "id"), Get(n, "nodeId")), ""))
  }

  function ParentId(host: Host, n: Fields): string {
    Strip(TextOr(host, Or(Get(n, "parentNodeId"), Get(n, "parentId")), ""))
  }

  function Status(host: Host, n: Fields): string {
    host.lower(Strip(TextOr(host, Get(n, "status"), "unknown")))
  }

  function Title(host: Host, n: Fields): string {
    Strip(TextOr(host, Or(Or(Get(n, "title"), Get(n, "localGoal")), Get(n, "nodeText")), NodeId(host, n)))
  }

  function Nodes(tree: Fields): seq<Fields> {
    if Get(tree, "nodes").Arr? then Dicts(Get(tree, "nodes").items) else []
  }

  function TreeText(host: Host, tree: Fields, key: string): string {
    Strip(TextOr(host, Get(tree, key), ""))
  }

  // ---------- What the report says ----------

  datatype Reason = RootOpen | ChildrenOpen | Placeholder | NodeOpen

  datatype Action = ResolveRoot | BatchPrune | Inspect

  datatype Unfinished = Unfinished(nodeId: string, title: string, status: string, parentId: Option<string>, isRoot: bool,
                                   isCurrent: bool, childIds: seq<string>, unfinishedChildIds: seq<string>, seeded: bool,
                                   action: Action, reason: Reason)

  datatype Report = Report(rootId: Option<string>, currentId: Option<string>, count: nat, nodes: seq<Unfinished>,
                           suggested: seq<string>)

  /** The fixed part of a report: the nodes, the root and current ids, and the titles given to planning placeholders. */
  datatype Tree = Tree(nodes: seq<Fields>, root: string, current: string, placeholders: set<string>)

  /** A work tree payload, with the placeholder titles. */
  function TreeOf(host: Host, tree: Fields, placeholders: set<string>): Tree {
    Tree(Nodes(tree), TreeText(host, tree, "rootNodeId"), TreeText(host, tree, "currentNodeId"), placeholders)
  }

  predicate Open(host: Host, n: Fields) {
    NodeId(host, n) != "" && Status(host, n) !in TERMINAL
  }

  /** Ids of the nodes that name `p` as their parent, found by looking at every node. */
  function Children(host: Host, nodes: seq<Fields>, p: string): seq<string>
    decreases nodes
  {
    if nodes == [] then []
    else
      var last := nodes[|nodes| - 1];
      Children(host, nodes[..|nodes| - 1], p) + if ParentId(host, last) == p then [NodeId(host, last)] else []
  }

  function Named(ids: seq<string>): seq<string> {
    if ids == [] then [] else Named(ids[..|ids| - 1]) + if ids[|ids| - 1] != "" then [ids[|ids| - 1]] else []
  }

  /** Status of the last node with this id, "unknown" for none. */
  function StatusOf(host: Host, nodes: seq<Fields>, id: string): string
    decreases nodes
  {
    if nodes == [] then Status(host, map[])
    else if NodeId(host, nodes[|nodes| - 1]) == id then Status(host, nodes[|nodes| - 1])
    else StatusOf(host, nodes[..|nodes| - 1], id)
  }

  function StillOpen(host: Host, nodes: seq<Fields>, ids: seq<string>): seq<string>
    decreases ids
  {
    if ids == [] then []
    else StillOpen(host, nodes, ids[..|ids| - 1])
         + if StatusOf(host, nodes, ids[|ids| - 1]) !in TERMINAL then [ids[|ids| - 1]] else []
  }

  /** A placeholder of the seeded plan directly below the root that nothing was attached to. */
  predicate IsPlaceholder(host: Host, t: Tree, n: Fields) {
    && NodeId(host, n) != t.root
    && ParentId(host, n) == t.root
    && Named(Children(host, t.nodes, NodeId(host, n))) == []
    && Title(host, n) in t.placeholders
  }

  predicate Suggested(host: Host, t: Tree, n: Fields) {
    Open(host, n) && IsPlaceholder(host, t, n)
  }

  function Described(host: Host, t: Tree, n: Fields): Unfinished {
    var id, parent := NodeId(host, n), ParentId(host, n);
    var children := Named(Children(host, t.nodes, id));
    var open := StillOpen(host, t.nodes, children);
    var seeded := IsPlaceholder(host, t, n);
    Unfinished(id, Title(host, n), Status(host, n), if parent != "" then Some(parent) else None, id == t.root, id == t.current,
               children, open, seeded,
               if id == t.root then ResolveRoot else if seeded then BatchPrune else Inspect,
               if id == t.root then RootOpen else if open != [] then ChildrenOpen else if seeded then Placeholder else NodeOpen)
  }

  function OpenAt(host: Host, t: Tree): nat -> bool {
    (k: nat) => k < |t.nodes| && Open(host, t.nodes[k])
  }

  function SuggestedAt(host: Host, t: Tree): nat -> bool {
    (k: nat) => k < |t.nodes| && Suggested(host, t, t.nodes[k])
  }

  function DescribedAll(host: Host, t: Tree, ks: seq<nat>): (r: seq<Unfinished>)
    requires forall i :: 0 <= i < |ks| ==> ks[i] < |t.nodes|
  {
    seq(|ks|, i requires 0 <= i < |ks| => Described(host, t, t.nodes[ks[i]]))
  }

  function IdsAt(host: Host, t: Tree, ks: seq<nat>): (r: seq<string>)
    requires forall i :: 0 <= i < |ks| ==> ks[i] < |t.nodes|
  {
    seq(|ks|, i requires 0 <= i < |ks| => NodeId(host, t.nodes[ks[i]]))
  }

  function ReportOf(host: Host, t: Tree): Report {
    var open, suggested := Positions(OpenAt(host, t), |t.nodes|), Positions(SuggestedAt(host, t), |t.nodes|);
    Report(if t.root != "" then Some(t.root) else None, if t.current != "" then Some(t.current) else None,
           |open|, DescribedAll(host, t, open), IdsAt(host, t, suggested))
  }

  // ---------- The report is built from two indexes ----------

  function At(index: map<string, seq<string>>, p: string): seq<string> {
    if p in index then index[p] else []
  }

  method IndexChildren(host: Host, nodes: seq<Fields>) returns (index: map<string, seq<string>>)
    ensures forall p :: p != "" ==> At(index, p) == Children(host, nodes, p)
  {
    index := map[];
    var j := 0;
    while j < |nodes|
      invariant j <= |nodes|
      invariant IndexesChildren(host, nodes[..j], index)
    {
      hide *;
      ghost var before := index;
      var parent := ParentId(host, nodes[j]);
      if parent != "" {
        index := index[parent := At(index, parent) + [NodeId(host, nodes[j])]];
      }
      OneMoreChild(host, nodes, j, before, index);
      j := j + 1;
    }
    assert nodes[..j] == nodes;
  }

  ghost predicate IndexesChildren(host: Host, nodes: seq<Fields>, index: map<string, seq<string>>) {
    forall p :: p != "" ==> At(index, p) == Children(host, nodes, p)
  }

  lemma OneMoreChild(host: Host, nodes: seq<Fields>, j: nat, before: map<string, seq<string>>, index: map<string, seq<string>>)
    requires j < |nodes| && IndexesChildren(host, nodes[..j], before)
    requires var parent := ParentId(host, nodes[j]);
             index == if parent != "" then before[parent := At(before, parent) + [NodeId(host, nodes[j])]] else before
    ensures IndexesChildren(host, nodes[..j + 1], index)
  {
    hide ParentId, NodeId;
    var more := nodes[..j + 1];
    assert more[..j] == nodes[..j] && more[j] == nodes[j];
    forall p | p != "" ensures At(index, p) == Children(host, more, p) {
      assert At(before, p) == Children(host, nodes[..j], p);
    }
  }

  function Lookup(host: Host, byId: map<string, Fields>, id: string): string {
    Status(host, if id in byId then byId[id] else map[])
  }

  method IndexById(host: Host, nodes: seq<Fields>) returns (byId: map<string, Fields>)
    ensures forall id :: id != "" ==> Lookup(host, byId, id) == StatusOf(host, nodes, id)
  {
    hide Status, NodeId;
    byId := map[];
    var j := 0;
    while j < |nodes|
      invariant j <= |nodes|
      invariant forall id :: id != "" ==> Lookup(host, byId, id) == StatusOf(host, nodes[..j], id)
    {
      ghost var before := byId;
      if NodeId(host, nodes[j]) != "" {
        byId := byId[NodeId(host, nodes[j]) := nodes[j]];
      }
      assert nodes[..j + 1][..j] == nodes[..j];
      forall id | id != "" ensures Lookup(host, byId, id) == StatusOf(host, nodes[..j + 1], id) {
        assert Lookup(host, before, id) == StatusOf(host, nodes[..j], id);
      }
      j := j + 1;
    }
    assert nodes[..j] == nodes;
  }

  method NamedChildren(listed: seq<string>) returns (ids: seq<string>)
    ensures ids == Named(listed)
  {
    ids := [];
    for j := 0 to |listed|
      invariant ids == Named(listed[..j])
    {
      assert listed[..j + 1][..j] == listed[..j];
      if listed[j] != "" {
        ids := ids + [listed[j]];
      }
    }
    assert listed[..|listed|] == listed;
  }

  method OpenChildren(host: Host, byId: map<string, Fields>, ghost nodes: seq<Fields>, ids: seq<string>) returns (open: seq<string>)
    requires forall id :: id != "" ==> Lookup(host, byId, id) == StatusOf(host, nodes, id)
    requires forall i :: 0 <= i < |ids| ==> ids[i] != ""
    ensures open == StillOpen(host, nodes, ids)
  {
    open := [];
    for j := 0 to |ids|
      invariant open == StillOpen(host, nodes, ids[..j])
    {
      assert ids[..j + 1][..j] == ids[..j];
      if Lookup(host, byId, ids[j]) !in TERMINAL {
        open := open + [ids[j]];
      }
    }
    assert ids[..|ids|] == ids;
  }

  lemma {:induction false} NamedAreNamed(ids: seq<string>)
    ensures forall i :: 0 <= i < |Named(ids)| ==> Named(ids)[i] != ""
  {
    if ids != [] {
      NamedAreNamed(ids[..|ids| - 1]);
    }
  }

  lemma NoChildrenNoneOpen(host: Host, nodes: seq<Fields>)
    ensures StillOpen(host, nodes, []) == []
  {
  }

  /** `_unfinished_work_nodes`: both indexes, then one walk over the nodes. */
  method UnfinishedWorkNodes(host: Host, tree: Fields, placeholders: set<string>) returns (report: Report)
    ensures report == ReportOf(host, TreeOf(host, tree, placeholders))
  {
    hide *;
    var t := TreeOf(host, tree, placeholders);
    var byId := IndexById(host, t.nodes);
    var index := IndexChildren(host, t.nodes);
    var unfinished: seq<Unfinished>, suggested: seq<string> := [], [];
    var j: nat := 0;
    StartWalk(host, t);
    while j < |t.nodes|
      invariant j <= |t.nodes|
      invariant Walked(host, t, j, unfinished, suggested)
    {
      var n := t.nodes[j];
      var id, status := NodeId(host, n), Status(host, n);
      if id == "" || status in TERMINAL {
        SkipNode(host, t, j, unfinished, suggested);
      } else {
        var parent := ParentId(host, n);
        var childIds := NamedChildren(At(index, id));
        NamedAreNamed(At(index, id));
        var openIds := OpenChildren(host, byId, t.nodes, childIds);
        var title := Title(host, n);
        var isRoot := id == t.root;
        var seeded := !isRoot && parent == t.root && childIds == [] && title in t.placeholders;
        var reason := NodeOpen;
        var more := suggested;
        if isRoot {
          reason := RootOpen;
        } else if openIds != [] {
          reason := ChildrenOpen;
        } else if seeded {
          reason := Placeholder;
          more := more + [id];
        }
        var entry := Unfinished(id, title, status, if parent != "" then Some(parent) else None, isRoot, id == t.current, childIds,
                                openIds, seeded, if isRoot then ResolveRoot else if seeded then BatchPrune else Inspect, reason);
        DescribeNode(host, t, n, childIds, openIds, entry);
        AddNode(host, t, j, unfinished, suggested, entry, more);
        unfinished, suggested := unfinished + [entry], more;
      }
      j := j + 1;
    }
    report := Report(if t.root != "" then Some(t.root) else None, if t.current != "" then Some(t.current) else None,
                     |unfinished|, unfinished, suggested);
    EndWalk(host, t, unfinished, suggested);
  }

  /** The lists after the first `j` nodes. */
  ghost predicate Walked(host: Host, t: Tree, j: nat, unfinished: seq<Unfinished>, suggested: seq<string>) {
    && j <= |t.nodes|
    && unfinished == DescribedAll(host, t, Positions(OpenAt(host, t), j))
    && suggested == IdsAt(host, t, Positions(SuggestedAt(host, t), j))
  }

  lemma OpenAtMeans(host: Host, t: Tree, k: nat)
    ensures OpenAt(host, t)(k) <==> k < |t.nodes| && Open(host, t.nodes[k])
  {
  }

  lemma SuggestedAtMeans(host: Host, t: Tree, k: nat)
    ensures SuggestedAt(host, t)(k) <==> k < |t.nodes| && Suggested(host, t, t.nodes[k])
  {
  }

  lemma StartWalk(host: Host, t: Tree)
    ensures Walked(host, t, 0, [], [])
  {
  }

  lemma SkipNode(host: Host, t: Tree, j: nat, unfinished: seq<Unfinished>, suggested: seq<string>)
    requires j < |t.nodes| && Walked(host, t, j, unfinished, suggested)
    requires NodeId(host, t.nodes[j]) == "" || Status(host, t.nodes[j]) in TERMINAL
    ensures Walked(host, t, j + 1, unfinished, suggested)
  {
    hide NodeId, Status, IsPlaceholder, Described;
    PositionsExact(OpenAt(host, t), j + 1);
    PositionsExact(SuggestedAt(host, t), j + 1);
  }

  lemma AddNode(host: Host, t: Tree, j: nat, unfinished: seq<Unfinished>, suggested: seq<string>, entry: Unfinished, more: seq<string>)
    requires j < |t.nodes| && Walked(host, t, j, unfinished, suggested)
    requires NodeId(host, t.nodes[j]) != "" && Status(host, t.nodes[j]) !in TERMINAL
    requires IsDescription(host, t, t.nodes[j], entry)
    requires more == if entry.reason == Placeholder then suggested + [entry.nodeId] else suggested
    ensures Walked(host, t, j + 1, unfinished + [entry], more)
  {
    PlaceholderReason(host, t, t.nodes[j]);
    OpenAtMeans(host, t, j);
    SuggestedAtMeans(host, t, j);
    assert entry == Described(host, t, t.nodes[j]) && Open(host, t.nodes[j]);
    assert entry.nodeId == NodeId(host, t.nodes[j]);
    hide NodeId, Status, Described, Suggested, Open, OpenAt, SuggestedAt, IsDescription, DescribedAll, IdsAt;
    AppendPosition(host, t, Positions(OpenAt(host, t), j), j);
    AppendPosition(host, t, Positions(SuggestedAt(host, t), j), j);
    PositionsStep(OpenAt(host, t), j);
    PositionsStep(SuggestedAt(host, t), j);
    hide Positions;
  }

  lemma AppendPosition(host: Host, t: Tree, ks: seq<nat>, k: nat)
    requires k < |t.nodes| && forall i :: 0 <= i < |ks| ==> ks[i] < |t.nodes|
    ensures DescribedAll(host, t, ks + [k]) == DescribedAll(host, t, ks) + [Described(host, t, t.nodes[k])]
    ensures IdsAt(host, t, ks + [k]) == IdsAt(host, t, ks) + [NodeId(host, t.nodes[k])]
  {
    hide Described, NodeId;
  }

  lemma PlaceholderReason(host: Host, t: Tree, n: Fields)
    requires Open(host, n)
    ensures Suggested(host, t, n) <==> Described(host, t, n).reason == Placeholder
  {
    hide NodeId, ParentId, Title, Status, Children, Named;
    NoChildrenNoneOpen(host, t.nodes);
  }

  ghost predicate IsDescription(host: Host, t: Tree, n: Fields, entry: Unfinished) {
    entry == Described(host, t, n)
  }

  lemma DescribeNode(host: Host, t: Tree, n: Fields, childIds: seq<string>, openIds: seq<string>, entry: Unfinished)
    requires childIds == Named(Children(host, t.nodes, NodeId(host, n))) && openIds == StillOpen(host, t.nodes, childIds)
    requires var id, parent := NodeId(host, n), ParentId(host, n);
             var seeded := id != t.root && parent == t.root && childIds == [] && Title(host, n) in t.placeholders;
             entry == Unfinished(id, Title(host, n), Status(host, n), if parent != "" then Some(parent) else None, id == t.root,
                                 id == t.current, childIds, openIds, seeded,
                                 if id == t.root then ResolveRoot else if seeded then BatchPrune else Inspect,
                                 if id == t.root then RootOpen else if openIds != [] then ChildrenOpen
                                 else if seeded then Placeholder else NodeOpen)
    ensures IsDescription(host, t, n, entry)
  {
    hide NodeId, ParentId, Title, Status, Children, Named, StillOpen;
  }

  lemma EndWalk(host: Host, t: Tree, unfinished: seq<Unfinished>, suggested: seq<string>)
    requires Walked(host, t, |t.nodes|, unfinished, suggested)
    ensures Report(if t.root != "" then Some(t.root) else None, if t.current != "" then Some(t.current) else None,
                   |unfinished|, unfinished, suggested) == ReportOf(host, t)
  {
  }

  // ---------- What a report lists ----------

  /** The report lists exactly the named nodes that are not terminal, in the order of the tree, and suggests exactly the open placeholders. */
  lemma ReportIsExact(host: Host, t: Tree) returns (open: seq<nat>, suggested: seq<nat>)
    ensures var r := ReportOf(host, t);
            && |open| == r.count == |r.nodes| && |suggested| == |r.suggested|
            && (forall i :: 0 <= i < |open| ==> open[i] < |t.nodes| && Open(host, t.nodes[open[i]]) && r.nodes[i] == Described(host, t, t.nodes[open[i]]))
            && (forall i, j :: 0 <= i < j < |open| ==> open[i] < open[j])
            && (forall k: nat :: k < |t.nodes| && Open(host, t.nodes[k]) ==> k in open)
            && (forall i :: 0 <= i < |suggested| ==>
                  suggested[i] < |t.nodes| && Suggested(host, t, t.nodes[suggested[i]]) && r.suggested[i] == NodeId(host, t.nodes[suggested[i]]))
            && (forall i, j :: 0 <= i < j < |suggested| ==> suggested[i] < suggested[j])
            && (forall k: nat :: k < |t.nodes| && Suggested(host, t, t.nodes[k]) ==> k in suggested)
  {
    hide NodeId, Status, Described, IsPlaceholder, Suggested;
    open, suggested := Positions(OpenAt(host, t), |t.nodes|), Positions(SuggestedAt(host, t), |t.nodes|);
    var f, g := OpenAt(host, t), SuggestedAt(host, t);
    assert open == Positions(f, |t.nodes|) && suggested == Positions(g, |t.nodes|);
    hide OpenAt, SuggestedAt;
    PositionsExact(f, |t.nodes|);
    PositionsExact(g, |t.nodes|);
    forall k: nat ensures f(k) <==> k < |t.nodes| && Open(host, t.nodes[k]) {
      OpenAtMeans(host, t, k);
    }
    forall k: nat ensures g(k) <==> k < |t.nodes| && Suggested(host, t, t.nodes[k]) {
      SuggestedAtMeans(host, t, k);
    }
  }

  /** Neither the root nor a node with children is ever suggested, nor one outside the reported list. */
  lemma SuggestionsAreLeavesBelowRoot(host: Host, t: Tree, id: string)
    requires id in ReportOf(host, t).suggested
    ensures id != t.root && id != "" && Named(Children(host, t.nodes, id)) == []
    ensures exists e :: e in ReportOf(host, t).nodes && e.nodeId == id && e.seeded && e.reason == Placeholder
  {
    hide NodeId, ParentId, Title, Status, Children, Named, StillOpen;
    var open, suggested := ReportIsExact(host, t);
    var i :| 0 <= i < |suggested| && ReportOf(host, t).suggested[i] == id;
    var n := t.nodes[suggested[i]];
    assert Suggested(host, t, n) && NodeId(host, n) == id;
    assert suggested[i] in open;
    var a :| 0 <= a < |open| && open[a] == suggested[i];
    NoChildrenNoneOpen(host, t.nodes);
    assert Described(host, t, n).reason == Placeholder;
    assert ReportOf(host, t).nodes[a] == Described(host, t, n);
  }

  // ---------- Pruning what was suggested ----------

  /** The node after it was skipped, when its id is one of `ids`. */
  function Pruned(host: Host, n: Fields, ids: set<string>): Fields {
    if NodeId(host, n) in ids then n["status" := Str("skipped")] else n
  }

  function PrunedTree(host: Host, t: Tree, ids: set<string>): Tree {
    t.(nodes := seq(|t.nodes|, i requires 0 <= i < |t.nodes| => Pruned(host, t.nodes[i], ids)))
  }

  function SuggestedIds(host: Host, t: Tree): set<string> {
    set id | id in ReportOf(host, t).suggested
  }

  lemma PrunedKeeps(host: Host, n: Fields, ids: set<string>)
    requires host.lower("skipped") == "skipped"
    ensures var m := Pruned(host, n, ids);
            && NodeId(host, m) == NodeId(host, n) && ParentId(host, m) == ParentId(host, n) && Title(host, m) == Title(host, n)
            && Status(host, m) == if NodeId(host, n) in ids then "skipped" else Status(host, n)
  {
    var m := Pruned(host, n, ids);
    StripTrimmed("skipped");
    assert Get(n["status" := Str("skipped")], "status") == Str("skipped");
    forall key | key != "status" ensures Get(m, key) == Get(n, key) {
    }
    hide Get, Strip, Or;
  }

  lemma {:induction false} ChildrenAfter(host: Host, nodes: seq<Fields>, more: seq<Fields>, ids: set<string>, p: string)
    requires host.lower("skipped") == "skipped" && |more| == |nodes|
    requires forall i :: 0 <= i < |nodes| ==> more[i] == Pruned(host, nodes[i], ids)
    ensures Children(host, more, p) == Children(host, nodes, p)
    decreases nodes
  {
    hide NodeId, ParentId, Title, Status, Pruned;
    if nodes != [] {
      ChildrenAfter(host, nodes[..|nodes| - 1], more[..|nodes| - 1], ids, p);
      PrunedKeeps(host, nodes[|nodes| - 1], ids);
    }
  }

  lemma {:induction false} StatusAfter(host: Host, nodes: seq<Fields>, more: seq<Fields>, ids: set<string>, id: string)
    requires host.lower("skipped") == "skipped" && |more| == |nodes|
    requires forall i :: 0 <= i < |nodes| ==> more[i] == Pruned(host, nodes[i], ids)
    requires exists i :: 0 <= i < |nodes| && NodeId(host, nodes[i]) == id
    ensures StatusOf(host, more, id) == if id in ids then "skipped" else StatusOf(host, nodes, id)
    decreases nodes
  {
    hide NodeId, ParentId, Title, Status, Pruned;
    var i :| 0 <= i < |nodes| && NodeId(host, nodes[i]) == id;
    var last := |nodes| - 1;
    PrunedKeeps(host, nodes[last], ids);
    if NodeId(host, nodes[last]) != id {
      assert nodes[..last][i] == nodes[i];
      StatusAfter(host, nodes[..last], more[..last], ids, id);
    }
  }

  /** The ids that are not among `ids`, in order. */
  function Outside(list: seq<string>, ids: set<string>): seq<string> {
    if list == [] then [] else Outside(list[..|list| - 1], ids) + if list[|list| - 1] in ids then [] else [list[|list| - 1]]
  }

  lemma {:induction false} ChildrenExist(host: Host, nodes: seq<Fields>, p: string, c: string)
    requires c in Children(host, nodes, p)
    ensures exists i :: 0 <= i < |nodes| && NodeId(host, nodes[i]) == c
    decreases nodes
  {
    hide NodeId, ParentId;
    var front, last := nodes[..|nodes| - 1], nodes[|nodes| - 1];
    if c in Children(host, front, p) {
      ChildrenExist(host, front, p, c);
      var i :| 0 <= i < |front| && NodeId(host, front[i]) == c;
      assert nodes[i] == front[i];
    } else {
      assert NodeId(host, last) == c;
    }
  }

  lemma {:induction false} NamedAreListed(ids: seq<string>)
    ensures forall x :: x in Named(ids) ==> x in ids
  {
    if ids != [] {
      NamedAreListed(ids[..|ids| - 1]);
    }
  }

  lemma {:induction false} StillOpenAfter(host: Host, nodes: seq<Fields>, more: seq<Fields>, ids: set<string>, list: seq<string>)
    requires host.lower("skipped") == "skipped" && |more| == |nodes|
    requires forall i :: 0 <= i < |nodes| ==> more[i] == Pruned(host, nodes[i], ids)
    requires forall x :: x in list ==> exists i :: 0 <= i < |nodes| && NodeId(host, nodes[i]) == x
    ensures StillOpen(host, more, list) == Outside(StillOpen(host, nodes, list), ids)
    decreases list
  {
    hide NodeId, ParentId, Title, Status, Pruned, StatusOf;
    if list != [] {
      var front, last := list[..|list| - 1], list[|list| - 1];
      assert last in list;
      assert forall x :: x in front ==> x in list;
      StillOpenAfter(host, nodes, more, ids, front);
      StatusAfter(host, nodes, more, ids, last);
      var open := StillOpen(host, nodes, front);
      assert (open + [last])[..|open|] == open;
      assert open + [] == open;
    }
  }

  /** Pruning changes nothing in the report of a node that is not pruned but its unfinished children, which lose exactly the pruned ones. */
  lemma DescribedAfter(host: Host, t: Tree, ids: set<string>, n: Fields)
    requires host.lower("skipped") == "skipped" && NodeId(host, n) !in ids
    ensures var d, e := Described(host, t, n), Described(host, PrunedTree(host, t, ids), n);
            && e == d.(unfinishedChildIds := Outside(d.unfinishedChildIds, ids), reason := e.reason)
            && IsPlaceholder(host, PrunedTree(host, t, ids), n) == IsPlaceholder(host, t, n)
  {
    hide NodeId, ParentId, Title, Status, Pruned, Children, Named, StillOpen;
    var u, id := PrunedTree(host, t, ids), NodeId(host, n);
    ChildrenAfter(host, t.nodes, u.nodes, ids, id);
    var children := Named(Children(host, t.nodes, id));
    forall x | x in children ensures exists i :: 0 <= i < |t.nodes| && NodeId(host, t.nodes[i]) == x {
      NamedAreListed(Children(host, t.nodes, id));
      ChildrenExist(host, t.nodes, id, x);
    }
    StillOpenAfter(host, t.nodes, u.nodes, ids, children);
  }

  /** Position by position: open after pruning is open before and not pruned, and an unpruned node is suggested after if it was before. */
  lemma OpenAfter(host: Host, t: Tree, ids: set<string>, k: nat)
    requires host.lower("skipped") == "skipped" && k < |t.nodes|
    ensures var u := PrunedTree(host, t, ids);
            && (Open(host, u.nodes[k]) <==> Open(host, t.nodes[k]) && NodeId(host, t.nodes[k]) !in ids)
            && (Suggested(host, u, u.nodes[k]) <==> Suggested(host, t, t.nodes[k]) && NodeId(host, t.nodes[k]) !in ids)
  {
    var u := PrunedTree(host, t, ids);
    assert u.nodes[k] == Pruned(host, t.nodes[k], ids);
    PrunedKeeps(host, t.nodes[k], ids);
    if NodeId(host, t.nodes[k]) !in ids {
      DescribedAfter(host, t, ids, t.nodes[k]);
    }
    hide NodeId, ParentId, Title, Status, IsPlaceholder;
  }

  lemma SuggestedAreGone(host: Host, t: Tree, k: nat)
    requires k < |t.nodes| && Suggested(host, t, t.nodes[k])
    ensures NodeId(host, t.nodes[k]) in SuggestedIds(host, t) && Open(host, t.nodes[k])
  {
    var open, suggested := ReportIsExact(host, t);
    hide NodeId, IsPlaceholder, Status;
    var i :| 0 <= i < |suggested| && suggested[i] == k;
    assert ReportOf(host, t).suggested[i] == NodeId(host, t.nodes[k]);
  }

  /** One round of pruning is a fixpoint: nothing is suggested any more. */
  lemma PruningSuggestsNothingMore(host: Host, t: Tree)
    requires host.lower("skipped") == "skipped"
    ensures ReportOf(host, PrunedTree(host, t, SuggestedIds(host, t))).suggested == []
  {
    hide NodeId, ParentId, Title, Status, Pruned, IsPlaceholder, Suggested, Open, PrunedTree;
    var ids := SuggestedIds(host, t);
    var u := PrunedTree(host, t, ids);
    PrunedLength(host, t, ids);
    forall k: nat | k < |u.nodes| ensures !SuggestedAt(host, u)(k) {
      OpenAfter(host, t, ids, k);
      if Suggested(host, t, t.nodes[k]) {
        SuggestedAreGone(host, t, k);
      }
    }
    NoPositions(SuggestedAt(host, u), |u.nodes|);
  }

  lemma PrunedLength(host: Host, t: Tree, ids: set<string>)
    ensures |PrunedTree(host, t, ids).nodes| == |t.nodes|
  {
  }

  /** Every open node that bears a suggested id is itself suggested; so it is whenever ids are distinct. */
  ghost predicate SuggestedIdsUnshared(host: Host, t: Tree) {
    forall k: nat :: k < |t.nodes| && Open(host, t.nodes[k]) && NodeId(host, t.nodes[k]) in SuggestedIds(host, t) ==>
      Suggested(host, t, t.nodes[k])
  }

  function GoneAt(host: Host, t: Tree, ids: set<string>): nat -> bool {
    (k: nat) => OpenAt(host, t)(k) && NodeId(host, t.nodes[k]) in ids
  }

  function SharedAt(host: Host, t: Tree, ids: set<string>): nat -> bool {
    (k: nat) => GoneAt(host, t, ids)(k) && !SuggestedAt(host, t)(k)
  }

  lemma SharedAtMeans(host: Host, t: Tree, ids: set<string>, k: nat)
    ensures GoneAt(host, t, ids)(k) <==> k < |t.nodes| && Open(host, t.nodes[k]) && NodeId(host, t.nodes[k]) in ids
    ensures SharedAt(host, t, ids)(k) <==> GoneAt(host, t, ids)(k) && !SuggestedAt(host, t)(k)
    ensures SuggestedAt(host, t)(k) <==> k < |t.nodes| && Suggested(host, t, t.nodes[k])
  {
    OpenAtMeans(host, t, k);
    SuggestedAtMeans(host, t, k);
    hide NodeId, Open, Suggested, OpenAt, SuggestedAt;
  }

  lemma PrunedAreGone(host: Host, t: Tree, ids: set<string>)
    requires host.lower("skipped") == "skipped"
    ensures ReportOf(host, t).count == ReportOf(host, PrunedTree(host, t, ids)).count + |Positions(GoneAt(host, t, ids), |t.nodes|)|
  {
    hide NodeId, Open, Suggested, PrunedTree, DescribedAll, IdsAt;
    var u := PrunedTree(host, t, ids);
    PrunedLength(host, t, ids);
    forall k: nat | k < |t.nodes| ensures OpenAt(host, u)(k) <==> OpenAt(host, t)(k) && !GoneAt(host, t, ids)(k) {
      OpenAfter(host, t, ids, k);
    }
    PositionsSplit(OpenAt(host, t), OpenAt(host, u), GoneAt(host, t, ids), |t.nodes|);
  }

  lemma GoneAreSuggestedOrShared(host: Host, t: Tree)
    ensures var ids := SuggestedIds(host, t);
            |Positions(GoneAt(host, t, ids), |t.nodes|)|
            == |ReportOf(host, t).suggested| + |Positions(SharedAt(host, t, ids), |t.nodes|)|
  {
    hide NodeId, Open, Suggested, SuggestedIds, GoneAt, SharedAt;
    var ids := SuggestedIds(host, t);
    forall k: nat | k < |t.nodes|
      ensures GoneAt(host, t, ids)(k) <==> SuggestedAt(host, t)(k) || SharedAt(host, t, ids)(k)
      ensures !(SuggestedAt(host, t)(k) && SharedAt(host, t, ids)(k))
    {
      SharedAtMeans(host, t, ids, k);
      if Suggested(host, t, t.nodes[k]) {
        SuggestedAreGone(host, t, k);
      }
    }
    PositionsSplit(GoneAt(host, t, ids), SuggestedAt(host, t), SharedAt(host, t, ids), |t.nodes|);
  }

  /** The pruned report is shorter by exactly the suggestions if and only if no suggested id is shared with another open node. */
  lemma PruningCountsExactlyIff(host: Host, t: Tree)
    requires host.lower("skipped") == "skipped"
    ensures ReportOf(host, PrunedTree(host, t, SuggestedIds(host, t))).count == ReportOf(host, t).count - |ReportOf(host, t).suggested|
            <==> SuggestedIdsUnshared(host, t)
  {
    hide ReportOf, NodeId, Open, Suggested;
    var ids, n := SuggestedIds(host, t), |t.nodes|;
    PrunedAreGone(host, t, ids);
    GoneAreSuggestedOrShared(host, t);
    hide SuggestedIds, GoneAt, SharedAt;
    if SuggestedIdsUnshared(host, t) {
      forall k: nat | k < n ensures !SharedAt(host, t, ids)(k) {
        SharedAtMeans(host, t, ids, k);
      }
      NoPositions(SharedAt(host, t, ids), n);
    } else {
      var k: nat :| k < n && Open(host, t.nodes[k]) && NodeId(host, t.nodes[k]) in ids && !Suggested(host, t, t.nodes[k]);
      SharedAtMeans(host, t, ids, k);
      PositionsExact(SharedAt(host, t, ids), n);
      assert k in Positions(SharedAt(host, t, ids), n);
    }
  }

  function Node(parent: string): Fields {
    map["id" := Str("a"), "parentId" := Str(parent), "title" := Str("t")]
  }

  lemma NodeReads(host: Host, parent: string)
    requires parent in {"r", "x"}
    ensures var n := Node(parent);
            NodeId(host, n) == "a" && ParentId(host, n) == parent && Title(host, n) == "t" && Status(host, n) == host.lower("unknown")
  {
    var n := Node(parent);
    assert Get(n, "id") == Str("a") && Get(n, "parentNodeId") == Null && Get(n, "parentId") == Str(parent) && Get(n, "title") == Str("t");
    assert Get(n, "status") == Null;
    StripTrimmed("a");
    StripTrimmed("t");
    StripTrimmed(parent);
    StripTrimmed("unknown");
    hide Strip, Get;
  }

  /** Two open nodes with one id, one a placeholder below the root, the other not: pruning the one suggestion removes both. */
  lemma PruningCanCountMore(host: Host)
    requires host.lower("skipped") == "skipped" && host.lower("unknown") !in TERMINAL
    ensures var t := Tree([Node("r"), Node("x")], "r", "", {"t"});
            && ReportOf(host, t).count == 2 && ReportOf(host, t).suggested == ["a"]
            && ReportOf(host, PrunedTree(host, t, SuggestedIds(host, t))).count == 0
  {
    var t := Tree([Node("r"), Node("x")], "r", "", {"t"});
    hide *;
    NodeReads(host, "r");
    NodeReads(host, "x");
    SharedTree(host, t);
    SharedReported(host, t);
    SharedAfter(host, t);
  }

  /** Both nodes are open and bear one id, only the first is suggested. */
  ghost predicate Shared(host: Host, t: Tree) {
    |t.nodes| == 2 && Suggested(host, t, t.nodes[0]) && Open(host, t.nodes[1]) && !Suggested(host, t, t.nodes[1])
    && NodeId(host, t.nodes[0]) == NodeId(host, t.nodes[1]) == "a"
  }

  lemma SharedTree(host: Host, t: Tree)
    requires |t.nodes| == 2 && t.root == "r" && t.placeholders == {"t"} && host.lower("unknown") !in TERMINAL
    requires ParentId(host, t.nodes[0]) == "r" && ParentId(host, t.nodes[1]) == "x"
    requires forall n :: n in t.nodes ==> NodeId(host, n) == "a" && Title(host, n) == "t" && Status(host, n) == host.lower("unknown")
    ensures Shared(host, t)
  {
    hide NodeId, ParentId, Title, Status, Children, Named, TERMINAL;
    var first, second := t.nodes[0], t.nodes[1];
    assert first in t.nodes && second in t.nodes;
    NoneBelow(host, t.nodes, "a");
    assert Open(host, first) && Open(host, second) && IsPlaceholder(host, t, first) && !IsPlaceholder(host, t, second);
    hide Open, IsPlaceholder;
  }

  lemma SharedReported(host: Host, t: Tree)
    requires Shared(host, t)
    ensures ReportOf(host, t).count == 2 && ReportOf(host, t).suggested == ["a"]
  {
    TwoPositions(OpenAt(host, t));
    TwoPositions(SuggestedAt(host, t));
    OpenAtMeans(host, t, 0);
    OpenAtMeans(host, t, 1);
    SuggestedAtMeans(host, t, 0);
    SuggestedAtMeans(host, t, 1);
    assert Open(host, t.nodes[0]);
    hide OpenAt, SuggestedAt, Suggested, Open, NodeId, DescribedAll, Positions;
  }

  lemma SharedAfter(host: Host, t: Tree)
    requires host.lower("skipped") == "skipped" && Shared(host, t) && ReportOf(host, t).suggested == ["a"]
    ensures ReportOf(host, PrunedTree(host, t, SuggestedIds(host, t))).count == 0
  {
    var ids := SuggestedIds(host, t);
    var u := PrunedTree(host, t, ids);
    assert "a" in ReportOf(host, t).suggested;
    PrunedLength(host, t, ids);
    OpenAfter(host, t, ids, 0);
    OpenAfter(host, t, ids, 1);
    OpenAtMeans(host, u, 0);
    OpenAtMeans(host, u, 1);
    TwoPositions(OpenAt(host, u));
    hide OpenAt, SuggestedAt, Suggested, Open, NodeId, DescribedAll, IdsAt, Positions, PrunedTree;
  }

  lemma NoneBelow(host: Host, nodes: seq<Fields>, p: string)
    requires |nodes| == 2 && ParentId(host, nodes[0]) != p && ParentId(host, nodes[1]) != p
    ensures Children(host, nodes, p) == [] && Named([]) == []
  {
    hide ParentId, NodeId;
    assert Children(host, nodes[..1], p) == Children(host, nodes[..1][..0], p) + [];
    assert nodes[..1][0] == nodes[0];
  }

  lemma TwoPositions(f: nat -> bool)
    ensures Positions(f, 2) == (if f(0) then [0] else []) + (if f(1) then [1] else [])
  {
    PositionsStep(f, 0);
    PositionsStep(f, 1);
  }

  lemma DistinctIdsUnshared(host: Host, t: Tree)
    requires forall i, j :: 0 <= i < j < |t.nodes| && NodeId(host, t.nodes[i]) != "" ==> NodeId(host, t.nodes[i]) != NodeId(host, t.nodes[j])
    ensures SuggestedIdsUnshared(host, t)
  {
    hide NodeId, IsPlaceholder, Status;
    var open, suggested := ReportIsExact(host, t);
    forall k: nat | k < |t.nodes| && Open(host, t.nodes[k]) && NodeId(host, t.nodes[k]) in SuggestedIds(host, t)
      ensures Suggested(host, t, t.nodes[k])
    {
      var i :| 0 <= i < |suggested| && ReportOf(host, t).suggested[i] == NodeId(host, t.nodes[k]);
      assert NodeId(host, t.nodes[suggested[i]]) == NodeId(host, t.nodes[k]);
      assert suggested[i] == k;
    }
  }

  // ---------- The report in terms of the payload ----------

  ghost predicate Bears(host: Host, n: Fields, id: string) {
    exists t :: TextIs(host, [Get(n, "id"), Get(n, "nodeId")], "", t) && id == Strip(t)
  }

  ghost predicate BelongsTo(host: Host, n: Fields, parent: string) {
    exists t :: TextIs(host, [Get(n, "parentNodeId"), Get(n, "parentId")], "", t) && parent == Strip(t)
  }

  ghost predicate HasStatus(host: Host, n: Fields, status: string) {
    exists t :: TextIs(host, [Get(n, "status")], "unknown", t) && status == host.lower(Strip(t))
  }

  ghost predicate HasTitle(host: Host, n: Fields, title: string) {
    exists id, t :: Bears(host, n, id) && TextIs(host, [Get(n, "title"), Get(n, "localGoal"), Get(n, "nodeText")], id, t) && title == Strip(t)
  }

  ghost predicate IsOpen(host: Host, n: Fields) {
    exists status :: HasStatus(host, n, status) && status !in ["completed", "failed", "skipped", "cancelled", "canceled"]
  }

  ghost predicate HoldsNodes(tree: Fields, nodes: seq<Fields>) {
    if Get(tree, "nodes").Arr? then DictionariesOf(Get(tree, "nodes").items, nodes) else nodes == []
  }

  ghost predicate Points(host: Host, tree: Fields, key: string, id: string) {
    exists t :: TextIs(host, [Get(tree, key)], "", t) && id == Strip(t)
  }

  lemma BearsIff(host: Host, n: Fields, id: string)
    ensures Bears(host, n, id) <==> id == NodeId(host, n)
  {
    var t := TextOr(host, Or(Get(n, "id"), Get(n, "nodeId")), "");
    forall u ensures TextIs(host, [Get(n, "id"), Get(n, "nodeId")], "", u) <==> u == t {
      TextOfTwo(host, Get(n, "id"), Get(n, "nodeId"), "", u);
    }
    hide TextIs, TextOr, Or, Get, Strip;
  }

  lemma BelongsIff(host: Host, n: Fields, parent: string)
    ensures BelongsTo(host, n, parent) <==> parent == ParentId(host, n)
  {
    var t := TextOr(host, Or(Get(n, "parentNodeId"), Get(n, "parentId")), "");
    forall u ensures TextIs(host, [Get(n, "parentNodeId"), Get(n, "parentId")], "", u) <==> u == t {
      TextOfTwo(host, Get(n, "parentNodeId"), Get(n, "parentId"), "", u);
    }
    hide TextIs, TextOr, Or, Get, Strip;
  }

  lemma StatusIff(host: Host, n: Fields, status: string)
    ensures HasStatus(host, n, status) <==> status == Status(host, n)
  {
    var t := TextOr(host, Get(n, "status"), "unknown");
    forall u ensures TextIs(host, [Get(n, "status")], "unknown", u) <==> u == t {
      TextOfOne(host, Get(n, "status"), "unknown", u);
    }
    hide TextIs, TextOr, Get, Strip;
  }

  lemma TitleIff(host: Host, n: Fields, title: string)
    ensures HasTitle(host, n, title) <==> title == Title(host, n)
  {
    var id, a, b, c := NodeId(host, n), Get(n, "title"), Get(n, "localGoal"), Get(n, "nodeText");
    var t := TextOr(host, Or(Or(a, b), c), id);
    forall i ensures Bears(host, n, i) <==> i == id {
      BearsIff(host, n, i);
    }
    forall u ensures TextIs(host, [a, b, c], id, u) <==> u == t {
      TextOfThree(host, a, b, c, id, u);
    }
    assert Title(host, n) == Strip(t);
    hide TextIs, TextOr, Or, Get, Strip, Bears, NodeId, Title;
    if title == Strip(t) {
      assert Bears(host, n, id) && TextIs(host, [a, b, c], id, t);
    }
  }

  lemma OpenIff(host: Host, n: Fields)
    ensures IsOpen(host, n) <==> Status(host, n) !in TERMINAL
  {
    var own := Status(host, n);
    forall status ensures HasStatus(host, n, status) <==> status == own {
      StatusIff(host, n, status);
    }
    hide HasStatus, Status;
    assert HasStatus(host, n, own);
    assert own in TERMINAL <==> own in ["completed", "failed", "skipped", "cancelled", "canceled"];
  }

  lemma PointsIff(host: Host, tree: Fields, key: string, id: string)
    ensures Points(host, tree, key, id) <==> id == TreeText(host, tree, key)
  {
    var t := TextOr(host, Get(tree, key), "");
    forall u ensures TextIs(host, [Get(tree, key)], "", u) <==> u == t {
      TextOfOne(host, Get(tree, key), "", u);
    }
    hide TextIs, TextOr, Get, Strip;
    assert TextIs(host, [Get(tree, key)], "", t);
  }

  /** `c` is the id of a node that names `id` as its parent. */
  ghost predicate IsChild(host: Host, nodes: seq<Fields>, c: string, id: string) {
    c != "" && exists k :: 0 <= k < |nodes| && Bears(host, nodes[k], c) && BelongsTo(host, nodes[k], id)
  }

  /** The last node that bears the id is open. */
  ghost predicate LastIsOpen(host: Host, nodes: seq<Fields>, c: string) {
    exists k :: 0 <= k < |nodes| && Bears(host, nodes[k], c) && IsOpen(host, nodes[k])
                && forall j :: k < j < |nodes| ==> !Bears(host, nodes[j], c)
  }

  /** What the report says of a node. */
  ghost predicate Tells(host: Host, nodes: seq<Fields>, root: string, current: string, placeholders: set<string>, n: Fields, e: Unfinished) {
    && Bears(host, n, e.nodeId) && HasTitle(host, n, e.title) && HasStatus(host, n, e.status)
    && (exists p :: BelongsTo(host, n, p) && e.parentId == if p == "" then None else Some(p))
    && (e.isRoot <==> e.nodeId == root) && (e.isCurrent <==> e.nodeId == current)
    && (forall c :: c in e.childIds <==> IsChild(host, nodes, c, e.nodeId))
    && (forall c :: c in e.unfinishedChildIds <==> c in e.childIds && LastIsOpen(host, nodes, c))
    && (e.seeded <==> e.nodeId != root && BelongsTo(host, n, root) && e.childIds == [] && e.title in placeholders)
    && e.action == (if e.nodeId == root then ResolveRoot else if e.seeded then BatchPrune else Inspect)
    && e.reason == if e.nodeId == root then RootOpen else if e.unfinishedChildIds != [] then ChildrenOpen
                   else if e.seeded then Placeholder else NodeOpen
  }

  lemma {:induction false} ChildrenAre(host: Host, nodes: seq<Fields>, c: string, id: string)
    ensures c in Named(Children(host, nodes, id)) <==> IsChild(host, nodes, c, id)
    decreases nodes
  {
    if nodes != [] {
      var front, last := nodes[..|nodes| - 1], nodes[|nodes| - 1];
      var before := Children(host, front, id);
      assert Children(host, nodes, id) == before + if ParentId(host, last) == id then [NodeId(host, last)] else [];
      hide *;
      ChildrenAre(host, front, c, id);
      BearsIff(host, last, c);
      BelongsIff(host, last, id);
      NamedSnoc(before, NodeId(host, last));
      assert before + [] == before;
      assert front + [last] == nodes;
      IsChildSnoc(host, front, last, c, id);
    }
  }

  lemma IsChildSnoc(host: Host, front: seq<Fields>, last: Fields, c: string, id: string)
    ensures IsChild(host, front + [last], c, id) <==> IsChild(host, front, c, id) || (c != "" && Bears(host, last, c) && BelongsTo(host, last, id))
  {
    hide Bears, BelongsTo;
    var nodes := front + [last];
    assert nodes[|front|] == last && forall k :: 0 <= k < |front| ==> nodes[k] == front[k];
  }

  lemma NamedSnoc(ids: seq<string>, id: string)
    ensures Named(ids + [id]) == Named(ids) + if id != "" then [id] else []
  {
    assert (ids + [id])[..|ids|] == ids;
  }

  lemma {:induction false} LastOpenIff(host: Host, nodes: seq<Fields>, c: string)
    requires exists k :: 0 <= k < |nodes| && Bears(host, nodes[k], c)
    ensures LastIsOpen(host, nodes, c) <==> StatusOf(host, nodes, c) !in TERMINAL
    decreases nodes
  {
    var front, last := nodes[..|nodes| - 1], nodes[|nodes| - 1];
    BearsIff(host, last, c);
    OpenIff(host, last);
    assert StatusOf(host, nodes, c) == if NodeId(host, last) == c then Status(host, last) else StatusOf(host, front, c);
    hide NodeId, Bears, IsOpen, Status, TERMINAL, StatusOf, LastIsOpen;
    assert front + [last] == nodes;
    LastIsOpenSnoc(host, front, last, c);
    if !Bears(host, last, c) {
      var k :| 0 <= k < |nodes| && Bears(host, nodes[k], c);
      assert Bears(host, front[k], c);
      LastOpenIff(host, front, c);
    }
  }

  lemma LastIsOpenSnoc(host: Host, front: seq<Fields>, last: Fields, c: string)
    ensures LastIsOpen(host, front + [last], c) <==> if Bears(host, last, c) then IsOpen(host, last) else LastIsOpen(host, front, c)
  {
    hide Bears, IsOpen;
    var nodes := front + [last];
    assert nodes[|front|] == last && forall k :: 0 <= k < |front| ==> nodes[k] == front[k];
    if LastIsOpen(host, front, c) && !Bears(host, last, c) {
      var m :| 0 <= m < |front| && Bears(host, front[m], c) && IsOpen(host, front[m]) && forall j :: m < j < |front| ==> !Bears(host, front[j], c);
      assert Bears(host, nodes[m], c) && IsOpen(host, nodes[m]);
    }
    if LastIsOpen(host, nodes, c) {
      var m :| 0 <= m < |nodes| && Bears(host, nodes[m], c) && IsOpen(host, nodes[m]) && forall j :: m < j < |nodes| ==> !Bears(host, nodes[j], c);
      if m < |front| {
        assert Bears(host, front[m], c) && IsOpen(host, front[m]);
      }
    }
  }

  lemma {:induction false} StillOpenIs(host: Host, nodes: seq<Fields>, ids: seq<string>, c: string)
    ensures c in StillOpen(host, nodes, ids) <==> c in ids && StatusOf(host, nodes, c) !in TERMINAL
    decreases ids
  {
    if ids != [] {
      StillOpenIs(host, nodes, ids[..|ids| - 1], c);
      assert ids == ids[..|ids| - 1] + [ids[|ids| - 1]];
      hide StatusOf, TERMINAL;
    }
  }

  lemma DescribedChildren(host: Host, t: Tree, n: Fields)
    ensures var e := Described(host, t, n);
            && (forall c :: c in e.childIds <==> IsChild(host, t.nodes, c, e.nodeId))
            && (forall c :: c in e.unfinishedChildIds <==> c in e.childIds && LastIsOpen(host, t.nodes, c))
  {
    var e := Described(host, t, n);
    forall c ensures c in e.childIds <==> IsChild(host, t.nodes, c, e.nodeId) {
      ChildrenAre(host, t.nodes, c, e.nodeId);
    }
    hide Title, Status, Children, Named, NodeId, ParentId;
    forall c ensures c in e.unfinishedChildIds <==> c in e.childIds && LastIsOpen(host, t.nodes, c) {
      StillOpenIs(host, t.nodes, e.childIds, c);
      if c in e.childIds {
        assert IsChild(host, t.nodes, c, e.nodeId);
        LastOpenIff(host, t.nodes, c);
      }
    }
  }

  lemma DescribedFields(host: Host, t: Tree, n: Fields)
    ensures var e := Described(host, t, n);
            && Bears(host, n, e.nodeId) && HasTitle(host, n, e.title) && HasStatus(host, n, e.status)
            && (exists p :: BelongsTo(host, n, p) && e.parentId == if p == "" then None else Some(p))
            && (e.isRoot <==> e.nodeId == t.root) && (e.isCurrent <==> e.nodeId == t.current)
            && (e.seeded <==> e.nodeId != t.root && BelongsTo(host, n, t.root) && e.childIds == [] && e.title in t.placeholders)
            && e.action == (if e.nodeId == t.root then ResolveRoot else if e.seeded then BatchPrune else Inspect)
            && e.reason == if e.nodeId == t.root then RootOpen else if e.unfinishedChildIds != [] then ChildrenOpen
                           else if e.seeded then Placeholder else NodeOpen
  {
    var e := Described(host, t, n);
    BearsIff(host, n, e.nodeId);
    TitleIff(host, n, e.title);
    StatusIff(host, n, e.status);
    BelongsIff(host, n, ParentId(host, n));
    BelongsIff(host, n, t.root);
    hide NodeId, ParentId, Title, Status, Children, Named, StillOpen, Bears, BelongsTo, HasTitle, HasStatus;
    assert BelongsTo(host, n, ParentId(host, n));
  }

  lemma DescriptionTells(host: Host, t: Tree, n: Fields)
    ensures Tells(host, t.nodes, t.root, t.current, t.placeholders, n, Described(host, t, n))
  {
    hide Described, Bears, BelongsTo, HasTitle, HasStatus, IsChild, LastIsOpen;
    DescribedChildren(host, t, n);
    DescribedFields(host, t, n);
  }

  /** A report on these nodes: the open ones, in their order, and what it says of each. */
  ghost predicate Reports(host: Host, nodes: seq<Fields>, root: string, current: string, placeholders: set<string>, open: seq<nat>, r: Report) {
    && r.rootId == (if root == "" then None else Some(root)) && r.currentId == (if current == "" then None else Some(current))
    && |open| == |r.nodes| == r.count
    && (forall k: nat :: k < |nodes| ==> (k in open <==> IsOpen(host, nodes[k]) && !Bears(host, nodes[k], "")))
    && (forall i, j :: 0 <= i < j < |open| ==> open[i] < open[j])
    && forall i :: 0 <= i < |open| ==> open[i] < |nodes| && Tells(host, nodes, root, current, placeholders, nodes[open[i]], r.nodes[i])
  }

  lemma TreeReports(host: Host, t: Tree) returns (open: seq<nat>)
    ensures Reports(host, t.nodes, t.root, t.current, t.placeholders, open, ReportOf(host, t))
  {
    var suggested: seq<nat>;
    open, suggested := ReportIsExact(host, t);
    var r := ReportOf(host, t);
    assert r.rootId == (if t.root == "" then None else Some(t.root)) && r.currentId == (if t.current == "" then None else Some(t.current));
    forall k: nat | k < |t.nodes| ensures Open(host, t.nodes[k]) <==> IsOpen(host, t.nodes[k]) && !Bears(host, t.nodes[k], "") {
      BearsIff(host, t.nodes[k], "");
      OpenIff(host, t.nodes[k]);
    }
    hide Tells, Open, IsOpen, Bears, Described, Suggested, NodeId, ReportOf;
    forall i | 0 <= i < |open| ensures Tells(host, t.nodes, t.root, t.current, t.placeholders, t.nodes[open[i]], r.nodes[i]) {
      DescriptionTells(host, t, t.nodes[open[i]]);
    }
  }

  /** The report in terms of the payload: which nodes it lists, in which order, and what it says of each. */
  lemma ReportTells(host: Host, tree: Fields, placeholders: set<string>) returns (nodes: seq<Fields>, open: seq<nat>)
    ensures HoldsNodes(tree, nodes)
    ensures exists root, current :: Points(host, tree, "rootNodeId", root) && Points(host, tree, "currentNodeId", current)
                                    && Reports(host, nodes, root, current, placeholders, open, ReportOf(host, TreeOf(host, tree, placeholders)))
  {
    var t := TreeOf(host, tree, placeholders);
    nodes := t.nodes;
    if Get(tree, "nodes").Arr? {
      DictionariesIff(Get(tree, "nodes").items, nodes);
    }
    PointsIff(host, tree, "rootNodeId", t.root);
    PointsIff(host, tree, "currentNodeId", t.current);
    assert Points(host, tree, "rootNodeId", t.root) && Points(host, tree, "currentNodeId", t.current);
    hide Points, Reports, DictionariesOf, Dicts, TreeText;
    open := TreeReports(host, t);
  }
}
