/**
 What a proposed or stored edge says, in terms of the words of the nodes it links.
 */
module EdgeRules {
  import opened Collections
  import opened Text
  import opened Payloads
  import opened LatentEdges

  // ---------- Words ----------

  /** Latin letters, digits, underscore, hyphen and the unified CJK ideographs. */
  ghost predicate WordCharacter(c: char) {
    || 48 <= c as int <= 57 || 65 <= c as int <= 90 || 97 <= c as int <= 122 || c as int == 95 || c as int == 45
    || 0x4e00 <= c as int <= 0x9fff
  }

  /** A stretch of word characters that cannot be made longer. */
  ghost predicate IsWord(s: string, i: nat, j: nat) {
    && i < j <= |s| && (forall k :: i <= k < j ==> WordCharacter(s[k]))
    && (i > 0 ==> !WordCharacter(s[i - 1])) && (j < |s| ==> !WordCharacter(s[j]))
  }

  /** `w` is one of the node's words, in lower case. */
  ghost predicate HasWord(rules: Rules, n: Node, w: string) {
    exists i: nat, j: nat :: IsWord(n.title + " " + n.content, i, j) && w == rules.lower((n.title + " " + n.content)[i..j])
  }

  lemma WordCharacterIff(c: char)
    ensures WordCharacter(c) <==> TokenChar(c)
  {
  }

  lemma {:induction false} RunLengthIs(s: string)
    ensures var k := RunLength(s);
            (forall i :: 0 <= i < k ==> TokenChar(s[i])) && (k < |s| ==> !TokenChar(s[k]))
  {
    hide TokenChar;
    if s != "" && TokenChar(s[0]) {
      RunLengthIs(s[1..]);
      forall i | 0 <= i < RunLength(s) ensures TokenChar(s[i]) {
        assert i > 0 ==> s[i] == s[1..][i - 1];
      }
    }
  }

  /** Where a run stands in a text of which `s` is the end. */
  ghost predicate RunAt(s: string, t: string, i: nat, j: nat) {
    && i < j <= |s| && t == s[i..j] && (forall k :: i <= k < j ==> TokenChar(s[k]))
    && (i > 0 ==> !TokenChar(s[i - 1])) && (j < |s| ==> !TokenChar(s[j]))
  }

  ghost predicate IsRun(s: string, t: string) {
    exists i: nat, j: nat :: RunAt(s, t, i, j)
  }

  lemma {:induction false} RunsIff(s: string, t: string)
    ensures t in Runs(s) <==> IsRun(s, t)
    decreases |s|
  {
    RunLengthIs(s);
    var k := RunLength(s);
    hide TokenChar, RunLength;
    if s == "" {
    } else if !TokenChar(s[0]) {
      RunsIff(s[1..], t);
      SkipOne(s, t);
    } else {
      assert Runs(s) == [s[..k]] + Runs(s[k..]);
      RunsIff(s[k..], t);
      SkipRun(s, t, k);
    }
  }

  lemma SkipOne(s: string, t: string)
    requires s != "" && !TokenChar(s[0])
    ensures IsRun(s, t) <==> IsRun(s[1..], t)
  {
    hide TokenChar, RunAt;
    if i: nat, j: nat :| RunAt(s[1..], t, i, j) {
      OneLater(s, t, i, j);
    }
    if i: nat, j: nat :| RunAt(s, t, i, j) {
      OneEarlier(s, t, i, j);
      var before: nat, after: nat := i - 1, j - 1;
      assert RunAt(s[1..], t, before, after);
    }
  }

  lemma OneLater(s: string, t: string, i: nat, j: nat)
    requires s != "" && !TokenChar(s[0]) && RunAt(s[1..], t, i, j)
    ensures RunAt(s, t, i + 1, j + 1)
  {
    hide TokenChar;
    var rest := s[1..];
    assert s[i + 1..j + 1] == rest[i..j];
    assert forall k :: i + 1 <= k < j + 1 ==> s[k] == rest[k - 1];
    assert i > 0 ==> s[i] == rest[i - 1];
    assert j < |rest| ==> s[j + 1] == rest[j];
  }

  lemma OneEarlier(s: string, t: string, i: nat, j: nat)
    requires s != "" && !TokenChar(s[0]) && RunAt(s, t, i, j)
    ensures i > 0 && j > 0 && RunAt(s[1..], t, i - 1, j - 1)
  {
    hide TokenChar;
    var rest := s[1..];
    assert i > 0;
    assert rest[i - 1..j - 1] == s[i..j];
    assert forall k :: 0 <= k < |rest| ==> rest[k] == s[k + 1];
  }

  lemma SkipRun(s: string, t: string, k: nat)
    requires 0 < k <= |s| && (forall i :: 0 <= i < k ==> TokenChar(s[i])) && (k < |s| ==> !TokenChar(s[k]))
    ensures IsRun(s, t) <==> t == s[..k] || IsRun(s[k..], t)
  {
    hide TokenChar;
    if t == s[..k] {
      assert RunAt(s, t, 0, k);
    }
    if i: nat, j: nat :| RunAt(s[k..], t, i, j) {
      RunLater(s, t, k, i, j);
    }
    if i: nat, j: nat :| RunAt(s, t, i, j) {
      if i > 0 {
        RunEarlier(s, t, k, i, j);
      }
    }
  }

  lemma RunLater(s: string, t: string, k: nat, i: nat, j: nat)
    requires 0 < k <= |s| && (k < |s| ==> !TokenChar(s[k])) && RunAt(s[k..], t, i, j)
    ensures RunAt(s, t, i + k, j + k)
  {
    hide TokenChar;
    var rest := s[k..];
    assert forall m :: 0 <= m < |rest| ==> rest[m] == s[m + k];
    assert i > 0 && s[i + k..j + k] == rest[i..j];
    assert forall m :: i + k <= m < j + k ==> s[m] == rest[m - k];
  }

  lemma RunEarlier(s: string, t: string, k: nat, i: nat, j: nat)
    requires 0 < k <= |s| && (forall i :: 0 <= i < k ==> TokenChar(s[i])) && 0 < i && RunAt(s, t, i, j)
    ensures i > k && RunAt(s[k..], t, i - k, j - k)
  {
    hide TokenChar;
    var rest := s[k..];
    assert i > k;
    assert rest[i - k..j - k] == s[i..j];
    assert forall m :: 0 <= m < |rest| ==> rest[m] == s[m + k];
  }

  lemma TokensIff(rules: Rules, n: Node, w: string)
    ensures w in Tokens(rules, n) <==> HasWord(rules, n, w)
  {
    var s := n.title + " " + n.content;
    assert w in Tokens(rules, n) <==> exists t :: t in Runs(s) && rules.lower(t) == w;
    hide Runs, TokenChar, WordCharacter, Tokens, RunAt, IsWord;
    if t :| t in Runs(s) && rules.lower(t) == w {
      RunsIff(s, t);
      var i: nat, j: nat :| RunAt(s, t, i, j);
      RunIsWord(s, t, i, j);
    }
    if HasWord(rules, n, w) {
      var i: nat, j: nat :| IsWord(s, i, j) && w == rules.lower(s[i..j]);
      RunIsWord(s, s[i..j], i, j);
      RunsIff(s, s[i..j]);
    }
  }

  lemma RunIsWord(s: string, t: string, i: nat, j: nat)
    ensures RunAt(s, t, i, j) <==> IsWord(s, i, j) && t == s[i..j]
  {
    forall c ensures WordCharacter(c) <==> TokenChar(c) {
      WordCharacterIff(c);
    }
    hide TokenChar, WordCharacter;
  }

  // ---------- Proposals ----------

  /** The last of the nodes with this id stands at `k`. */
  ghost predicate LastWith(nodes: seq<Node>, id: string, k: nat) {
    k < |nodes| && nodes[k].id == Some(id) && forall j :: k < j < |nodes| ==> nodes[j].id != Some(id)
  }

  /** A word of the last node with this id. */
  ghost predicate WordOf(rules: Rules, nodes: seq<Node>, id: string, w: string) {
    exists k: nat :: LastWith(nodes, id, k) && HasWord(rules, nodes[k], w)
  }

  /** The words that the nodes with these ids share. */
  ghost predicate Shared(rules: Rules, nodes: seq<Node>, a: string, b: string, words: set<string>) {
    forall w :: w in words <==> WordOf(rules, nodes, a, w) && WordOf(rules, nodes, b, w)
  }

  lemma {:induction false} TokensForIff(rules: Rules, nodes: seq<Node>, id: string, w: string)
    ensures w in TokensFor(rules, Listed(nodes), id) <==> WordOf(rules, nodes, id, w)
  {
    if nodes != [] {
      var front, last := nodes[..|nodes| - 1], nodes[|nodes| - 1];
      TokensForIff(rules, front, id, w);
      TokensIff(rules, last, w);
      WordOfSnoc(rules, front, last, id, w);
      assert nodes == front + [last];
      ListedSnoc(nodes);
      var list := Listed(front);
      if last.id.Some? {
        assert (list + [last])[..|list|] == list;
      } else {
        assert list + [] == list;
      }
      hide Listed, HasWord, Tokens, WordOf;
    }
  }

  lemma ListedSnoc(nodes: seq<Node>)
    requires nodes != []
    ensures var front, last := nodes[..|nodes| - 1], nodes[|nodes| - 1];
            Listed(nodes) == Listed(front) + if last.id.Some? then [last] else []
  {
  }

  lemma WordOfSnoc(rules: Rules, front: seq<Node>, last: Node, id: string, w: string)
    ensures WordOf(rules, front + [last], id, w) <==> if last.id == Some(id) then HasWord(rules, last, w) else WordOf(rules, front, id, w)
  {
    hide HasWord;
    var nodes := front + [last];
    assert nodes[|front|] == last && forall k :: 0 <= k < |front| ==> nodes[k] == front[k];
    if last.id == Some(id) {
      assert LastWith(nodes, id, |front|);
    } else {
      if k: nat :| LastWith(front, id, k) && HasWord(rules, front[k], w) {
        assert LastWith(nodes, id, k);
      }
      if k: nat :| LastWith(nodes, id, k) && HasWord(rules, nodes[k], w) {
        assert LastWith(front, id, k);
      }
    }
  }

  /** Two nodes qualify exactly when they share at least as many words as asked for. */
  lemma QualifiesIff(rules: Rules, nodes: seq<Node>, i: nat, j: nat)
    requires i < |Listed(nodes)| && j < |Listed(nodes)|
    ensures var list := Listed(nodes);
            var words := Overlap(rules, list, i, j);
            Shared(rules, nodes, IdOf(list[i]), IdOf(list[j]), words) && (Qualifies(rules, list, i, j) <==> |words| >= rules.minOverlap)
  {
    var list := Listed(nodes);
    forall w ensures w in Overlap(rules, list, i, j) <==> WordOf(rules, nodes, IdOf(list[i]), w) && WordOf(rules, nodes, IdOf(list[j]), w) {
      TokensForIff(rules, nodes, IdOf(list[i]), w);
      TokensForIff(rules, nodes, IdOf(list[j]), w);
    }
    hide Listed, WordOf, TokensFor;
  }

  lemma {:induction false} ListedPositions(nodes: seq<Node>) returns (ks: seq<nat>)
    ensures |ks| == |Listed(nodes)| && forall i, j :: 0 <= i < j < |ks| ==> ks[i] < ks[j]
    ensures forall i :: 0 <= i < |ks| ==> ks[i] < |nodes| && nodes[ks[i]] == Listed(nodes)[i] && nodes[ks[i]].id == Some(IdOf(nodes[ks[i]]))
  {
    if nodes == [] {
      ks := [];
    } else {
      var front, last := nodes[..|nodes| - 1], nodes[|nodes| - 1];
      var ms := ListedPositions(front);
      ListedSnoc(nodes);
      hide Listed;
      assert forall i :: 0 <= i < |front| ==> nodes[i] == front[i];
      ks := if last.id.Some? then ms + [|front|] else ms;
    }
  }

  /** What a proposal says: it runs from an earlier to a later node with ids that share enough words, and weighs 0.2 and a tenth for
      each of them, at most 1. */
  lemma ProposalSays(rules: Rules, nodes: seq<Node>, p: nat) returns (i: nat, j: nat, words: set<string>)
    requires p < |Proposals(rules, nodes)|
    ensures |Proposals(rules, nodes)| <= if rules.maxCreated >= 1 then rules.maxCreated else 1
    ensures i < j < |nodes| && nodes[i].id.Some? && nodes[j].id.Some?
    ensures Shared(rules, nodes, nodes[i].id.value, nodes[j].id.value, words) && |words| >= rules.minOverlap
    ensures Proposals(rules, nodes)[p] == Edge(nodes[i].id.value, nodes[j].id.value, "latent-related",
                                               if |words| <= 8 then 200 + 100 * |words| else 1000, rules.reason(words))
  {
    var list := Listed(nodes);
    var ps := FirstPairs(rules, list);
    var ks := ListedPositions(nodes);
    ProposedAreFirst(rules, list, ps[p]);
    hide Listed, Overlap, Qualifies, IdOf, FirstPairs;
    var x, y := ps[p].left, ps[p].right;
    assert ps[p] in ps;
    QualifiesIff(rules, nodes, x, y);
    i, j, words := ks[x], ks[y], Overlap(rules, list, x, y);
    assert Proposals(rules, nodes)[p] == EdgeFor(rules, list[x], list[y], words);
    IdsOf(nodes[i]);
    IdsOf(nodes[j]);
    hide Shared, Proposals;
  }

  lemma IdsOf(n: Node)
    ensures n.id.Some? ==> IdOf(n) == n.id.value
  {
  }

  // ---------- Stored edges ----------

  /** The stripped work tree id of the source node, or of the target node where the source has none. */
  ghost predicate WorkOf(source: Node, target: Node, work: string) {
    if source.workTreeId == "" then work == Strip(target.workTreeId) else work == Strip(source.workTreeId)
  }

  lemma {:induction false} NodeForIs(nodes: seq<Node>, id: string)
    requires NodeFor(nodes, id).Some?
    ensures exists k: nat :: LastWith(nodes, id, k) && NodeFor(nodes, id).value == nodes[k]
  {
    var front, last := nodes[..|nodes| - 1], nodes[|nodes| - 1];
    assert forall k :: 0 <= k < |front| ==> nodes[k] == front[k];
    if last.id == Some(id) {
      assert LastWith(nodes, id, |front|);
    } else {
      NodeForIs(front, id);
      var k: nat :| LastWith(front, id, k) && NodeFor(front, id).value == front[k];
      assert LastWith(nodes, id, k);
    }
  }

  /** A stored edge is the proposal, in the project and space of its source node, with the work tree node noted in the reason. */
  lemma StoredSays(rules: Rules, nodes: seq<Node>, e: Edge) returns (s: nat, t: nat)
    requires e in Proposals(rules, nodes)
    ensures LastWith(nodes, e.source, s) && LastWith(nodes, e.target, t)
    ensures var m := Materialized(nodes, e);
            && m.projectId == nodes[s].projectId && m.spaceId == nodes[s].spaceId
            && forall work :: WorkOf(nodes[s], nodes[t], work) ==>
                 m.edge == Edge(e.source, e.target, e.relation, e.weight,
                                if work == "" then e.reason else e.reason + " [source-work-tree:" + work + "]")
  {
    ProposalEndsExist(rules, nodes, e);
    NodeForIs(nodes, e.source);
    NodeForIs(nodes, e.target);
    hide NodeFor, Strip, LastWith;
    s :| LastWith(nodes, e.source, s) && NodeFor(nodes, e.source).value == nodes[s];
    t :| LastWith(nodes, e.target, t) && NodeFor(nodes, e.target).value == nodes[t];
  }
}
