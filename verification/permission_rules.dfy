/**
 The rules of permission decisions and memory writes in terms of the stored rows
 and the request's own fields.
 */
module PermissionRules {
  import opened Collections
  import opened Text
  import opened Payloads
  import opened PayloadReading
  import opened Permissions

  // ---------- Which tuples apply ----------

  /** A condition expects a value, or one of a list of values. */
  ghost predicate Fits(expected: Json, actual: Json) {
    match expected
    case Arr(items) => exists i :: 0 <= i < |items| && items[i] == actual
    case _ => actual == expected
  }

  ghost predicate Covers(glob: Glob, pattern: string, resource: string) {
    pattern == "*" || glob(resource, pattern) || exists rest :: resource == pattern + ":" + rest
  }

  ghost predicate Allows(recorded: string, requested: string) {
    recorded == "*" || recorded == "admin" || recorded == requested
  }

  ghost predicate Holds(condition: Option<Fields>, context: Fields) {
    condition == None || forall key :: key in condition.value ==> Fits(condition.value[key], if key in context then context[key] else Null)
  }

  ghost predicate Applies(glob: Glob, q: Query, t: Tuple) {
    && (t.subject == "*" || exists i :: 0 <= i < |q.subjects| && q.subjects[i] == t.subject)
    && (exists i :: 0 <= i < |q.relations| && Allows(t.relation, q.relations[i]))
    && Covers(glob, t.resource, q.resource)
    && Holds(t.condition, q.context)
  }

  lemma AppliesIff(glob: Glob, q: Query, t: Tuple)
    ensures Applies(glob, q, t) <==> Matches(glob, q, t)
  {
    ConditionIff(t.condition, q.context);
    CoversIff(glob, t.resource, q.resource);
    forall r: string ensures Allows(t.relation, r) <==> RelationMatches(t.relation, r) {
    }
    hide ConditionMatches, ResourceMatches, RelationMatches, Allows, Covers, Holds;
    if Matches(glob, q, t) {
      var i :| 0 <= i < |q.relations| && RelationMatches(t.relation, q.relations[i]);
      assert Allows(t.relation, q.relations[i]);
    }
    if Applies(glob, q, t) {
      var i :| 0 <= i < |q.relations| && Allows(t.relation, q.relations[i]);
      assert RelationMatches(t.relation, q.relations[i]);
    }
  }

  lemma CoversIff(glob: Glob, pattern: string, resource: string)
    ensures Covers(glob, pattern, resource) <==> ResourceMatches(glob, pattern, resource)
  {
    var prefix := pattern + ":";
    if prefix <= resource {
      assert resource == pattern + ":" + resource[|prefix|..];
    }
    if rest :| resource == pattern + ":" + rest {
      assert prefix <= resource;
    }
  }

  lemma ConditionIff(condition: Option<Fields>, context: Fields)
    ensures Holds(condition, context) <==> ConditionMatches(condition, context)
  {
    if condition.Some? {
      forall key | key in condition.value
        ensures Fits(condition.value[key], if key in context then context[key] else Null) <==>
                if condition.value[key].Arr? then Get(context, key) in condition.value[key].items else condition.value[key] == Get(context, key)
      {
      }
      hide Fits;
    }
  }

  /** A request is granted exactly when some tuple that applies allows and none that applies denies. */
  lemma GrantedIff(glob: Glob, q: Query, rows: seq<Tuple>)
    ensures Granted(glob, q, rows) <==>
            (exists t :: t in rows && t.effect == "allow" && Applies(glob, q, t)) && !exists t :: t in rows && t.effect == "deny" && Applies(glob, q, t)
  {
    forall t ensures Applies(glob, q, t) <==> Matches(glob, q, t) {
      AppliesIff(glob, q, t);
    }
    hide Applies, Matches;
  }

  // ---------- What a request asks for ----------

  /** Somebody a request is made for. */
  ghost predicate Speaks(host: Host, payload: Fields, x: string) {
    || x == "*"
    || (Get(payload, "subject") != Null && Shows(host, Get(payload, "subject"), x))
    || (Get(payload, "ownerProfileId") != Null && exists t :: Shows(host, Get(payload, "ownerProfileId"), t) && x == "profile:" + t)
    || (exists actor, kind, id ::
          && Get(payload, "actor") == Obj(actor) && Truthy(Get(actor, "id")) && Shows(host, Get(actor, "id"), id)
          && (if "type" in actor then Shows(host, actor["type"], kind) else kind == "user") && x == kind + ":" + id)
  }

  lemma SpeaksIff(host: Host, payload: Fields, x: string)
    ensures x in Subjects(host, payload) <==> Speaks(host, payload, x)
  {
    DeduplicatedExact(Permissions.Named(host, payload) + ["*"]);
    assert x in Permissions.Named(host, payload) + ["*"] <==> x in Permissions.Named(host, payload) || x == "*";
    NamedIff(host, payload, x);
    hide Permissions.Named, Speaks, Deduplicated;
  }

  lemma NamedIff(host: Host, payload: Fields, x: string)
    ensures Speaks(host, payload, x) <==> x == "*" || x in Permissions.Named(host, payload)
  {
    hide Truthy;
    var subject, owner, actor := Get(payload, "subject"), Get(payload, "ownerProfileId"), Get(payload, "actor");
    assert Shows(host, owner, StrOf(host, owner));
    ActorIff(host, actor, x);
    var ss := if subject != Null then [StrOf(host, subject)] else [];
    var os := if owner != Null then ["profile:" + StrOf(host, owner)] else [];
    var xs := if actor.Obj? && Truthy(Get(actor.fields, "id")) then
        [(if "type" in actor.fields then StrOf(host, actor.fields["type"]) else "user") + ":" + StrOf(host, Get(actor.fields, "id"))]
      else [];
    assert Permissions.Named(host, payload) == ss + os + xs;
    hide Permissions.Named, Get, StrOf;
    assert x in ss + os + xs <==> x in ss || x in os || x in xs;
  }

  lemma ActorIff(host: Host, j: Json, x: string)
    ensures var xs := if j.Obj? && Truthy(Get(j.fields, "id")) then
                  [(if "type" in j.fields then StrOf(host, j.fields["type"]) else "user") + ":" + StrOf(host, Get(j.fields, "id"))]
                else [];
            x in xs <==>
            exists actor, kind, id ::
              && j == Obj(actor) && Truthy(Get(actor, "id")) && Shows(host, Get(actor, "id"), id)
              && (if "type" in actor then Shows(host, actor["type"], kind) else kind == "user") && x == kind + ":" + id
  {
    hide Truthy;
    if j.Obj? && Truthy(Get(j.fields, "id")) {
      var kind := if "type" in j.fields then StrOf(host, j.fields["type"]) else "user";
      assert Shows(host, Get(j.fields, "id"), StrOf(host, Get(j.fields, "id")));
      assert if "type" in j.fields then Shows(host, j.fields["type"], kind) else kind == "user";
      assert j == Obj(j.fields);
    }
  }

  // ---------- Rows of a table ----------

  /** `r` are the first `n` rows that satisfy `f`, or all there are, in order. */
  ghost predicate FirstMatching<T(!new)>(s: seq<T>, f: T -> bool, n: nat, r: seq<T>) {
    exists ks: seq<nat> :: StandAt(s, f, n, r, ks)
  }

  ghost predicate StandAt<T(!new)>(s: seq<T>, f: T -> bool, n: nat, r: seq<T>, ks: seq<nat>) {
    && |ks| == |r| <= n
    && (forall i :: 0 <= i < |ks| ==> ks[i] < |s| && r[i] == s[ks[i]] && f(r[i]))
    && (forall i, j :: 0 <= i < j < |ks| ==> ks[i] < ks[j])
    && forall k: nat :: k < |s| && f(s[k]) ==> k in ks || (|r| == n && forall i :: 0 <= i < |ks| ==> ks[i] < k)
  }

  lemma StandAtSnoc<T(!new)>(front: seq<T>, last: T, f: T -> bool, n: nat, r: seq<T>, ks: seq<nat>)
    requires StandAt(front, f, n, r, ks)
    ensures !f(last) || |r| == n ==> StandAt(front + [last], f, n, r, ks)
    ensures f(last) && |r| < n ==> StandAt(front + [last], f, n, r + [last], ks + [|front|])
  {
    var s := front + [last];
    assert s[|front|] == last && forall k :: 0 <= k < |front| ==> s[k] == front[k];
    var ms := ks + [|front|];
    if f(last) && |r| < n {
      forall k: nat | k < |s| && f(s[k]) ensures k in ms {
        if k < |front| {
          assert k in ks;
        } else {
          assert ms[|ks|] == k;
        }
      }
    }
  }

  lemma {:induction false} FilterStands<T(!new)>(s: seq<T>, f: T -> bool, n: nat) returns (ks: seq<nat>)
    ensures StandAt(s, f, n, FirstN(Filter(s, f), n), ks)
  {
    if s == [] {
      ks := [];
    } else {
      hide StandAt;
      var front, last := s[..|s| - 1], s[|s| - 1];
      assert s == front + [last];
      var ms := FilterStands(front, f, n);
      StandAtSnoc(front, last, f, n, FirstN(Filter(front, f), n), ms);
      var before := Filter(front, f);
      assert Filter(s, f) == before + if f(last) then [last] else [];
      assert before + [] == before;
      if f(last) && |before| < n {
        assert FirstN(before, n) == before && FirstN(before + [last], n) == before + [last];
        ks := ms + [|front|];
      } else {
        assert FirstN(Filter(s, f), n) == FirstN(before, n);
        ks := ms;
      }
    }
  }

  lemma FilterIsFirst<T(!new)>(s: seq<T>, f: T -> bool, g: T -> bool, n: nat)
    requires forall x :: f(x) == g(x)
    ensures FirstMatching(s, g, n, FirstN(Filter(s, f), n))
  {
    var ks := FilterStands(s, f, n);
    hide Filter, FirstN;
    assert StandAt(s, g, n, FirstN(Filter(s, f), n), ks);
  }

  // ---------- A write ----------

  /** The ids a write works with, with their defaults. */
  datatype Asked = Asked(project: string, hostSpace: string, target: string, branch: string, own: string, work: Json)

  ghost predicate AsksFor(host: Host, payload: Fields, a: Asked) {
    && TextIs(host, [Get(payload, "projectId")], "project_default", a.project)
    && TextIs(host, [Get(payload, "hostSpaceId"), Get(payload, "spaceId")], "space_default", a.hostSpace)
    && TextIs(host, [Get(payload, "targetSpaceId"), Get(payload, "spaceId")], "space_default", a.target)
    && TextIs(host, [Get(payload, "targetBranchId"), Get(payload, "branchId")], "branch_main", a.branch)
    && TextIs(host, [Get(payload, "branchId")], "branch_main", a.own)
    && WorksOn(host, payload, a.work)
  }

  /** The stripped text of the first of the values that counts as true. */
  ghost predicate StrippedText(host: Host, js: seq<Json>, s: string) {
    exists t :: TextIs(host, js, "", t) && s == Strip(t)
  }

  /** The work tree node of the payload itself, else of the first candidate node that names one, else null. */
  ghost predicate WorksOn(host: Host, payload: Fields, work: Json) {
    if !StrippedText(host, [Get(payload, "sourceWorkTreeNodeId")], "") then work.Str? && StrippedText(host, [Get(payload, "sourceWorkTreeNodeId")], work.s)
    else exists nodes :: CandidatesAre(payload, nodes) && FirstWork(host, nodes, work)
  }

  ghost predicate CandidatesAre(payload: Fields, nodes: seq<Fields>) {
    if Get(payload, "candidateNodes").Arr? then DictionariesOf(Get(payload, "candidateNodes").items, nodes) else nodes == []
  }

  ghost predicate NamesWork(host: Host, n: Fields, s: string) {
    StrippedText(host, [Get(n, "sourceWorkTreeNodeId"), Get(n, "workTreeNodeId")], s)
  }

  ghost predicate FirstWork(host: Host, nodes: seq<Fields>, work: Json) {
    || (work == Null && forall k :: 0 <= k < |nodes| ==> NamesWork(host, nodes[k], ""))
    || (work.Str? && work.s != "" && exists i :: 0 <= i < |nodes| && NamesWork(host, nodes[i], work.s)
                                                && forall k :: 0 <= k < i ==> NamesWork(host, nodes[k], ""))
  }

  ghost predicate ActiveMount(m: Mount, a: Asked) {
    m.projectId == a.project && m.hostSpaceId == a.hostSpace && m.mountedSpaceId == a.target && m.status == "active"
  }

  /** The question put to the project's newest 500 tuples. */
  function Question(a: Asked, subjects: seq<string>, mode: string): Query {
    Query(subjects, ["write", "admin"], "space:" + a.target,
          map["branchId" := Str(a.branch), "spaceId" := Str(a.target), "mountMode" := Str(mode), "sourceWorkTreeNodeId" := a.work])
  }

  /** The verdict when the first active mount has this mode. */
  ghost predicate DecidedBy(glob: Glob, a: Asked, subjects: seq<string>, rows: seq<Tuple>, branches: seq<Branch>, mode: string, v: Verdict) {
    if mode == "readonly" then v == Denied(ReadonlyMount)
    else if mode == "copy-on-write" then v == Redirected(a.hostSpace, a.own)
    else if !Granted(glob, Question(a, subjects, mode), rows) then v == Denied(WriteDenied)
    else if branches == [] then v == Denied(NoBranch)
    else if exists b :: b in branches && b.id == a.branch then v == Written(a.target, a.branch)
    else v == Written(a.target, branches[0].id)
  }

  ghost predicate FirstMount(store: Store, a: Asked, i: nat) {
    i < |store.mounts| && ActiveMount(store.mounts[i], a) && forall k :: 0 <= k < i ==> !ActiveMount(store.mounts[k], a)
  }

  function AskedOf(host: Host, payload: Fields): Asked {
    Asked(ProjectOf(host, payload), HostSpace(host, payload), TargetSpace(host, payload), TargetBranch(host, payload), OwnBranch(host, payload),
          WorkTreeOf(host, payload))
  }

  lemma StrippedOfOne(host: Host, a: Json, s: string)
    ensures StrippedText(host, [a], s) <==> s == Strip(TextOr(host, a, ""))
  {
    forall t ensures TextIs(host, [a], "", t) <==> t == TextOr(host, a, "") {
      TextOfOne(host, a, "", t);
    }
    hide TextIs, TextOr, Strip;
    assert TextIs(host, [a], "", TextOr(host, a, ""));
  }

  lemma NamesWorkIff(host: Host, n: Fields, s: string)
    ensures NamesWork(host, n, s) <==> s == NodeWorkTree(host, n)
  {
    var a, b := Get(n, "sourceWorkTreeNodeId"), Get(n, "workTreeNodeId");
    forall t ensures TextIs(host, [a, b], "", t) <==> t == TextOr(host, Or(a, b), "") {
      TextOfTwo(host, a, b, "", t);
    }
    hide TextIs, TextOr, Strip, Or;
    assert TextIs(host, [a, b], "", TextOr(host, Or(a, b), ""));
  }

  lemma {:induction false} FirstWorkIs(host: Host, nodes: seq<Fields>)
    ensures FirstWork(host, nodes, FirstWorkTree(host, nodes))
  {
    if nodes != [] {
      FirstWorkIs(host, nodes[1..]);
      var s := NodeWorkTree(host, nodes[0]);
      NamesWorkIff(host, nodes[0], s);
      hide NamesWork, NodeWorkTree;
      if s != "" {
        assert NamesWork(host, nodes[0], s);
      } else {
        FirstWorkLater(host, nodes, FirstWorkTree(host, nodes[1..]));
      }
    }
  }

  lemma FirstWorkLater(host: Host, nodes: seq<Fields>, work: Json)
    requires nodes != [] && NamesWork(host, nodes[0], "") && FirstWork(host, nodes[1..], work)
    ensures FirstWork(host, nodes, work)
  {
    hide NamesWork;
    assert forall k :: 1 <= k < |nodes| ==> nodes[k] == nodes[1..][k - 1];
    if work.Str? {
      var i :| 0 <= i < |nodes[1..]| && NamesWork(host, nodes[1..][i], work.s) && forall k :: 0 <= k < i ==> NamesWork(host, nodes[1..][k], "");
      assert NamesWork(host, nodes[i + 1], work.s) && forall k :: 0 <= k < i + 1 ==> NamesWork(host, nodes[k], "");
    }
  }

  lemma WorkIs(host: Host, payload: Fields)
    ensures WorksOn(host, payload, WorkTreeOf(host, payload))
  {
    var a := Get(payload, "sourceWorkTreeNodeId");
    StrippedOfOne(host, a, "");
    StrippedOfOne(host, a, Strip(TextOr(host, a, "")));
    var nodes := CandidateNodes(payload);
    FirstWorkIs(host, nodes);
    if Get(payload, "candidateNodes").Arr? {
      DictionariesIff(Get(payload, "candidateNodes").items, nodes);
    }
    assert CandidatesAre(payload, nodes);
    hide StrippedText, FirstWork, FirstWorkTree, DictionariesOf, TextOr, Strip, CandidatesAre, CandidateNodes;
  }

  lemma AskedIs(host: Host, payload: Fields)
    ensures AsksFor(host, payload, AskedOf(host, payload))
  {
    var a := AskedOf(host, payload);
    TextOfOne(host, Get(payload, "projectId"), "project_default", a.project);
    TextOfTwo(host, Get(payload, "hostSpaceId"), Get(payload, "spaceId"), "space_default", a.hostSpace);
    TextOfTwo(host, Get(payload, "targetSpaceId"), Get(payload, "spaceId"), "space_default", a.target);
    TextOfTwo(host, Get(payload, "targetBranchId"), Get(payload, "branchId"), "branch_main", a.branch);
    TextOfOne(host, Get(payload, "branchId"), "branch_main", a.own);
    WorkIs(host, payload);
    hide TextIs, TextOr, Or, WorksOn, WorkTreeOf, Get;
  }

  lemma FirstMountIs(host: Host, payload: Fields, store: Store)
    ensures var mounts, a := Mounts(host, payload, store), AskedOf(host, payload);
            if mounts == [] then forall i :: 0 <= i < |store.mounts| ==> !ActiveMount(store.mounts[i], a)
            else exists i: nat :: FirstMount(store, a, i) && mounts[0] == store.mounts[i]
  {
    var f, a := MountOf(host, payload), AskedOf(host, payload);
    forall m ensures f(m) <==> ActiveMount(m, a) {
    }
    var ks := FilterStands(store.mounts, f, 10);
    var mounts := Mounts(host, payload, store);
    assert StandAt(store.mounts, f, 10, mounts, ks);
    hide Mounts, MountOf, AskedOf, ActiveMount, Filter, FirstN;
    if mounts != [] {
      forall k | 0 <= k < ks[0] ensures !f(store.mounts[k]) {
        assert k !in ks;
      }
      assert FirstMount(store, a, ks[0]);
    }
  }

  lemma OffersIff(branches: seq<Branch>, id: string)
    ensures Offers(branches, id) <==> exists b :: b in branches && b.id == id
  {
    if b :| b in branches && b.id == id {
      var i :| 0 <= i < |branches| && branches[i] == b;
      assert branches[i].id == id;
    }
    if Offers(branches, id) {
      var i :| 0 <= i < |branches| && branches[i].id == id;
      assert branches[i] in branches;
    }
  }

  /** The verdict on a write, from the request's fields and the rows of the three tables. */
  lemma VerdictTells(host: Host, glob: Glob, payload: Fields, store: Store)
    returns (a: Asked, subjects: seq<string>, rows: seq<Tuple>, branches: seq<Branch>)
    ensures AsksFor(host, payload, a) && forall x :: x in subjects <==> Speaks(host, payload, x)
    ensures FirstMatching(store.tuples, (t: Tuple) => t.projectId == a.project, 500, rows)
    ensures FirstMatching(store.branches, (b: Branch) => b.projectId == a.project && b.spaceId == a.target && b.status == "active", 32, branches)
    ensures var v := VerdictOf(host, glob, payload, store);
            if a.target == a.hostSpace then v == InHost
            else if forall i :: 0 <= i < |store.mounts| ==> !ActiveMount(store.mounts[i], a) then v == Denied(Unmounted)
            else exists i: nat :: FirstMount(store, a, i) && DecidedBy(glob, a, subjects, rows, branches, store.mounts[i].mode, v)
  {
    a, subjects := AskedOf(host, payload), Subjects(host, payload);
    rows, branches := Seen(ProjectTuples(host, payload, store)), Branches(host, payload, store);
    RowsAre(host, payload, store);
    AskedIs(host, payload);
    forall x ensures x in subjects <==> Speaks(host, payload, x) {
      SpeaksIff(host, payload, x);
    }
    hide *;
    FirstMountIs(host, payload, store);
    VerdictDecided(host, glob, payload, store);
  }

  lemma RowsAre(host: Host, payload: Fields, store: Store)
    ensures var a := AskedOf(host, payload);
            && FirstMatching(store.tuples, (t: Tuple) => t.projectId == a.project, 500, Seen(ProjectTuples(host, payload, store)))
            && FirstMatching(store.branches, (b: Branch) => b.projectId == a.project && b.spaceId == a.target && b.status == "active", 32,
                             Branches(host, payload, store))
  {
    var a := AskedOf(host, payload);
    FilterIsFirst(store.tuples, InProject(a.project), (t: Tuple) => t.projectId == a.project, 500);
    FilterIsFirst(store.branches, BranchOf(host, payload),
                  (b: Branch) => b.projectId == a.project && b.spaceId == a.target && b.status == "active", 32);
    hide FirstMatching, Filter, ProjectOf, TargetSpace;
  }

  lemma VerdictDecided(host: Host, glob: Glob, payload: Fields, store: Store)
    ensures var a, v, mounts := AskedOf(host, payload), VerdictOf(host, glob, payload, store), Mounts(host, payload, store);
            if a.target == a.hostSpace then v == InHost
            else if mounts == [] then v == Denied(Unmounted)
            else DecidedBy(glob, a, Subjects(host, payload), Seen(ProjectTuples(host, payload, store)), Branches(host, payload, store), mounts[0].mode, v)
  {
    var a, branches := AskedOf(host, payload), Branches(host, payload, store);
    OffersIff(branches, a.branch);
    hide Subjects, ProjectTuples, Branches, Mounts, Granted, Seen, TextOr, Or, Get, WorkTreeOf, Offers;
  }
}
