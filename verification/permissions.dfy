/**
 Permission decisions over stored tuples, and the check of memory writes into
 spaces mounted by another space.
 */
module Permissions {
  import opened Collections
  import opened Text
  import opened Payloads
  import ToolAliases

  datatype Tuple = Tuple(projectId: string, subject: string, relation: string, resource: string, effect: string,
                         condition: Option<Fields>)

  datatype Mount = Mount(projectId: string, hostSpaceId: string, mountedSpaceId: string, mode: string, status: string)

  datatype Branch = Branch(id: string, projectId: string, spaceId: string, status: string)

  /** The rows of the three tables, newest first. */
  datatype Store = Store(tuples: seq<Tuple>, mounts: seq<Mount>, branches: seq<Branch>)

  /** `fnmatchcase(resource, pattern)`. */
  type Glob = (string, string) -> bool

  /** Who wants to do what to which resource, in which context. */
  datatype Query = Query(subjects: seq<string>, relations: seq<string>, resource: string, context: Fields)

  // ---------- Matching ----------

  predicate ResourceMatches(glob: Glob, pattern: string, resource: string) {
    pattern == "*" || glob(resource, pattern) || pattern + ":" <= resource
  }

  predicate ConditionMatches(condition: Option<Fields>, context: Fields) {
    condition.None? || forall key :: key in condition.value ==>
      var expected := condition.value[key];
      if expected.Arr? then Get(context, key) in expected.items else expected == Get(context, key)
  }

  predicate RelationMatches(recorded: string, requested: string) {
    recorded in {requested, "admin", "*"}
  }

  predicate Matches(glob: Glob, q: Query, t: Tuple) {
    && (t.subject in q.subjects || t.subject == "*")
    && (exists i :: 0 <= i < |q.relations| && RelationMatches(t.relation, q.relations[i]))
    && ResourceMatches(glob, t.resource, q.resource)
    && ConditionMatches(t.condition, q.context)
  }

  predicate Has(glob: Glob, q: Query, rows: seq<Tuple>, effect: string) {
    exists t :: t in rows && t.effect == effect && Matches(glob, q, t)
  }

  /** Some matching tuple allows and no matching tuple denies. */
  predicate Granted(glob: Glob, q: Query, rows: seq<Tuple>) {
    Has(glob, q, rows, "allow") && !Has(glob, q, rows, "deny")
  }

  const VISIBLE := 500

  /** What `list_permission_tuples` returns of a project's tuples: the newest. */
  function Seen(rows: seq<Tuple>): (seen: seq<Tuple>) {
    rows[..if |rows| < VISIBLE then |rows| else VISIBLE]
  }

  function InProject(projectId: string): Tuple -> bool {
    (t: Tuple) => t.projectId == projectId
  }

  /** `_is_allowed` on the listed tuples. */
  method IsAllowed(glob: Glob, q: Query, rows: seq<Tuple>) returns (ok: bool)
    ensures ok <==> Granted(glob, q, rows)
  {
    hide ResourceMatches, ConditionMatches, RelationMatches;
    var matched: seq<Tuple> := [];
    for k := 0 to |rows|
      invariant forall t :: t in matched <==> t in rows[..k] && Matches(glob, q, t)
    {
      assert rows[..k + 1] == rows[..k] + [rows[k]];
      if rows[k].subject !in q.subjects && rows[k].subject != "*" {
        continue;
      }
      if !exists i :: 0 <= i < |q.relations| && RelationMatches(rows[k].relation, q.relations[i]) {
        continue;
      }
      if !ResourceMatches(glob, rows[k].resource, q.resource) {
        continue;
      }
      if !ConditionMatches(rows[k].condition, q.context) {
        continue;
      }
      matched := matched + [rows[k]];
    }
    assert rows[..|rows|] == rows;
    if exists t :: t in matched && t.effect == "deny" {
      return false;
    }
    if exists t :: t in matched && t.effect == "allow" {
      return true;
    }
    return false;
  }

  /** Order and repetition of the tuples do not matter. */
  lemma SameTuplesSameDecision(glob: Glob, q: Query, rows: seq<Tuple>, others: seq<Tuple>)
    requires forall t :: t in rows <==> t in others
    ensures Granted(glob, q, rows) == Granted(glob, q, others)
  {
    hide Matches;
  }

  lemma HasSplit(glob: Glob, q: Query, a: seq<Tuple>, b: seq<Tuple>, effect: string)
    ensures Has(glob, q, a + b, effect) <==> Has(glob, q, a, effect) || Has(glob, q, b, effect)
  {
    hide Matches;
    if t :| t in a + b && t.effect == effect && Matches(glob, q, t) {
      assert t in a || t in b;
    }
    if t :| t in a && t.effect == effect && Matches(glob, q, t) {
      assert t in a + b;
    }
    if t :| t in b && t.effect == effect && Matches(glob, q, t) {
      assert t in a + b;
    }
  }

  lemma HasOne(glob: Glob, q: Query, t: Tuple, effect: string)
    ensures Has(glob, q, [t], effect) <==> t.effect == effect && Matches(glob, q, t)
  {
    hide Matches;
    assert t in [t];
  }

  /** The tuples seen before and after a new one arrives. */
  lemma SeenAfter(t: Tuple, rows: seq<Tuple>)
    ensures |rows| < VISIBLE ==> Seen(rows) == rows && Seen([t] + rows) == [t] + rows
    ensures |rows| >= VISIBLE ==>
              Seen([t] + rows) == [t] + rows[..VISIBLE - 1] && Seen(rows) == rows[..VISIBLE - 1] + [rows[VISIBLE - 1]]
  {
  }

  /** A new deny turns a refusal into a grant exactly when it pushes the one deny in force out of the visible tuples. */
  lemma NewDenyGrantsIff(glob: Glob, q: Query, d: Tuple, rows: seq<Tuple>)
    requires d.effect == "deny"
    ensures !Granted(glob, q, Seen(rows)) && Granted(glob, q, Seen([d] + rows))
            <==> |rows| >= VISIBLE && !Matches(glob, q, d) && Granted(glob, q, rows[..VISIBLE - 1])
                 && rows[VISIBLE - 1].effect == "deny" && Matches(glob, q, rows[VISIBLE - 1])
  {
    hide Matches, Has, Seen;
    SeenAfter(d, rows);
    HasOne(glob, q, d, "allow");
    HasOne(glob, q, d, "deny");
    if |rows| < VISIBLE {
      HasSplit(glob, q, [d], rows, "allow");
      HasSplit(glob, q, [d], rows, "deny");
    } else {
      var kept, last := rows[..VISIBLE - 1], rows[VISIBLE - 1];
      HasOne(glob, q, last, "allow");
      HasOne(glob, q, last, "deny");
      HasSplit(glob, q, [d], kept, "allow");
      HasSplit(glob, q, [d], kept, "deny");
      HasSplit(glob, q, kept, [last], "allow");
      HasSplit(glob, q, kept, [last], "deny");
    }
  }

  /** A new allow turns a grant into a refusal exactly when it pushes the one allow in force out of the visible tuples. */
  lemma NewAllowRevokesIff(glob: Glob, q: Query, a: Tuple, rows: seq<Tuple>)
    requires a.effect == "allow"
    ensures Granted(glob, q, Seen(rows)) && !Granted(glob, q, Seen([a] + rows))
            <==> |rows| >= VISIBLE && !Matches(glob, q, a)
                 && rows[VISIBLE - 1].effect == "allow" && Matches(glob, q, rows[VISIBLE - 1])
                 && forall t :: t in rows[..VISIBLE - 1] && t.effect in {"allow", "deny"} ==> !Matches(glob, q, t)
  {
    hide Matches, Seen;
    SeenAfter(a, rows);
    HasOne(glob, q, a, "allow");
    HasOne(glob, q, a, "deny");
    if |rows| < VISIBLE {
      HasSplit(glob, q, [a], rows, "allow");
      HasSplit(glob, q, [a], rows, "deny");
      hide Has;
    } else {
      var kept, last := rows[..VISIBLE - 1], rows[VISIBLE - 1];
      HasOne(glob, q, last, "allow");
      HasOne(glob, q, last, "deny");
      HasSplit(glob, q, [a], kept, "allow");
      HasSplit(glob, q, [a], kept, "deny");
      HasSplit(glob, q, kept, [last], "allow");
      HasSplit(glob, q, kept, [last], "deny");
      assert !Has(glob, q, kept, "allow") && !Has(glob, q, kept, "deny")
             <==> forall t :: t in kept && t.effect in {"allow", "deny"} ==> !Matches(glob, q, t);
      hide Has;
    }
  }

  /** What the store can hold: a tuple that repeats another is refused. */
  ghost predicate Unrepeated(rows: seq<Tuple>) {
    forall i, j :: 0 <= i < j < |rows| ==> rows[i] != rows[j]
  }

  function Other(i: nat): Tuple {
    Tuple("p", "x" + ToolAliases.Decimal(i), "write", "*", "allow", None)
  }

  /** Tuples about `n` other subjects. */
  function Others(n: nat): (rows: seq<Tuple>)
    ensures |rows| == n && forall i :: 0 <= i < n ==> rows[i] == Other(i)
  {
    seq(n, i requires 0 <= i < n => Other(i))
  }

  const QUERY := Query(["u"], ["write"], "space:s", map[])

  lemma OthersDoNotMatch(glob: Glob, n: nat)
    ensures Unrepeated(Others(n))
    ensures forall t :: t in Others(n) ==> t.subject != "" && t.subject[0] == 'x' && !Matches(glob, QUERY, t)
  {
    forall i, j | 0 <= i < j < n ensures Other(i) != Other(j) {
      if Other(i) == Other(j) {
        ToolAliases.SamePrefix("x", ToolAliases.Decimal(i), ToolAliases.Decimal(j));
        ToolAliases.DecimalInjective(i, j);
      }
    }
    forall t | t in Others(n) ensures t.subject != "" && t.subject[0] == 'x' && !Matches(glob, QUERY, t) {
      var i :| 0 <= i < n && Others(n)[i] == t;
      assert t.subject[0] == 'x' && "u"[0] == 'u';
    }
  }

  lemma MatchesQuery(glob: Glob, subject: string, effect: string)
    ensures Matches(glob, QUERY, Tuple("p", subject, "write", "*", effect, None)) <==> subject == "u" || subject == "*"
  {
    assert QUERY.relations[0] == "write" && RelationMatches("write", QUERY.relations[0]);
    assert QUERY.subjects == ["u"];
  }

  /** With 500 tuples in the project, a deny about somebody else can let a refused subject in. */
  lemma NewDenyCanGrant(glob: Glob)
    ensures exists d: Tuple, rows: seq<Tuple> ::
              d.effect == "deny" && |rows| == VISIBLE && Unrepeated([d] + rows)
              && !Granted(glob, QUERY, Seen(rows)) && Granted(glob, QUERY, Seen([d] + rows))
  {
    hide *;
    var allow, deny := Tuple("p", "u", "write", "*", "allow", None), Tuple("p", "u", "write", "*", "deny", None);
    var d := Tuple("p", "v", "write", "*", "deny", None);
    VisibleSize();
    var others := Others(VISIBLE - 2);
    var rows := [allow] + others + [deny];
    OthersDoNotMatch(glob, VISIBLE - 2);
    OthersAllow(VISIBLE - 2);
    MatchesQuery(glob, "u", "allow");
    MatchesQuery(glob, "u", "deny");
    MatchesQuery(glob, "v", "deny");
    assert rows[..VISIBLE - 1] == [allow] + others && rows[VISIBLE - 1] == deny;
    FourKinds(allow, others, deny, d);
    FirstGrants(glob, QUERY, allow, others);
    NewDenyGrantsIff(glob, QUERY, d, rows);
  }

  lemma VisibleSize()
    ensures VISIBLE == 500
  {
  }

  lemma OthersAllow(n: nat)
    ensures forall t :: t in Others(n) ==> t.effect == "allow"
  {
    forall t | t in Others(n) ensures t.effect == "allow" {
      var i :| 0 <= i < n && Others(n)[i] == t;
    }
  }

  lemma FirstGrants(glob: Glob, q: Query, allow: Tuple, others: seq<Tuple>)
    requires allow.effect == "allow" && Matches(glob, q, allow) && forall t :: t in others ==> t.effect == "allow"
    ensures Granted(glob, q, [allow] + others)
  {
    hide Matches;
    HasSplit(glob, q, [allow], others, "allow");
    HasSplit(glob, q, [allow], others, "deny");
    HasOne(glob, q, allow, "allow");
    HasOne(glob, q, allow, "deny");
  }

  lemma FourKinds(allow: Tuple, others: seq<Tuple>, deny: Tuple, d: Tuple)
    requires Unrepeated(others) && allow != deny && allow != d && deny != d
    requires forall t :: t in others ==> t != allow && t != deny && t != d
    ensures Unrepeated([d] + ([allow] + others + [deny]))
  {
    var rows := [d] + ([allow] + others + [deny]);
    assert forall i :: 2 <= i < |rows| - 1 ==> rows[i] == others[i - 2] && rows[i] in others;
  }

  /** Likewise an allow for somebody else can shut a granted subject out. */
  lemma NewAllowCanRevoke(glob: Glob)
    ensures exists a: Tuple, rows: seq<Tuple> ::
              a.effect == "allow" && |rows| == VISIBLE && Unrepeated([a] + rows)
              && Granted(glob, QUERY, Seen(rows)) && !Granted(glob, QUERY, Seen([a] + rows))
  {
    hide *;
    var allow, a := Tuple("p", "u", "write", "*", "allow", None), Tuple("p", "v", "write", "*", "allow", None);
    VisibleSize();
    var others := Others(VISIBLE - 1);
    var rows := others + [allow];
    OthersDoNotMatch(glob, VISIBLE - 1);
    MatchesQuery(glob, "u", "allow");
    MatchesQuery(glob, "v", "allow");
    assert rows[..VISIBLE - 1] == others && rows[VISIBLE - 1] == allow;
    OneEitherSide(a, others, allow);
    NewAllowRevokesIff(glob, QUERY, a, rows);
  }

  lemma OneEitherSide(a: Tuple, others: seq<Tuple>, b: Tuple)
    requires Unrepeated(others) && a != b && forall t :: t in others ==> t != a && t != b
    ensures Unrepeated([a] + (others + [b]))
  {
    var all := [a] + (others + [b]);
    assert forall i :: 1 <= i < |all| - 1 ==> all[i] == others[i - 1] && all[i] in others;
  }

  // ---------- Subjects ----------

  function Deduplicated(s: seq<string>): (r: seq<string>) {
    if s == [] then []
    else
      var front := Deduplicated(s[..|s| - 1]);
      if s[|s| - 1] in front then front else front + [s[|s| - 1]]
  }

  lemma {:induction false} DeduplicatedExact(s: seq<string>)
    ensures forall x :: x in Deduplicated(s) <==> x in s
    ensures forall i, j :: 0 <= i < j < |Deduplicated(s)| ==> Deduplicated(s)[i] != Deduplicated(s)[j]
  {
    if s != [] {
      DeduplicatedExact(s[..|s| - 1]);
      assert s == s[..|s| - 1] + [s[|s| - 1]];
    }
  }

  /** The explicit subject, the owner's profile and the actor of a payload. */
  function Named(host: Host, payload: Fields): seq<string> {
    var subject, owner, actor := Get(payload, "subject"), Get(payload, "ownerProfileId"), Get(payload, "actor");
    (if subject != Null then [StrOf(host, subject)] else [])
    + (if owner != Null then ["profile:" + StrOf(host, owner)] else [])
    + if actor.Obj? && Truthy(Get(actor.fields, "id")) then
        [(if "type" in actor.fields then StrOf(host, actor.fields["type"]) else "user") + ":" + StrOf(host, Get(actor.fields, "id"))]
      else []
  }

  function Subjects(host: Host, payload: Fields): seq<string> {
    Deduplicated(Named(host, payload) + ["*"])
  }

  method SubjectCandidates(host: Host, payload: Fields) returns (subjects: seq<string>)
    ensures subjects == Subjects(host, payload)
  {
    hide StrOf, Truthy, Get, Deduplicated;
    var candidates: seq<string> := [];
    if Get(payload, "subject") != Null {
      candidates := candidates + [StrOf(host, Get(payload, "subject"))];
    }
    if Get(payload, "ownerProfileId") != Null {
      candidates := candidates + ["profile:" + StrOf(host, Get(payload, "ownerProfileId"))];
    }
    var actor := Get(payload, "actor");
    if actor.Obj? && Truthy(Get(actor.fields, "id")) {
      candidates := candidates
                    + [(if "type" in actor.fields then StrOf(host, actor.fields["type"]) else "user") + ":" + StrOf(host, Get(actor.fields, "id"))];
    }
    assert candidates == Named(host, payload);
    hide Named;
    candidates := candidates + ["*"];
    assert candidates == Named(host, payload) + ["*"];
    subjects := Distinct(candidates);
  }

  method Distinct(candidates: seq<string>) returns (subjects: seq<string>)
    ensures subjects == Deduplicated(candidates)
  {
    subjects := [];
    for k := 0 to |candidates|
      invariant subjects == Deduplicated(candidates[..k])
    {
      assert candidates[..k + 1][..k] == candidates[..k];
      if candidates[k] !in subjects {
        subjects := subjects + [candidates[k]];
      }
    }
    assert candidates[..|candidates|] == candidates;
  }

  // ---------- Writes into mounted spaces ----------

  datatype Blocker = Unmounted | ReadonlyMount | WriteDenied | NoBranch

  datatype Verdict = InHost | Redirected(space: string, branch: string) | Written(space: string, branch: string) | Denied(blocker: Blocker)

  function ProjectOf(host: Host, payload: Fields): string {
    TextOr(host, Get(payload, "projectId"), "project_default")
  }

  function HostSpace(host: Host, payload: Fields): string {
    TextOr(host, Or(Get(payload, "hostSpaceId"), Get(payload, "spaceId")), "space_default")
  }

  function TargetSpace(host: Host, payload: Fields): string {
    TextOr(host, Or(Get(payload, "targetSpaceId"), Get(payload, "spaceId")), "space_default")
  }

  function TargetBranch(host: Host, payload: Fields): string {
    TextOr(host, Or(Get(payload, "targetBranchId"), Get(payload, "branchId")), "branch_main")
  }

  function OwnBranch(host: Host, payload: Fields): string {
    TextOr(host, Get(payload, "branchId"), "branch_main")
  }

  function MountOf(host: Host, payload: Fields): Mount -> bool {
    (m: Mount) => m.projectId == ProjectOf(host, payload) && m.hostSpaceId == HostSpace(host, payload)
                  && m.mountedSpaceId == TargetSpace(host, payload) && m.status == "active"
  }

  function FirstN<T>(s: seq<T>, n: nat): seq<T> {
    s[..if |s| < n then |s| else n]
  }

  /** The active mounts of the target space in the host space, newest first. */
  function Mounts(host: Host, payload: Fields, store: Store): seq<Mount> {
    FirstN(Filter(store.mounts, MountOf(host, payload)), 10)
  }

  function BranchOf(host: Host, payload: Fields): Branch -> bool {
    (b: Branch) => b.projectId == ProjectOf(host, payload) && b.spaceId == TargetSpace(host, payload) && b.status == "active"
  }

  function Branches(host: Host, payload: Fields, store: Store): seq<Branch> {
    FirstN(Filter(store.branches, BranchOf(host, payload)), 32)
  }

  function ProjectTuples(host: Host, payload: Fields, store: Store): seq<Tuple> {
    Filter(store.tuples, InProject(ProjectOf(host, payload)))
  }

  function NodeWorkTree(host: Host, n: Fields): string {
    Strip(TextOr(host, Or(Get(n, "sourceWorkTreeNodeId"), Get(n, "workTreeNodeId")), ""))
  }

  function FirstWorkTree(host: Host, nodes: seq<Fields>): Json {
    if nodes == [] then Null
    else if NodeWorkTree(host, nodes[0]) != "" then Str(NodeWorkTree(host, nodes[0]))
    else FirstWorkTree(host, nodes[1..])
  }

  function CandidateNodes(payload: Fields): seq<Fields> {
    if Get(payload, "candidateNodes").Arr? then Dicts(Get(payload, "candidateNodes").items) else []
  }

  /** The work tree node of the write: the payload's own, or the first candidate node's. */
  function WorkTreeOf(host: Host, payload: Fields): Json {
    var own := Strip(TextOr(host, Get(payload, "sourceWorkTreeNodeId"), ""));
    if own != "" then Str(own) else FirstWorkTree(host, CandidateNodes(payload))
  }

  function WriteQuery(host: Host, payload: Fields, mode: string): Query {
    Query(Subjects(host, payload), ["write", "admin"], "space:" + TargetSpace(host, payload),
          map["branchId" := Str(TargetBranch(host, payload)), "spaceId" := Str(TargetSpace(host, payload)), "mountMode" := Str(mode),
              "sourceWorkTreeNodeId" := WorkTreeOf(host, payload)])
  }

  predicate WriteGranted(host: Host, glob: Glob, payload: Fields, store: Store, mode: string) {
    Granted(glob, WriteQuery(host, payload, mode), Seen(ProjectTuples(host, payload, store)))
  }

  predicate Offers(branches: seq<Branch>, id: string) {
    exists i :: 0 <= i < |branches| && branches[i].id == id
  }

  method FindWorkTree(host: Host, payload: Fields) returns (id: Json)
    ensures id == WorkTreeOf(host, payload)
  {
    hide TextOr, NodeWorkTree, Strip;
    var own := Strip(TextOr(host, Get(payload, "sourceWorkTreeNodeId"), ""));
    if own != "" {
      return Str(own);
    }
    var nodes := CandidateNodes(payload);
    assert nodes[0..] == nodes;
    for k := 0 to |nodes|
      invariant FirstWorkTree(host, nodes) == FirstWorkTree(host, nodes[k..])
    {
      assert nodes[k..][1..] == nodes[k + 1..];
      var found := NodeWorkTree(host, nodes[k]);
      if found != "" {
        return Str(found);
      }
    }
    return Null;
  }

  function VerdictOf(host: Host, glob: Glob, payload: Fields, store: Store): Verdict {
    var mounts, branches := Mounts(host, payload, store), Branches(host, payload, store);
    if TargetSpace(host, payload) == HostSpace(host, payload) then InHost
    else if mounts == [] then Denied(Unmounted)
    else if mounts[0].mode == "readonly" then Denied(ReadonlyMount)
    else if mounts[0].mode == "copy-on-write" then Redirected(HostSpace(host, payload), OwnBranch(host, payload))
    else if !WriteGranted(host, glob, payload, store, mounts[0].mode) then Denied(WriteDenied)
    else if branches == [] then Denied(NoBranch)
    else Written(TargetSpace(host, payload), if Offers(branches, TargetBranch(host, payload)) then TargetBranch(host, payload) else branches[0].id)
  }

  /** `validate_memory_write`: every outcome under exactly its conditions. */
  method ValidateWrite(host: Host, glob: Glob, payload: Fields, store: Store) returns (r: Verdict)
    ensures r == VerdictOf(host, glob, payload, store)
  {
    hide Mounts, Branches, Subjects, WorkTreeOf, Granted, Seen, ProjectTuples, Offers, TextOr, Or, Get;
    var hostSpace, targetSpace, targetBranch := HostSpace(host, payload), TargetSpace(host, payload), TargetBranch(host, payload);
    if targetSpace == hostSpace {
      return InHost;
    }
    var mounts := Mounts(host, payload, store);
    if mounts == [] {
      return Denied(Unmounted);
    }
    var mode := mounts[0].mode;
    if mode == "readonly" {
      return Denied(ReadonlyMount);
    }
    if mode == "copy-on-write" {
      return Redirected(hostSpace, OwnBranch(host, payload));
    }
    var subjects := SubjectCandidates(host, payload);
    var work := FindWorkTree(host, payload);
    var context := map["branchId" := Str(targetBranch), "spaceId" := Str(targetSpace), "mountMode" := Str(mode), "sourceWorkTreeNodeId" := work];
    var q := Query(subjects, ["write", "admin"], "space:" + targetSpace, context);
    assert q == WriteQuery(host, payload, mode);
    var granted := IsAllowed(glob, q, Seen(ProjectTuples(host, payload, store)));
    if !granted {
      return Denied(WriteDenied);
    }
    var branches := Branches(host, payload, store);
    if branches == [] {
      return Denied(NoBranch);
    }
    return Written(targetSpace, if Offers(branches, targetBranch) then targetBranch else branches[0].id);
  }

  lemma FirstNMembers<T>(s: seq<T>, f: T -> bool, n: nat)
    ensures forall x :: x in FirstN(Filter(s, f), n) ==> x in s && f(x)
  {
    FilterMembers(s, f);
    var kept := Filter(s, f);
    hide Filter;
    forall x | x in FirstN(kept, n) ensures x in s && f(x) {
      var i :| 0 <= i < |FirstN(kept, n)| && FirstN(kept, n)[i] == x;
      assert kept[i] in kept;
    }
  }

  /** A write reaches another space only through an active mount that is neither readonly nor copy-on-write,
      with a positive decision, and into an active branch of that space: the wanted one whenever it is listed. */
  lemma WrittenOnlyIf(host: Host, glob: Glob, payload: Fields, store: Store)
    requires VerdictOf(host, glob, payload, store).Written?
    ensures var v := VerdictOf(host, glob, payload, store);
            && v.space == TargetSpace(host, payload) != HostSpace(host, payload)
            && (exists m :: m in store.mounts && m == Mounts(host, payload, store)[0] && m.status == "active"
                            && m.hostSpaceId == HostSpace(host, payload) && m.mountedSpaceId == v.space
                            && m.mode !in {"readonly", "copy-on-write"} && WriteGranted(host, glob, payload, store, m.mode))
            && (exists b :: b in store.branches && b.id == v.branch && b.spaceId == v.space && b.status == "active")
            && (Offers(Branches(host, payload, store), TargetBranch(host, payload)) ==> v.branch == TargetBranch(host, payload))
  {
    hide WriteGranted, Offers, TargetSpace, HostSpace, ProjectOf, TargetBranch, FirstN, Filter;
    FirstNMembers(store.mounts, MountOf(host, payload), 10);
    FirstNMembers(store.branches, BranchOf(host, payload), 32);
    var mounts, branches := Mounts(host, payload, store), Branches(host, payload, store);
    assert mounts[0] in mounts && branches[0] in branches;
    OfferedBranch(branches, TargetBranch(host, payload));
    hide Mounts, Branches;
  }

  lemma OfferedBranch(branches: seq<Branch>, id: string)
    ensures Offers(branches, id) ==> exists b :: b in branches && b.id == id
  {
    if Offers(branches, id) {
      var i :| 0 <= i < |branches| && branches[i].id == id;
      assert branches[i] in branches;
    }
  }

  function WithMount(m: Mount, store: Store): Store {
    store.(mounts := [m] + store.mounts)
  }

  /** The newest active mount of the target in the host decides alone; a mount of any other pair, or one not active, changes nothing. */
  lemma NewestMountDecides(host: Host, glob: Glob, payload: Fields, store: Store, m: Mount)
    requires TargetSpace(host, payload) != HostSpace(host, payload)
    ensures var before, after := VerdictOf(host, glob, payload, store), VerdictOf(host, glob, payload, WithMount(m, store));
            if m.projectId == ProjectOf(host, payload) && m.hostSpaceId == HostSpace(host, payload)
               && m.mountedSpaceId == TargetSpace(host, payload) && m.status == "active" then
              && (m.mode == "readonly" ==> after == Denied(ReadonlyMount))
              && (m.mode == "copy-on-write" ==> after == Redirected(HostSpace(host, payload), OwnBranch(host, payload)))
              && (m.mode !in {"readonly", "copy-on-write"} ==>
                    (after.Written? <==> WriteGranted(host, glob, payload, store, m.mode) && Branches(host, payload, store) != []))
            else after == before
  {
    var here := MountOf(host, payload);
    assert here(m) <==> m.projectId == ProjectOf(host, payload) && m.hostSpaceId == HostSpace(host, payload)
                        && m.mountedSpaceId == TargetSpace(host, payload) && m.status == "active";
    FilterCons(m, store.mounts, here);
    MountsAfter(host, payload, store, m);
    var after := WithMount(m, store);
    assert WriteGranted(host, glob, payload, after, m.mode) == WriteGranted(host, glob, payload, store, m.mode);
    assert Branches(host, payload, after) == Branches(host, payload, store);
    forall mode ensures WriteGranted(host, glob, payload, after, mode) == WriteGranted(host, glob, payload, store, mode) {
    }
    hide Mounts, Branches, WriteGranted, Offers, MountOf;
  }

  lemma MountsAfter(host: Host, payload: Fields, store: Store, m: Mount)
    ensures var before, after := Mounts(host, payload, store), Mounts(host, payload, WithMount(m, store));
            if MountOf(host, payload)(m) then after != [] && after[0] == m else after == before
  {
    FilterCons(m, store.mounts, MountOf(host, payload));
    hide MountOf, Filter;
  }

  function WithTuple(t: Tuple, store: Store): Store {
    store.(tuples := [t] + store.tuples)
  }

  lemma TuplesAfter(host: Host, payload: Fields, store: Store, t: Tuple)
    ensures ProjectTuples(host, payload, WithTuple(t, store))
            == if t.projectId == ProjectOf(host, payload) then [t] + ProjectTuples(host, payload, store) else ProjectTuples(host, payload, store)
  {
    FilterCons(t, store.tuples, InProject(ProjectOf(host, payload)));
    hide ProjectOf, Filter;
  }

  /** While all tuples of the project are visible, a new deny never opens a write and a new allow never closes one. */
  lemma NewTupleMonotone(host: Host, glob: Glob, payload: Fields, store: Store, t: Tuple)
    requires |ProjectTuples(host, payload, store)| < VISIBLE
    ensures var before, after := VerdictOf(host, glob, payload, store), VerdictOf(host, glob, payload, WithTuple(t, store));
            && (t.effect == "deny" && after.Written? ==> before == after)
            && (t.effect == "allow" && before.Written? ==> after == before)
  {
    hide Seen, Granted, ProjectTuples, FirstN, Filter, Offers, WriteQuery, TargetSpace, HostSpace, TargetBranch, OwnBranch;
    var rows := ProjectTuples(host, payload, store);
    TuplesAfter(host, payload, store, t);
    var mounts := Mounts(host, payload, store);
    if mounts != [] {
      var q := WriteQuery(host, payload, mounts[0].mode);
      if t.effect == "deny" {
        NewDenyGrantsIff(glob, q, t, rows);
      } else if t.effect == "allow" {
        NewAllowRevokesIff(glob, q, t, rows);
      }
    }
    hide Mounts, Branches;
  }
}
