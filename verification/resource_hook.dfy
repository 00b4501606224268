/**
 The data-fetching hook of the web application: effects start requests and
 cancel the one before, while replies arrive in any order.
 */
module ResourceHook {
  import opened Collections
  import opened Payloads

  /** A request; `settled` once its reply has been handled. */
  datatype Request = Request(path: string, cancelled: bool, settled: bool)

  datatype Outcome<T> = Ok(payload: T) | Fail(message: string)

  /** `cleanup` is the request the pending effect cleanup would cancel; `source` the last request that supplied data, -1 for none. */
  datatype State<T> = State(mounted: bool, path: Option<string>, loadedPath: Option<string>, data: Option<T>,
                            error: Option<string>, isLoading: bool, requests: seq<Request>, cleanup: Option<nat>, source: int)

  datatype Event<T> = Render(path: Option<string>) | Reload | Settle(request: nat, outcome: Outcome<T>) | Unmount

  /** What a component using the hook sees. */
  datatype View<T> = View(data: Option<T>, error: Option<string>, isLoading: bool)

  predicate Falsy(path: Option<string>) {
    path.None? || path.value == ""
  }

  // ---------- Steps ----------

  function Cancelled(requests: seq<Request>, cleanup: Option<nat>): (rs: seq<Request>)
    ensures |rs| == |requests|
  {
    if cleanup.Some? && cleanup.value < |requests| then requests[cleanup.value := requests[cleanup.value].(cancelled := true)]
    else requests
  }

  /** Cleanup of the previous effect, then the effect for `path`. */
  function Effect<T>(s: State<T>, path: Option<string>): State<T> {
    var requests := Cancelled(s.requests, s.cleanup);
    if Falsy(path) then
      s.(path := path, loadedPath := None, data := None, error := None, isLoading := false, requests := requests, cleanup := None)
    else
      s.(path := path, loadedPath := path, data := if s.loadedPath != path then None else s.data, error := None,
         isLoading := true, requests := requests + [Request(path.value, false, false)], cleanup := Some(|requests|))
  }

  function Settled<T>(s: State<T>, i: nat, outcome: Outcome<T>): State<T> {
    if i >= |s.requests| || s.requests[i].settled then s
    else
      var requests := s.requests[i := s.requests[i].(settled := true)];
      if s.requests[i].cancelled then s.(requests := requests)
      else match outcome
        case Ok(payload) => s.(requests := requests, data := Some(payload), isLoading := false, source := i)
        case Fail(message) => s.(requests := requests, error := Some(message), isLoading := false)
  }

  function Next<T>(s: State<T>, e: Event<T>): State<T> {
    match e
    case Render(path) => if s.mounted && path != s.path then Effect(s, path) else s
    case Reload => if s.mounted then Effect(s, s.path) else s
    case Settle(i, outcome) => Settled(s, i, outcome)
    case Unmount => if s.mounted then s.(mounted := false, requests := Cancelled(s.requests, s.cleanup), cleanup := None) else s
  }

  function Run<T>(s: State<T>, es: seq<Event<T>>): State<T>
    decreases es
  {
    if es == [] then s else Run(Next(s, es[0]), es[1..])
  }

  /** The state before the first effect: `isLoading` starts out true. */
  function Initial<T>(): State<T> {
    State(true, None, None, None, None, true, [], None, -1)
  }

  function Mounted<T>(path: Option<string>): State<T> {
    Effect(Initial(), path)
  }

  function ViewOf<T>(s: State<T>): View<T> {
    View(s.data, s.error, s.isLoading)
  }

  /** The hook instance: state setters, the reference, and the closures' `cancelled` flags, changed in place. */
  class Hook<T> {
    var mounted: bool
    var path: Option<string>
    var loadedPath: Option<string>
    var data: Option<T>
    var error: Option<string>
    var isLoading: bool
    var requests: seq<Request>
    var cleanup: Option<nat>
    ghost var source: int

    ghost function Snapshot(): State<T>
      reads this
    {
      State(mounted, path, loadedPath, data, error, isLoading, requests, cleanup, source)
    }

    constructor (initialPath: Option<string>)
      ensures Snapshot() == Mounted(initialPath)
    {
      mounted, path, loadedPath, data, error, isLoading := true, None, None, None, None, true;
      requests, cleanup := [], None;
      source := -1;
      new;
      RunEffect(initialPath);
    }

    method RunCleanup()
      modifies this`requests, this`cleanup
      ensures requests == Cancelled(old(requests), old(cleanup)) && cleanup == None
    {
      if cleanup.Some? && cleanup.value < |requests| {
        requests := requests[cleanup.value := requests[cleanup.value].(cancelled := true)];
      }
      cleanup := None;
    }

    method RunEffect(newPath: Option<string>)
      modifies this
      ensures Snapshot() == Effect(old(Snapshot()), newPath)
    {
      RunCleanup();
      path := newPath;
      if Falsy(newPath) {
        loadedPath, data, error, isLoading := None, None, None, false;
        return;
      }
      var pathChanged := loadedPath != newPath;
      loadedPath := newPath;
      isLoading := true;
      error := None;
      if pathChanged {
        data := None;
      }
      cleanup := Some(|requests|);
      requests := requests + [Request(newPath.value, false, false)];
    }

    method OnRender(newPath: Option<string>)
      modifies this
      ensures Snapshot() == Next(old(Snapshot()), Render(newPath))
    {
      if mounted && newPath != path {
        RunEffect(newPath);
      }
    }

    method OnReload()
      modifies this
      ensures Snapshot() == Next(old(Snapshot()), Reload)
    {
      if mounted {
        RunEffect(path);
      }
    }

    /** The end of `load`: its success, failure and final blocks run without interruption. */
    method OnReply(i: nat, outcome: Outcome<T>)
      modifies this
      ensures Snapshot() == Next(old(Snapshot()), Settle(i, outcome))
    {
      if i >= |requests| || requests[i].settled {
        return;
      }
      var cancelled := requests[i].cancelled;
      requests := requests[i := requests[i].(settled := true)];
      match outcome {
        case Ok(payload) =>
          if !cancelled {
            data := Some(payload);
            source := i;
          }
        case Fail(message) =>
          if !cancelled {
            error := Some(message);
          }
      }
      if !cancelled {
        isLoading := false;
      }
    }

    method OnUnmount()
      modifies this
      ensures Snapshot() == Next(old(Snapshot()), Unmount)
    {
      if mounted {
        RunCleanup();
        mounted := false;
      }
    }
  }

  // ---------- Safety of every run ----------

  /** Request `i` could still change what the component sees. */
  ghost predicate Live<T>(s: State<T>, i: int) {
    0 <= i < |s.requests| && !s.requests[i].cancelled
  }

  ghost predicate Safe<T>(s: State<T>) {
    // a live request is the one of the current effect, the newest of all
    && (forall i :: Live(s, i) ==> s.cleanup == Some(i))
    && (s.cleanup.Some? ==> s.mounted && s.cleanup.value == |s.requests| - 1 && Live(s, s.cleanup.value))
    // while mounted there is one exactly when there is a path, and it asks for that path
    && (s.mounted ==> (s.cleanup.Some? <==> !Falsy(s.path)))
    && (s.mounted ==> s.loadedPath == if Falsy(s.path) then None else s.path)
    && (s.cleanup.Some? ==> Some(s.requests[s.cleanup.value].path) == s.path)
    // data came from the path held in the reference
    && -1 <= s.source < |s.requests|
    && (s.data.Some? ==> s.source >= 0 && s.requests[s.source].settled && s.loadedPath == Some(s.requests[s.source].path))
    // loading means exactly that the live request is outstanding
    && (s.mounted ==> (s.isLoading <==> s.cleanup.Some? && !s.requests[s.cleanup.value].settled))
    // an error is the live request's
    && (s.mounted && s.error.Some? ==> s.cleanup.Some? && s.requests[s.cleanup.value].settled)
  }

  lemma EffectSafe<T>(s: State<T>, path: Option<string>)
    requires Safe(s) && s.mounted
    ensures Safe(Effect(s, path))
  {
    var requests := Cancelled(s.requests, s.cleanup);
    assert forall i :: 0 <= i < |requests| ==> requests[i].cancelled by {
      forall i | 0 <= i < |requests| ensures requests[i].cancelled {
        if Live(s, i) {
          assert s.cleanup == Some(i);
        }
      }
    }
    assert forall i :: 0 <= i < |requests| ==> requests[i].path == s.requests[i].path && requests[i].settled == s.requests[i].settled;
    var t := Effect(s, path);
    forall i | Live(t, i) ensures t.cleanup == Some(i) {
      assert i >= |requests|;
    }
  }

  lemma InitialSafe<T>(path: Option<string>)
    ensures Safe(Mounted<T>(path))
  {
    var t := Mounted<T>(path);
    assert |t.requests| <= 1;
  }

  lemma SettledSafe<T>(s: State<T>, i: nat, outcome: Outcome<T>)
    requires Safe(s)
    ensures Safe(Settled(s, i, outcome))
  {
    var t := Settled(s, i, outcome);
    assert |t.requests| == |s.requests|;
    assert forall j :: 0 <= j < |s.requests| ==>
             t.requests[j].path == s.requests[j].path && t.requests[j].cancelled == s.requests[j].cancelled
             && (s.requests[j].settled ==> t.requests[j].settled) && (j != i ==> t.requests[j] == s.requests[j]);
    assert forall j :: Live(t, j) <==> Live(s, j);
    if i < |s.requests| && !s.requests[i].settled && !s.requests[i].cancelled {
      assert Live(s, i);
    }
  }

  lemma NextSafe<T>(s: State<T>, e: Event<T>)
    requires Safe(s)
    ensures Safe(Next(s, e))
  {
    match e {
      case Render(path) =>
        if s.mounted && path != s.path {
          EffectSafe(s, path);
        }
      case Reload =>
        if s.mounted {
          EffectSafe(s, s.path);
        }
      case Settle(i, outcome) =>
        SettledSafe(s, i, outcome);
      case Unmount =>
        if s.mounted {
          EffectSafe(s, None);
          var t := Next(s, e);
          assert t.requests == Effect(s, None).requests;
          assert forall i :: Live(t, i) ==> Live(Effect(s, None), i);
        }
    }
  }

  lemma {:induction false} RunSafe<T>(s: State<T>, es: seq<Event<T>>)
    requires Safe(s)
    ensures Safe(Run(s, es))
    decreases es
  {
    hide Safe, Next;
    if es != [] {
      NextSafe(s, es[0]);
      RunSafe(Next(s, es[0]), es[1..]);
    }
  }

  /** Whatever renders, reloads, replies and unmounts happen, in any order: the hook stays safe. */
  lemma HookSafeOverAllRuns<T>(path: Option<string>, es: seq<Event<T>>)
    ensures Safe(Run(Mounted(path), es))
  {
    InitialSafe<T>(path);
    RunSafe(Mounted(path), es);
  }

  /** At most one request in flight is not cancelled. */
  lemma AtMostOneLive<T>(path: Option<string>, es: seq<Event<T>>, i: int, j: int)
    requires Live(Run(Mounted(path), es), i) && Live(Run(Mounted(path), es), j)
    ensures i == j
  {
    HookSafeOverAllRuns(path, es);
  }

  /** The request number behind the data never goes backwards, however replies are reordered. */
  lemma {:induction false} SourceNeverGoesBack<T>(s: State<T>, es: seq<Event<T>>)
    requires Safe(s)
    ensures s.source <= Run(s, es).source
    decreases es
  {
    if es != [] {
      var e := es[0];
      if e.Settle? && Next(s, e).source != s.source {
        assert Live(s, e.request);
      }
      assert s.source <= Next(s, e).source;
      NextSafe(s, e);
      hide Safe, Next;
      SourceNeverGoesBack(Next(s, e), es[1..]);
    }
  }

  // ---------- Reply order ----------

  /** A reply to a cancelled request is invisible. */
  lemma StaleReplyInvisible<T>(s: State<T>, i: nat, outcome: Outcome<T>)
    requires i < |s.requests| && s.requests[i].cancelled
    ensures ViewOf(Settled(s, i, outcome)) == ViewOf(s)
  {
  }

  /** However many replies to cancelled requests arrive, in whatever order, the component sees no difference. */
  lemma {:induction false} StaleRepliesInvisible<T>(s: State<T>, es: seq<Event<T>>)
    requires forall k :: 0 <= k < |es| ==> es[k].Settle? && es[k].request < |s.requests| && s.requests[es[k].request].cancelled
    ensures ViewOf(Run(s, es)) == ViewOf(s)
    decreases es
  {
    if es != [] {
      assert es[0].Settle?;
      StaleReplyInvisible(s, es[0].request, es[0].outcome);
      StaleRepliesInvisible(Next(s, es[0]), es[1..]);
    }
  }

  /** Replies to different requests commute. */
  lemma RepliesCommute<T>(s: State<T>, i: nat, a: Outcome<T>, j: nat, b: Outcome<T>)
    requires Safe(s) && i != j
    ensures Settled(Settled(s, i, a), j, b) == Settled(Settled(s, j, b), i, a)
  {
    var t, u := Settled(s, i, a), Settled(s, j, b);
    if i < |s.requests| && j < |s.requests| {
      assert t.requests[j] == s.requests[j] && u.requests[i] == s.requests[i];
      var ri, rj := s.requests[i].(settled := true), s.requests[j].(settled := true);
      assert s.requests[i := ri][j := rj] == s.requests[j := rj][i := ri];
      assert Live(s, i) ==> s.cleanup == Some(i);
      assert Live(s, j) ==> s.cleanup == Some(j);
    }
  }

  ghost predicate OnlyReplies<T>(es: seq<Event<T>>) {
    forall k :: 0 <= k < |es| ==> es[k].Settle?
  }

  /** Each request is answered at most once. */
  ghost predicate OneReplyEach<T>(es: seq<Event<T>>) {
    OnlyReplies(es) && forall k, l :: 0 <= k < l < |es| ==> es[k].request != es[l].request
  }

  lemma {:induction false} RunAppend<T>(s: State<T>, a: seq<Event<T>>, b: seq<Event<T>>)
    ensures Run(s, a + b) == Run(Run(s, a), b)
    decreases a
  {
    if a == [] {
      assert a + b == b;
    } else {
      assert (a + b)[1..] == a[1..] + b;
      hide Next;
      RunAppend(Next(s, a[0]), a[1..], b);
    }
  }

  /** A reply can be moved ahead of replies to other requests. */
  lemma {:induction false} ReplyMovesAhead<T>(s: State<T>, a: seq<Event<T>>, e: Event<T>)
    requires Safe(s) && OneReplyEach(a + [e])
    ensures Run(s, a + [e]) == Run(Next(s, e), a)
    decreases a
  {
    var all := a + [e];
    assert all[|a|] == e;
    if a == [] {
      assert all[1..] == [];
    } else {
      assert all[0] == a[0] && all[1..] == a[1..] + [e];
      assert OneReplyEach(a[1..] + [e]) by {
        assert forall k :: 0 <= k < |all| - 1 ==> all[1..][k] == all[k + 1];
      }
      NextSafe(s, a[0]);
      RepliesCommute(s, a[0].request, a[0].outcome, e.request, e.outcome);
      hide Safe, Settled;
      ReplyMovesAhead(Next(s, a[0]), a[1..], e);
    }
  }

  /** The same replies, one for each request, lead to the same state in every order. */
  lemma {:induction false} ReplyOrderIrrelevant<T>(s: State<T>, es: seq<Event<T>>, fs: seq<Event<T>>)
    requires Safe(s) && OneReplyEach(es) && OneReplyEach(fs) && multiset(es) == multiset(fs)
    ensures Run(s, es) == Run(s, fs)
    decreases es
  {
    if es == [] {
      assert |multiset(fs)| == |multiset(es)| == 0;
      assert fs == [];
    } else {
      var e := es[0];
      var k := FindEqual(es, 0, fs);
      var a, b := fs[..k], fs[k + 1..];
      RepliesWithout(fs, k);
      RepliesWithout(es, 0);
      RestsMatch(es, 0, fs, k);
      NextSafe(s, e);
      hide Safe, Next, OneReplyEach;
      assert Removed(es, 0) == es[1..];
      assert fs == a + [e] + b;
      RunAppend(s, a + [e], b);
      ReplyMovesAhead(s, a, e);
      RunAppend(Next(s, e), a, b);
      ReplyOrderIrrelevant(Next(s, e), es[1..], a + b);
    }
  }

  lemma RepliesWithout<T>(fs: seq<Event<T>>, k: nat)
    requires k < |fs| && OneReplyEach(fs)
    ensures OneReplyEach(Removed(fs, k)) && OneReplyEach(fs[..k] + [fs[k]])
  {
    var rest := Removed(fs, k);
    assert forall i :: 0 <= i < |rest| ==> rest[i] == fs[if i < k then i else i + 1];
    var upTo := fs[..k] + [fs[k]];
    assert forall i :: 0 <= i < |upTo| ==> upTo[i] == fs[i];
  }

  /**
   Once the live request is answered, the component sees that answer and nothing else: no reply to an
   older request, before or after it, shows. A failure keeps data already loaded from the same path.
   */
  lemma {:induction false} LiveReplyWins<T>(s: State<T>, before: seq<Event<T>>, outcome: Outcome<T>, after: seq<Event<T>>)
    requires Safe(s) && s.cleanup.Some? && !s.requests[s.cleanup.value].settled
    requires OneReplyEach(before + [Settle(s.cleanup.value, outcome)] + after)
    ensures ViewOf(Run(s, before + [Settle(s.cleanup.value, outcome)] + after)) ==
            match outcome
            case Ok(payload) => View(Some(payload), None, false)
            case Fail(message) => View(s.data, Some(message), false)
  {
    var e := Settle(s.cleanup.value, outcome);
    var all := before + [e] + after;
    assert forall k :: 0 <= k < |before| ==> all[k] == before[k];
    assert all[|before|] == e;
    assert forall k :: 0 <= k < |after| ==> all[|before| + 1 + k] == after[k];
    RunAppend(s, before + [e], after);
    assert OneReplyEach(before + [e]) by {
      assert forall k :: 0 <= k < |before| + 1 ==> (before + [e])[k] == all[k];
    }
    ReplyMovesAhead(s, before, e);
    RunAppend(Next(s, e), before, after);
    var others := before + after;
    assert forall k :: 0 <= k < |others| ==> others[k].Settle? && others[k].request != e.request;
    NextSafe(s, e);
    OldRepliesInvisible(Next(s, e), others);
  }

  lemma {:induction false} OldRepliesInvisible<T>(s: State<T>, es: seq<Event<T>>)
    requires Safe(s) && s.cleanup.Some?
    requires forall k :: 0 <= k < |es| ==> es[k].Settle? && es[k].request != s.cleanup.value
    ensures ViewOf(Run(s, es)) == ViewOf(s)
    decreases es
  {
    if es != [] {
      var t := Next(s, es[0]);
      NextSafe(s, es[0]);
      var i := es[0].request;
      if i < |s.requests| {
        assert !Live(s, i);
        StaleReplyInvisible(s, i, es[0].outcome);
      }
      assert t.cleanup == s.cleanup && ViewOf(t) == ViewOf(s);
      hide Safe, Next;
      OldRepliesInvisible(t, es[1..]);
    }
  }

  /** A missing or empty path requests nothing and shows nothing; any other path starts exactly one request, for that path, and the
      effect before it is cancelled either way. */
  lemma EffectSays<T>(s: State<T>, path: Option<string>)
    ensures var t := Effect(s, path);
            && t.path == path && t.error == None
            && (path == None || path == Some("") ==>
                  |t.requests| == |s.requests| && t.data == None && t.loadedPath == None && !t.isLoading && t.cleanup == None)
            && (path != None && path != Some("") ==>
                  && |t.requests| == |s.requests| + 1 && t.requests[|s.requests|] == Request(path.value, false, false)
                  && t.isLoading && t.cleanup == Some(|s.requests|) && t.loadedPath == path
                  && t.data == if s.loadedPath == path then s.data else None)
            && (forall i :: 0 <= i < |s.requests| ==>
                  t.requests[i].cancelled == (s.requests[i].cancelled || s.cleanup == Some(i))
                  && t.requests[i].path == s.requests[i].path && t.requests[i].settled == s.requests[i].settled)
  {
  }
}
