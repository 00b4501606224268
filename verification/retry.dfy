/**
 The retry loop around one model invocation, over an arbitrary sequence of
 attempt outcomes.
 */
module RetryLoop {
  import opened Payloads
  import ProviderResults

  /** A decoded body: a dictionary, `null`, or any other JSON value. */
  datatype Body = Dict(fields: Fields) | NullBody | OtherBody

  /** How one attempt ends; the detail of an HTTP error is None when reading its body raises, `transport` is the verdict
      of `_is_retryable_transport_error`. */
  datatype Attempt =
    | Answered(body: Body)
    | HttpError(code: int, detail: Option<string>)
    | Failed(errorType: string, message: string, transport: bool)

  datatype Event = Event(attempt: nat, stream: bool, errorType: string, message: string)

  /** What the caller sees. Reasons are the outcome that caused them; None is "unknown-error". */
  datatype Result =
    | Live(body: Fields, reconnects: seq<Event>, stream: bool)
    | Fallback(reason: Option<Attempt>)
    | Raised(reason: Option<Attempt>)

  /** `describe` words the exception of a body the reconnect log cannot be attached to. */
  datatype Config = Config(maxRetries: int, backoffBase: real, allowFallback: bool, deepseek: bool, describe: Body -> string)

  type Attempts = nat -> Attempt

  /** The reconnect log can be attached: a dictionary whose `streamReconnect`, if it has one, is a dictionary too. */
  predicate Attachable(body: Body) {
    body.Dict? && ("streamReconnect" in body.fields ==> body.fields["streamReconnect"].Obj?)
  }

  function AttachError(config: Config, body: Body): (failure: Attempt)
    ensures failure.Failed?
  {
    Failed(if body.Dict? then "TypeError" else "AttributeError", config.describe(body), false)
  }

  function Pow(b: real, n: nat): real {
    if n == 0 then 1.0 else b * Pow(b, n - 1)
  }

  /** The delay before the next attempt, `min(base ** attempt, 60.0)`. */
  function Delay(config: Config, attempt: nat): real {
    if Pow(config.backoffBase, attempt) < 60.0 then Pow(config.backoffBase, attempt) else 60.0
  }

  predicate RetryableCode(code: int) {
    code == 429 || code >= 500
  }

  function Streams(config: Config, attempt: nat): bool {
    !(config.deepseek && attempt > 0)
  }

  function EventOf(config: Config, attempt: nat, failure: Attempt): Event
    requires failure.Failed?
  {
    Event(attempt, Streams(config, attempt), failure.errorType, failure.message)
  }

  // ---------- The specification ----------

  /** The non-HTTP failures among the first `k` attempts, in order. */
  function Reconnects(config: Config, attempts: Attempts, k: nat): seq<Event>
    decreases k, 0
  {
    if k == 0 then []
    else
      var e := Effective(config, attempts, k - 1);
      Reconnects(config, attempts, k - 1) + (if e.Failed? then [EventOf(config, k - 1, e)] else [])
  }

  /** After a reconnect, a body the log cannot be attached to counts as a failure. */
  function Effective(config: Config, attempts: Attempts, k: nat): Attempt
    decreases k, 1
  {
    match attempts(k)
    case Answered(body) => if !Attachable(body) && Reconnects(config, attempts, k) != [] then AttachError(config, body) else attempts(k)
    case _ => attempts(k)
  }

  /** The outcome invites another attempt. */
  predicate Retried(outcome: Attempt) {
    outcome.Failed? || (outcome.HttpError? && outcome.detail.Some? && RetryableCode(outcome.code))
  }

  /** Attempt `k` is the last one made: it settled the call, none is left, or waiting is impossible. */
  predicate Decisive(config: Config, attempts: Attempts, k: nat) {
    !Retried(Effective(config, attempts, k)) || k == config.maxRetries || Delay(config, k) < 0.0
  }

  function FirstDecisive(config: Config, attempts: Attempts, from: nat): (d: nat)
    requires from <= config.maxRetries
    ensures from <= d <= config.maxRetries && Decisive(config, attempts, d)
    ensures forall j :: from <= j < d ==> !Decisive(config, attempts, j)
    decreases config.maxRetries - from
  {
    if Decisive(config, attempts, from) then from else FirstDecisive(config, attempts, from + 1)
  }

  function LastFailure(config: Config, attempts: Attempts, k: nat): Option<Attempt> {
    if k == 0 then None
    else if Retried(Effective(config, attempts, k - 1)) then Some(Effective(config, attempts, k - 1))
    else LastFailure(config, attempts, k - 1)
  }

  /** The body of the last answer among the first `k` attempts, even one that failed afterwards. */
  function LastBody(attempts: Attempts, k: nat): Option<Body> {
    if k == 0 then None else if attempts(k - 1).Answered? then Some(attempts(k - 1).body) else LastBody(attempts, k - 1)
  }

  function GiveUp(config: Config, reason: Option<Attempt>): Result {
    if config.allowFallback then Fallback(reason) else Raised(reason)
  }

  /** A body that makes reading the result raise. */
  predicate Unreadable(body: Body) {
    body.OtherBody? || (body.Dict? && !ProviderResults.Readable(body.fields))
  }

  /** After the loop: the answer, which may not be readable, or its absence. */
  function Finish(config: Config, body: Option<Body>, reconnects: seq<Event>, stream: bool, reason: Option<Attempt>): Result {
    if body.None? || body.value.NullBody? then GiveUp(config, reason)
    else if Unreadable(body.value) then Raised(None)
    else Live(body.value.fields, reconnects, stream)
  }

  /** The first decisive outcome decides; when all attempts fail, an answer left over from one of them still counts. */
  function Decide(config: Config, attempts: Attempts): Result {
    if config.maxRetries < 0 then GiveUp(config, None)
    else
      var d := FirstDecisive(config, attempts, 0);
      match Effective(config, attempts, d)
      case Answered(body) =>
        Finish(config, Some(body), Reconnects(config, attempts, d), Streams(config, d), LastFailure(config, attempts, d))
      case HttpError(code, detail) =>
        if detail.None? then Raised(None)
        else if RetryableCode(code) && d < config.maxRetries then Raised(None)
        else GiveUp(config, Some(Effective(config, attempts, d)))
      case Failed(_, _, _) =>
        if d < config.maxRetries then Raised(None)
        else Finish(config, LastBody(attempts, d + 1), [], true, Some(Effective(config, attempts, d)))
  }

  // ---------- The loop ----------

  function Sum(xs: seq<real>): real {
    if xs == [] then 0.0 else Sum(xs[..|xs| - 1]) + xs[|xs| - 1]
  }

  /** Bookkeeping of the loop before attempt `k`. */
  ghost predicate LoopState(config: Config, attempts: Attempts, k: nat, events: seq<Event>, raw: Option<Body>,
                            lastFailure: Option<Attempt>, sleeps: seq<real>)
  {
    && (forall j :: 0 <= j < k ==> !Decisive(config, attempts, j))
    && events == Reconnects(config, attempts, k)
    && lastFailure == LastFailure(config, attempts, k)
    && raw == LastBody(attempts, k)
    && |sleeps| == k
    && (forall j :: 0 <= j < k ==> sleeps[j] == Delay(config, j) >= 0.0)
  }

  /** The attempt loop of `invoke_model`; `sleeps` are the delays waited for. */
  method InvokeModel(config: Config, attempts: Attempts) returns (result: Result, sleeps: seq<real>, made: nat)
    ensures result == Decide(config, attempts)
    ensures made == if config.maxRetries < 0 then 0 else FirstDecisive(config, attempts, 0) + 1
    ensures |sleeps| == if made == 0 then 0 else made - 1
    ensures forall j :: 0 <= j < |sleeps| ==> sleeps[j] == Delay(config, j) && sleeps[j] >= 0.0
  {
    sleeps, made := [], 0;
    var events: seq<Event> := [];
    var raw: Option<Body> := None;
    var lastFailure: Option<Attempt> := None;
    while made <= config.maxRetries
      invariant config.maxRetries >= 0 ==> made <= config.maxRetries
      invariant config.maxRetries < 0 ==> made == 0
      invariant LoopState(config, attempts, made, events, raw, lastFailure, sleeps)
      decreases config.maxRetries - made
    {
      hide Delay, Streams, Finish, Attachable, AttachError;
      var attempt := made;
      made := made + 1;
      ghost var e := Effective(config, attempts, attempt);
      FirstDecisiveIs(config, attempts, attempt);
      var failure: Option<Attempt> := None;
      match attempts(attempt) {
        case Answered(body) =>
          raw := Some(body);
          if events != [] && !Attachable(body) {
            failure := Some(AttachError(config, body));
          } else {
            result := Finish(config, raw, events, Streams(config, attempt), lastFailure);
            return;
          }
        case HttpError(code, detail) =>
          if detail.None? {
            result := Raised(None);
            return;
          }
          if RetryableCode(code) {
            lastFailure := Some(attempts(attempt));
            if attempt < config.maxRetries {
              if Delay(config, attempt) < 0.0 {
                result := Raised(None);
                return;
              }
              sleeps := sleeps + [Delay(config, attempt)];
              continue;
            }
          }
          result := GiveUp(config, Some(attempts(attempt)));
          return;
        case Failed(_, _, _) =>
          failure := Some(attempts(attempt));
      }
      lastFailure := failure;
      if attempt < config.maxRetries && failure.value.transport {
        events := events + [EventOf(config, attempt, failure.value)];
        if Delay(config, attempt) < 0.0 {
          result := Raised(None);
          return;
        }
        sleeps := sleeps + [Delay(config, attempt)];
        continue;
      }
      if attempt < config.maxRetries {
        events := events + [EventOf(config, attempt, failure.value)];
        if Delay(config, attempt) < 0.0 {
          result := Raised(None);
          return;
        }
        sleeps := sleeps + [Delay(config, attempt)];
        continue;
      }
      result := Finish(config, raw, [], true, lastFailure);
      assert Retried(e);
      return;
    }
    result := Finish(config, raw, [], true, lastFailure);
  }

  lemma FirstDecisiveIs(config: Config, attempts: Attempts, k: nat)
    requires k <= config.maxRetries && forall j :: 0 <= j < k ==> !Decisive(config, attempts, j)
    ensures Decisive(config, attempts, k) ==> FirstDecisive(config, attempts, 0) == k
    ensures !Decisive(config, attempts, k) ==> k < FirstDecisive(config, attempts, 0)
  {
  }

  // ---------- Consequences ----------

  /** Attempt `k` fails in a way that is retried: a non-HTTP failure, a 429 or 5xx whose body can be read, or an answer that the log of an earlier
      non-HTTP failure cannot be attached to. */
  ghost predicate Invites(attempts: Attempts, k: nat) {
    || attempts(k).Failed?
    || (attempts(k).HttpError? && attempts(k).detail.Some? && (attempts(k).code == 429 || attempts(k).code >= 500))
    || (attempts(k).Answered? && !TakesLog(attempts(k).body) && exists i: nat :: i < k && attempts(i).Failed?)
  }

  /** A dictionary whose `streamReconnect` is absent or a dictionary. */
  ghost predicate TakesLog(body: Body) {
    match body
    case Dict(fields) => "streamReconnect" !in fields || exists log :: fields["streamReconnect"] == Obj(log)
    case _ => false
  }

  lemma TakesLogIff(body: Body)
    ensures TakesLog(body) <==> Attachable(body)
  {
    if body.Dict? && "streamReconnect" in body.fields && body.fields["streamReconnect"].Obj? {
      assert body.fields["streamReconnect"] == Obj(body.fields["streamReconnect"].fields);
    }
  }

  lemma {:induction false} ReconnectsIff(config: Config, attempts: Attempts, k: nat)
    ensures Reconnects(config, attempts, k) != [] <==> exists i: nat :: i < k && attempts(i).Failed?
  {
    if k > 0 {
      ReconnectsIff(config, attempts, k - 1);
      var e := Effective(config, attempts, k - 1);
      assert Reconnects(config, attempts, k) == Reconnects(config, attempts, k - 1) + (if e.Failed? then [EventOf(config, k - 1, e)] else []);
    }
  }

  lemma RetriedIff(config: Config, attempts: Attempts, k: nat)
    ensures Retried(Effective(config, attempts, k)) <==> Invites(attempts, k)
    ensures !Invites(attempts, k) ==> Effective(config, attempts, k) == attempts(k)
    ensures Effective(config, attempts, k).HttpError? <==> attempts(k).HttpError?
  {
    ReconnectsIff(config, attempts, k);
    if attempts(k).Answered? {
      TakesLogIff(attempts(k).body);
    }
    hide Attachable, TakesLog;
  }

  /** The powers of the backoff base. */
  ghost predicate Powers(base: real, ps: seq<real>) {
    (ps != [] ==> ps[0] == 1.0) && forall j :: 0 <= j < |ps| - 1 ==> ps[j + 1] == ps[j] * base
  }

  /** The delays are the first powers of the base, each cut to 60 seconds. */
  ghost predicate Waited(base: real, sleeps: seq<real>) {
    exists ps: seq<real> :: |ps| == |sleeps| && Powers(base, ps) && forall j :: 0 <= j < |ps| ==> sleeps[j] == if ps[j] < 60.0 then ps[j] else 60.0
  }

  lemma WaitedDelays(config: Config, sleeps: seq<real>)
    requires forall j :: 0 <= j < |sleeps| ==> sleeps[j] == Delay(config, j)
    ensures Waited(config.backoffBase, sleeps)
  {
    var ps := DelaysArePowers(config, |sleeps|);
    hide Delay;
  }

  /** Each delay is the next power of the base, cut to 60 seconds. */
  lemma {:induction false} DelaysArePowers(config: Config, n: nat) returns (ps: seq<real>)
    ensures |ps| == n && Powers(config.backoffBase, ps)
    ensures forall j :: 0 <= j < n ==> ps[j] == Pow(config.backoffBase, j)
    ensures forall j :: 0 <= j < n ==> Delay(config, j) == if ps[j] < 60.0 then ps[j] else 60.0
  {
    if n == 0 {
      ps := [];
    } else {
      var front := DelaysArePowers(config, n - 1);
      ps := front + [Pow(config.backoffBase, n - 1)];
      hide Pow, Delay;
      PowStep(config.backoffBase, n - 1);
      DelayIs(config, n - 1);
    }
  }

  lemma PowStep(base: real, n: nat)
    ensures Pow(base, n) == if n == 0 then 1.0 else Pow(base, n - 1) * base
  {
  }

  lemma DelayIs(config: Config, n: nat)
    ensures Delay(config, n) == if Pow(config.backoffBase, n) < 60.0 then Pow(config.backoffBase, n) else 60.0
  {
  }

  /** With base 2 the delays are 1, 2, 4, 8, 16 and 32 seconds, and 60 from then on. */
  lemma {:induction false} DoublingDelays(config: Config, k: nat)
    requires config.backoffBase == 2.0
    ensures k < 6 ==> Delay(config, k) == [1.0, 2.0, 4.0, 8.0, 16.0, 32.0][k]
    ensures k >= 6 ==> Delay(config, k) == 60.0
  {
    var ps := DelaysArePowers(config, k + 1);
    if k >= 6 {
      PowersGrow(ps, k);
    } else {
      FirstPowers(ps, k);
    }
    hide Delay;
  }

  lemma FirstPowers(ps: seq<real>, k: nat)
    requires Powers(2.0, ps) && k < |ps| && k <= 6
    ensures ps[k] == [1.0, 2.0, 4.0, 8.0, 16.0, 32.0, 64.0][k]
  {
    if k > 0 {
      FirstPowers(ps, k - 1);
      assert ps[k - 1 + 1] == ps[k - 1] * 2.0;
    }
  }

  lemma {:induction false} PowersGrow(ps: seq<real>, k: nat)
    requires Powers(2.0, ps) && 6 <= k < |ps|
    ensures ps[k] >= 64.0
  {
    if k == 6 {
      FirstPowers(ps, k);
    } else {
      PowersGrow(ps, k - 1);
      assert ps[k - 1 + 1] == ps[k - 1] * 2.0;
    }
  }

  /** The first `k` delays can be waited for: only the second one is negative first, and only for a negative base. */
  ghost predicate CanWait(config: Config, k: int) {
    config.backoffBase >= 0.0 || k <= 1
  }

  lemma CanWaitIff(config: Config, k: nat)
    ensures CanWait(config, k) <==> forall j: nat :: j < k ==> Delay(config, j) >= 0.0
  {
    assert Pow(config.backoffBase, 0) == 1.0;
    assert Pow(config.backoffBase, 1) == config.backoffBase * Pow(config.backoffBase, 0);
    assert Delay(config, 0) == 1.0;
    if config.backoffBase >= 0.0 {
      forall j: nat | j < k ensures Delay(config, j) >= 0.0 {
        PowNotNegative(config.backoffBase, j);
      }
    } else if k > 1 {
      assert Delay(config, 1) < 0.0;
    }
  }

  /** Answer `k` ends the loop: it comes after nothing but retried failures. */
  ghost predicate Ends(config: Config, attempts: Attempts, k: nat) {
    && k <= config.maxRetries && CanWait(config, k) && attempts(k).Answered? && !Invites(attempts, k)
    && forall j: nat :: j < k ==> Invites(attempts, j)
  }

  /** Answer `k` is left over: every attempt fails, the last with no HTTP error, and none after `k` answers. */
  ghost predicate LeftOver(config: Config, attempts: Attempts, k: nat) {
    && k <= config.maxRetries && CanWait(config, config.maxRetries) && attempts(k).Answered?
    && (forall j: nat :: j <= config.maxRetries ==> Invites(attempts, j))
    && !attempts(config.maxRetries).HttpError?
    && forall j: nat :: k < j <= config.maxRetries ==> !attempts(j).Answered?
  }

  /** Attempt `k`, after nothing but retried failures, is an HTTP error whose body cannot be read: that exception starts
      in the handler, where nothing catches it. */
  ghost predicate Unread(config: Config, attempts: Attempts, k: nat) {
    && k <= config.maxRetries && CanWait(config, k) && attempts(k).HttpError? && attempts(k).detail.None?
    && forall j: nat :: j < k ==> Invites(attempts, j)
  }

  lemma {:induction false} LastBodyIs(attempts: Attempts, k: nat, n: nat)
    requires k < n && attempts(k).Answered? && forall j: nat :: k < j < n ==> !attempts(j).Answered?
    ensures LastBody(attempts, n) == Some(attempts(k).body)
    decreases n
  {
    if k < n - 1 {
      LastBodyIs(attempts, k, n - 1);
    }
  }

  lemma {:induction false} LastBodyFrom(attempts: Attempts, n: nat) returns (k: nat)
    requires LastBody(attempts, n).Some?
    ensures k < n && attempts(k).Answered? && forall j: nat :: k < j < n ==> !attempts(j).Answered?
    ensures LastBody(attempts, n) == Some(attempts(k).body)
    decreases n
  {
    if attempts(n - 1).Answered? {
      k := n - 1;
    } else {
      k := LastBodyFrom(attempts, n - 1);
    }
  }

  /** No attempt before `k` is decisive exactly when all invite another and all their delays can be waited for. */
  lemma UndecidedIff(config: Config, attempts: Attempts, k: nat)
    requires k <= config.maxRetries
    ensures (forall j: nat :: j < k ==> !Decisive(config, attempts, j)) <==>
            CanWait(config, k) && forall j: nat :: j < k ==> Invites(attempts, j)
  {
    CanWaitIff(config, k);
    hide Invites, Effective, Delay, CanWait;
    forall j: nat | j < k ensures Decisive(config, attempts, j) <==> !Invites(attempts, j) || Delay(config, j) < 0.0 {
      RetriedIff(config, attempts, j);
    }
  }

  lemma EndsDecides(config: Config, attempts: Attempts, k: nat)
    requires Ends(config, attempts, k)
    ensures Decide(config, attempts)
            == Finish(config, Some(attempts(k).body), Reconnects(config, attempts, k), Streams(config, k), LastFailure(config, attempts, k))
  {
    UndecidedIff(config, attempts, k);
    RetriedIff(config, attempts, k);
    hide Invites, Effective, CanWait, Delay, Reconnects, Finish;
    FirstDecisiveIs(config, attempts, k);
  }

  lemma UnreadRaises(config: Config, attempts: Attempts, k: nat)
    requires Unread(config, attempts, k)
    ensures Decide(config, attempts) == Raised(None)
    ensures forall j: nat :: !Ends(config, attempts, j) && !LeftOver(config, attempts, j)
  {
    UndecidedIff(config, attempts, k);
    RetriedIff(config, attempts, k);
    assert !Invites(attempts, k);
    forall j: nat ensures !Ends(config, attempts, j) && !LeftOver(config, attempts, j) {
      assert j < k ==> Invites(attempts, j);
    }
    hide Invites, CanWait, Delay, Reconnects, Finish;
    FirstDecisiveIs(config, attempts, k);
  }

  /** An HTTP error that is neither a 429 nor a 5xx ends the call at that attempt, whatever would come after it. */
  lemma ClientErrorEnds(config: Config, attempts: Attempts, k: nat)
    requires k <= config.maxRetries && CanWait(config, k) && forall j: nat :: j < k ==> Invites(attempts, j)
    requires attempts(k).HttpError? && attempts(k).detail.Some? && attempts(k).code != 429 && attempts(k).code < 500
    ensures FirstDecisive(config, attempts, 0) == k
    ensures Decide(config, attempts) == if config.allowFallback then Fallback(Some(attempts(k))) else Raised(Some(attempts(k)))
  {
    UndecidedIff(config, attempts, k);
    RetriedIff(config, attempts, k);
    hide Effective, CanWait, Delay, Finish;
    FirstDecisiveIs(config, attempts, k);
  }

  /** A call that runs out of attempts without any answer gives up for the reason of the last one. */
  lemma ExhaustedCall(config: Config, attempts: Attempts)
    requires config.maxRetries >= 0 && CanWait(config, config.maxRetries)
    requires forall j: nat :: j <= config.maxRetries ==> Invites(attempts, j) && !attempts(j).Answered?
    ensures FirstDecisive(config, attempts, 0) == config.maxRetries
    ensures var last := attempts(config.maxRetries);
            Decide(config, attempts) == if config.allowFallback then Fallback(Some(last)) else Raised(Some(last))
  {
    var d := config.maxRetries;
    UndecidedIff(config, attempts, d);
    RetriedIff(config, attempts, d);
    assert Invites(attempts, d) && !attempts(d).Answered?;
    assert Effective(config, attempts, d) == attempts(d);
    if LastBody(attempts, d + 1).Some? {
      var k := LastBodyFrom(attempts, d + 1);
      assert false;
    }
    hide Effective, CanWait, Delay, LastBody;
    FirstDecisiveIs(config, attempts, d);
  }

  /** A null answer gives up for the reason of the attempt before it. */
  lemma NullAnswer(config: Config, attempts: Attempts, k: nat)
    requires Ends(config, attempts, k) && attempts(k).body.NullBody?
    ensures var reason := if k == 0 then None else Some(attempts(k - 1));
            k == 0 || !attempts(k - 1).Answered? ==>
              Decide(config, attempts) == if config.allowFallback then Fallback(reason) else Raised(reason)
  {
    EndsDecides(config, attempts, k);
    if k > 0 {
      RetriedIff(config, attempts, k - 1);
      assert Invites(attempts, k - 1);
      hide Invites, Decide, Retried;
      if !attempts(k - 1).Answered? {
        assert Effective(config, attempts, k - 1) == attempts(k - 1);
      }
    }
  }

  lemma LeftOverDecides(config: Config, attempts: Attempts, k: nat)
    requires LeftOver(config, attempts, k)
    ensures Decide(config, attempts)
            == Finish(config, Some(attempts(k).body), [], true, Some(Effective(config, attempts, config.maxRetries)))
  {
    var d := config.maxRetries;
    UndecidedIff(config, attempts, d);
    RetriedIff(config, attempts, d);
    LastBodyIs(attempts, k, d + 1);
    assert Invites(attempts, d);
    hide Invites, Effective, CanWait, Delay, Finish, LastBody;
    FirstDecisiveIs(config, attempts, d);
  }

  /** The call runs into a delay that cannot be waited for: with a negative base, the second one. */
  ghost predicate NegativeWait(config: Config, attempts: Attempts) {
    config.backoffBase < 0.0 && config.maxRetries >= 2 && Invites(attempts, 0) && Invites(attempts, 1)
  }

  /** Without an answer, a negative delay or an unread error the call gives up. */
  lemma OtherwiseGivesUp(config: Config, attempts: Attempts)
    requires forall k: nat :: !Ends(config, attempts, k) && !LeftOver(config, attempts, k) && !Unread(config, attempts, k)
    requires !NegativeWait(config, attempts)
    ensures exists reason :: Decide(config, attempts) == GiveUp(config, reason)
  {
    if config.maxRetries < 0 {
      assert Decide(config, attempts) == GiveUp(config, None);
    } else {
      var d := FirstDecisive(config, attempts, 0);
      UndecidedIff(config, attempts, d);
      RetriedIff(config, attempts, d);
      if d < config.maxRetries {
        NotWaiting(config, attempts, d);
      }
      assert !(attempts(d).Answered? && !Invites(attempts, d)) by {
        assert !Ends(config, attempts, d);
      }
      assert !(attempts(d).HttpError? && attempts(d).detail.None?) by {
        assert !Unread(config, attempts, d);
      }
      if !attempts(d).HttpError? {
        NothingLeft(config, attempts, d);
      }
      hide Invites, CanWait, LeftOver, Ends, Unread, LastBody, Delay, Reconnects;
      assert Decide(config, attempts) == GiveUp(config, Some(Effective(config, attempts, d)));
    }
  }

  lemma NothingLeft(config: Config, attempts: Attempts, d: nat)
    requires d == config.maxRetries && CanWait(config, d) && !attempts(d).HttpError? && forall j: nat :: j <= d ==> Invites(attempts, j)
    requires forall k: nat :: !LeftOver(config, attempts, k)
    ensures LastBody(attempts, d + 1).None?
  {
    if LastBody(attempts, d + 1).Some? {
      var k := LastBodyFrom(attempts, d + 1);
      assert LeftOver(config, attempts, k);
    }
  }

  lemma NotWaiting(config: Config, attempts: Attempts, d: nat)
    requires !NegativeWait(config, attempts) && d < config.maxRetries && CanWait(config, d)
    requires forall j: nat :: j < d ==> Invites(attempts, j)
    ensures Invites(attempts, d) ==> Delay(config, d) >= 0.0
  {
    CanWaitIff(config, d + 1);
  }

  lemma NegativeWaitRaises(config: Config, attempts: Attempts)
    requires NegativeWait(config, attempts)
    ensures Decide(config, attempts) == Raised(None)
    ensures forall k: nat :: !Ends(config, attempts, k) && !LeftOver(config, attempts, k)
  {
    UndecidedIff(config, attempts, 1);
    RetriedIff(config, attempts, 1);
    CanWaitIff(config, 2);
    CanWaitIff(config, 1);
    hide Invites, Effective;
    FirstDecisiveIs(config, attempts, 1);
  }

  /** The answer that counts settles the call. */
  lemma CountedAnswerDecides(config: Config, attempts: Attempts, k: nat)
    requires Ends(config, attempts, k) || LeftOver(config, attempts, k)
    ensures var body, result := attempts(k).body, Decide(config, attempts);
            && (body.NullBody? ==> exists reason :: result == GiveUp(config, reason))
            && (Unreadable(body) ==> result == Raised(None))
            && (body.Dict? && !Unreadable(body) ==>
                  result == if Invites(attempts, k) then Live(body.fields, [], true)
                            else Live(body.fields, Reconnects(config, attempts, k), k == 0 || !config.deepseek))
  {
    hide Decide, Reconnects, ProviderResults.Readable;
    if Ends(config, attempts, k) {
      EndsDecides(config, attempts, k);
      assert attempts(k).body.NullBody? ==> Decide(config, attempts) == GiveUp(config, LastFailure(config, attempts, k));
    } else {
      LeftOverDecides(config, attempts, k);
      assert Invites(attempts, k);
      assert attempts(k).body.NullBody? ==>
               Decide(config, attempts) == GiveUp(config, Some(Effective(config, attempts, config.maxRetries)));
    }
  }

  /** Attempt `k` answers, and its answer is what the call ends with. */
  ghost predicate Counts(config: Config, attempts: Attempts, k: nat) {
    attempts(k).Answered? && (Ends(config, attempts, k) || LeftOver(config, attempts, k))
  }

  lemma NobodyCounts(config: Config, attempts: Attempts)
    requires forall k: nat :: !Counts(config, attempts, k)
    ensures forall k: nat :: !Ends(config, attempts, k) && !LeftOver(config, attempts, k)
  {
    assert forall k: nat :: Ends(config, attempts, k) || LeftOver(config, attempts, k) ==> Counts(config, attempts, k);
  }

  /** A live result comes back exactly when the answer that counts can be read; it carries that answer. */
  lemma LiveIff(config: Config, attempts: Attempts)
    ensures Decide(config, attempts).Live? <==>
            exists k: nat :: Counts(config, attempts, k) && attempts(k).body.Dict? && ProviderResults.Readable(attempts(k).body.fields)
    ensures forall k: nat :: Counts(config, attempts, k) && Decide(config, attempts).Live? ==>
              attempts(k).body.Dict?
              && Decide(config, attempts) == if Invites(attempts, k) then Live(attempts(k).body.fields, [], true)
                                             else Live(attempts(k).body.fields, Reconnects(config, attempts, k), k == 0 || !config.deepseek)
  {
    hide Ends, LeftOver, Unread, Decide, Reconnects, NegativeWait, Invites, ProviderResults.Readable;
    forall k: nat | Counts(config, attempts, k)
      ensures var body, result := attempts(k).body, Decide(config, attempts);
              && (result.Live? <==> body.Dict? && !Unreadable(body))
              && (result.Live? ==> result == if Invites(attempts, k) then Live(body.fields, [], true)
                                             else Live(body.fields, Reconnects(config, attempts, k), k == 0 || !config.deepseek))
    {
      CountedAnswerDecides(config, attempts, k);
    }
    if k: nat :| Unread(config, attempts, k) {
      UnreadRaises(config, attempts, k);
    } else if forall k: nat :: !Counts(config, attempts, k) {
      if NegativeWait(config, attempts) {
        NegativeWaitRaises(config, attempts);
      } else {
        NobodyCounts(config, attempts);
        OtherwiseGivesUp(config, attempts);
      }
    }
  }

  /** With fallback allowed the call still raises exactly when it runs into a negative delay, into an HTTP error whose body
      cannot be read, or when the answer that counts cannot be read. */
  lemma RaisesIff(config: Config, attempts: Attempts)
    requires config.allowFallback
    ensures Decide(config, attempts).Raised? <==>
            || (config.backoffBase < 0.0 && config.maxRetries >= 2 && Invites(attempts, 0) && Invites(attempts, 1))
            || (exists k: nat :: Unread(config, attempts, k))
            || exists k: nat :: Counts(config, attempts, k) && Unreadable(attempts(k).body)
  {
    assert NegativeWait(config, attempts) <==>
           config.backoffBase < 0.0 && config.maxRetries >= 2 && Invites(attempts, 0) && Invites(attempts, 1);
    hide Ends, LeftOver, Unread, Decide, Reconnects, NegativeWait, Invites, ProviderResults.Readable;
    forall k: nat | Counts(config, attempts, k)
      ensures Decide(config, attempts).Raised? <==> Unreadable(attempts(k).body)
    {
      CountedAnswerDecides(config, attempts, k);
    }
    if k: nat :| Unread(config, attempts, k) {
      UnreadRaises(config, attempts, k);
    } else if NegativeWait(config, attempts) {
      NegativeWaitRaises(config, attempts);
    } else if forall k: nat :: !Counts(config, attempts, k) {
      NobodyCounts(config, attempts);
      OtherwiseGivesUp(config, attempts);
    }
  }

  /** In particular it never raises with a backoff base that is not negative, error bodies that can be read, and answers that
      can be read or are null. */
  lemma NeverRaises(config: Config, attempts: Attempts)
    requires config.allowFallback && config.backoffBase >= 0.0
    requires forall k: nat :: attempts(k).HttpError? ==> attempts(k).detail.Some?
    requires forall k: nat :: attempts(k).Answered? ==> !Unreadable(attempts(k).body)
    ensures !Decide(config, attempts).Raised?
  {
    RaisesIff(config, attempts);
    hide Unreadable, Decide;
  }

  /** An answer can count although every attempt failed: its `streamReconnect` is no dictionary, so it fails after the first
      failure, and is read after the last. */
  lemma LeftOverExists(describe: Body -> string, failure: Attempt)
    requires failure.Failed?
    ensures var config := Config(2, 2.0, true, false, describe);
            var body: Fields := map["streamReconnect" := Null];
            var attempts: Attempts := k => if k == 1 then Answered(Dict(body)) else failure;
            LeftOver(config, attempts, 1) && Decide(config, attempts) == Live(body, [], true)
  {
    var config := Config(2, 2.0, true, false, describe);
    var body: Fields := map["streamReconnect" := Null];
    var attempts: Attempts := k => if k == 1 then Answered(Dict(body)) else failure;
    assert attempts(0).Failed?;
    forall j: nat | j <= 2 ensures Invites(attempts, j) {
      assert 0 < 1 && attempts(0).Failed?;
    }
    LeftOverDecides(config, attempts, 1);
  }

  /** However long the backoff base, the delays of one call add up to at most 60 seconds for each retry made. */
  lemma {:induction false} TotalDelayBound(config: Config, sleeps: seq<real>)
    requires forall j :: 0 <= j < |sleeps| ==> sleeps[j] == Delay(config, j)
    ensures Sum(sleeps) <= 60.0 * |sleeps| as real
  {
    if sleeps != [] {
      TotalDelayBound(config, sleeps[..|sleeps| - 1]);
    }
  }

  lemma {:induction false} PowNotNegative(b: real, n: nat)
    requires b >= 0.0
    ensures Pow(b, n) >= 0.0
  {
    if n > 0 {
      PowNotNegative(b, n - 1);
    }
  }

  /** The event of an attempt before `k` that failed without an HTTP error, or whose answer could not take the log. */
  ghost predicate Logs(config: Config, attempts: Attempts, e: Event, k: nat) {
    && e.attempt < k && e.stream == (e.attempt == 0 || !config.deepseek)
    && match attempts(e.attempt)
       case Failed(errorType, message, _) => e.errorType == errorType && e.message == message
       case Answered(body) =>
         && Invites(attempts, e.attempt) && e.message == config.describe(body)
         && e.errorType == if body.Dict? then "TypeError" else "AttributeError"
       case HttpError(_, _) => false
  }

  ghost predicate Logged(log: seq<Event>, attempt: nat) {
    exists i :: 0 <= i < |log| && log[i].attempt == attempt
  }

  lemma EventLogs(config: Config, attempts: Attempts, k: nat)
    ensures var e := Effective(config, attempts, k);
            && (e.Failed? <==> Invites(attempts, k) && !attempts(k).HttpError?)
            && (e.Failed? ==> Logs(config, attempts, EventOf(config, k, e), k + 1) && EventOf(config, k, e).attempt == k)
  {
    RetriedIff(config, attempts, k);
    hide Attachable, TakesLog, Reconnects;
  }

  /** The reconnect log lists the non-HTTP failures before attempt `k`, each once, in order. */
  lemma {:induction false} ReconnectsAreTheFailures(config: Config, attempts: Attempts, k: nat)
    ensures forall i :: 0 <= i < |Reconnects(config, attempts, k)| ==> Logs(config, attempts, Reconnects(config, attempts, k)[i], k)
    ensures forall i, j :: 0 <= i < j < |Reconnects(config, attempts, k)| ==>
              Reconnects(config, attempts, k)[i].attempt < Reconnects(config, attempts, k)[j].attempt
    ensures forall a: nat :: a < k && Invites(attempts, a) && !attempts(a).HttpError? ==> Logged(Reconnects(config, attempts, k), a)
  {
    if k > 0 {
      ReconnectsAreTheFailures(config, attempts, k - 1);
      var log := Reconnects(config, attempts, k);
      var e := Effective(config, attempts, k - 1);
      EventLogs(config, attempts, k - 1);
      hide Effective, Invites, TakesLog, EventOf;
      assert log == Reconnects(config, attempts, k - 1) + (if e.Failed? then [EventOf(config, k - 1, e)] else []);
      hide Reconnects;
      LogGrows(config, attempts, Reconnects(config, attempts, k - 1), log, k - 1);
    }
  }

  /** The log `after` covers one attempt more. */
  lemma LogGrows(config: Config, attempts: Attempts, before: seq<Event>, after: seq<Event>, k: nat)
    requires forall i :: 0 <= i < |before| ==> Logs(config, attempts, before[i], k)
    requires forall i, j :: 0 <= i < j < |before| ==> before[i].attempt < before[j].attempt
    requires forall a: nat :: a < k && Invites(attempts, a) && !attempts(a).HttpError? ==> Logged(before, a)
    requires if Invites(attempts, k) && !attempts(k).HttpError? then
               exists e :: after == before + [e] && Logs(config, attempts, e, k + 1) && e.attempt == k
             else after == before
    ensures forall i :: 0 <= i < |after| ==> Logs(config, attempts, after[i], k + 1)
    ensures forall i, j :: 0 <= i < j < |after| ==> after[i].attempt < after[j].attempt
    ensures forall a: nat :: a < k + 1 && Invites(attempts, a) && !attempts(a).HttpError? ==> Logged(after, a)
  {
    hide Invites;
    assert forall i :: 0 <= i < |before| ==> after[i] == before[i] && before[i].attempt < k;
    forall a: nat | a < k + 1 && Invites(attempts, a) && !attempts(a).HttpError? ensures Logged(after, a) {
      if a == k {
        assert after[|before|].attempt == a;
      } else {
        assert Logged(before, a);
        var i :| 0 <= i < |before| && before[i].attempt == a;
        assert after[i].attempt == a;
      }
    }
  }
}
