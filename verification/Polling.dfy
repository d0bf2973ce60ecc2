/** The claim loop of the task service, against any sequence of answers, and the retry of lifecycle
    reports. Durations are in nanoseconds. */
module Polling {
  import opened Wrappers

  const SECOND: int := 1_000_000_000
  const MAX_BACKOFF: int := 15 * SECOND

  /** The answer to one claim: a task or none, a 401 or 403, a 404 or 409, another status, or no answer. */
  datatype Claim = Success(task: string) | AuthError | StateConflict | OtherStatus | NetworkError

  /** What one iteration meets: whether the context has ended at its start, the answers to the claim and to
      its retry, and whether a sleep runs its full time. */
  datatype Iteration = Iteration(ctxDone: bool, first: Claim, retry: Claim, slept: bool)

  datatype Action = ClaimTask | HandleSnapshot | DispatchTask(task: string) | Sleep(duration: int)

  datatype Exit = Cancelled | Unauthorized

  function Min(a: int, b: int): int {
    if a < b then a else b
  }

  /** The answer that counts: after an auth error, that of the one retry. */
  function Answer(it: Iteration): Claim {
    if it.first == AuthError then it.retry else it.first
  }

  function EndOf(it: Iteration): Option<Exit> {
    if it.ctxDone then Some(Cancelled)
    else match Answer(it)
      case AuthError => Some(Unauthorized)
      case NetworkError => if it.slept then None else Some(Cancelled)
      case OtherStatus => if it.slept then None else Some(Cancelled)
      case _ => None
  }

  /** What an iteration does after its claims. */
  function Rest(it: Iteration, backoff: int, period: int): seq<Action> {
    match Answer(it)
    case Success(task) => if task == "" then [HandleSnapshot] else [HandleSnapshot, DispatchTask(task)]
    case NetworkError => [Sleep(backoff)]
    case OtherStatus => [Sleep(Min(period / 3, 2 * SECOND))]
    case _ => []
  }

  function Actions(it: Iteration, backoff: int, period: int): seq<Action> {
    if it.ctxDone then []
    else (if it.first == AuthError then [ClaimTask, ClaimTask] else [ClaimTask]) + Rest(it, backoff, period)
  }

  function NextBackoff(backoff: int, it: Iteration): int {
    match Answer(it)
    case Success(_) => SECOND
    case NetworkError => Min(backoff * 2, MAX_BACKOFF)
    case _ => backoff
  }

  /** The value of `networkBackoff` after these iterations. */
  function BackoffAfter(its: seq<Iteration>): int {
    if its == [] then SECOND else NextBackoff(BackoffAfter(its[..|its| - 1]), its[|its| - 1])
  }

  function LogOf(its: seq<Iteration>, period: int): seq<Action> {
    if its == [] then []
    else LogOf(its[..|its| - 1], period) + Actions(its[|its| - 1], BackoffAfter(its[..|its| - 1]), period)
  }

  function Period(period: int): int {
    if period <= 0 then 15 * SECOND else period
  }

  /** The body of the loop. */
  method Iterate(it: Iteration, backoff: int, wait: int) returns (actions: seq<Action>, next: int, exit: Option<Exit>)
    ensures actions == Actions(it, backoff, wait)
    ensures exit == EndOf(it)
    ensures exit == None ==> next == NextBackoff(backoff, it)
  {
    actions, next, exit := [], backoff, None;
    if it.ctxDone {
      return [], backoff, Some(Cancelled);
    }
    actions := actions + [ClaimTask];
    var response := it.first;
    if response == AuthError {
      actions := actions + [ClaimTask];
      response := it.retry;
    }
    if response == AuthError {
      return actions, backoff, Some(Unauthorized);
    }
    if response == StateConflict {
      return;
    }
    if response == NetworkError {
      actions := actions + [Sleep(backoff)];
      if !it.slept {
        return actions, backoff, Some(Cancelled);
      }
      next := Min(backoff * 2, MAX_BACKOFF);
      return;
    }
    if response == OtherStatus {
      actions := actions + [Sleep(Min(wait / 3, 2 * SECOND))];
      if !it.slept {
        return actions, backoff, Some(Cancelled);
      }
      return;
    }
    next := SECOND;
    actions := actions + [HandleSnapshot];
    if response.task == "" {
      return;
    }
    actions := actions + [DispatchTask(response.task)];
  }

  /** The loop runs through the iterations up to and with the first that ends it. */
  method PollTasks(period: int, script: seq<Iteration>) returns (log: seq<Action>, n: nat, exit: Option<Exit>)
    ensures n <= |script| && log == LogOf(script[..n], Period(period))
    ensures forall i :: 0 <= i < n - 1 ==> EndOf(script[i]) == None
    ensures exit == None ==> n == |script| && (n > 0 ==> EndOf(script[n - 1]) == None)
    ensures exit == Some(Unauthorized) <==>
      n > 0 && !script[n - 1].ctxDone && script[n - 1].first == AuthError && script[n - 1].retry == AuthError
    ensures exit == Some(Cancelled) <==>
      n > 0 && (script[n - 1].ctxDone || (Answer(script[n - 1]) in {NetworkError, OtherStatus} && !script[n - 1].slept))
    ensures |log| == Place(script[..n])
    ensures var wait := if period <= 0 then 15_000_000_000 else period;
      forall k: nat, a :: k < |log| ==> (log[k] == a <==> SomeActsAt(script[..n], wait, k, a))
    ensures Dispatched(log) == Claimed(script[..n])
    ensures Claims(log) == Started(script[..n]) + AuthRetries(script[..n]) <= 2 * Started(script[..n])
  {
    hide Actions, EndOf, NextBackoff, LogOf, BackoffAfter, SomeActsAt, Place, Claims, Started, AuthRetries,
      Dispatched, Claimed;
    var wait := period;
    if wait <= 0 {
      wait := 15 * SECOND;
    }
    var networkBackoff := SECOND;
    log, n, exit := [], 0, None;
    LogStart(wait);
    assert script[..0] == [];
    while n < |script| && exit == None
      invariant n <= |script| && log == LogOf(script[..n], wait)
      invariant exit == None ==> networkBackoff == BackoffAfter(script[..n])
      invariant forall i :: 0 <= i < n - 1 ==> EndOf(script[i]) == None
      invariant exit == (if n == 0 then None else EndOf(script[n - 1]))
      decreases |script| - n
    {
      LogStep(script, n, wait);
      var actions, next, end := Iterate(script[n], networkBackoff, wait);
      log, networkBackoff, exit, n := log + actions, next, end, n + 1;
    }
    ActionsAre(script[..n], wait);
    DispatchedIsClaimed(script[..n], wait);
    ClaimsAreCounted(script[..n], wait);
    if n > 0 { EndMeans(script[n - 1]); }
  }

  lemma EndMeans(it: Iteration)
    ensures EndOf(it) == Some(Unauthorized) <==> !it.ctxDone && it.first == AuthError && it.retry == AuthError
    ensures EndOf(it) == Some(Cancelled) <==>
      it.ctxDone || (Answer(it) in {NetworkError, OtherStatus} && !it.slept)
  {}

  lemma LogStart(period: int)
    ensures LogOf([], period) == [] && BackoffAfter([]) == SECOND
  {}

  lemma LogStep(script: seq<Iteration>, n: nat, period: int)
    requires n < |script|
    ensures LogOf(script[..n + 1], period) ==
      LogOf(script[..n], period) + Actions(script[n], BackoffAfter(script[..n]), period)
    ensures BackoffAfter(script[..n + 1]) == NextBackoff(BackoffAfter(script[..n]), script[n])
  {
    assert script[..n + 1][..n] == script[..n];
  }

  // ---- Backoff ----

  /** The network errors since the last successful claim; other answers do not count and do not reset. */
  function NetworkErrors(its: seq<Iteration>): nat {
    if its == [] then 0
    else match Answer(its[|its| - 1])
      case Success(_) => 0
      case NetworkError => NetworkErrors(its[..|its| - 1]) + 1
      case _ => NetworkErrors(its[..|its| - 1])
  }

  function Pow2(k: nat): nat {
    if k == 0 then 1 else 2 * Pow2(k - 1)
  }

  /** The delay doubles with every network error since the last successful claim, up to 15 seconds. */
  lemma {:induction false} BackoffFormula(its: seq<Iteration>)
    ensures BackoffAfter(its) == Min(Pow2(NetworkErrors(its)), 15) * SECOND
  {
    if its != [] {
      BackoffFormula(its[..|its| - 1]);
    }
  }

  // ---- What is in the log, and where ----

  /** How many actions an iteration takes: its claims, and then a snapshot and a dispatch, or a sleep. */
  function Width(it: Iteration): nat {
    if it.ctxDone then 0
    else
      var claims := if it.first == AuthError then 2 else 1;
      match if it.first == AuthError then it.retry else it.first
      case Success(task) => claims + if task == "" then 1 else 2
      case NetworkError => claims + 1
      case OtherStatus => claims + 1
      case _ => claims
  }

  /** The place in the log at which the iteration after these begins. */
  function Place(its: seq<Iteration>): nat {
    if its == [] then 0 else Place(its[..|its| - 1]) + Width(its[|its| - 1])
  }

  /** What an iteration does as its action `k`. The answer that counts is that of the retry after an auth error:
      a success is followed by one snapshot and, if it brought a task, by its dispatch; a network error by a
      sleep for `delay`, and another status by one for a third of the period but at most two seconds. */
  predicate DoesAt(it: Iteration, delay: int, period: int, k: int, a: Action) {
    var claims := if it.first == AuthError then 2 else 1;
    var answer := if it.first == AuthError then it.retry else it.first;
    && !it.ctxDone
    && match a
       case ClaimTask => 0 <= k < claims
       case HandleSnapshot => answer.Success? && k == claims
       case DispatchTask(task) => answer == Success(task) && task != "" && k == claims + 1
       case Sleep(d) =>
         && k == claims
         && ((answer == NetworkError && d == delay) || (answer == OtherStatus && d == Min(period / 3, 2 * SECOND)))
  }

  /** Iteration `i` does `a` as action `k` of the log. The delay after a network error is 2^e seconds but at most
      15, where e counts the network errors before it since the last successful claim. */
  ghost predicate ActionAt(its: seq<Iteration>, i: int, period: int, k: int, a: Action) {
    && 0 <= i < |its|
    && DoesAt(its[i], Min(Pow2(NetworkErrors(its[..i])), 15) * SECOND, period, k - Place(its[..i]), a)
  }

  ghost predicate SomeActsAt(its: seq<Iteration>, period: int, k: int, a: Action) {
    exists i :: ActionAt(its, i, period, k, a)
  }

  lemma ActionOf(it: Iteration, backoff: int, period: int)
    ensures var actions := Actions(it, backoff, period);
      && |actions| == Width(it)
      && forall k: nat, a :: k < |actions| ==> (actions[k] == a <==> DoesAt(it, backoff, period, k, a))
  {
    var actions := Actions(it, backoff, period);
    forall k: nat, a | k < |actions| ensures actions[k] == a <==> DoesAt(it, backoff, period, k, a) {
      OneActionOf(it, backoff, period, k, a);
    }
  }

  lemma OneActionOf(it: Iteration, backoff: int, period: int, k: nat, a: Action)
    requires k < |Actions(it, backoff, period)|
    ensures Actions(it, backoff, period)[k] == a <==> DoesAt(it, backoff, period, k, a)
  {}

  lemma DoesWithin(it: Iteration, delay: int, period: int, k: int, a: Action)
    ensures DoesAt(it, delay, period, k, a) ==> 0 <= k < Width(it)
  {}

  lemma {:induction false} PlaceGrows(its: seq<Iteration>, i: nat)
    requires i <= |its|
    ensures Place(its[..i]) <= Place(its)
    decreases |its|
  {
    hide Width;
    if i == |its| {
      assert its[..i] == its;
    } else {
      assert its[..|its| - 1][..i] == its[..i];
      PlaceGrows(its[..|its| - 1], i);
    }
  }

  lemma PlaceStep(its: seq<Iteration>, i: nat)
    requires i < |its|
    ensures Place(its[..i + 1]) == Place(its[..i]) + Width(its[i])
  {
    assert its[..i + 1][..i] == its[..i];
  }

  /** Iteration `i` acts only within its own stretch of the log. */
  lemma ActsWithin(its: seq<Iteration>, i: int, period: int, k: int, a: Action)
    requires ActionAt(its, i, period, k, a)
    ensures Place(its[..i]) <= k < Place(its[..i + 1]) <= Place(its)
  {
    hide DoesAt, Width, Place, NetworkErrors, Pow2, Min;
    DoesWithin(its[i], Min(Pow2(NetworkErrors(its[..i])), 15) * SECOND, period, k - Place(its[..i]), a);
    PlaceStep(its, i);
    PlaceGrows(its, i + 1);
  }

  lemma ActsInFront(its: seq<Iteration>, before: seq<Iteration>, i: int, period: int, k: int, a: Action)
    requires its != [] && before == its[..|its| - 1] && i < |before|
    ensures ActionAt(its, i, period, k, a) <==> ActionAt(before, i, period, k, a)
  {
    if 0 <= i { assert before[..i] == its[..i]; }
  }

  /** The log, action by action: each is done by some iteration at its place, and all that the iterations do is
      in it. */
  lemma {:induction false} ActionsAre(its: seq<Iteration>, period: int)
    ensures |LogOf(its, period)| == Place(its)
    ensures forall k: nat, a :: k < |LogOf(its, period)| ==>
      (LogOf(its, period)[k] == a <==> SomeActsAt(its, period, k, a))
  {
    hide SomeActsAt, Actions, BackoffAfter, Width;
    if its != [] {
      var before := its[..|its| - 1];
      ActionsAre(before, period);
      ActionOf(its[|before|], BackoffAfter(before), period);
      LogStep(its, |before|, period);
      assert its[..|before| + 1] == its;
      hide LogOf, Place;
      PlaceStep(its, |before|);
      forall k: nat, a | k < |LogOf(its, period)|
        ensures LogOf(its, period)[k] == a <==> SomeActsAt(its, period, k, a)
      {
        if k < |LogOf(before, period)| {
          FrontActs(its, before, period, k, a);
        } else {
          LastActs(its, before, period, k, a);
        }
      }
    }
  }

  lemma FrontActs(its: seq<Iteration>, before: seq<Iteration>, period: int, k: nat, a: Action)
    requires its != [] && before == its[..|its| - 1] && k < Place(before)
    ensures (SomeActsAt(its, period, k, a)) <==> SomeActsAt(before, period, k, a)
  {
    hide ActionAt, Place;
    forall i | i < |before| ensures ActionAt(its, i, period, k, a) <==> ActionAt(before, i, period, k, a) {
      ActsInFront(its, before, i, period, k, a);
    }
    forall i | i >= |before| ensures !ActionAt(its, i, period, k, a) && !ActionAt(before, i, period, k, a) {
      NotLater(its, before, i, period, k, a);
    }
  }

  lemma NotLater(its: seq<Iteration>, before: seq<Iteration>, i: int, period: int, k: nat, a: Action)
    requires its != [] && before == its[..|its| - 1] && k < Place(before) && i >= |before|
    ensures !ActionAt(its, i, period, k, a) && !ActionAt(before, i, period, k, a)
  {
    if ActionAt(its, i, period, k, a) { ActsWithin(its, i, period, k, a); }
  }

  lemma LastActs(its: seq<Iteration>, before: seq<Iteration>, period: int, k: nat, a: Action)
    requires its != [] && before == its[..|its| - 1] && Place(before) <= k < |LogOf(its, period)|
    requires |LogOf(before, period)| == Place(before)
    ensures LogOf(its, period)[k] == a <==> SomeActsAt(its, period, k, a)
  {
    hide LogOf, Actions, BackoffAfter, NetworkErrors, Min, Pow2, Width, Place, DoesAt;
    var n := |before|;
    LogStep(its, n, period);
    assert its[..n + 1] == its;
    BackoffFormula(before);
    ActionOf(its[n], BackoffAfter(before), period);
    assert LogOf(its, period)[k] == a <==> ActionAt(its, n, period, k, a);
    forall i | i != n ensures !ActionAt(its, i, period, k, a) {
      if ActionAt(its, i, period, k, a) {
        ActsInFront(its, before, i, period, k, a);
        ActsWithin(before, i, period, k, a);
      }
    }
  }

  /** The tasks that a log dispatches, in order. */
  function Dispatched(log: seq<Action>): seq<string> {
    if log == [] then []
    else Dispatched(log[..|log| - 1]) + if log[|log| - 1].DispatchTask? then [log[|log| - 1].task] else []
  }

  /** The tasks that were claimed, in order. */
  function Claimed(its: seq<Iteration>): seq<string> {
    if its == [] then []
    else
      var it := its[|its| - 1];
      var answer := if it.first == AuthError then it.retry else it.first;
      Claimed(its[..|its| - 1]) + if !it.ctxDone && answer.Success? && answer.task != "" then [answer.task] else []
  }

  lemma {:induction false} DispatchedAppend(a: seq<Action>, b: seq<Action>)
    ensures Dispatched(a + b) == Dispatched(a) + Dispatched(b)
  {
    if b == [] {
      assert a + b == a;
    } else {
      assert (a + b)[..|a + b| - 1] == a + b[..|b| - 1];
      DispatchedAppend(a, b[..|b| - 1]);
    }
  }

  lemma DispatchedOf(it: Iteration, backoff: int, period: int)
    ensures var answer := if it.first == AuthError then it.retry else it.first;
      Dispatched(Actions(it, backoff, period)) ==
        if !it.ctxDone && answer.Success? && answer.task != "" then [answer.task] else []
  {
    var claims := if it.first == AuthError then [ClaimTask, ClaimTask] else [ClaimTask];
    NoDispatch([]);
    if !it.ctxDone {
      NoDispatch(claims);
      DispatchedAppend(claims, Rest(it, backoff, period));
      RestDispatches(it, backoff, period);
    }
  }

  lemma {:induction false} NoDispatch(log: seq<Action>)
    requires forall k :: 0 <= k < |log| ==> !log[k].DispatchTask?
    ensures Dispatched(log) == []
  {
    if log != [] { NoDispatch(log[..|log| - 1]); }
  }

  lemma RestDispatches(it: Iteration, backoff: int, period: int)
    ensures Dispatched(Rest(it, backoff, period)) ==
      if Answer(it).Success? && Answer(it).task != "" then [Answer(it).task] else []
  {
    var rest := Rest(it, backoff, period);
    if |rest| == 2 {
      NoDispatch(rest[..1]);
    } else {
      NoDispatch(rest);
    }
  }

  /** Every task that was claimed is dispatched, once and in order, and no other. */
  lemma {:induction false} DispatchedIsClaimed(its: seq<Iteration>, period: int)
    ensures Dispatched(LogOf(its, period)) == Claimed(its)
  {
    hide Actions, BackoffAfter, Dispatched;
    if its != [] {
      var before := its[..|its| - 1];
      DispatchedIsClaimed(before, period);
      DispatchedAppend(LogOf(before, period), Actions(its[|before|], BackoffAfter(before), period));
      DispatchedOf(its[|before|], BackoffAfter(before), period);
    } else {
      NoDispatch([]);
    }
  }

  function Claims(log: seq<Action>): nat {
    if log == [] then 0 else Claims(log[..|log| - 1]) + if log[|log| - 1] == ClaimTask then 1 else 0
  }

  lemma {:induction false} ClaimsAppend(a: seq<Action>, b: seq<Action>)
    ensures Claims(a + b) == Claims(a) + Claims(b)
  {
    if b == [] {
      assert a + b == a;
    } else {
      assert (a + b)[..|a + b| - 1] == a + b[..|b| - 1];
      ClaimsAppend(a, b[..|b| - 1]);
    }
  }

  function AuthRetries(its: seq<Iteration>): nat {
    if its == [] then 0
    else
      var it := its[|its| - 1];
      AuthRetries(its[..|its| - 1]) + if !it.ctxDone && it.first == AuthError then 1 else 0
  }

  function Started(its: seq<Iteration>): nat {
    if its == [] then 0 else Started(its[..|its| - 1]) + if its[|its| - 1].ctxDone then 0 else 1
  }

  /** One claim for every iteration that starts, and one more for every auth error: never more than two. */
  lemma {:induction false} ClaimsAreCounted(its: seq<Iteration>, period: int)
    ensures Claims(LogOf(its, period)) == Started(its) + AuthRetries(its)
    ensures AuthRetries(its) <= Started(its) <= |its|
  {
    if its != [] {
      var before := its[..|its| - 1];
      ClaimsAreCounted(before, period);
      hide Actions, BackoffAfter;
      var last := Actions(its[|its| - 1], BackoffAfter(before), period);
      ClaimsAppend(LogOf(before, period), last);
      ClaimsOf(its[|its| - 1], BackoffAfter(before), period);
    }
  }

  lemma {:induction false} NoClaims(log: seq<Action>)
    requires ClaimTask !in log
    ensures Claims(log) == 0
  {
    if log != [] { NoClaims(log[..|log| - 1]); }
  }

  lemma OneClaim()
    ensures Claims([ClaimTask]) == 1 && Claims([ClaimTask, ClaimTask]) == 2
  {
    assert [ClaimTask][..0] == [] && [ClaimTask, ClaimTask][..1] == [ClaimTask];
  }

  lemma ClaimsOf(it: Iteration, backoff: int, period: int)
    ensures Claims(Actions(it, backoff, period)) ==
      if it.ctxDone then 0 else if it.first == AuthError then 2 else 1
  {
    OneClaim();
    NoClaims([]);
    RestIsNoClaim(it, backoff, period);
    hide Claims, Rest;
    NoClaims(Rest(it, backoff, period));
    ClaimsAppend(if it.first == AuthError then [ClaimTask, ClaimTask] else [ClaimTask], Rest(it, backoff, period));
  }

  lemma RestIsNoClaim(it: Iteration, backoff: int, period: int)
    ensures ClaimTask !in Rest(it, backoff, period)
  {}

  // ---- Lifecycle reports ----

  const RETRY_ATTEMPTS: nat := 4

  /** The result of one report: accepted, refused because the task still counts as queued, or refused. */
  datatype Report = Accepted | QueuedConflict | Refused(code: int)

  datatype Reported = Final(report: Report) | CtxError

  /** `withQueuedStateRetry` against any answers: `answers(k)` to attempt k, and `live(k)` says that the
      context is live before and through the pause after it. Only a queued-state conflict is repeated, at
      most three times, and the answer given back is that of the last attempt. */
  method WithQueuedStateRetry(answers: nat -> Report, live: nat -> bool) returns (r: Reported, attempts: nat)
    ensures 1 <= attempts <= 4
    ensures forall k: nat :: 1 <= k < attempts ==> answers(k) == QueuedConflict && live(k)
    ensures r.Final? ==> r.report == answers(attempts)
    ensures r == CtxError <==> attempts < 4 && answers(attempts) == QueuedConflict && !live(attempts)
    ensures r.Final? <==> answers(attempts) != QueuedConflict || attempts == 4
  {
    attempts := 1;
    while true
      invariant 1 <= attempts <= RETRY_ATTEMPTS
      invariant forall k: nat :: 1 <= k < attempts ==> answers(k) == QueuedConflict && live(k)
      decreases RETRY_ATTEMPTS - attempts
    {
      var err := answers(attempts);
      if err != QueuedConflict {
        return Final(err), attempts;
      }
      if attempts == RETRY_ATTEMPTS {
        return Final(err), attempts;
      }
      if !live(attempts) {
        return CtxError, attempts;
      }
      attempts := attempts + 1;
    }
  }
}
