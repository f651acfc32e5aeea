/**
 * get_service_authtype: find the auth type of a service by posting a
 * dummy request for every known API version in turn until a reply
 * names one. The network, the retry policy's decisions, the wait it
 * asks for and the dummy request are parameters of the environment.
 */
module AuthProbe {
  import opened Common
  import opened Transport

  /** The message raised when no version gets an auth type out of the service. */
  const NO_AUTH_TYPE_FOUND: string := "Failed to get auth type from service"

  /** What one POST gives: a reply, or a connection error with its message. */
  datatype Attempt = Reply(status: int, headers: seq<Header>) | ConnectionFailure(message: string)

  /**
   * The world the probe runs in: the versions to try, the outcome of the
   * n-th POST, whether the retry policy lets the k-th retry happen, a
   * retry count by which it has stopped doing so, the wait it asks for
   * and the dummy request built for an API version hint.
   */
  datatype Env = Env(versions: seq<string>, net: nat -> Attempt, mayRetry: nat -> bool, bound: nat,
                     retryWait: nat, dummyFor: string -> string)

  /** The retry policy gives up at the latest at retry number bound. */
  predicate Bounded(env: Env)
  {
    !env.mayRetry(env.bound)
  }

  /** What the probe does, in order. */
  datatype Event = HintSet(version: string) | Posted(data: string) | BackedOff(seconds: nat)

  datatype Run = Run(result: Result<AuthType>, trace: seq<Event>)

  function Prepend(pre: seq<Event>, r: Run): Run
  {
    Run(r.result, pre + r.trace)
  }

  /** The probe from version index vi on, n POSTs and retry retries already made. */
  function FromVersion(env: Env, vi: nat, n: nat, retry: nat): Run
    requires Bounded(env) && vi <= |env.versions| && retry <= env.bound
    decreases |env.versions| - vi, env.bound - retry, 2
  {
    if vi == |env.versions| then Run(Failure(TransportError(NO_AUTH_TYPE_FOUND)), [])
    else Prepend([HintSet(env.versions[vi])], PostAt(env, vi, n, retry))
  }

  /** One POST of the dummy request for version vi, and what follows from its outcome. */
  function PostAt(env: Env, vi: nat, n: nat, retry: nat): Run
    requires Bounded(env) && vi < |env.versions| && retry <= env.bound
    decreases |env.versions| - vi, env.bound - retry, 1
  {
    var data := env.dummyFor(env.versions[vi]);
    match env.net(n)
    case ConnectionFailure(msg) =>
      if env.mayRetry(retry) then Prepend([Posted(data), BackedOff(env.retryWait)], PostAt(env, vi, n + 1, retry + 1))
      else Run(Failure(TransportError(msg)), [Posted(data)])
    case Reply(status, headers) =>
      if status != 200 && status != 401 then Prepend([Posted(data)], FromVersion(env, vi + 1, n + 1, retry))
      else Prepend([Posted(data)], Decided(env, vi, n, retry, AuthMethodFromResponse(status, headers)))
  }

  /**
   * After a 200 or 401 reply to POST n: an auth type ends the probe,
   * UnauthorizedError moves on to the next version, any other error
   * propagates.
   */
  function Decided(env: Env, vi: nat, n: nat, retry: nat, d: Result<AuthType>): Run
    requires Bounded(env) && vi < |env.versions| && retry <= env.bound
    decreases |env.versions| - vi, env.bound - retry, 0
  {
    match d
    case Ok(t) => Run(Ok(t), [])
    case Failure(e) =>
      if e == UnauthorizedError then FromVersion(env, vi + 1, n + 1, retry)
      else Run(Failure(e), [])
  }

  /** The whole probe. */
  function Probe(env: Env): Run
    requires Bounded(env)
  {
    FromVersion(env, 0, 0, 0)
  }

  // ---------------------------------------------------------------------
  // Views of a trace
  // ---------------------------------------------------------------------

  /** The API version hints set, in order. */
  function Hints(t: seq<Event>): seq<string>
  {
    if |t| == 0 then [] else (if t[0].HintSet? then [t[0].version] else []) + Hints(t[1..])
  }

  function NumPosts(t: seq<Event>): nat
  {
    if |t| == 0 then 0 else (if t[0].Posted? then 1 else 0) + NumPosts(t[1..])
  }

  function NumBackOffs(t: seq<Event>): nat
  {
    if |t| == 0 then 0 else (if t[0].BackedOff? then 1 else 0) + NumBackOffs(t[1..])
  }

  /**
   * Every POST carries the dummy request of the hint set last (cur is the
   * hint in force before t), and every back-off of the requested wait is
   * followed by another POST.
   */
  predicate Coherent(env: Env, t: seq<Event>, cur: Option<string>)
  {
    if |t| == 0 then true
    else
      match t[0]
      case HintSet(v) => Coherent(env, t[1..], Some(v))
      case Posted(d) => cur.Some? && d == env.dummyFor(cur.value) && Coherent(env, t[1..], cur)
      case BackedOff(w) => w == env.retryWait && |t| > 1 && t[1].Posted? && Coherent(env, t[1..], cur)
  }

  lemma ViewsOfCons(e: Event, t: seq<Event>)
    ensures Hints([e] + t) == (if e.HintSet? then [e.version] else []) + Hints(t)
    ensures NumPosts([e] + t) == (if e.Posted? then 1 else 0) + NumPosts(t)
    ensures NumBackOffs([e] + t) == (if e.BackedOff? then 1 else 0) + NumBackOffs(t)
  {
    assert ([e] + t)[0] == e && ([e] + t)[1..] == t;
  }

  lemma CoherentCons(env: Env, e: Event, t: seq<Event>, cur: Option<string>)
    ensures e.HintSet? ==> (Coherent(env, [e] + t, cur) <==> Coherent(env, t, Some(e.version)))
    ensures e.Posted? ==>
      (Coherent(env, [e] + t, cur) <==> cur.Some? && e.data == env.dummyFor(cur.value) && Coherent(env, t, cur))
    ensures e.BackedOff? ==>
      (Coherent(env, [e] + t, cur) <==> e.seconds == env.retryWait && |t| > 0 && t[0].Posted? && Coherent(env, t, cur))
  {
    assert ([e] + t)[0] == e && ([e] + t)[1..] == t;
  }

  // ---------------------------------------------------------------------
  // Properties of the probe
  // ---------------------------------------------------------------------

  /** A POST for version vi starts with that version's dummy request. */
  lemma PostAtStartsWithPost(env: Env, vi: nat, n: nat, retry: nat)
    requires Bounded(env) && vi < |env.versions| && retry <= env.bound
    ensures |PostAt(env, vi, n, retry).trace| > 0
    ensures PostAt(env, vi, n, retry).trace[0] == Posted(env.dummyFor(env.versions[vi]))
  {
  }

  /** The hints of t are the versions from index k on, in order. */
  predicate HintsFollow(env: Env, k: nat, t: seq<Event>)
  {
    k + |Hints(t)| <= |env.versions| && Hints(t) == env.versions[k..k + |Hints(t)|]
  }

  /** The hints are the versions from vi on, in order, with none skipped. */
  lemma {:induction false} FromVersionHints(env: Env, vi: nat, n: nat, retry: nat)
    requires Bounded(env) && vi <= |env.versions| && retry <= env.bound
    ensures HintsFollow(env, vi, FromVersion(env, vi, n, retry).trace)
    decreases |env.versions| - vi, env.bound - retry, 1
  {
    if vi < |env.versions| {
      PostAtHints(env, vi, n, retry);
      HintsAfterHint(env, vi, PostAt(env, vi, n, retry).trace);
    }
  }

  lemma {:induction false} PostAtHints(env: Env, vi: nat, n: nat, retry: nat)
    requires Bounded(env) && vi < |env.versions| && retry <= env.bound
    ensures HintsFollow(env, vi + 1, PostAt(env, vi, n, retry).trace)
    decreases |env.versions| - vi, env.bound - retry, 0
  {
    var data := env.dummyFor(env.versions[vi]);
    match env.net(n)
    case ConnectionFailure(msg) =>
      if env.mayRetry(retry) {
        PostAtHints(env, vi, n + 1, retry + 1);
        HintsBackOff(env, vi + 1, data, env.retryWait, PostAt(env, vi, n + 1, retry + 1).trace);
      } else {
        HintsPost(env, vi + 1, data, []);
      }
    case Reply(status, headers) =>
      if (status != 200 && status != 401) || AuthMethodFromResponse(status, headers) == Failure(UnauthorizedError) {
        FromVersionHints(env, vi + 1, n + 1, retry);
        HintsPost(env, vi + 1, data, FromVersion(env, vi + 1, n + 1, retry).trace);
      } else {
        HintsPost(env, vi + 1, data, []);
      }
  }

  lemma HintsAfterHint(env: Env, k: nat, rest: seq<Event>)
    requires k < |env.versions| && HintsFollow(env, k + 1, rest)
    ensures HintsFollow(env, k, [HintSet(env.versions[k])] + rest)
  {
    ViewsOfCons(HintSet(env.versions[k]), rest);
    var h := Hints(rest);
    assert env.versions[k..k + 1 + |h|] == [env.versions[k]] + env.versions[k + 1..k + 1 + |h|];
  }

  lemma HintsPost(env: Env, k: nat, data: string, rest: seq<Event>)
    requires k <= |env.versions| && HintsFollow(env, k, rest)
    ensures HintsFollow(env, k, [Posted(data)] + rest)
    ensures HintsFollow(env, k, [Posted(data)])
  {
    ViewsOfCons(Posted(data), rest);
    ViewsOfCons(Posted(data), []);
    assert [Posted(data)] + [] == [Posted(data)];
  }

  lemma HintsBackOff(env: Env, k: nat, data: string, w: nat, rest: seq<Event>)
    requires HintsFollow(env, k, rest)
    ensures HintsFollow(env, k, [Posted(data), BackedOff(w)] + rest)
  {
    assert [Posted(data), BackedOff(w)] + rest == [Posted(data)] + ([BackedOff(w)] + rest);
    ViewsOfCons(Posted(data), [BackedOff(w)] + rest);
    ViewsOfCons(BackedOff(w), rest);
  }

  /** A hint set is the one in force for every POST after it; each back-off is followed by a POST. */
  lemma {:induction false} FromVersionCoherent(env: Env, vi: nat, n: nat, retry: nat, cur: Option<string>)
    requires Bounded(env) && vi <= |env.versions| && retry <= env.bound
    ensures Coherent(env, FromVersion(env, vi, n, retry).trace, cur)
    decreases |env.versions| - vi, env.bound - retry, 1
  {
    if vi < |env.versions| {
      PostAtCoherent(env, vi, n, retry);
      CoherentCons(env, HintSet(env.versions[vi]), PostAt(env, vi, n, retry).trace, cur);
    }
  }

  lemma {:induction false} PostAtCoherent(env: Env, vi: nat, n: nat, retry: nat)
    requires Bounded(env) && vi < |env.versions| && retry <= env.bound
    ensures Coherent(env, PostAt(env, vi, n, retry).trace, Some(env.versions[vi]))
    decreases |env.versions| - vi, env.bound - retry, 0
  {
    var cur := Some(env.versions[vi]);
    var data := env.dummyFor(env.versions[vi]);
    match env.net(n)
    case ConnectionFailure(msg) =>
      if env.mayRetry(retry) {
        PostAtCoherent(env, vi, n + 1, retry + 1);
        PostAtStartsWithPost(env, vi, n + 1, retry + 1);
        CoherentBackOff(env, data, PostAt(env, vi, n + 1, retry + 1).trace, cur);
      } else {
        CoherentPost(env, data, [], cur);
      }
    case Reply(status, headers) =>
      if (status != 200 && status != 401) || AuthMethodFromResponse(status, headers) == Failure(UnauthorizedError) {
        FromVersionCoherent(env, vi + 1, n + 1, retry, cur);
        CoherentPost(env, data, FromVersion(env, vi + 1, n + 1, retry).trace, cur);
      } else {
        CoherentPost(env, data, [], cur);
      }
  }

  lemma CoherentPost(env: Env, data: string, rest: seq<Event>, cur: Option<string>)
    requires cur.Some? && data == env.dummyFor(cur.value) && Coherent(env, rest, cur)
    ensures Coherent(env, [Posted(data)] + rest, cur)
    ensures rest == [] ==> Coherent(env, [Posted(data)], cur)
  {
    CoherentCons(env, Posted(data), rest, cur);
    assert [Posted(data)] + [] == [Posted(data)];
  }

  lemma CoherentBackOff(env: Env, data: string, rest: seq<Event>, cur: Option<string>)
    requires cur.Some? && data == env.dummyFor(cur.value) && Coherent(env, rest, cur) && |rest| > 0 && rest[0].Posted?
    ensures Coherent(env, [Posted(data), BackedOff(env.retryWait)] + rest, cur)
  {
    assert [Posted(data), BackedOff(env.retryWait)] + rest == [Posted(data)] + ([BackedOff(env.retryWait)] + rest);
    CoherentCons(env, BackedOff(env.retryWait), rest, cur);
    CoherentCons(env, Posted(data), [BackedOff(env.retryWait)] + rest, cur);
  }

  /**
   * The outcome: an auth type read from the last reply, which had status
   * 200 or 401; or a TransportError, either for the connection error of
   * the last POST once the policy refused to retry, or because every
   * version was tried. The retries never pass the policy's bound.
   */
  lemma {:induction false} FromVersionOutcome(env: Env, vi: nat, n: nat, retry: nat)
    requires Bounded(env) && vi <= |env.versions| && retry <= env.bound
    ensures Outcome(env, n, retry, FromVersion(env, vi, n, retry))
    decreases |env.versions| - vi, env.bound - retry, 2
  {
    if vi < |env.versions| {
      PostAtOutcome(env, vi, n, retry);
      var r := PostAt(env, vi, n, retry);
      ViewsOfCons(HintSet(env.versions[vi]), r.trace);
    }
  }

  /** The probe ended on the connection error of its last POST, with no retry allowed. */
  predicate FailedOnConnection(env: Env, n: nat, retry: nat, r: Run)
  {
    && NumPosts(r.trace) > 0
    && env.net(n + NumPosts(r.trace) - 1).ConnectionFailure?
    && r.result == Failure(TransportError(env.net(n + NumPosts(r.trace) - 1).message))
    && !env.mayRetry(retry + NumBackOffs(r.trace))
  }

  /** What every run from n POSTs and retry retries on satisfies. */
  predicate Outcome(env: Env, n: nat, retry: nat, r: Run)
  {
    && retry + NumBackOffs(r.trace) <= env.bound
    && (r.result.Ok? ==>
          && NumPosts(r.trace) > 0
          && var last := env.net(n + NumPosts(r.trace) - 1);
          && last.Reply? && (last.status == 200 || last.status == 401)
          && AuthMethodFromResponse(last.status, last.headers) == r.result)
    && (r.result.Failure? ==> r.result.error.TransportError?)
    && (r.result.Failure? && r.result.error != TransportError(NO_AUTH_TYPE_FOUND) ==> FailedOnConnection(env, n, retry, r))
  }

  lemma {:induction false} PostAtOutcome(env: Env, vi: nat, n: nat, retry: nat)
    requires Bounded(env) && vi < |env.versions| && retry <= env.bound
    ensures Outcome(env, n, retry, PostAt(env, vi, n, retry))
    decreases |env.versions| - vi, env.bound - retry, 1
  {
    if env.net(n).ConnectionFailure? {
      ConnectionOutcome(env, vi, n, retry);
    } else {
      ReplyOutcome(env, vi, n, retry);
    }
  }

  lemma {:induction false} ConnectionOutcome(env: Env, vi: nat, n: nat, retry: nat)
    requires Bounded(env) && vi < |env.versions| && retry <= env.bound && env.net(n).ConnectionFailure?
    ensures Outcome(env, n, retry, PostAt(env, vi, n, retry))
    decreases |env.versions| - vi, env.bound - retry, 0
  {
    var data := env.dummyFor(env.versions[vi]);
    if env.mayRetry(retry) {
      PostAtOutcome(env, vi, n + 1, retry + 1);
      OutcomeBackOff(env, n, retry, data, PostAt(env, vi, n + 1, retry + 1));
    } else {
      OutcomeLast(env, n, retry, data, Failure(TransportError(env.net(n).message)));
    }
  }

  lemma {:induction false} ReplyOutcome(env: Env, vi: nat, n: nat, retry: nat)
    requires Bounded(env) && vi < |env.versions| && retry <= env.bound && env.net(n).Reply?
    ensures Outcome(env, n, retry, PostAt(env, vi, n, retry))
    decreases |env.versions| - vi, env.bound - retry, 0
  {
    var data := env.dummyFor(env.versions[vi]);
    var status, headers := env.net(n).status, env.net(n).headers;
    AuthMethodOutcomes(status, headers);
    if (status != 200 && status != 401) || AuthMethodFromResponse(status, headers) == Failure(UnauthorizedError) {
      FromVersionOutcome(env, vi + 1, n + 1, retry);
      OutcomeNextVersion(env, n, retry, data, FromVersion(env, vi + 1, n + 1, retry));
    } else {
      OutcomeLast(env, n, retry, data, AuthMethodFromResponse(status, headers));
    }
  }

  /** A refused connection followed by a back-off keeps the outcome of the repeated POST. */
  lemma OutcomeBackOff(env: Env, n: nat, retry: nat, data: string, rest: Run)
    requires Outcome(env, n + 1, retry + 1, rest)
    ensures Outcome(env, n, retry, Prepend([Posted(data), BackedOff(env.retryWait)], rest))
  {
    var mid := Prepend([BackedOff(env.retryWait)], rest);
    OutcomeBackedOff(env, n + 1, retry, env.retryWait, rest);
    OutcomeNextVersion(env, n, retry, data, mid);
    assert [Posted(data)] + ([BackedOff(env.retryWait)] + rest.trace) == [Posted(data), BackedOff(env.retryWait)] + rest.trace;
  }

  /** A back-off counts as one retry and leaves the POSTs as they are. */
  lemma OutcomeBackedOff(env: Env, n: nat, retry: nat, w: nat, rest: Run)
    requires Outcome(env, n, retry + 1, rest)
    ensures Outcome(env, n, retry, Prepend([BackedOff(w)], rest))
  {
    ViewsOfCons(BackedOff(w), rest.trace);
  }

  /** A reply that moves on to the next version keeps the outcome of what follows. */
  lemma OutcomeNextVersion(env: Env, n: nat, retry: nat, data: string, rest: Run)
    requires Outcome(env, n + 1, retry, rest)
    ensures Outcome(env, n, retry, Prepend([Posted(data)], rest))
  {
    ViewsOfCons(Posted(data), rest.trace);
  }

  /** A POST that ends the probe. */
  lemma OutcomeLast(env: Env, n: nat, retry: nat, data: string, result: Result<AuthType>)
    requires result.Ok? ==>
      env.net(n).Reply? && (env.net(n).status == 200 || env.net(n).status == 401)
      && AuthMethodFromResponse(env.net(n).status, env.net(n).headers) == result
    requires result.Failure? ==>
      env.net(n).ConnectionFailure? && result == Failure(TransportError(env.net(n).message)) && !env.mayRetry(retry)
    requires retry <= env.bound
    ensures Outcome(env, n, retry, Run(result, [Posted(data)]))
  {
    ViewsOfCons(Posted(data), []);
  }

  /**
   * The probe gives up with the no-auth-type message only after k more
   * hints, unless a connection error with that very message ended it.
   */
  predicate Exhausted(env: Env, n: nat, retry: nat, r: Run, k: nat)
  {
    r.result == Failure(TransportError(NO_AUTH_TYPE_FOUND)) ==>
      |Hints(r.trace)| == k || FailedOnConnection(env, n, retry, r)
  }

  /** From version vi on, giving up takes a hint for every remaining version. */
  lemma {:induction false} FromVersionExhausts(env: Env, vi: nat, n: nat, retry: nat)
    requires Bounded(env) && vi <= |env.versions| && retry <= env.bound
    ensures Exhausted(env, n, retry, FromVersion(env, vi, n, retry), |env.versions| - vi)
    decreases |env.versions| - vi, env.bound - retry, 1
  {
    if vi < |env.versions| {
      PostAtExhausts(env, vi, n, retry);
      ViewsOfCons(HintSet(env.versions[vi]), PostAt(env, vi, n, retry).trace);
    }
  }

  lemma {:induction false} PostAtExhausts(env: Env, vi: nat, n: nat, retry: nat)
    requires Bounded(env) && vi < |env.versions| && retry <= env.bound
    ensures Exhausted(env, n, retry, PostAt(env, vi, n, retry), |env.versions| - vi - 1)
    decreases |env.versions| - vi, env.bound - retry, 0
  {
    var data := env.dummyFor(env.versions[vi]);
    match env.net(n)
    case ConnectionFailure(msg) =>
      if env.mayRetry(retry) {
        PostAtExhausts(env, vi, n + 1, retry + 1);
        ExhaustedBackOff(env, n, retry, data, PostAt(env, vi, n + 1, retry + 1), |env.versions| - vi - 1);
      } else {
        ViewsOfCons(Posted(data), []);
      }
    case Reply(status, headers) =>
      AuthMethodOutcomes(status, headers);
      if (status != 200 && status != 401) || AuthMethodFromResponse(status, headers) == Failure(UnauthorizedError) {
        FromVersionExhausts(env, vi + 1, n + 1, retry);
        ExhaustedNextVersion(env, n, retry, data, FromVersion(env, vi + 1, n + 1, retry), |env.versions| - vi - 1);
      }
  }

  lemma ExhaustedBackOff(env: Env, n: nat, retry: nat, data: string, rest: Run, k: nat)
    requires Exhausted(env, n + 1, retry + 1, rest, k)
    ensures Exhausted(env, n, retry, Prepend([Posted(data), BackedOff(env.retryWait)], rest), k)
  {
    assert [Posted(data), BackedOff(env.retryWait)] + rest.trace == [Posted(data)] + ([BackedOff(env.retryWait)] + rest.trace);
    ViewsOfCons(Posted(data), [BackedOff(env.retryWait)] + rest.trace);
    ViewsOfCons(BackedOff(env.retryWait), rest.trace);
  }

  lemma ExhaustedNextVersion(env: Env, n: nat, retry: nat, data: string, rest: Run, k: nat)
    requires Exhausted(env, n + 1, retry, rest, k)
    ensures Exhausted(env, n, retry, Prepend([Posted(data)], rest), k)
  {
    ViewsOfCons(Posted(data), rest.trace);
  }

  /** Everything proved about one whole probe. */
  lemma ProbeProperties(env: Env)
    requires Bounded(env)
    ensures var r := Probe(env);
      && |Hints(r.trace)| <= |env.versions| && Hints(r.trace) == env.versions[..|Hints(r.trace)|]
      && Coherent(env, r.trace, None)
      && Outcome(env, 0, 0, r)
      && (r.result == Failure(TransportError(NO_AUTH_TYPE_FOUND)) ==>
            Hints(r.trace) == env.versions || FailedOnConnection(env, 0, 0, r))
  {
    FromVersionHints(env, 0, 0, 0);
    FromVersionCoherent(env, 0, 0, 0, None);
    FromVersionOutcome(env, 0, 0, 0);
    FromVersionExhausts(env, 0, 0, 0);
    var h := Hints(Probe(env).trace);
    if |h| == |env.versions| {
      assert env.versions[..|h|] == env.versions;
    }
  }

  // ---------------------------------------------------------------------
  // The transition rules along a trace
  // ---------------------------------------------------------------------

  /** A reply get_service_authtype acts on: status 200 or 401 and an answer other than UnauthorizedError. */
  predicate Usable(a: Attempt)
  {
    a.Reply? && (a.status == 200 || a.status == 401) && AuthMethodFromResponse(a.status, a.headers) != Failure(UnauthorizedError)
  }

  /**
   * What may come right after a POST with outcome a: a back-off after a
   * refused connection, the next version's hint after a reply that is of
   * no use, and nothing after a usable reply.
   */
  predicate MayFollow(a: Attempt, e: Event)
  {
    if a.ConnectionFailure? then e.BackedOff? else !Usable(a) && e.HintSet?
  }

  /**
   * The transition rules along t, whose first POST is POST n: a hint and
   * a back-off are each followed by a POST, and what follows a POST is
   * what MayFollow allows for its outcome.
   */
  predicate Transitions(env: Env, t: seq<Event>, n: nat)
  {
    if |t| == 0 then true
    else if t[0].Posted? then (|t| > 1 ==> MayFollow(env.net(n), t[1])) && Transitions(env, t[1..], n + 1)
    else |t| > 1 && t[1].Posted? && Transitions(env, t[1..], n)
  }

  lemma TransitionsPost(env: Env, data: string, rest: seq<Event>, n: nat)
    requires Transitions(env, rest, n + 1) && (|rest| > 0 ==> MayFollow(env.net(n), rest[0]))
    ensures Transitions(env, [Posted(data)] + rest, n)
  {
    assert ([Posted(data)] + rest)[1..] == rest;
  }

  lemma TransitionsBeforePost(env: Env, e: Event, rest: seq<Event>, n: nat)
    requires !e.Posted? && |rest| > 0 && rest[0].Posted? && Transitions(env, rest, n)
    ensures Transitions(env, [e] + rest, n)
  {
    assert ([e] + rest)[1..] == rest;
  }

  lemma {:induction false} FromVersionTransitions(env: Env, vi: nat, n: nat, retry: nat)
    requires Bounded(env) && vi <= |env.versions| && retry <= env.bound
    ensures Transitions(env, FromVersion(env, vi, n, retry).trace, n)
    ensures vi < |env.versions| ==> FromVersion(env, vi, n, retry).trace[0].HintSet?
    decreases |env.versions| - vi, env.bound - retry, 1
  {
    if vi < |env.versions| {
      PostAtTransitions(env, vi, n, retry);
      PostAtStartsWithPost(env, vi, n, retry);
      TransitionsBeforePost(env, HintSet(env.versions[vi]), PostAt(env, vi, n, retry).trace, n);
    }
  }

  lemma {:induction false} PostAtTransitions(env: Env, vi: nat, n: nat, retry: nat)
    requires Bounded(env) && vi < |env.versions| && retry <= env.bound
    ensures Transitions(env, PostAt(env, vi, n, retry).trace, n)
    decreases |env.versions| - vi, env.bound - retry, 0
  {
    var data := env.dummyFor(env.versions[vi]);
    match env.net(n)
    case ConnectionFailure(msg) =>
      if env.mayRetry(retry) {
        var rest := PostAt(env, vi, n + 1, retry + 1).trace;
        PostAtTransitions(env, vi, n + 1, retry + 1);
        PostAtStartsWithPost(env, vi, n + 1, retry + 1);
        TransitionsBeforePost(env, BackedOff(env.retryWait), rest, n + 1);
        TransitionsPost(env, data, [BackedOff(env.retryWait)] + rest, n);
        assert [Posted(data), BackedOff(env.retryWait)] + rest == [Posted(data)] + ([BackedOff(env.retryWait)] + rest);
      } else {
        TransitionsPost(env, data, [], n);
        assert [Posted(data)] + [] == [Posted(data)];
      }
    case Reply(status, headers) =>
      if (status != 200 && status != 401) || AuthMethodFromResponse(status, headers) == Failure(UnauthorizedError) {
        FromVersionTransitions(env, vi + 1, n + 1, retry);
        TransitionsPost(env, data, FromVersion(env, vi + 1, n + 1, retry).trace, n);
      } else {
        assert Decided(env, vi, n, retry, AuthMethodFromResponse(status, headers)).trace == [];
        TransitionsPost(env, data, [], n);
        assert [Posted(data)] + [] == [Posted(data)];
      }
  }

  /** The rules at position i of t: i == 0 gives the first event's rule, and the rest by induction. */
  lemma {:induction false} TransitionAt(env: Env, t: seq<Event>, n: nat, i: nat)
    requires Transitions(env, t, n) && i < |t|
    ensures t[i].Posted? && i + 1 < |t| ==> MayFollow(env.net(n + NumPosts(t[..i])), t[i + 1])
    ensures !t[i].Posted? ==> i + 1 < |t| && t[i + 1].Posted?
  {
    if i > 0 {
      TransitionAt(env, t[1..], if t[0].Posted? then n + 1 else n, i - 1);
      assert t[..i][1..] == t[1..][..i - 1];
    } else {
      assert t[..0] == [];
    }
  }

  /**
   * The whole probe follows the transition rules: a refused connection is
   * followed by a back-off and a POST of the same dummy request, a reply
   * of no use by the next version's hint, and the first usable reply ends
   * the run; a run that is not empty starts with a hint and ends with a POST.
   */
  lemma ProbeTransitions(env: Env)
    requires Bounded(env)
    ensures var t := Probe(env).trace;
      && (|t| > 0 ==> t[0].HintSet? && t[|t| - 1].Posted?)
      && (forall i :: 0 <= i < |t| - 1 && t[i].Posted? ==> MayFollow(env.net(NumPosts(t[..i])), t[i + 1]))
      && (forall i :: 0 <= i < |t| && !t[i].Posted? ==> i + 1 < |t| && t[i + 1].Posted?)
      && (forall i :: 0 <= i < |t| && t[i].Posted? && Usable(env.net(NumPosts(t[..i]))) ==> i == |t| - 1)
  {
    var t := Probe(env).trace;
    if |env.versions| > 0 {
      FromVersionTransitions(env, 0, 0, 0);
    }
    forall i | 0 <= i < |t|
      ensures t[i].Posted? && i + 1 < |t| ==> MayFollow(env.net(NumPosts(t[..i])), t[i + 1])
      ensures !t[i].Posted? ==> i + 1 < |t| && t[i + 1].Posted?
      ensures t[i].Posted? && Usable(env.net(NumPosts(t[..i]))) ==> i == |t| - 1
    {
      TransitionAt(env, t, 0, i);
    }
    if |t| > 0 {
      TransitionAt(env, t, 0, |t| - 1);
    }
  }

  // ---------------------------------------------------------------------
  // The protocol object
  // ---------------------------------------------------------------------

  /** The part of a Protocol the probe changes: its API version hint. */
  class Protocol {
    var apiVersionHint: Option<string>

    constructor ()
      ensures apiVersionHint == None
    {
      apiVersionHint := None;
    }

    /**
     * get_service_authtype: for each version set the hint, build the dummy
     * request and POST it, backing off and reposting while the retry
     * policy allows after a connection error; a 200 or 401 reply that
     * names an auth type ends the probe.
     */
    method GetServiceAuthtype(env: Env) returns (r: Result<AuthType>, trace: seq<Event>)
      requires Bounded(env)
      modifies this
      ensures Run(r, trace) == Probe(env)
      ensures apiVersionHint == if Hints(trace) == [] then old(apiVersionHint) else Some(Hints(trace)[|Hints(trace)| - 1])
    {
      trace := [];
      var n := 0;
      var retry := 0;
      for vi := 0 to |env.versions|
        invariant AtVersion(env, trace, vi, n, retry)
        invariant LastHint(apiVersionHint, old(apiVersionHint), trace)
      {
        StartVersion(env, trace, vi, n, retry);
        apiVersionHint := Some(env.versions[vi]);
        HintsSnoc(trace, HintSet(env.versions[vi]));
        trace := trace + [HintSet(env.versions[vi])];
        var failed, failure, reply;
        failed, failure, reply, trace, n, retry := PostDummy(env, vi, trace, n, retry);
        if failed {
          return failure, trace;
        }
        if reply.status == 200 || reply.status == 401 {
          var method_ := GetAuthMethodFromResponse(reply.status, reply.headers);
          if method_.Ok? {
            return method_, trace;
          } else if method_.error != UnauthorizedError {
            return method_, trace;
          }
        }
        NextVersion(env, trace, vi, n, retry, reply);
      }
      r := Failure(TransportError(NO_AUTH_TYPE_FOUND));
    }
  }

  /** The hint in force is the last one in the trace, or the one from before the probe when it has set none. */
  ghost predicate LastHint(h: Option<string>, before: Option<string>, trace: seq<Event>)
  {
    h == if Hints(trace) == [] then before else Some(Hints(trace)[|Hints(trace)| - 1])
  }

  /** A reply that does not end the probe leaves the probe from the next version on. */
  lemma NextVersion(env: Env, trace: seq<Event>, vi: nat, n: nat, retry: nat, reply: Attempt)
    requires Replied(env, trace, vi, n, retry, reply)
    requires !Usable(reply)
    ensures AtVersion(env, trace, vi + 1, n, retry)
  {
  }

  /**
   * The inner loop of get_service_authtype: POST the dummy request of
   * version vi until a reply comes, backing off and reposting after each
   * connection error the retry policy lets through. A connection error it
   * does not let through ends the probe with a TransportError.
   */
  method PostDummy(env: Env, vi: nat, trace: seq<Event>, n: nat, retry: nat)
    returns (failed: bool, failure: Result<AuthType>, reply: Attempt, trace': seq<Event>, n': nat, retry': nat)
    requires AtPost(env, trace, vi, n, retry)
    ensures Hints(trace') == Hints(trace)
    ensures failed ==> Run(failure, trace') == Probe(env)
    ensures !failed ==> Replied(env, trace', vi, n', retry', reply)
  {
    var data := env.dummyFor(env.versions[vi]);
    trace', n', retry' := trace, n, retry;
    while true
      invariant AtPost(env, trace', vi, n', retry') && Hints(trace') == Hints(trace)
      decreases env.bound - retry'
    {
      var attempt := env.net(n');
      HintsSnoc(trace', Posted(data));
      if attempt.Reply? {
        ReplyStep(env, trace', vi, n', retry');
        trace', n' := trace' + [Posted(data)], n' + 1;
        return false, Ok(NoAuth), attempt, trace', n', retry';
      }
      if env.mayRetry(retry') {
        RetryStep(env, trace', vi, n', retry');
        HintsSnoc(trace' + [Posted(data)], BackedOff(env.retryWait));
        trace' := trace' + [Posted(data)] + [BackedOff(env.retryWait)];
        n', retry' := n' + 1, retry' + 1;
      } else {
        GiveUpStep(env, trace', vi, n', retry');
        trace', n' := trace' + [Posted(data)], n' + 1;
        return true, Failure(TransportError(attempt.message)), attempt, trace', n', retry';
      }
    }
  }

  /**
   * After POST n - 1 got reply: either its auth method ends the probe here,
   * or the probe goes on with the next version.
   */
  ghost predicate Replied(env: Env, t: seq<Event>, vi: nat, n: nat, retry: nat, reply: Attempt)
  {
    && Bounded(env) && reply.Reply?
    && var d := AuthMethodFromResponse(reply.status, reply.headers);
    if (reply.status == 200 || reply.status == 401) && d != Failure(UnauthorizedError) then Run(d, t) == Probe(env)
    else AtVersion(env, t, vi + 1, n, retry)
  }

  /** The loop invariant at the top of a version: what is left is the probe from vi on. */
  ghost predicate AtVersion(env: Env, trace: seq<Event>, vi: nat, n: nat, retry: nat)
  {
    && Bounded(env) && vi <= |env.versions| && retry <= env.bound
    && Prepend(trace, FromVersion(env, vi, n, retry)) == Probe(env)
  }

  /** The loop invariant before a POST: what is left is POST n for version vi on. */
  ghost predicate AtPost(env: Env, trace: seq<Event>, vi: nat, n: nat, retry: nat)
  {
    && Bounded(env) && vi < |env.versions| && retry <= env.bound
    && Prepend(trace, PostAt(env, vi, n, retry)) == Probe(env)
  }

  lemma StartVersion(env: Env, trace: seq<Event>, vi: nat, n: nat, retry: nat)
    requires AtVersion(env, trace, vi, n, retry) && vi < |env.versions|
    ensures AtPost(env, trace + [HintSet(env.versions[vi])], vi, n, retry)
  {
    var rest := PostAt(env, vi, n, retry);
    assert trace + ([HintSet(env.versions[vi])] + rest.trace) == trace + [HintSet(env.versions[vi])] + rest.trace;
  }

  /** A refused connection the retry policy lets through: back off and POST again. */
  lemma RetryStep(env: Env, trace: seq<Event>, vi: nat, n: nat, retry: nat)
    requires AtPost(env, trace, vi, n, retry) && env.net(n).ConnectionFailure? && env.mayRetry(retry)
    ensures AtPost(env, trace + [Posted(env.dummyFor(env.versions[vi]))] + [BackedOff(env.retryWait)], vi, n + 1, retry + 1)
  {
    var pre := [Posted(env.dummyFor(env.versions[vi])), BackedOff(env.retryWait)];
    var rest := PostAt(env, vi, n + 1, retry + 1);
    assert PostAt(env, vi, n, retry) == Prepend(pre, rest);
    assert trace + (pre + rest.trace) == trace + [pre[0]] + [pre[1]] + rest.trace;
  }

  /** A refused connection the retry policy does not let through ends the probe. */
  lemma GiveUpStep(env: Env, trace: seq<Event>, vi: nat, n: nat, retry: nat)
    requires AtPost(env, trace, vi, n, retry) && env.net(n).ConnectionFailure? && !env.mayRetry(retry)
    ensures Run(Failure(TransportError(env.net(n).message)), trace + [Posted(env.dummyFor(env.versions[vi]))]) == Probe(env)
  {
  }

  /** A reply: either it ends the probe with its auth method, or the next version follows. */
  lemma ReplyStep(env: Env, trace: seq<Event>, vi: nat, n: nat, retry: nat)
    requires AtPost(env, trace, vi, n, retry) && env.net(n).Reply?
    ensures Replied(env, trace + [Posted(env.dummyFor(env.versions[vi]))], vi, n + 1, retry, env.net(n))
  {
    var pre := [Posted(env.dummyFor(env.versions[vi]))];
    var status := env.net(n).status;
    var d := AuthMethodFromResponse(status, env.net(n).headers);
    if (status == 200 || status == 401) && d != Failure(UnauthorizedError) {
      assert PostAt(env, vi, n, retry) == Prepend(pre, Decided(env, vi, n, retry, d));
      assert Decided(env, vi, n, retry, d) == Run(d, []);
      assert trace + pre + [] == trace + pre;
    } else {
      var rest := FromVersion(env, vi + 1, n + 1, retry);
      assert PostAt(env, vi, n, retry) == Prepend(pre, rest);
      assert trace + (pre + rest.trace) == trace + pre + rest.trace;
    }
  }

  lemma {:induction false} HintsSnoc(t: seq<Event>, e: Event)
    ensures Hints(t + [e]) == Hints(t) + (if e.HintSet? then [e.version] else [])
  {
    if |t| == 0 {
      assert t + [e] == [e];
      ViewsOfCons(e, []);
    } else {
      assert (t + [e])[0] == t[0] && (t + [e])[1..] == t[1..] + [e];
      HintsSnoc(t[1..], e);
    }
  }
}
