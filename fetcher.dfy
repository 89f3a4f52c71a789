/** The metadata fetch loop of `getInfo` (main.py:556-615) as a state machine
    over `retries` and `last_status`. The network is a finite sequence of
    outcomes, one per `requests.get` call; `time.sleep` calls are recorded as
    events; the jitter `random.uniform(0, 1)` would draw before the request with
    index `i` is `jitter(i)`. */
module Fetcher {
  import opened Wrappers
  import opened Json
  import opened Config
  import opened RetryPolicy

  /** What one `requests.get` call produced. `json` is the body parsed as JSON
      (`None` when `response.json()` fails); `retryAfter` is the `Retry-After`
      header already converted with `int`, if the header was present. */
  datatype Attempt =
    | Response(status: int, json: Option<Json>, retryAfter: Option<int>)
    | RequestFailed

  /** Observable steps of the loop: a computed back-off sleep, a request, and
      the sleep a 429 asks for. */
  datatype Event = Backoff(seconds: real) | Request | RateLimitWait(wait: int)

  datatype FetchState = FetchState(retries: int, lastStatus: Option<int>)

  /** How `getInfo` ends. `NoCookie`, `Refused` and `Exhausted` all return
      `None`; the last two first log the final-failure message with the last
      status. `Raised` is a `ValueError` from `time.sleep` on a negative delay,
      which escapes `getInfo`. `InputExhausted` means the loop wanted more
      outcomes than the sequence holds. */
  datatype FetchResult =
    | NoCookie
    | Body(value: Json)
    | Refused(status: int)
    | Exhausted(lastStatus: Option<int>)
    | Raised
    | InputExhausted

  datatype Reaction = Continue(next: FetchState) | Stop(result: FetchResult)

  ghost predicate JitterInRange(jitter: nat -> real) {
    forall k: nat :: 0.0 <= jitter(k) <= 1.0
  }

  /** An outcome that raises `retries` by one: a request exception, a non-200
      status other than 403, 404 and 429, or a 200 whose body is rejected. */
  predicate CountsAsRetry(a: Attempt) {
    match a
    case RequestFailed => true
    case Response(status, json, _) =>
      if status == 200 then ValidateResponseData(json).None?
      else status != 429 && status != 403 && status != 404
  }

  /** What the loop body does with one outcome after the request (main.py:586-611). */
  function React(cfg: Config, st: FetchState, a: Attempt): (Reaction, seq<Event>) {
    match a
    case RequestFailed => (Continue(st.(retries := st.retries + 1)), [])
    case Response(status, json, retryAfter) =>
      var seen := st.(lastStatus := Some(status));
      if status == 429 then
        var wait := retryAfter.GetOr(cfg.maxRetryDelay);
        if wait < 0 then (Stop(Raised), []) else (Continue(seen), [RateLimitWait(wait)])
      else if status != 200 then
        if status == 403 || status == 404 then (Stop(Refused(status)), [])
        else (Continue(seen.(retries := st.retries + 1)), [])
      else
        match ValidateResponseData(json)
        case None => (Continue(seen.(retries := st.retries + 1)), [])
        case Some(data) => (Stop(Body(Get(data, "body", JNull))), [])
  }

  /** A reaction keeps counting exactly as `CountsAsRetry` says. */
  lemma ReactCounts(cfg: Config, st: FetchState, a: Attempt)
    ensures React(cfg, st, a).0.Continue? ==>
      React(cfg, st, a).0.next.retries == st.retries + (if CountsAsRetry(a) then 1 else 0)
    ensures React(cfg, st, a).0.Stop? ==> !CountsAsRetry(a)
  {
  }

  /** The loop from state `st` with outcome `i` next: its result, the events it
      produces and the index of the first outcome it did not use. */
  function Run(cfg: Config, st: FetchState, server: seq<Attempt>, i: nat, jitter: nat -> real)
    : (r: (FetchResult, seq<Event>, nat))
    requires i <= |server| && JitterInRange(jitter)
    ensures i <= r.2 <= |server|
    decreases |server| - i
  {
    if st.retries >= cfg.maxRetries then (Exhausted(st.lastStatus), [], i)
    else if st.retries > 0 && CalculateRetryDelay(cfg, st.retries, jitter(i)) < 0.0 then (Raised, [], i)
    else
      var pre := if st.retries > 0 then [Backoff(CalculateRetryDelay(cfg, st.retries, jitter(i)))] else [];
      if i == |server| then (InputExhausted, pre, i)
      else
        var (reaction, evs) := React(cfg, st, server[i]);
        match reaction
        case Stop(res) => (res, pre + [Request] + evs, i + 1)
        case Continue(next) =>
          var (res, rest, n) := Run(cfg, next, server, i + 1, jitter);
          (res, pre + [Request] + evs + rest, n)
  }

  /** What `getInfo` does given the outcomes of its requests. */
  function GetInfoSpec(cfg: Config, server: seq<Attempt>, jitter: nat -> real): (FetchResult, seq<Event>, nat)
    requires JitterInRange(jitter)
  {
    if cfg.pixivCookie == "" then (NoCookie, [], 0)
    else Run(cfg, FetchState(0, None), server, 0, jitter)
  }

  function Prepend(events: seq<Event>, r: (FetchResult, seq<Event>, nat)): (FetchResult, seq<Event>, nat) {
    (r.0, events + r.1, r.2)
  }

  /** One unfolding of `Run` when the loop continues after outcome `i`. */
  lemma RunContinues(cfg: Config, st: FetchState, server: seq<Attempt>, i: nat, jitter: nat -> real)
    requires i < |server| && JitterInRange(jitter)
    requires st.retries < cfg.maxRetries
    requires !(st.retries > 0 && CalculateRetryDelay(cfg, st.retries, jitter(i)) < 0.0)
    requires React(cfg, st, server[i]).0.Continue?
    ensures var pre := if st.retries > 0 then [Backoff(CalculateRetryDelay(cfg, st.retries, jitter(i)))] else [];
      Run(cfg, st, server, i, jitter)
        == Prepend(pre + [Request] + React(cfg, st, server[i]).1,
                   Run(cfg, React(cfg, st, server[i]).0.next, server, i + 1, jitter))
  {
  }

  lemma PrependTwice(a: seq<Event>, b: seq<Event>, r: (FetchResult, seq<Event>, nat))
    ensures Prepend(a, Prepend(b, r)) == Prepend(a + b, r)
  {
    assert a + (b + r.1) == (a + b) + r.1;
  }

  /** `getInfo`: the while loop over `retries`, written as in the source. */
  method GetInfo(cfg: Config, server: seq<Attempt>, jitter: nat -> real)
    returns (result: FetchResult, events: seq<Event>, consumed: nat)
    requires JitterInRange(jitter)
    ensures (result, events, consumed) == GetInfoSpec(cfg, server, jitter)
  {
    if cfg.pixivCookie == "" {
      return NoCookie, [], 0;
    }
    ghost var spec := GetInfoSpec(cfg, server, jitter);
    var lastStatus: Option<int> := None;
    var retries := 0;
    var i := 0;
    events := [];
    assert [] + spec.1 == spec.1;
    var refused: Option<int> := None;
    while retries < cfg.maxRetries
      invariant i <= |server|
      invariant spec == Prepend(events, Run(cfg, FetchState(retries, lastStatus), server, i, jitter))
      decreases |server| - i
    {
      ghost var st := FetchState(retries, lastStatus);
      ghost var before := events;
      ghost var i0 := i;
      if retries > 0 {
        var delay := CalculateRetryDelay(cfg, retries, jitter(i));
        if delay < 0.0 {
          assert events + [] == events;
          return Raised, events, i;
        }
        events := events + [Backoff(delay)];
      }
      ghost var pre := if st.retries > 0 then [Backoff(CalculateRetryDelay(cfg, st.retries, jitter(i0)))] else [];
      assert events == before + pre;
      if i == |server| {
        assert spec == (InputExhausted, before + pre, i);
        return InputExhausted, events, i;
      }
      var response := server[i];
      i := i + 1;
      events := events + [Request];
      ghost var reaction := React(cfg, st, response);
      match response {
        case RequestFailed =>
          retries := retries + 1;
          RunContinues(cfg, st, server, i0, jitter);
          PrependTwice(before, pre + [Request] + reaction.1, Run(cfg, reaction.0.next, server, i, jitter));
          assert events == before + (pre + [Request] + reaction.1);
        case Response(status, json, retryAfter) =>
          lastStatus := Some(status);
          if status == 429 {
            var wait := retryAfter.GetOr(cfg.maxRetryDelay);
            if wait < 0 {
              assert before + (pre + [Request] + []) == events;
              return Raised, events, i;
            }
            events := events + [RateLimitWait(wait)];
            RunContinues(cfg, st, server, i0, jitter);
            PrependTwice(before, pre + [Request] + reaction.1, Run(cfg, reaction.0.next, server, i, jitter));
            assert events == before + (pre + [Request] + reaction.1);
            continue;
          }
          if status != 200 {
            if status == 403 || status == 404 {
              refused := Some(status);
              assert before + (pre + [Request] + []) == events;
              break;
            }
            retries := retries + 1;
            RunContinues(cfg, st, server, i0, jitter);
            PrependTwice(before, pre + [Request] + reaction.1, Run(cfg, reaction.0.next, server, i, jitter));
            assert events == before + (pre + [Request] + reaction.1);
            continue;
          }
          var data := ValidateResponseData(json);
          if data.None? {
            retries := retries + 1;
            RunContinues(cfg, st, server, i0, jitter);
            PrependTwice(before, pre + [Request] + reaction.1, Run(cfg, reaction.0.next, server, i, jitter));
            assert events == before + (pre + [Request] + reaction.1);
            continue;
          }
          assert before + (pre + [Request] + []) == events;
          return Body(Get(data.value, "body", JNull)), events, i;
      }
    }
    if refused.Some? {
      return Refused(refused.value), events, i;
    }
    assert events + [] == events;
    return Exhausted(lastStatus), events, i;
  }

  // ---------------------------------------------------------------------------
  // Properties of the loop

  function CountRequests(events: seq<Event>): nat
    decreases |events|
  {
    if events == [] then 0 else (if events[0] == Request then 1 else 0) + CountRequests(events[1..])
  }

  lemma {:induction false} CountRequestsConcat(a: seq<Event>, b: seq<Event>)
    ensures CountRequests(a + b) == CountRequests(a) + CountRequests(b)
    decreases |a|
  {
    if a != [] {
      assert (a + b)[1..] == a[1..] + b;
      CountRequestsConcat(a[1..], b);
    } else {
      assert a + b == b;
    }
  }

  /** Number of outcomes in `attempts` that raise `retries`. */
  function Failures(attempts: seq<Attempt>): nat
    decreases |attempts|
  {
    if attempts == [] then 0 else (if CountsAsRetry(attempts[0]) then 1 else 0) + Failures(attempts[1..])
  }

  function Max(a: int, b: int): int {
    if a >= b then a else b
  }

  /** Every outcome the loop consumes is one request, and there are no others. */
  lemma {:induction false} RequestsMatchConsumed(cfg: Config, st: FetchState, server: seq<Attempt>, i: nat, jitter: nat -> real)
    requires i <= |server| && JitterInRange(jitter)
    ensures CountRequests(Run(cfg, st, server, i, jitter).1) == Run(cfg, st, server, i, jitter).2 - i
    decreases |server| - i
  {
    if st.retries >= cfg.maxRetries || (st.retries > 0 && CalculateRetryDelay(cfg, st.retries, jitter(i)) < 0.0) {
    } else {
      var pre := if st.retries > 0 then [Backoff(CalculateRetryDelay(cfg, st.retries, jitter(i)))] else [];
      assert CountRequests(pre) == 0;
      if i < |server| {
        var (reaction, evs) := React(cfg, st, server[i]);
        assert CountRequests(evs) == 0;
        CountRequestsConcat(pre, [Request]);
        CountRequestsConcat(pre + [Request], evs);
        if reaction.Continue? {
          RequestsMatchConsumed(cfg, reaction.next, server, i + 1, jitter);
          CountRequestsConcat(pre + [Request] + evs, Run(cfg, reaction.next, server, i + 1, jitter).1);
        }
      }
    }
  }

  /** Retry accounting: the outcomes that count as retries never take `retries`
      past `max_retries`, and the loop gives up exactly when they bring it there.
      A 429 never counts. */
  lemma {:induction false} RetryAccounting(cfg: Config, st: FetchState, server: seq<Attempt>, i: nat, jitter: nat -> real)
    requires i <= |server| && JitterInRange(jitter)
    ensures var r := Run(cfg, st, server, i, jitter);
      st.retries + Failures(server[i..r.2]) <= Max(st.retries, cfg.maxRetries)
    ensures var r := Run(cfg, st, server, i, jitter);
      r.0.Exhausted? ==> st.retries + Failures(server[i..r.2]) == Max(st.retries, cfg.maxRetries)
    ensures var r := Run(cfg, st, server, i, jitter);
      st.retries + Failures(server[i..r.2]) == Max(st.retries, cfg.maxRetries) ==> r.0.Exhausted?
    decreases |server| - i
  {
    var r := Run(cfg, st, server, i, jitter);
    if st.retries >= cfg.maxRetries || (st.retries > 0 && CalculateRetryDelay(cfg, st.retries, jitter(i)) < 0.0) || i == |server| {
      assert server[i..r.2] == [];
    } else {
      var (reaction, evs) := React(cfg, st, server[i]);
      ReactCounts(cfg, st, server[i]);
      assert server[i..r.2][1..] == server[i + 1..r.2];
      if reaction.Continue? {
        RetryAccounting(cfg, reaction.next, server, i + 1, jitter);
      } else {
        assert server[i + 1..r.2] == [];
        assert Failures(server[i + 1..r.2]) == 0;
      }
    }
  }

  /** From the first request on: `getInfo` gives up exactly when it has seen
      `max_retries` counted failures, and it never sees more. */
  lemma GetInfoRetryBound(cfg: Config, server: seq<Attempt>, jitter: nat -> real)
    requires JitterInRange(jitter) && cfg.pixivCookie != ""
    ensures var r := GetInfoSpec(cfg, server, jitter);
      Failures(server[..r.2]) <= Max(0, cfg.maxRetries) &&
      (r.0.Exhausted? <==> Failures(server[..r.2]) == Max(0, cfg.maxRetries))
  {
    RetryAccounting(cfg, FetchState(0, None), server, 0, jitter);
    var r := GetInfoSpec(cfg, server, jitter);
    assert server[0..r.2] == server[..r.2];
  }

  /** A 403 or 404 ends the loop after that request: no further request, and
      `getInfo` reports the failure with that status. */
  lemma ForbiddenOrMissingStops(cfg: Config, st: FetchState, server: seq<Attempt>, i: nat, jitter: nat -> real)
    requires i < |server| && JitterInRange(jitter)
    requires server[i].Response? && (server[i].status == 403 || server[i].status == 404)
    requires st.retries < cfg.maxRetries
    requires st.retries > 0 ==> CalculateRetryDelay(cfg, st.retries, jitter(i)) >= 0.0
    ensures var pre := if st.retries > 0 then [Backoff(CalculateRetryDelay(cfg, st.retries, jitter(i)))] else [];
      Run(cfg, st, server, i, jitter) == (Refused(server[i].status), pre + [Request], i + 1)
  {
    var pre := if st.retries > 0 then [Backoff(CalculateRetryDelay(cfg, st.retries, jitter(i)))] else [];
    assert React(cfg, st, server[i]) == (Stop(Refused(server[i].status)), []);
    assert pre + [Request] + [] == pre + [Request];
  }

  /** A 200 whose JSON is a mapping without a truthy `"error"` returns its
      `"body"` at once. */
  lemma ValidResponseReturnsBody(cfg: Config, st: FetchState, server: seq<Attempt>, i: nat, jitter: nat -> real)
    requires i < |server| && JitterInRange(jitter)
    requires server[i].Response? && server[i].status == 200
    requires server[i].json.Some? && server[i].json.value.JObj?
    requires !Truthy(Get(server[i].json.value.fields, "error", JNull))
    requires st.retries < cfg.maxRetries
    requires st.retries > 0 ==> CalculateRetryDelay(cfg, st.retries, jitter(i)) >= 0.0
    ensures var pre := if st.retries > 0 then [Backoff(CalculateRetryDelay(cfg, st.retries, jitter(i)))] else [];
      Run(cfg, st, server, i, jitter)
        == (Body(Get(server[i].json.value.fields, "body", JNull)), pre + [Request], i + 1)
  {
    var pre := if st.retries > 0 then [Backoff(CalculateRetryDelay(cfg, st.retries, jitter(i)))] else [];
    assert React(cfg, st, server[i]) == (Stop(Body(Get(server[i].json.value.fields, "body", JNull))), []);
    assert pre + [Request] + [] == pre + [Request];
  }

  /** Every request made with `retries > 0` comes right after a sleep of
      `calculate_retry_delay(retries)`; the first one does not wait. */
  lemma BackoffPrecedesRetry(cfg: Config, st: FetchState, server: seq<Attempt>, i: nat, jitter: nat -> real)
    requires i < |server| && JitterInRange(jitter)
    requires st.retries < cfg.maxRetries
    requires st.retries > 0 ==> CalculateRetryDelay(cfg, st.retries, jitter(i)) >= 0.0
    ensures var evs := Run(cfg, st, server, i, jitter).1;
      if st.retries > 0 then |evs| >= 2 && evs[..2] == [Backoff(CalculateRetryDelay(cfg, st.retries, jitter(i))), Request]
      else |evs| >= 1 && evs[0] == Request
  {
  }

  /** Attempts answered with 429 and the given wait. */
  function RateLimitedRun(n: nat, wait: int): seq<Attempt> {
    seq(n, _ => Response(429, None, Some(wait)))
  }

  /** The events of `n` rate-limited attempts: request, then the requested sleep. */
  function RateLimitTrace(n: nat, wait: int): seq<Event>
    decreases n
  {
    if n == 0 then [] else [Request, RateLimitWait(wait)] + RateLimitTrace(n - 1, wait)
  }

  /** Any number of 429 responses followed by an accepted 200 ends in success:
      429s are not bounded by `max_retries`, and no computed back-off is slept
      while `retries` stays 0. */
  lemma {:induction false} RateLimitsAreNotBounded(
    cfg: Config, lastStatus: Option<int>, server: seq<Attempt>, i: nat, n: nat, wait: int, jitter: nat -> real)
    requires JitterInRange(jitter) && cfg.maxRetries >= 1 && wait >= 0
    requires i + n < |server|
    requires forall k :: i <= k < i + n ==> server[k] == Response(429, None, Some(wait))
    requires server[i + n].Response? && server[i + n].status == 200
    requires ValidateResponseData(server[i + n].json).Some?
    ensures Run(cfg, FetchState(0, lastStatus), server, i, jitter)
      == (Body(Get(server[i + n].json.value.fields, "body", JNull)), RateLimitTrace(n, wait) + [Request], i + n + 1)
    decreases n
  {
    var st := FetchState(0, lastStatus);
    if n == 0 {
      var fields := server[i].json.value.fields;
      assert React(cfg, st, server[i]) == (Stop(Body(Get(fields, "body", JNull))), []);
      assert [] + [Request] + [] == RateLimitTrace(0, wait) + [Request];
    } else {
      assert React(cfg, st, server[i]) == (Continue(FetchState(0, Some(429))), [RateLimitWait(wait)]);
      RateLimitsAreNotBounded(cfg, Some(429), server, i + 1, n - 1, wait, jitter);
      assert [] + [Request] + [RateLimitWait(wait)] + (RateLimitTrace(n - 1, wait) + [Request])
        == RateLimitTrace(n, wait) + [Request];
    }
  }

  /** A 429 asking for 5 seconds, then a success: two requests, one
      5-second wait, no computed delay. */
  lemma RateLimitThenSuccess(cfg: Config, ok: Attempt, jitter: nat -> real)
    requires JitterInRange(jitter) && cfg.maxRetries >= 1 && cfg.pixivCookie != ""
    requires ok.Response? && ok.status == 200 && ValidateResponseData(ok.json).Some?
    ensures GetInfoSpec(cfg, [Response(429, None, Some(5)), ok], jitter)
      == (Body(Get(ok.json.value.fields, "body", JNull)), [Request, RateLimitWait(5), Request], 2)
  {
    var server := [Response(429, None, Some(5)), ok];
    RateLimitsAreNotBounded(cfg, None, server, 0, 1, 5, jitter);
    assert RateLimitTrace(1, 5) == [Request, RateLimitWait(5)] + [];
    assert RateLimitTrace(1, 5) + [Request] == [Request, RateLimitWait(5), Request];
  }

  /** A 404 as the first response: exactly one request, then the final failure. */
  lemma NotFoundSingleAttempt(cfg: Config, rest: seq<Attempt>, json: Option<Json>, retryAfter: Option<int>, jitter: nat -> real)
    requires JitterInRange(jitter) && cfg.maxRetries >= 1 && cfg.pixivCookie != ""
    ensures GetInfoSpec(cfg, [Response(404, json, retryAfter)] + rest, jitter) == (Refused(404), [Request], 1)
  {
    ForbiddenOrMissingStops(cfg, FetchState(0, None), [Response(404, json, retryAfter)] + rest, 0, jitter);
    assert [] + [Request] == [Request];
  }

  /** With `max_retries <= 0` no request is made and the status is "no response". */
  lemma NoRetriesNoRequest(cfg: Config, server: seq<Attempt>, jitter: nat -> real)
    requires JitterInRange(jitter) && cfg.maxRetries <= 0 && cfg.pixivCookie != ""
    ensures GetInfoSpec(cfg, server, jitter) == (Exhausted(None), [], 0)
  {
  }

  /** A 429 that arrives after a counted failure is followed by both the
      `Retry-After` sleep and, before the next request, the computed back-off,
      because `retries` is still positive. */
  lemma RateLimitAfterFailureSleepsTwice(cfg: Config, wait: int, ok: Attempt, jitter: nat -> real)
    requires JitterInRange(jitter) && cfg.maxRetries >= 2 && cfg.pixivCookie != ""
    requires !cfg.enableJitter && cfg.baseRetryDelay >= 0 && cfg.maxRetryDelay >= 0 && wait >= 0
    requires ok.Response? && ok.status == 200 && ValidateResponseData(ok.json).Some?
    ensures var d := BackoffDelay(cfg, 1) as real;
      GetInfoSpec(cfg, [Response(500, None, None), Response(429, None, Some(wait)), ok], jitter).1
        == [Request, Backoff(d), Request, RateLimitWait(wait), Backoff(d), Request]
  {
    var server := [Response(500, None, None), Response(429, None, Some(wait)), ok];
    var d := BackoffDelay(cfg, 1) as real;
    var s1 := FetchState(1, Some(500));
    var s2 := FetchState(1, Some(429));
    assert React(cfg, FetchState(0, None), server[0]) == (Continue(s1), []);
    assert React(cfg, s1, server[1]) == (Continue(s2), [RateLimitWait(wait)]);
    assert Run(cfg, s2, server, 2, jitter).1 == [Backoff(d), Request];
    assert Run(cfg, s1, server, 1, jitter).1 == [Backoff(d), Request, RateLimitWait(wait), Backoff(d), Request];
  }

  /** With non-negative delays and waits no sleep raises. */
  lemma {:induction false} NonNegativeDelaysNeverRaise(cfg: Config, st: FetchState, server: seq<Attempt>, i: nat, jitter: nat -> real)
    requires i <= |server| && JitterInRange(jitter)
    requires cfg.baseRetryDelay >= 0 && cfg.maxRetryDelay >= 0
    requires forall k :: i <= k < |server| && server[k].Response? ==> server[k].retryAfter.GetOr(0) >= 0
    ensures Run(cfg, st, server, i, jitter).0 != Raised
    decreases |server| - i
  {
    if st.retries < cfg.maxRetries && i < |server| {
      if st.retries > 0 {
        assert CalculateRetryDelay(cfg, st.retries, jitter(i)) >= 0.0;
      }
      var (reaction, _) := React(cfg, st, server[i]);
      if reaction.Continue? {
        NonNegativeDelaysNeverRaise(cfg, reaction.next, server, i + 1, jitter);
      }
    }
  }
}
