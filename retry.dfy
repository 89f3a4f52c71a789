/** Retry policy and response classifiers of the metadata fetch:
    `calculate_retry_delay` (main.py:617-626), `handle_http_error`
    (main.py:638-643), `validate_response_data` (main.py:645-658) and the status
    text of `log_final_failure` (main.py:660-666). */
module RetryPolicy {
  import opened Wrappers
  import opened Text
  import opened Json
  import opened Config

  function Pow2(n: nat): (r: nat)
    ensures r >= 1
  {
    if n == 0 then 1 else 2 * Pow2(n - 1)
  }

  function Min(a: int, b: int): int {
    if a <= b then a else b
  }

  /** `min(base_retry_delay * 2 ** (retries - 1), max_retry_delay)`. The
      exponential-backoff flag is not consulted. */
  function BackoffDelay(cfg: Config, retries: int): int
    requires retries >= 1
  {
    Min(cfg.baseRetryDelay * Pow2(retries - 1), cfg.maxRetryDelay)
  }

  /** `calculate_retry_delay(retries)`. `jitter` stands for the value
      `random.uniform(0, 1)` would draw; it is added only when jitter is enabled. */
  function CalculateRetryDelay(cfg: Config, retries: int, jitter: real): (d: real)
    requires retries >= 1 && 0.0 <= jitter <= 1.0
    ensures d <= cfg.maxRetryDelay as real + 1.0
    ensures cfg.baseRetryDelay * Pow2(retries - 1) <= cfg.maxRetryDelay ==>
      cfg.baseRetryDelay as real * Pow2(retries - 1) as real <= d
    ensures !cfg.enableJitter ==> d == BackoffDelay(cfg, retries) as real
    ensures cfg.enableJitter ==> BackoffDelay(cfg, retries) as real <= d <= BackoffDelay(cfg, retries) as real + 1.0
  {
    BackoffDelay(cfg, retries) as real + (if cfg.enableJitter then jitter else 0.0)
  }

  /** The delay is the same whatever `enable_exponential_backoff` says. */
  lemma BackoffFlagIgnored(cfg: Config, retries: int, jitter: real, flag: bool)
    requires retries >= 1 && 0.0 <= jitter <= 1.0
    ensures CalculateRetryDelay(cfg.(enableExponentialBackoff := flag), retries, jitter)
         == CalculateRetryDelay(cfg, retries, jitter)
  {
  }

  lemma {:induction false} Pow2Monotone(m: nat, n: nat)
    requires m <= n
    ensures Pow2(m) <= Pow2(n)
    decreases n - m
  {
    if m < n {
      Pow2Monotone(m, n - 1);
    }
  }

  lemma {:induction false} Pow2Exceeds(n: nat)
    ensures Pow2(n) > n
  {
    if n > 0 {
      Pow2Exceeds(n - 1);
    }
  }

  /** With a non-negative base the delay never decreases as retries grow. */
  lemma BackoffMonotone(cfg: Config, m: int, n: int)
    requires cfg.baseRetryDelay >= 0 && 1 <= m <= n
    ensures BackoffDelay(cfg, m) <= BackoffDelay(cfg, n)
  {
    Pow2Monotone(m - 1, n - 1);
    assert cfg.baseRetryDelay * Pow2(m - 1) <= cfg.baseRetryDelay * Pow2(n - 1);
  }

  /** With a positive base the delay reaches the cap once `retries` exceeds it. */
  lemma BackoffReachesCap(cfg: Config, n: int)
    requires cfg.baseRetryDelay >= 1 && n >= 1 && n - 1 >= cfg.maxRetryDelay
    ensures BackoffDelay(cfg, n) == cfg.maxRetryDelay
  {
    var p := Pow2(n - 1);
    Pow2Exceeds(n - 1);
    assert p * 1 <= p * cfg.baseRetryDelay;
    assert cfg.baseRetryDelay * p == p * cfg.baseRetryDelay;
    assert cfg.baseRetryDelay * p > cfg.maxRetryDelay;
  }

  /** The log entry `handle_http_error` writes: a server error (>= 500) at
      ERROR, anything else at WARNING. */
  datatype HttpErrorClass = ServerError | ClientError

  function HandleHttpError(status: int): (r: (HttpErrorClass, Level))
    ensures r.0 == ServerError <==> status >= 500
    ensures r.1 == (if status >= 500 then Error else Warning)
  {
    if status >= 500 then (ServerError, Error) else (ClientError, Warning)
  }

  /** `validate_response_data`: the parsed JSON of a 200 response (`None` when
      it does not parse) is accepted only when it is a mapping without a truthy
      `"error"` entry. */
  function ValidateResponseData(json: Option<Json>): (r: Option<seq<Field>>)
    ensures r.Some? <==> json.Some? && json.value.JObj? && !Truthy(Get(json.value.fields, "error", JNull))
    ensures r.Some? ==> json == Some(JObj(r.value))
  {
    match json
    case None => None
    case Some(data) =>
      if !data.JObj? then None
      else if Truthy(Get(data.fields, "error", JNull)) then None
      else Some(data.fields)
  }

  /** The text `log_final_failure` prints when there was no (truthy) status. */
  const NoResponse: string := "无响应"

  /** `str(last_status) if last_status else "no response"`. */
  function StatusText(lastStatus: Option<int>): string {
    if lastStatus.Some? && lastStatus.value != 0 then IntToString(lastStatus.value) else NoResponse
  }

  const FailurePrefix: string := "获取作品 "
  const FailureInfix: string := " 信息失败 (最终状态: "

  /** The final-failure message for `illustId`. */
  function FinalFailureMessage(illustId: string, lastStatus: Option<int>): string {
    FailurePrefix + illustId + FailureInfix + StatusText(lastStatus) + ")"
  }

  /** The final-failure message names the work right after its prefix and the
      status text right before the closing parenthesis. */
  lemma FinalFailureNamesWorkAndStatus(illustId: string, lastStatus: Option<int>)
    ensures var m := FinalFailureMessage(illustId, lastStatus);
      var k := |FailurePrefix| + |illustId| + |FailureInfix|;
      StartsWith(m, FailurePrefix) && OccursAt(m, illustId, |FailurePrefix|) &&
      OccursAt(m, StatusText(lastStatus), k) && |m| == k + |StatusText(lastStatus)| + 1 && m[|m| - 1] == ')'
  {
    FourParts(FailurePrefix, illustId, FailureInfix, StatusText(lastStatus));
  }

  lemma FourParts(a: string, b: string, c: string, d: string)
    ensures var m := a + b + c + d + ")";
      StartsWith(m, a) && OccursAt(m, b, |a|) && OccursAt(m, d, |a| + |b| + |c|) &&
      |m| == |a| + |b| + |c| + |d| + 1 && m[|m| - 1] == ')'
  {
    var m := a + b + c + d + ")";
    assert m == a + (b + (c + (d + ")")));
    assert m[..|a|] == a;
    assert m[|a|..|a| + |b|] == b;
    assert m[|a| + |b| + |c|..|a| + |b| + |c| + |d|] == d;
  }

  /** For one work, two final-failure messages with positive statuses are equal
      only when the statuses are. */
  lemma FinalFailureIdentifiesStatus(illustId: string, a: int, b: int)
    ensures a > 0 && b > 0 && FinalFailureMessage(illustId, Some(a)) == FinalFailureMessage(illustId, Some(b)) ==> a == b
  {
    if a > 0 && b > 0 && FinalFailureMessage(illustId, Some(a)) == FinalFailureMessage(illustId, Some(b)) {
      FinalFailureNamesWorkAndStatus(illustId, Some(a));
      FinalFailureNamesWorkAndStatus(illustId, Some(b));
      var k := |FailurePrefix| + |illustId| + |FailureInfix|;
      assert StatusText(Some(a)) == FinalFailureMessage(illustId, Some(a))[k..k + |StatusText(Some(a))|];
      NatToStringInjective(a, b);
    }
  }

  /** With the default configuration the computed delays run 3, 6, 12, 24 and
      48 seconds, and every later one is the 60-second cap. */
  lemma DefaultBackoffSchedule(n: int)
    ensures BackoffDelay(Defaults, 1) == 3 && BackoffDelay(Defaults, 2) == 6 && BackoffDelay(Defaults, 3) == 12
    ensures BackoffDelay(Defaults, 4) == 24 && BackoffDelay(Defaults, 5) == 48
    ensures n >= 6 ==> BackoffDelay(Defaults, n) == 60
  {
    assert Pow2(5) == 32 by {
      assert Pow2(4) == 16 by {
        assert Pow2(3) == 8 by {
          assert Pow2(2) == 4;
        }
      }
    }
    if n >= 6 {
      BackoffMonotone(Defaults, 6, n);
    }
  }

  /** Under the default log level every `handle_http_error` entry reaches the
      log file, and so does the final failure logged at ERROR. */
  lemma HttpErrorsReachDefaultLog(status: int)
    ensures WrittenToFile(HandleHttpError(status).1, Defaults.logLevel)
    ensures WrittenToFile(Error, Defaults.logLevel)
  {
  }

  /** A positive last status is printed as its decimal digits and can be read
      back; a missing or zero status prints the no-response text. */
  lemma StatusTextMeaning(lastStatus: Option<int>)
    ensures lastStatus.Some? && lastStatus.value > 0 ==>
      AllDigits(StatusText(lastStatus)) && ParseDigits(StatusText(lastStatus)) == lastStatus.value
    ensures (lastStatus == None || lastStatus == Some(0)) ==> StatusText(lastStatus) == NoResponse
  {
    if lastStatus.Some? && lastStatus.value > 0 {
      ParseNatToString(lastStatus.value);
    }
  }
}
