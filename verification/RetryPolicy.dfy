/** The central retry policy: which failures are retried and how long to back off. */
module RetryPolicy {
  import opened Wrappers

  datatype ErrorCategory =
    | VALIDATION | UNSUPPORTED_CAPABILITY | AUTHENTICATION | AUTHORIZATION
    | NOT_FOUND | CONFLICT | NETWORK | CONNECTION | TIMEOUT | RATE_LIMIT
    | RESOURCE_EXHAUSTED | INGESTION | RETRIEVAL | GENERATION
    | INVALID_RESPONSE | INTERNAL | UNKNOWN_ERROR

  datatype ErrorRecord = ErrorRecord(
    category: ErrorCategory,
    code: string,
    message: string,
    retryable: bool,
    retryAfterMs: Option<int>,
    httpStatus: Option<int>)

  datatype RetryConfig = RetryConfig(
    maxAttempts: nat,
    strategy: string,
    initialDelay: real,
    maximumDelay: real,
    retryableHttpStatuses: seq<int>,
    retryableCategories: seq<ErrorCategory>)
  {
    /** What the configuration model validates before a policy is built. */
    predicate Valid() {
      maxAttempts >= 1 && 0.0 <= initialDelay <= maximumDelay
    }
  }

  datatype RetryDecision = RetryDecision(shouldRetry: bool, delaySeconds: real, nextAttemptNumber: nat)

  const DEFAULT_RETRYABLE := {NETWORK, CONNECTION, TIMEOUT, RATE_LIMIT, RESOURCE_EXHAUSTED}

  predicate IsRetryableCategory(config: RetryConfig, category: ErrorCategory) {
    category in config.retryableCategories || category in DEFAULT_RETRYABLE
  }

  function Pow2(n: nat): (p: real)
    ensures p >= 1.0
  {
    if n == 0 then 1.0 else 2.0 * Pow2(n - 1)
  }

  function Min(x: real, y: real): real {
    if x <= y then x else y
  }

  /** Exponential backoff before jitter. */
  function Capped(config: RetryConfig, attemptNumber: nat): real
    requires attemptNumber >= 1
  {
    Min(config.initialDelay * Pow2(attemptNumber - 1), config.maximumDelay)
  }

  function WithJitter(capped: real, jitter: real): real {
    var delay := capped + jitter * (capped * 0.25);
    if delay >= 0.0 then delay else 0.0
  }

  /** `jitter` in [-1, 1] stands for the uniform random draw, scaled to the jitter range. */
  function CalculateDelay(config: RetryConfig, attemptNumber: nat, retryAfterMs: Option<int>, jitter: real): real
    requires attemptNumber >= 1
  {
    if retryAfterMs.Some? && retryAfterMs.value > 0 then
      Min(retryAfterMs.value as real / 1000.0, config.maximumDelay)
    else if config.strategy == "exponential_jitter" then
      WithJitter(Capped(config, attemptNumber), jitter)
    else if config.strategy == "linear" then
      Min(config.initialDelay * attemptNumber as real, config.maximumDelay)
    else
      config.initialDelay
  }

  function Evaluate(config: RetryConfig, error: ErrorRecord, attemptNumber: nat, jitter: real): RetryDecision
    requires attemptNumber >= 1
  {
    var stop := RetryDecision(false, 0.0, attemptNumber + 1);
    if attemptNumber >= config.maxAttempts then stop
    else if error.retryable then
      RetryDecision(true, CalculateDelay(config, attemptNumber, error.retryAfterMs, jitter), attemptNumber + 1)
    else if error.httpStatus.Some? then
      if error.httpStatus.value in config.retryableHttpStatuses then
        RetryDecision(true, CalculateDelay(config, attemptNumber, None, jitter), attemptNumber + 1)
      else stop
    else if IsRetryableCategory(config, error.category) then
      RetryDecision(true, CalculateDelay(config, attemptNumber, None, jitter), attemptNumber + 1)
    else stop
  }

  /** The part of the decision that survives a restart: it draws no randomness. */
  predicate ShouldRetry(config: RetryConfig, error: ErrorRecord, attemptNumber: nat) {
    && attemptNumber < config.maxAttempts
    && (error.retryable
        || (error.httpStatus.Some? && error.httpStatus.value in config.retryableHttpStatuses)
        || (error.httpStatus.None? && IsRetryableCategory(config, error.category)))
  }

  /** Whatever the draw, a failure is retried exactly when `ShouldRetry` holds, and a refusal never sleeps. */
  lemma RetryIgnoresJitter(config: RetryConfig, error: ErrorRecord, attemptNumber: nat, jitter: real)
    requires attemptNumber >= 1
    ensures var d := Evaluate(config, error, attemptNumber, jitter);
            && d.shouldRetry == ShouldRetry(config, error, attemptNumber)
            && (!d.shouldRetry ==> d.delaySeconds == 0.0)
            && d.nextAttemptNumber == attemptNumber + 1
  {
  }

  /** A failure is retried exactly below the maximum and when it is flagged; or, carrying a status, when the status is
      listed; or, carrying none, when its category is one of the five that no configuration switches off, or a
      configured one. */
  lemma RetriedExactly(config: RetryConfig, error: ErrorRecord, n: nat, jitter: real)
    requires n >= 1
    ensures Evaluate(config, error, n, jitter).shouldRetry <==>
              && n < config.maxAttempts
              && (|| error.retryable
                  || (error.httpStatus.Some? && error.httpStatus.value in config.retryableHttpStatuses)
                  || (error.httpStatus.None? &&
                      (|| error.category.NETWORK? || error.category.CONNECTION? || error.category.TIMEOUT?
                       || error.category.RATE_LIMIT? || error.category.RESOURCE_EXHAUSTED?
                       || error.category in config.retryableCategories)))
  {
  }

  /** Without a flag or a status, exactly those five are retried whatever is configured. */
  lemma AlwaysRetriedExactly(error: ErrorRecord, n: nat)
    requires n >= 1 && !error.retryable && error.httpStatus.None?
    ensures (forall config: RetryConfig, jitter ::
              n < config.maxAttempts ==> Evaluate(config, error, n, jitter).shouldRetry) <==>
              || error.category.NETWORK? || error.category.CONNECTION? || error.category.TIMEOUT?
              || error.category.RATE_LIMIT? || error.category.RESOURCE_EXHAUSTED?
  {
    var bare := RetryConfig(n + 1, "", 0.0, 0.0, [], []);
    RetriedExactly(bare, error, n, 0.0);
    if Evaluate(bare, error, n, 0.0).shouldRetry {
      forall config: RetryConfig, jitter | n < config.maxAttempts
        ensures Evaluate(config, error, n, jitter).shouldRetry
      {
        RetriedExactly(config, error, n, jitter);
      }
    }
  }

  predicate UsesRetryAfter(retryAfterMs: Option<int>) {
    retryAfterMs.Some? && retryAfterMs.value > 0
  }

  predicate Draw(jitter: real) {
    -1.0 <= jitter <= 1.0
  }

  /** Every backoff lies in [0, 1.25 * maximum_delay]. */
  lemma DelayBound(config: RetryConfig, n: nat, retryAfterMs: Option<int>, jitter: real)
    requires config.Valid() && n >= 1 && Draw(jitter)
    ensures 0.0 <= CalculateDelay(config, n, retryAfterMs, jitter) <= 1.25 * config.maximumDelay
    ensures config.strategy != "exponential_jitter" || UsesRetryAfter(retryAfterMs) ==>
              CalculateDelay(config, n, retryAfterMs, jitter) <= config.maximumDelay
  {
    CappedBound(config, n);
    JitterBound(Capped(config, n), jitter);
    if config.strategy != "exponential_jitter" {
      NonNegativeProduct(config.initialDelay, n as real);
    }
  }

  /** Some draw lifts the delay above maximum_delay exactly for an exponential delay, not taken from Retry-After, whose
      capped value is above four fifths of the maximum. */
  lemma MaximumExceededExactly(config: RetryConfig, n: nat, retryAfterMs: Option<int>)
    requires config.Valid() && n >= 1
    ensures (exists jitter ::
              Draw(jitter) && CalculateDelay(config, n, retryAfterMs, jitter) > config.maximumDelay) <==>
            && config.strategy == "exponential_jitter" && !UsesRetryAfter(retryAfterMs)
            && 1.25 * Capped(config, n) > config.maximumDelay
  {
    var exponential := config.strategy == "exponential_jitter" && !UsesRetryAfter(retryAfterMs);
    CappedBound(config, n);
    forall jitter | Draw(jitter)
      ensures CalculateDelay(config, n, retryAfterMs, jitter) > config.maximumDelay ==>
                exponential && 1.25 * Capped(config, n) > config.maximumDelay
    {
      DelayBound(config, n, retryAfterMs, jitter);
      JitterBound(Capped(config, n), jitter);
    }
    if exponential && 1.25 * Capped(config, n) > config.maximumDelay {
      JitterBound(Capped(config, n), 1.0);
      assert Draw(1.0) && CalculateDelay(config, n, retryAfterMs, 1.0) > config.maximumDelay;
    }
  }

  /** The computed backoff at the extreme draws. */
  function ExtremeDelay(config: RetryConfig, n: nat, factor: real): real
    requires n >= 1
  {
    if config.strategy == "exponential_jitter" then factor * Capped(config, n)
    else if config.strategy == "linear" then Min(config.initialDelay * n as real, config.maximumDelay)
    else config.initialDelay
  }

  lemma DelayBetweenExtremes(config: RetryConfig, n: nat, jitter: real)
    requires config.Valid() && n >= 1 && Draw(jitter)
    ensures ExtremeDelay(config, n, 0.75) <= CalculateDelay(config, n, None, jitter) <= ExtremeDelay(config, n, 1.25)
    ensures CalculateDelay(config, n, None, -1.0) == ExtremeDelay(config, n, 0.75)
    ensures CalculateDelay(config, n, None, 1.0) == ExtremeDelay(config, n, 1.25)
  {
    CappedBound(config, n);
    JitterBound(Capped(config, n), jitter);
    JitterBound(Capped(config, n), -1.0);
    JitterBound(Capped(config, n), 1.0);
    JitterFloor(Capped(config, n), jitter);
  }

  lemma JitterFloor(capped: real, jitter: real)
    requires capped >= 0.0 && Draw(jitter)
    ensures 0.75 * capped <= WithJitter(capped, jitter)
  {
    JitterBound(capped, jitter);
    NonNegativeProduct(1.0 + jitter, capped);
    assert capped * (1.0 + 0.25 * jitter) == 0.75 * capped + 0.25 * ((1.0 + jitter) * capped);
  }

  /** The wait after a failure that is retried, with the error's Retry-After or without it. */
  function Wait(config: RetryConfig, error: ErrorRecord, n: nat, jitter: real): real
    requires n >= 1
  {
    Evaluate(config, error, n, jitter).delaySeconds
  }

  /** Retry-After counts exactly for errors flagged retryable, and then replaces the computed backoff. It can
      shorten the wait exactly when, capped at the maximum, it is below the longest backoff the strategy can draw,
      and is bound to shorten it exactly when it is below the shortest. */
  lemma RetryAfterReplacesBackoff(config: RetryConfig, error: ErrorRecord, n: nat)
    requires config.Valid() && n >= 1 && ShouldRetry(config, error, n) && UsesRetryAfter(error.retryAfterMs)
    ensures var without := error.(retryAfterMs := None);
            var after := Min(error.retryAfterMs.value as real / 1000.0, config.maximumDelay);
            if !error.retryable then
              forall jitter :: Draw(jitter) ==> Wait(config, error, n, jitter) == Wait(config, without, n, jitter)
            else
              && ((exists jitter ::
                     Draw(jitter) && Wait(config, error, n, jitter) < Wait(config, without, n, jitter)) <==>
                    after < ExtremeDelay(config, n, 1.25))
              && ((forall jitter ::
                     Draw(jitter) ==> Wait(config, error, n, jitter) < Wait(config, without, n, jitter)) <==>
                    after < ExtremeDelay(config, n, 0.75))
  {
    if error.retryable {
      var without := error.(retryAfterMs := None);
      forall jitter | Draw(jitter)
        ensures ExtremeDelay(config, n, 0.75) <= Wait(config, without, n, jitter) <= ExtremeDelay(config, n, 1.25)
      {
        DelayBetweenExtremes(config, n, jitter);
      }
      DelayBetweenExtremes(config, n, 1.0);
      assert Draw(1.0) && Wait(config, without, n, 1.0) == ExtremeDelay(config, n, 1.25);
      assert Draw(-1.0) && Wait(config, without, n, -1.0) == ExtremeDelay(config, n, 0.75);
    }
  }

  /** The wait of a retried failure is the computed backoff of its attempt number, with the error's Retry-After only
      when it is flagged. */
  lemma WaitExactly(config: RetryConfig, error: ErrorRecord, n: nat, jitter: real)
    requires n >= 1 && Evaluate(config, error, n, jitter).shouldRetry
    ensures Wait(config, error, n, jitter) ==
            CalculateDelay(config, n, if error.retryable then error.retryAfterMs else None, jitter)
  {
  }

  /** The middle of the draw: an exponential backoff starts at the initial delay and doubles up to the maximum, a linear
      one grows by the initial delay up to the maximum, and any other stays at the initial delay. */
  lemma BackoffExactly(config: RetryConfig, n: nat)
    requires config.Valid() && n >= 1
    ensures CalculateDelay(config, 1, None, 0.0) == config.initialDelay
    ensures var now, next := CalculateDelay(config, n, None, 0.0), CalculateDelay(config, n + 1, None, 0.0);
            if config.strategy == "exponential_jitter" then
              next == if 2.0 * now <= config.maximumDelay then 2.0 * now else config.maximumDelay
            else if config.strategy == "linear" then
              next == if now + config.initialDelay <= config.maximumDelay then now + config.initialDelay
                      else config.maximumDelay
            else next == config.initialDelay
  {
    var initial, p := config.initialDelay, Pow2(n - 1);
    NonNegativeProduct(initial, p);
    assert initial * Pow2(n) == 2.0 * (initial * p);
    assert initial * (n + 1) as real == initial * n as real + initial;
  }

  /** The draw moves an exponential backoff by up to a quarter of it, in proportion, and no other; Retry-After, in
      milliseconds, replaces the backoff and is capped. */
  lemma DelayExactly(config: RetryConfig, n: nat, retryAfterMs: Option<int>, jitter: real)
    requires config.Valid() && n >= 1 && Draw(jitter)
    ensures var delay, middle := CalculateDelay(config, n, retryAfterMs, jitter), CalculateDelay(config, n, None, 0.0);
            if retryAfterMs.Some? && retryAfterMs.value > 0 then
              var seconds := retryAfterMs.value as real / 1000.0;
              delay == if seconds <= config.maximumDelay then seconds else config.maximumDelay
            else if config.strategy == "exponential_jitter" then delay == middle * (1.0 + 0.25 * jitter)
            else delay == middle
  {
    CappedBound(config, n);
    JitterBound(Capped(config, n), jitter);
    JitterBound(Capped(config, n), 0.0);
  }

  lemma CappedBound(config: RetryConfig, n: nat)
    requires config.Valid() && n >= 1
    ensures 0.0 <= Capped(config, n) <= config.maximumDelay
  {
    NonNegativeProduct(config.initialDelay, Pow2(n - 1));
  }

  lemma JitterBound(capped: real, jitter: real)
    requires capped >= 0.0 && -1.0 <= jitter <= 1.0
    ensures WithJitter(capped, jitter) == capped * (1.0 + 0.25 * jitter)
    ensures 0.0 <= WithJitter(capped, jitter) <= 1.25 * capped
  {
    NonNegativeProduct(1.0 - jitter, capped);
    NonNegativeProduct(1.0 + jitter, capped);
  }

  lemma NonNegativeProduct(x: real, y: real)
    requires x >= 0.0 && y >= 0.0
    ensures x * y >= 0.0
  {
  }
}
