/** The notifiers' HTTP retry loop: how often it tries and how long it sleeps, in 64-bit
    nanoseconds. */
module HttpRetry {
  import opened Arith
  import opened Wrappers

  const SECOND: int := 1_000_000_000
  const DEFAULT_RETRIES: int := 3
  const DEFAULT_RETRY_DELAY: int := SECOND
  const DEFAULT_MAX_RETRY_AFTER: int := 60 * SECOND
  const DEFAULT_BACKOFF_MULTIPLIER: int := 2

  const TWO63: int := 0x8000_0000_0000_0000
  const TWO64: int := 0x1_0000_0000_0000_0000

  /** Two's complement wrap-around of a 64-bit product. */
  function Wrap64(x: int): (r: int)
    ensures -TWO63 <= r < TWO63
  {
    (x + TWO63) % TWO64 - TWO63
  }

  predicate InRange(x: int) { -TWO63 <= x < TWO63 }

  lemma WrapIsIdentityInRange(x: int)
    ensures Wrap64(x) == x <==> InRange(x)
  {
  }

  lemma WrapShift(x: int, t: int)
    ensures Wrap64(x + t * TWO64) == Wrap64(x)
  {
    var y := x + TWO63;
    assert (y + t * TWO64) % TWO64 == y % TWO64 by { ModShift(y, t); }
  }

  lemma ModShift(y: int, t: int)
    ensures (y + t * TWO64) % TWO64 == y % TWO64
  {
    var q := y / TWO64;
    assert y + t * TWO64 == (q + t) * TWO64 + y % TWO64;
  }

  /** Wrapping early or late makes no difference to a product. */
  lemma WrapProduct(a: int, m: int)
    ensures Wrap64(Wrap64(a) * m) == Wrap64(a * m)
  {
    var q := (a + TWO63) / TWO64;
    assert Wrap64(a) == a - q * TWO64;
    calc {
      Wrap64(a) * m;
      (a - q * TWO64) * m;
      a * m + (-(q * m)) * TWO64;
    }
    WrapShift(a * m, -(q * m));
  }

  datatype Config = Config(maxAttempts: int, retryDelay: int, maxRetryAfter: int, backoffMultiplier: int)

  /** Positive settings are kept, the others replaced by their defaults. */
  function WithDefaults(cfg: Config): (c: Config)
    ensures c.maxAttempts == cfg.maxAttempts || (cfg.maxAttempts <= 0 && c.maxAttempts == 3)
    ensures c.retryDelay == cfg.retryDelay || (cfg.retryDelay <= 0 && c.retryDelay == SECOND)
    ensures c.maxRetryAfter == cfg.maxRetryAfter || (cfg.maxRetryAfter <= 0 && c.maxRetryAfter == 60 * SECOND)
    ensures c.backoffMultiplier == cfg.backoffMultiplier || (cfg.backoffMultiplier <= 0 && c.backoffMultiplier == 2)
    ensures c.maxAttempts > 0 && c.retryDelay > 0 && c.maxRetryAfter > 0 && c.backoffMultiplier > 0
  {
    Config(if cfg.maxAttempts <= 0 then DEFAULT_RETRIES else cfg.maxAttempts,
           if cfg.retryDelay <= 0 then DEFAULT_RETRY_DELAY else cfg.retryDelay,
           if cfg.maxRetryAfter <= 0 then DEFAULT_MAX_RETRY_AFTER else cfg.maxRetryAfter,
           if cfg.backoffMultiplier <= 0 then DEFAULT_BACKOFF_MULTIPLIER else cfg.backoffMultiplier)
  }

  type Error = string

  /** A classified attempt. Success carries no error. */
  datatype Outcome = Outcome(err: Option<Error>, retryable: bool, retryAfter: int)

  predicate Final(o: Outcome) { o.err.None? || !o.retryable }

  /** The sleep after attempt `attempt`, in unbounded arithmetic. */
  function Backoff(c: Config, attempt: nat): int
    requires attempt >= 1 && c.backoffMultiplier > 0
  {
    c.retryDelay * Pow(c.backoffMultiplier, attempt - 1)
  }

  /** Delays are geometric up to 64-bit wrap-around, and exactly geometric while they fit. */
  method DelayForAttempt(c: Config, attempt: nat, retryAfter: int) returns (delay: int)
    requires attempt >= 1 && c.backoffMultiplier > 0 && InRange(c.retryDelay)
    ensures retryAfter > 0 ==> delay == retryAfter
    ensures retryAfter <= 0 ==> delay == Wrap64(Backoff(c, attempt))
    ensures retryAfter <= 0 ==> (delay == Backoff(c, attempt) <==> InRange(Backoff(c, attempt)))
  {
    if retryAfter > 0 { return retryAfter; }
    delay := c.retryDelay;
    for i := 1 to attempt
      invariant delay == Wrap64(Backoff(c, i))
    {
      WrapProduct(Backoff(c, i), c.backoffMultiplier);
      BackoffGrows(c, i);
      delay := Wrap64(delay * c.backoffMultiplier);
    }
    WrapIsIdentityInRange(Backoff(c, attempt));
  }

  lemma BackoffGrows(c: Config, attempt: nat)
    requires attempt >= 1 && c.backoffMultiplier > 0
    ensures Backoff(c, attempt + 1) == Backoff(c, attempt) * c.backoffMultiplier
  {
    var m, p := c.backoffMultiplier, Pow(c.backoffMultiplier, attempt - 1);
    assert Pow(m, attempt) == m * p;
    assert c.retryDelay * (m * p) == c.retryDelay * p * m;
  }

  function SleepAfter(c: Config, k: nat, o: Outcome): int
    requires k >= 1 && c.backoffMultiplier > 0
  {
    if o.retryAfter > 0 then o.retryAfter else Wrap64(Backoff(c, k))
  }

  datatype DoResult = Delivered | GaveUp(err: Error) | Cancelled

  /** How a call ended after `n` attempts. */
  ghost predicate EndsWith(c: Config, outcome: nat -> Outcome, done: nat -> bool, cut: nat -> bool, r: DoResult,
                           n: nat, sleeps: seq<int>) {
    match r
    case Delivered => n >= 1 && outcome(n).err.None? && |sleeps| == n - 1
    case GaveUp(e) =>
      n >= 1 && outcome(n).err == Some(e) && (n == c.maxAttempts || !outcome(n).retryable) && |sleeps| == n - 1
    case Cancelled => n <= c.maxAttempts && |sleeps| == n && ((n >= 1 && cut(n)) || (n < c.maxAttempts && done(n + 1)))
  }

  /** Do. Attempt k has `outcome(k)`; `done(k)` says the context is done before it, `cut(k)`
      that the sleep after it is interrupted. */
  method Do(cfg: Config, outcome: nat -> Outcome, done: nat -> bool, cut: nat -> bool)
    returns (r: DoResult, attempts: nat, sleeps: seq<int>)
    requires InRange(cfg.retryDelay)
    ensures var c := WithDefaults(cfg);
            && attempts <= c.maxAttempts && |sleeps| <= attempts
            && (forall k :: 1 <= k < attempts ==> !Final(outcome(k)) && !done(k) && !cut(k))
            && (forall k :: 0 <= k < |sleeps| ==> sleeps[k] == SleepAfter(c, k + 1, outcome(k + 1)))
            && EndsWith(c, outcome, done, cut, r, attempts, sleeps)
  {
    var c := WithDefaults(cfg);
    var lastErr: Error := "";
    attempts, sleeps := 0, [];
    var try := 1;
    while try <= c.maxAttempts
      invariant 1 <= try <= c.maxAttempts && attempts == try - 1 && |sleeps| == attempts
      invariant forall k :: 1 <= k <= attempts ==> !Final(outcome(k)) && !done(k) && !cut(k)
      invariant forall k :: 0 <= k < |sleeps| ==> sleeps[k] == SleepAfter(c, k + 1, outcome(k + 1))
      decreases c.maxAttempts - try
    {
      if done(try) { return Cancelled, attempts, sleeps; }
      var out := outcome(try);
      attempts := try;
      if out.err.None? { return Delivered, attempts, sleeps; }
      lastErr := out.err.value;
      if !out.retryable || try == c.maxAttempts { break; }
      var delay := DelayForAttempt(c, try, out.retryAfter);
      sleeps := sleeps + [delay];
      if cut(try) { return Cancelled, attempts, sleeps; }
      try := try + 1;
    }
    r := GaveUp(lastErr);
  }

  /** Without cancellation: the number of attempts is the smaller of the limit and the first
      final outcome, with one sleep fewer. */
  lemma AttemptsWithoutCancellation(c: Config, outcome: nat -> Outcome, done: nat -> bool, cut: nat -> bool,
                                    r: DoResult, n: nat, sleeps: seq<int>, first: nat)
    requires forall k :: !done(k) && !cut(k)
    requires n <= c.maxAttempts && (forall k :: 1 <= k < n ==> !Final(outcome(k)))
    requires EndsWith(c, outcome, done, cut, r, n, sleeps)
    requires first >= 1 && (forall k :: 1 <= k < first ==> !Final(outcome(k)))
    requires Final(outcome(first)) || first >= c.maxAttempts
    ensures n == (if first <= c.maxAttempts then first else c.maxAttempts) && |sleeps| == n - 1
    ensures r.Delivered? <==> outcome(n).err.None?
  {
  }

  function Sum(xs: seq<int>): int { if xs == [] then 0 else Sum(xs[..|xs| - 1]) + xs[|xs| - 1] }

  lemma {:induction false} PowGrows(m: nat, a: nat, b: nat)
    requires m >= 1 && a <= b
    ensures 1 <= Pow(m, a) <= Pow(m, b)
    decreases b
  {
    if a < b {
      PowGrows(m, a, b - 1);
      MulGrows(m, Pow(m, b - 1));
    } else if a > 0 {
      PowGrows(m, a - 1, a - 1);
      MulGrows(m, Pow(m, a - 1));
    }
  }

  lemma MulGrows(m: int, p: int)
    requires m >= 1 && p >= 1
    ensures m * p >= p
  {
    assert m * p == p + (m - 1) * p;
    assert (m - 1) * p >= 0;
  }

  lemma GeometricStep(s: int, d: int, p: int, m: int)
    requires s * (m - 1) == d * (p - 1)
    ensures (s + d * p) * (m - 1) == d * (m * p - 1)
  {
    var q := d * p;
    assert (s + q) * (m - 1) == s * (m - 1) + q * (m - 1);
    assert d * (m * p) == q * m;
    assert d * (m * p - 1) == d * (m * p) - d;
    assert d * (p - 1) == q - d;
    assert q * (m - 1) == q * m - q;
  }

  lemma {:induction false} GeometricSum(d: int, m: nat, xs: seq<int>)
    requires forall k :: 0 <= k < |xs| ==> xs[k] == d * Pow(m, k)
    ensures Sum(xs) * (m - 1) == d * (Pow(m, |xs|) - 1)
  {
    if xs != [] {
      var n := |xs| - 1;
      GeometricSum(d, m, xs[..n]);
      GeometricStep(Sum(xs[..n]), d, Pow(m, n), m);
    }
  }

  lemma {:induction false} EarlierBackoffFits(c: Config, k: nat, n: nat)
    requires 1 <= k <= n && c.retryDelay > 0 && c.backoffMultiplier > 0 && InRange(Backoff(c, n))
    ensures InRange(Backoff(c, k))
  {
    if k < n {
      var p := Pow(c.backoffMultiplier, n - 2);
      PowGrows(c.backoffMultiplier, n - 2, n - 2);
      BackoffGrows(c, n - 1);
      assert c.retryDelay * p >= 1;
      MulGrows(c.backoffMultiplier, c.retryDelay * p);
      EarlierBackoffFits(c, k, n - 1);
    }
  }

  /** With no server-given wait and the last delay in range, no delay overflows and the sleeps
      of a call that made `n` attempts total RetryDelay·(m^(n−1) − 1)/(m − 1). */
  lemma {:induction false} SleepsAreGeometric(c: Config, outcome: nat -> Outcome, sleeps: seq<int>)
    requires c.retryDelay > 0 && c.backoffMultiplier > 0
    requires forall k :: 0 <= k < |sleeps| ==>
               sleeps[k] == SleepAfter(c, k + 1, outcome(k + 1)) && outcome(k + 1).retryAfter <= 0
    requires |sleeps| > 0 ==> InRange(Backoff(c, |sleeps|))
    ensures forall k :: 0 <= k < |sleeps| ==> sleeps[k] == Backoff(c, k + 1)
    ensures Sum(sleeps) * (c.backoffMultiplier - 1) == c.retryDelay * (Pow(c.backoffMultiplier, |sleeps|) - 1)
  {
    forall k | 0 <= k < |sleeps| ensures sleeps[k] == c.retryDelay * Pow(c.backoffMultiplier, k) {
      EarlierBackoffFits(c, k + 1, |sleeps|);
      WrapIsIdentityInRange(Backoff(c, k + 1));
    }
    GeometricSum(c.retryDelay, c.backoffMultiplier, sleeps);
  }

  // ---- classification ----

  datatype NetError = NoNetError | ContextError | OtherNetError

  /** A trimmed Retry-After header: a number, a date `until` nanoseconds away, or neither. */
  datatype RetryAfterHeader = Absent | Seconds(n: int) | Date(until: int)

  function ParseRetryAfter(h: RetryAfterHeader): int {
    match h
    case Absent => 0
    case Seconds(n) => if n > 0 then Wrap64(n * SECOND) else 0
    case Date(until) => if until > 0 then until else 0
  }

  function RateLimitOutcome(h: RetryAfterHeader, maxRetryAfter: int, kind: Error): Outcome {
    var retryAfter := ParseRetryAfter(h);
    if retryAfter > maxRetryAfter then Outcome(Some(kind), false, 0)
    else Outcome(Some(kind), true, if retryAfter <= 0 then DEFAULT_RETRY_DELAY else retryAfter)
  }

  function DefaultClassifier(status: int, h: RetryAfterHeader, netErr: NetError): Outcome {
    if netErr.ContextError? then Outcome(Some("request"), false, 0)
    else if netErr.OtherNetError? then Outcome(Some("request"), true, 0)
    else if 200 <= status < 300 then Outcome(None, false, 0)
    else if status == 429 then RateLimitOutcome(h, DEFAULT_MAX_RETRY_AFTER, "rate limited (HTTP 429)")
    else if 500 <= status < 600 then Outcome(Some("server error"), true, 0)
    else Outcome(Some("HTTP"), false, 0)
  }

  /** What is retried, and that a server-given wait is positive and never exceeds 60 seconds. */
  lemma ClassifiedExactly(status: int, h: RetryAfterHeader, netErr: NetError)
    ensures var o := DefaultClassifier(status, h, netErr);
            && (o.err.None? <==> netErr.NoNetError? && 200 <= status < 300)
            && (!Final(o) <==> (netErr.OtherNetError? ||
                 (netErr.NoNetError? && (500 <= status < 600 || (status == 429 && ParseRetryAfter(h) <= 60 * SECOND)))))
            && (o.retryAfter > 0 <==> (!Final(o) && netErr.NoNetError? && status == 429))
            && 0 <= o.retryAfter <= 60 * SECOND
  {
  }

  /** The wait after a rate-limited attempt (HTTP 429): the server's seconds or the time to its date,
      one second when it names neither or none is left, and no retry above 60 seconds. Seconds
      are taken in 64-bit nanoseconds, so a very large number may come back small. */
  lemma RateLimitedWait(h: RetryAfterHeader)
    ensures var o := DefaultClassifier(429, h, NoNetError);
            && (h.Absent? ==> o.retryable && o.retryAfter == 1_000_000_000)
            && (h.Date? ==> o.retryable == (h.until <= 60_000_000_000))
            && (h.Date? && o.retryable ==> o.retryAfter == if h.until > 0 then h.until else 1_000_000_000)
            && (h.Seconds? && h.n <= 0 ==> o.retryable && o.retryAfter == 1_000_000_000)
            && (h.Seconds? && 0 < h.n <= 60 ==> o.retryable && o.retryAfter == h.n * 1_000_000_000)
            && (h.Seconds? && 60 < h.n <= 9_223_372_036 ==> !o.retryable)
    ensures h.Seconds? && h.n > 0 ==>
              exists wait: int, t: int :: WrapsTo(h.n * 1_000_000_000, wait, t) && WaitsFor(h, wait)
  {
    if h.Seconds? && h.n > 0 {
      var x := h.n * 1_000_000_000;
      assert WrapsTo(x, Wrap64(x), (x + TWO63) / TWO64);
      WrapIsIdentityInRange(x);
    }
  }

  /** `wait` is what 64 bits keep of `x`. */
  ghost predicate WrapsTo(x: int, wait: int, t: int) {
    -0x8000_0000_0000_0000 <= wait < 0x8000_0000_0000_0000 && x == wait + t * 0x1_0000_0000_0000_0000
  }

  ghost predicate WaitsFor(h: RetryAfterHeader, wait: int) {
    var o := DefaultClassifier(429, h, NoNetError);
    && o.retryable == (wait <= 60_000_000_000)
    && (o.retryable ==> o.retryAfter == if wait > 0 then wait else 1_000_000_000)
  }

  /** Every sleep of a classified call is the server's wait of at most 60 seconds or a backoff. */
  lemma SleepsAreBounded(c: Config, k: nat, status: int, h: RetryAfterHeader, netErr: NetError)
    requires k >= 1 && c.backoffMultiplier > 0
    ensures var o := DefaultClassifier(status, h, netErr);
            SleepAfter(c, k, o) <= 60 * SECOND || (o.retryAfter == 0 && SleepAfter(c, k, o) == Wrap64(Backoff(c, k)))
  {
  }
}
