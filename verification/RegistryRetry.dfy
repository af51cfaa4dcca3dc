/** What one registry request does: the retry recursion as a flat scan over the registry's
    replies, and its only termination measure, the time left until the context is done. */
module RegistryRetry {
  import opened Arith
  import opened Wrappers

  const SECOND: nat := 1_000_000_000
  const MAX_REGISTRY_RETRY_AFTER: nat := 10 * SECOND
  const REGISTRY_5XX_MAX_ATTEMPTS: nat := 2
  const REGISTRY_5XX_BACKOFF: nat := SECOND
  const REGISTRY_5XX_BACKOFF_MULTIPLIER: nat := 2

  /** Errors of one registry call, as disjoint classes. `Network` stands for timeouts and
      connection errors. */
  datatype CallError =
    NotFound | Unauthorized | RateLimit(retryAfter: int) | Transport(status: int) | Network | Other(code: int)

  /** Errors of a request made through the pass. */
  datatype PassError = Plain(err: CallError) | RateLimited | Unavailable | ContextDone

  type Reply<T> = Result<T, CallError>
  type Answer<T> = Result<T, PassError>

  predicate IsRateLimit(e: CallError) { e.RateLimit? }

  predicate IsServerError(e: CallError) { e.Transport? && 500 <= e.status < 600 }

  /** The environment of one request: the k-th reply, the time the k-th call takes, and who
      wins when a timer and the end of the context fall on the same instant. */
  datatype Env<!T> = Env(script: nat -> Reply<T>, cost: nat -> nat, tie: nat -> bool)

  /** sleepContext returns nil: the timer fires before the context is done in `left`. */
  predicate SleepOk(left: int, d: int, tie: bool) { d <= 0 || d < left || (d == left && tie) }

  datatype Class = Limit | Server

  predicate Retryable<T>(r: Reply<T>) { r.Failure? && (IsRateLimit(r.error) || IsServerError(r.error)) }

  function ClassOf<T>(r: Reply<T>): Option<Class> {
    if !Retryable(r) then None else if IsRateLimit(r.error) then Some(Limit) else Some(Server)
  }

  /** A reply ends the request when it is final in itself or repeats the class before it. */
  predicate Stops<T>(prev: Option<Class>, r: Reply<T>) {
    || !Retryable(r)
    || (IsRateLimit(r.error) && (r.error.retryAfter <= 0 || r.error.retryAfter > MAX_REGISTRY_RETRY_AFTER))
    || prev == ClassOf(r)
  }

  function Verdict<T>(r: Reply<T>): Answer<T> {
    match r
    case Success(v) => Success(v)
    case Failure(e) =>
      Failure(if IsRateLimit(e) then RateLimited else if IsServerError(e) then Unavailable else Plain(e))
  }

  /** How long the request sleeps after a reply that does not end it. */
  function Delay<T>(r: Reply<T>): nat {
    match ClassOf(r)
    case Some(Limit) => Max0(r.error.retryAfter)
    case Some(Server) => REGISTRY_5XX_BACKOFF
    case None => 0
  }

  /** The answer, the calls made so far, the time left, and whether the host was marked. */
  datatype Outcome<T> = Outcome(answer: Answer<T>, calls: nat, left: int, marked: bool)

  function Max0(x: int): nat { if x < 0 then 0 else x }

  /** The scan from the moment reply `r` arrives, `calls` calls having been made. */
  function Continue<T>(env: Env<T>, prev: Option<Class>, r: Reply<T>, calls: nat, left: int): Outcome<T>
    decreases Max0(left)
  {
    if Stops(prev, r) then Outcome(Verdict(r), calls, left, r.Failure? && IsRateLimit(r.error))
    else
      var d := Delay(r);
      if !SleepOk(left, d, env.tie(calls))
      then Outcome(Failure(ContextDone), calls, if left < 0 then left else 0, false)
      else Continue(env, ClassOf(r), env.script(calls), calls + 1, left - d - env.cost(calls))
  }

  /** A request that starts with call number `s`. */
  function Scan<T>(env: Env<T>, s: nat, left: int): Outcome<T> {
    Continue(env, None, env.script(s), s + 1, left - env.cost(s))
  }

  /** The registry, its clock and the request context. */
  class Wire<!T> {
    const env: Env<T>
    var calls: nat
    var left: int

    constructor (env: Env<T>, left: int)
      ensures this.env == env && this.calls == 0 && this.left == left
    {
      this.env := env;
      this.calls := 0;
      this.left := left;
    }

    method Call() returns (r: Reply<T>)
      modifies this
      ensures r == env.script(old(calls)) && calls == old(calls) + 1 && left == old(left) - env.cost(old(calls))
    {
      r := env.script(calls);
      left := left - env.cost(calls);
      calls := calls + 1;
    }

    method Sleep(d: int) returns (ok: bool)
      modifies this`left
      ensures ok == SleepOk(old(left), d, env.tie(calls))
      ensures d <= 0 ==> ok && left == old(left)
      ensures d > 0 ==> (ok <==> d < old(left) || (d == old(left) && env.tie(calls)))
      ensures d > 0 && ok ==> left == old(left) - d
      ensures !ok ==> left == if old(left) < 0 then old(left) else 0
    {
      ok := SleepOk(left, d, env.tie(calls));
      if ok {
        left := left - Max0(d);
      } else if left > 0 {
        left := 0;
      }
    }
  }

  method ServerBackoff(attempt: nat) returns (delay: nat)
    requires attempt >= 1
    ensures delay == 1_000_000_000 * Pow(2, attempt - 1)
  {
    delay := REGISTRY_5XX_BACKOFF;
    for i := 1 to attempt
      invariant delay == REGISTRY_5XX_BACKOFF * Pow(REGISTRY_5XX_BACKOFF_MULTIPLIER, i - 1)
    {
      delay := delay * REGISTRY_5XX_BACKOFF_MULTIPLIER;
    }
  }

  // ---- the scan in closed form ----

  /** The reply before reply `k` of a request begun at `s`, as the scan remembers it. */
  function PrevAt<T>(env: Env<T>, s: nat, k: nat): Option<Class>
    requires s <= k
  {
    if k == s then None else ClassOf(env.script(k - 1))
  }

  /** Reply `k` of a request begun at `s` ends it, judged by replies `k - 1` and `k` alone. */
  predicate StopAt<T>(env: Env<T>, s: nat, k: nat)
    requires s <= k
  {
    Stops(PrevAt(env, s, k), env.script(k))
  }

  /** Time from the start of a request at `s` to the issue of call `k`, if it gets there. */
  function Elapsed<T>(env: Env<T>, s: nat, k: nat): nat
    requires s <= k
  {
    if k == s then 0 else Elapsed(env, s, k - 1) + env.cost(k - 1) + Delay(env.script(k - 1))
  }

  /** Reply `k` does not end the request, but the context ends the sleep after it. */
  predicate RunsOutAt<T>(env: Env<T>, s: nat, left: int, k: nat)
    requires s <= k
  {
    && !StopAt(env, s, k)
    && !SleepOk(left - Elapsed(env, s, k) - env.cost(k), Delay(env.script(k)), env.tie(k + 1))
  }

  /** The whole meaning of a request: the last call is the first that stops the scan or whose
      sleep outlives the context; its reply decides the answer, and only a rate limit marks. */
  ghost predicate EndsAt<T>(env: Env<T>, s: nat, left: int, k: nat, out: Outcome<T>) {
    && s <= k && out.calls == k + 1
    && (forall j :: s <= j < k ==> !StopAt(env, s, j) && !RunsOutAt(env, s, left, j))
    && if StopAt(env, s, k)
       then out.answer == Verdict(env.script(k)) && out.marked == (ClassOf(env.script(k)) == Some(Limit))
       else RunsOutAt(env, s, left, k) && out.answer == Failure(ContextDone) && !out.marked
  }

  lemma {:induction false} ContinueEnds<T>(env: Env<T>, s: nat, left: int, k: nat, now: int)
    requires s <= k && now == left - Elapsed(env, s, k) - env.cost(k)
    requires forall j :: s <= j < k ==> !StopAt(env, s, j) && !RunsOutAt(env, s, left, j)
    ensures var out := Continue(env, PrevAt(env, s, k), env.script(k), k + 1, now);
            out.calls > k && EndsAt(env, s, left, out.calls - 1, out)
    decreases Max0(now)
  {
    if !StopAt(env, s, k) && !RunsOutAt(env, s, left, k) {
      ContinueEnds(env, s, left, k + 1, now - Delay(env.script(k)) - env.cost(k + 1));
    }
  }

  /** The retry recursion equals the flat scan, for every script. */
  lemma ScanIsFlat<T>(env: Env<T>, s: nat, left: int)
    ensures var out := Scan(env, s, left); out.calls > s && EndsAt(env, s, left, out.calls - 1, out)
  {
    ContinueEnds(env, s, left, s, left - env.cost(s));
  }

  // ---- the scan in plain terms ----

  predicate IsLimit<T>(r: Reply<T>) { r.Failure? && r.error.RateLimit? }

  predicate Is5xx<T>(r: Reply<T>) { r.Failure? && r.error.Transport? && 500 <= r.error.status < 600 }

  /** Reply `k` is worth another call: a rate limit of at most ten seconds after anything but a
      rate limit, or a 5xx answer after anything but a 5xx answer. */
  predicate WorthRetrying<T>(env: Env<T>, s: nat, k: nat)
    requires s <= k
  {
    var r := env.script(k);
    || (IsLimit(r) && 0 < r.error.retryAfter <= 10_000_000_000 && (k == s || !IsLimit(env.script(k - 1))))
    || (Is5xx(r) && (k == s || !Is5xx(env.script(k - 1))))
  }

  /** The wait after a reply worth retrying: what the registry asks for, or one second. */
  function WaitAfter<T>(r: Reply<T>): int { if IsLimit(r) then r.error.retryAfter else 1_000_000_000 }

  /** What is left of the context when reply `k` arrives, if the request gets there. */
  function LeftAt<T>(env: Env<T>, s: nat, left: int, k: nat): int
    requires s <= k
  {
    (if k == s then left else LeftAt(env, s, left, k - 1) - WaitAfter(env.script(k - 1))) - env.cost(k)
  }

  /** The context outlives the wait after reply `k`. */
  predicate Outlives<T>(env: Env<T>, s: nat, left: int, k: nat)
    requires s <= k
  {
    var wait, now := WaitAfter(env.script(k)), LeftAt(env, s, left, k);
    wait < now || (wait == now && env.tie(k + 1))
  }

  /** What a request reports of its last reply, and whether it marks the host. */
  function Reports<T>(r: Reply<T>): (Answer<T>, bool) {
    match r
    case Success(v) => (Success(v), false)
    case Failure(RateLimit(_)) => (Failure(RateLimited), true)
    case Failure(Transport(status)) =>
      (Failure(if 500 <= status < 600 then Unavailable else Plain(Transport(status))), false)
    case Failure(e) => (Failure(Plain(e)), false)
  }

  /** A request with `calls` calls made in the end, its answer and its mark. */
  ghost predicate Requested<T>(env: Env<T>, s: nat, left: int, answer: Answer<T>, calls: nat, marked: bool) {
    && calls > s
    && (forall k :: s <= k < calls - 1 ==> WorthRetrying(env, s, k) && Outlives(env, s, left, k))
    && var last := calls - 1;
       if WorthRetrying(env, s, last)
       then !Outlives(env, s, left, last) && answer == Failure(ContextDone) && !marked
       else (answer, marked) == Reports(env.script(last))
  }

  lemma {:induction false} LeftIsNotElapsed<T>(env: Env<T>, s: nat, left: int, k: nat)
    requires s <= k && forall j :: s <= j < k ==> !StopAt(env, s, j)
    ensures LeftAt(env, s, left, k) == left - Elapsed(env, s, k) - env.cost(k)
  {
    if k > s {
      LeftIsNotElapsed(env, s, left, k - 1);
      assert !StopAt(env, s, k - 1);
    }
  }

  /** Reply `k` ends the request exactly when it is not worth retrying. */
  lemma StopsUnlessWorth<T>(env: Env<T>, s: nat, left: int, k: nat)
    requires s <= k && forall j :: s <= j < k ==> !StopAt(env, s, j)
    ensures WorthRetrying(env, s, k) <==> !StopAt(env, s, k)
    ensures WorthRetrying(env, s, k) ==> (Outlives(env, s, left, k) <==> !RunsOutAt(env, s, left, k))
  {
    LeftIsNotElapsed(env, s, left, k);
  }

  /** Every request, for every script: it goes on exactly while replies are worth retrying and
      the context outlives the waits, and reports its last reply. */
  lemma ScanRequests<T>(env: Env<T>, s: nat, left: int)
    ensures var out := Scan(env, s, left); Requested(env, s, left, out.answer, out.calls, out.marked)
  {
    ScanIsFlat(env, s, left);
    var out := Scan(env, s, left);
    forall k | s <= k < out.calls - 1 ensures WorthRetrying(env, s, k) && Outlives(env, s, left, k) {
      StopsUnlessWorth(env, s, left, k);
    }
    StopsUnlessWorth(env, s, left, out.calls - 1);
  }

  // ---- termination by budget ----

  /** The most calls a request can make in `left` nanoseconds: two for each started second. */
  function CallBound(left: int): nat {
    if left <= 0 then 1 else 2 * ((left + SECOND - 1) / SECOND)
  }

  lemma TwoSleepsCost(left: int, left2: int)
    requires left > SECOND && left2 <= left - SECOND - 1
    ensures CallBound(left2) + 2 <= CallBound(left)
  {
  }

  lemma {:induction false} ContinueBounded<T>(env: Env<T>, prev: Option<Class>, r: Reply<T>, calls: nat, left: int)
    requires calls >= 1
    ensures Continue(env, prev, r, calls, left).calls <= calls - 1 + CallBound(left)
    decreases Max0(left)
  {
    if !Stops(prev, r) && SleepOk(left, Delay(r), env.tie(calls)) {
      var r1, left1 := env.script(calls), left - Delay(r) - env.cost(calls);
      if !Stops(ClassOf(r), r1) && SleepOk(left1, Delay(r1), env.tie(calls + 1)) {
        var left2 := left1 - Delay(r1) - env.cost(calls + 1);
        assert Delay(r) + Delay(r1) >= SECOND + 1;
        ContinueBounded(env, ClassOf(r1), env.script(calls + 1), calls + 2, left2);
        TwoSleepsCost(left, left2);
      }
    }
  }

  /** Every script ends: at most two calls for each started second of budget, hence at most
      2·⌊B⌋ + 2, alternating 429 and 5xx answers included. */
  lemma CallsAreBounded<T>(env: Env<T>, s: nat, left: int)
    ensures left <= 0 ==> Scan(env, s, left).calls == s + 1
    ensures Scan(env, s, left).calls - s <= CallBound(left) <= 2 * ((if left < 0 then 0 else left) / 1_000_000_000) + 2
  {
    ContinueBounded(env, None, env.script(s), s + 1, left - env.cost(s));
    CallBoundGrows(left - env.cost(s), left);
  }

  lemma CallBoundGrows(a: int, b: int)
    requires a <= b
    ensures CallBound(a) <= CallBound(b)
  {
  }

  /** An endless alternation of the shortest rate limit and a server error. */
  function Alternating<T>(): Env<T> {
    Env((k: nat) => Failure(if k % 2 == 0 then RateLimit(1) else Transport(503)), (k: nat) => 0, (k: nat) => false)
  }

  lemma {:induction false} AlternatingCalls<T>(prev: Option<Class>, s: nat, m: nat, left: int)
    requires s % 2 == 0 && prev != Some(Limit) && m >= 1
    requires (m - 1) * (SECOND + 1) + 1 < left <= m * (SECOND + 1)
    ensures Continue(Alternating<T>(), prev, Alternating<T>().script(s), s + 1, left).calls == s + 2 * m
    decreases m
  {
    var env := Alternating<T>();
    assert env.script(s) == Failure(RateLimit(1)) && env.script(s + 1) == Failure(Transport(503));
    if m > 1 { AlternatingCalls<T>(Some(Server), s + 2, m - 1, left - 1 - SECOND); }
  }

  /** The bound is reached: with a whole number of seconds the alternation makes all the calls. */
  lemma CallBoundIsReached<T>(seconds: nat)
    requires 1 <= seconds < SECOND
    ensures Scan(Alternating<T>(), 0, seconds * SECOND).calls == CallBound(seconds * SECOND) == 2 * seconds
  {
    AlternatingCalls<T>(None, 0, seconds, seconds * SECOND);
  }

  // ---- "one short Retry-After retry per request" ----

  /** Reply `k` of a request was a rate limit, and the request called again after it. */
  predicate LimitRetried<T>(env: Env<T>, s: nat, left: int, k: nat) {
    s <= k < Scan(env, s, left).calls - 1 && ClassOf(env.script(k)) == Some(Limit)
  }

  /** Replies `s` to `k` neither end the request nor outlive its context. */
  ghost predicate GoesOnThrough<T>(env: Env<T>, s: nat, left: int, k: nat) {
    forall j :: s <= j <= k ==> !StopAt(env, s, j) && !RunsOutAt(env, s, left, j)
  }

  /** A request that goes on alternates between the two classes. */
  lemma GoingOnAlternates<T>(env: Env<T>, s: nat, left: int, k: nat)
    requires s < k && GoesOnThrough(env, s, left, k)
    ensures (ClassOf(env.script(k - 1)) == Some(Limit) && ClassOf(env.script(k)) == Some(Server))
         || (ClassOf(env.script(k - 1)) == Some(Server) && ClassOf(env.script(k)) == Some(Limit))
  {
    assert !StopAt(env, s, k - 1) && !StopAt(env, s, k);
  }

  /** The documented rule of one retry per request fails exactly when a rate limit among the
      first two replies is followed by a server error and another rate limit, none of the three
      ending the request or outliving its context. */
  lemma TwoLimitsRetriedExactly<T>(env: Env<T>, s: nat, left: int)
    ensures (exists i: nat, j: nat :: i < j && LimitRetried(env, s, left, i) && LimitRetried(env, s, left, j))
       <==> (exists i: nat ::
               s <= i <= s + 1 && ClassOf(env.script(i)) == Some(Limit) && GoesOnThrough(env, s, left, i + 2))
  {
    ScanIsFlat(env, s, left);
    var last := Scan(env, s, left).calls - 1;
    assert forall k :: s <= k < last ==> GoesOnThrough(env, s, left, k);
    if i: nat, j: nat :| i < j && LimitRetried(env, s, left, i) && LimitRetried(env, s, left, j) {
      GoingOnAlternates(env, s, left, i + 1);
      assert j != i + 1;
      if ClassOf(env.script(s)) != Some(Limit) {
        GoingOnAlternates(env, s, left, s + 1);
        assert i >= s + 1;
        assert GoesOnThrough(env, s, left, s + 1 + 2);
        assert ClassOf(env.script(s + 1)) == Some(Limit);
      } else {
        assert GoesOnThrough(env, s, left, s + 2);
      }
    }
    if i: nat :| s <= i <= s + 1 && ClassOf(env.script(i)) == Some(Limit) && GoesOnThrough(env, s, left, i + 2) {
      assert last > i + 2;
      GoingOnAlternates(env, s, left, i + 1);
      GoingOnAlternates(env, s, left, i + 2);
      assert LimitRetried(env, s, left, i) && LimitRetried(env, s, left, i + 2);
    }
  }

  /** An input that breaks the rule: waits of two seconds, a server error between them, and the
      default deadline of thirty seconds. */
  lemma TwoLimitsRetried<T>(value: T)
    ensures var env := Env((k: nat) => if k == 1 then Failure(Transport(503)) else if k == 3 then Success(value)
                                       else Failure(RateLimit(2 * SECOND)), (k: nat) => 0, (k: nat) => false);
            && LimitRetried(env, 0, 30 * SECOND, 0) && LimitRetried(env, 0, 30 * SECOND, 2)
            && Scan(env, 0, 30 * SECOND).answer == Success(value)
  {
    var env := Env((k: nat) => if k == 1 then Failure(Transport(503)) else if k == 3 then Success(value)
                               else Failure(RateLimit(2 * SECOND)), (k: nat) => 0, (k: nat) => false);
    var r0, r1, r2, r3 := env.script(0), env.script(1), env.script(2), env.script(3);
    assert Continue(env, ClassOf(r2), r3, 4, 25 * SECOND) == Outcome(Success(value), 4, 25 * SECOND, false);
    assert Continue(env, ClassOf(r1), r2, 3, 27 * SECOND) == Continue(env, ClassOf(r2), r3, 4, 25 * SECOND);
    assert Continue(env, ClassOf(r0), r1, 2, 28 * SECOND) == Continue(env, ClassOf(r1), r2, 3, 27 * SECOND);
    assert Scan(env, 0, 30 * SECOND) == Continue(env, ClassOf(r0), r1, 2, 28 * SECOND);
  }
}
