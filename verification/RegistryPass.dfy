/** The per-pass registry layer: a memo cache and a growing set of rate-limited hosts in
    front of the retry engine, and its refinement of a memoised registry. */
module RegistryPass {
  import opened Text
  import opened Wrappers
  import opened RegistryRetry

  function ListKey(host: string, repo: string): string { host + "/" + repo }

  function DigestKey(host: string, repo: string, tag: string): string { host + "/" + repo + "#" + tag }

  lemma ListKeyIsInjective(h: string, r: string, h': string, r': string)
    requires '/' !in h && '/' !in h'
    ensures ListKey(h, r) == ListKey(h', r') <==> h == h' && r == r'
  {
    if ListKey(h, r) == ListKey(h', r') { CutIsUnique(h, h', r, r', '/'); }
  }

  lemma DigestKeyIsInjective(h: string, r: string, t: string, h': string, r': string, t': string)
    requires '/' !in h && '/' !in h' && '#' !in r && '#' !in r'
    ensures DigestKey(h, r, t) == DigestKey(h', r', t') <==> h == h' && r == r' && t == t'
  {
    if DigestKey(h, r, t) == DigestKey(h', r', t') {
      assert DigestKey(h, r, t) == h + ['/'] + (r + ['#'] + t);
      assert DigestKey(h', r', t') == h' + ['/'] + (r' + ['#'] + t');
      CutIsUnique(h, h', r + ['#'] + t, r' + ['#'] + t', '/');
      CutIsUnique(r, r', t, t', '#');
    }
  }

  datatype PassState = PassState(lists: map<string, Answer<seq<string>>>, digests: map<string, Answer<string>>,
                                 limited: set<string>)

  class Pass {
    var listTags: map<string, Answer<seq<string>>>
    var tagDigests: map<string, Answer<string>>
    var rateLimited: set<string>

    constructor ()
      ensures State() == PassState(map[], map[], {})
    {
      listTags, tagDigests, rateLimited := map[], map[], {};
    }

    ghost function State(): PassState
      reads this
    {
      PassState(listTags, tagDigests, rateLimited)
    }

    method FetchWithRetry<T>(w: Wire<T>, host: string) returns (a: Answer<T>)
      modifies this`rateLimited, w
      ensures var out := Scan(w.env, old(w.calls), old(w.left));
              && a == out.answer && w.calls == out.calls && w.left == out.left
              && rateLimited == old(rateLimited) + (if out.marked then {host} else {})
              && Requested(w.env, old(w.calls), old(w.left), a, w.calls, out.marked)
    {
      ScanRequests(w.env, w.calls, w.left);
      var value := w.Call();
      if value.Success? { return Success(value.value); }
      var err := value.error;
      if err.NotFound? || err.Unauthorized? { return Failure(Plain(err)); }
      if IsRateLimit(err) {
        a := HandleRateLimit(w, host, err, None);
      } else if IsServerError(err) {
        a := RetryServerError(w, host, err, None);
      } else {
        a := Failure(Plain(err));
      }
    }

    method HandleRateLimit<T>(w: Wire<T>, host: string, firstErr: CallError, ghost prev: Option<Class>)
      returns (a: Answer<T>)
      requires IsRateLimit(firstErr) && prev != Some(Limit)
      modifies this`rateLimited, w
      decreases Max0(w.left)
      ensures var out := Continue(w.env, prev, Failure(firstErr), old(w.calls), old(w.left));
              && a == out.answer && w.calls == out.calls && w.left == out.left
              && rateLimited == old(rateLimited) + if out.marked then {host} else {}
    {
      var retryAfter := firstErr.retryAfter;
      if retryAfter <= 0 || retryAfter > MAX_REGISTRY_RETRY_AFTER {
        rateLimited := rateLimited + {host};
        return Failure(RateLimited);
      }
      var ok := w.Sleep(retryAfter);
      if !ok { return Failure(ContextDone); }
      var value := w.Call();
      if value.Success? { return Success(value.value); }
      var err := value.error;
      if IsRateLimit(err) {
        rateLimited := rateLimited + {host};
        return Failure(RateLimited);
      }
      if IsServerError(err) {
        a := RetryServerError(w, host, err, Some(Limit));
      } else {
        a := Failure(Plain(err));
      }
    }

    method RetryServerError<T>(w: Wire<T>, host: string, firstErr: CallError, ghost prev: Option<Class>)
      returns (a: Answer<T>)
      requires IsServerError(firstErr) && prev != Some(Server)
      modifies this`rateLimited, w
      decreases Max0(w.left)
      ensures var out := Continue(w.env, prev, Failure(firstErr), old(w.calls), old(w.left));
              && a == out.answer && w.calls == out.calls && w.left == out.left
              && rateLimited == old(rateLimited) + if out.marked then {host} else {}
    {
      var lastErr := firstErr;
      var attempt := 1;
      ghost var out := Continue(w.env, prev, Failure(firstErr), w.calls, w.left);
      while attempt <= REGISTRY_5XX_MAX_ATTEMPTS
        invariant 1 <= attempt <= 2
        invariant attempt == 1 ==> lastErr == firstErr && w.calls == old(w.calls) && w.left == old(w.left)
        invariant attempt == 2 ==> !IsRateLimit(lastErr)
        invariant attempt == 2 ==> out == Continue(w.env, Some(Server), Failure(lastErr), w.calls, w.left)
        invariant rateLimited == old(rateLimited)
        decreases REGISTRY_5XX_MAX_ATTEMPTS - attempt
      {
        if !IsServerError(lastErr) { return Failure(Plain(lastErr)); }
        if attempt == REGISTRY_5XX_MAX_ATTEMPTS { break; }
        var delay := ServerBackoff(attempt);
        var ok := w.Sleep(delay);
        if !ok { return Failure(ContextDone); }
        var value := w.Call();
        if value.Success? { return Success(value.value); }
        var err := value.error;
        lastErr := err;
        if err.NotFound? || err.Unauthorized? { return Failure(Plain(err)); }
        if IsRateLimit(err) {
          a := HandleRateLimit(w, host, err, Some(Server));
          return;
        }
        attempt := attempt + 1;
      }
      if IsServerError(lastErr) { return Failure(Unavailable); }
      a := Failure(Plain(lastErr));
    }

    method ListTags(w: Wire<seq<string>>, host: string, repo: string) returns (a: Answer<seq<string>>)
      modifies this, w
      ensures var out := Scan(w.env, old(w.calls), old(w.left));
              && (State(), ListAnswer(a)) == Step(old(State()), ListRequest(host, repo, out.answer, out.marked))
              && var q := ListRequest(host, repo, out.answer, out.marked);
              w.calls == if Fetches(old(State()), q) then out.calls else old(w.calls)
      ensures !Fetches(old(State()), ListRequest(host, repo, a, false)) ==> w.left == old(w.left)
    {
      var key := ListKey(host, repo);
      if host in rateLimited { return Failure(RateLimited); }
      if key in listTags { return listTags[key]; }
      a := FetchWithRetry(w, host);
      listTags := listTags[key := a];
    }

    method TagDigest(w: Wire<string>, host: string, repo: string, tag: string) returns (a: Answer<string>)
      modifies this, w
      ensures var out := Scan(w.env, old(w.calls), old(w.left));
              && var q := DigestRequest(host, repo, tag, out.answer, out.marked);
              (State(), DigestAnswer(a)) == Step(old(State()), q)
              && w.calls == if Fetches(old(State()), q) then out.calls else old(w.calls)
      ensures !Fetches(old(State()), DigestRequest(host, repo, tag, a, false)) ==> w.left == old(w.left)
    {
      var key := DigestKey(host, repo, tag);
      if host in rateLimited { return Failure(RateLimited); }
      if key in tagDigests { return tagDigests[key]; }
      a := FetchWithRetry(w, host);
      tagDigests := tagDigests[key := a];
    }
  }

  /** A request together with what the retry engine would answer if it were asked now. */
  datatype Request =
    | ListRequest(host: string, repo: string, tags: Answer<seq<string>>, marks: bool)
    | DigestRequest(host: string, repo: string, tag: string, digest: Answer<string>, marks: bool)

  datatype Reported = ListAnswer(tags: Answer<seq<string>>) | DigestAnswer(digest: Answer<string>)

  /** What is asked for, as a structured value instead of a string key. */
  datatype Target = ListTarget(host: string, repo: string) | DigestTarget(host: string, repo: string, tag: string)

  function TargetOf(q: Request): Target {
    match q
    case ListRequest(h, r, _, _) => ListTarget(h, r)
    case DigestRequest(h, r, t, _, _) => DigestTarget(h, r, t)
  }

  function Fetched(q: Request): Reported {
    match q
    case ListRequest(_, _, a, _) => ListAnswer(a)
    case DigestRequest(_, _, _, a, _) => DigestAnswer(a)
  }

  function LimitedAnswer(q: Request): Reported {
    if q.ListRequest? then ListAnswer(Failure(RateLimited)) else DigestAnswer(Failure(RateLimited))
  }

  predicate Cached(s: PassState, t: Target) {
    match t
    case ListTarget(h, r) => ListKey(h, r) in s.lists
    case DigestTarget(h, r, t) => DigestKey(h, r, t) in s.digests
  }

  function Lookup(s: PassState, t: Target): Reported
    requires Cached(s, t)
  {
    match t
    case ListTarget(h, r) => ListAnswer(s.lists[ListKey(h, r)])
    case DigestTarget(h, r, t) => DigestAnswer(s.digests[DigestKey(h, r, t)])
  }

  function Store(s: PassState, q: Request): PassState {
    match q
    case ListRequest(h, r, a, _) => s.(lists := s.lists[ListKey(h, r) := a])
    case DigestRequest(h, r, t, a, _) => s.(digests := s.digests[DigestKey(h, r, t) := a])
  }

  predicate Fetches(s: PassState, q: Request) { q.host !in s.limited && !Cached(s, TargetOf(q)) }

  function Step(s: PassState, q: Request): (PassState, Reported) {
    if q.host in s.limited then (s, LimitedAnswer(q))
    else if Cached(s, TargetOf(q)) then (s, Lookup(s, TargetOf(q)))
    else (Store(s, q).(limited := s.limited + if q.marks then {q.host} else {}), Fetched(q))
  }

  const FRESH := PassState(map[], map[], {})

  function StateAfter(qs: seq<Request>): PassState {
    if qs == [] then FRESH else Step(StateAfter(qs[..|qs| - 1]), qs[|qs| - 1]).0
  }

  /** Hosts hold no `/` and repositories no `#`. */
  predicate WellFormed(q: Request) { '/' !in q.host && '#' !in q.repo }

  // ---- the memoised registry, defined on the request history alone ----

  predicate FirstOfTarget(qs: seq<Request>, i: nat)
    requires i < |qs|
  {
    forall m :: 0 <= m < i ==> TargetOf(qs[m]) != TargetOf(qs[i])
  }

  /** A first request of an earlier target marked the host before request `j`. */
  predicate MarkedBefore(qs: seq<Request>, j: nat, host: string)
    requires j <= |qs|
  {
    exists m :: 0 <= m < j && qs[m].host == host && qs[m].marks && FirstOfTarget(qs, m)
  }

  /** What request `j` of a pass does: a marked host fails without a call; otherwise the
      first request of a target fetches, and the later ones repeat its answer. */
  ghost predicate MemoisedAt(qs: seq<Request>, j: nat, fetches: bool, answer: Reported)
    requires j < |qs|
  {
    if MarkedBefore(qs, j, qs[j].host) then !fetches && answer == LimitedAnswer(qs[j])
    else
      && fetches == FirstOfTarget(qs, j)
      && forall i :: 0 <= i <= j && TargetOf(qs[i]) == TargetOf(qs[j]) && FirstOfTarget(qs, i) ==>
           answer == Fetched(qs[i])
  }

  /** The cache agrees with the history on every host that is not marked. */
  ghost predicate Mirrors(s: PassState, qs: seq<Request>) {
    && (forall h :: h in s.limited <==> MarkedBefore(qs, |qs|, h))
    && (forall i :: 0 <= i < |qs| && qs[i].host !in s.limited && FirstOfTarget(qs, i) ==>
          Cached(s, TargetOf(qs[i])) && Lookup(s, TargetOf(qs[i])) == Fetched(qs[i]))
    && (forall q: Request :: WellFormed(q) && q.host !in s.limited && Cached(s, TargetOf(q)) ==>
          exists i :: 0 <= i < |qs| && TargetOf(qs[i]) == TargetOf(q))
  }

  lemma SameKeySameTarget(s: PassState, q: Request, t: Request)
    requires WellFormed(q) && WellFormed(t)
    ensures Cached(Store(s, q), TargetOf(t)) <==> Cached(s, TargetOf(t)) || TargetOf(q) == TargetOf(t)
    ensures TargetOf(q) == TargetOf(t) ==> Lookup(Store(s, q), TargetOf(t)) == Fetched(q)
    ensures TargetOf(q) != TargetOf(t) && Cached(s, TargetOf(t)) ==>
              Lookup(Store(s, q), TargetOf(t)) == Lookup(s, TargetOf(t))
  {
    ListKeyIsInjective(q.host, q.repo, t.host, t.repo);
    if q.DigestRequest? && t.DigestRequest? { DigestKeyIsInjective(q.host, q.repo, q.tag, t.host, t.repo, t.tag); }
  }

  lemma {:induction false} FirstExists(qs: seq<Request>, j: nat) returns (i: nat)
    requires j < |qs|
    ensures i <= j && TargetOf(qs[i]) == TargetOf(qs[j]) && FirstOfTarget(qs, i)
  {
    if FirstOfTarget(qs, j) { i := j; }
    else {
      var m :| 0 <= m < j && TargetOf(qs[m]) == TargetOf(qs[j]);
      i := FirstExists(qs, m);
    }
  }

  lemma PrefixKeeps(qs: seq<Request>, n: nat)
    requires n <= |qs|
    ensures forall i :: 0 <= i < n ==> FirstOfTarget(qs[..n], i) == FirstOfTarget(qs, i)
    ensures forall h :: MarkedBefore(qs[..n], n, h) <==> MarkedBefore(qs, n, h)
  {
    forall h ensures MarkedBefore(qs[..n], n, h) <==> MarkedBefore(qs, n, h) {
      if m :| 0 <= m < n && qs[..n][m].host == h && qs[..n][m].marks && FirstOfTarget(qs[..n], m) {
        assert qs[m].host == h && qs[m].marks && FirstOfTarget(qs, m);
      }
      if m :| 0 <= m < n && qs[m].host == h && qs[m].marks && FirstOfTarget(qs, m) {
        assert qs[..n][m].host == h && FirstOfTarget(qs[..n], m);
      }
    }
  }

  lemma MarksAfter(qs: seq<Request>, q: Request, h: string)
    ensures MarkedBefore(qs + [q], |qs| + 1, h) <==>
            MarkedBefore(qs, |qs|, h) || (h == q.host && q.marks && FirstOfTarget(qs + [q], |qs|))
  {
    var all, n := qs + [q], |qs|;
    assert all[..n] == qs;
    PrefixKeeps(all, n);
    assert MarkedBefore(qs, n, h) <==> MarkedBefore(all, n, h);
    if h == q.host && q.marks && FirstOfTarget(all, n) { assert all[n].host == h && all[n].marks; }
  }

  lemma SeenIsCached(s: PassState, qs: seq<Request>, q: Request, i: nat)
    requires Mirrors(s, qs) && q.host !in s.limited
    requires i < |qs| && TargetOf(qs[i]) == TargetOf(q) && FirstOfTarget(qs, i)
    ensures Cached(s, TargetOf(q)) && Lookup(s, TargetOf(q)) == Fetched(qs[i])
  {
    assert qs[i].host == q.host;
  }

  lemma CachedWasSeen(s: PassState, qs: seq<Request>, q: Request)
    requires Mirrors(s, qs) && WellFormed(q) && q.host !in s.limited && Cached(s, TargetOf(q))
    ensures !FirstOfTarget(qs + [q], |qs|)
  {
    var i :| 0 <= i < |qs| && TargetOf(qs[i]) == TargetOf(q);
    assert (qs + [q])[i] == qs[i];
  }

  lemma RepeatWasSeen(qs: seq<Request>, q: Request) returns (i: nat)
    requires !FirstOfTarget(qs + [q], |qs|)
    ensures i < |qs| && TargetOf(qs[i]) == TargetOf(q) && FirstOfTarget(qs, i)
  {
    var m :| 0 <= m < |qs| && TargetOf((qs + [q])[m]) == TargetOf(q);
    i := FirstExists(qs, m);
  }

  /** On an unmarked host the cache holds a target exactly when the history does. */
  lemma CachedIsSeen(s: PassState, qs: seq<Request>, q: Request)
    requires Mirrors(s, qs) && WellFormed(q) && q.host !in s.limited
    ensures Cached(s, TargetOf(q)) <==> !FirstOfTarget(qs + [q], |qs|)
  {
    if Cached(s, TargetOf(q)) { CachedWasSeen(s, qs, q); }
    if !FirstOfTarget(qs + [q], |qs|) {
      var i := RepeatWasSeen(qs, q);
      SeenIsCached(s, qs, q, i);
    }
  }

  /** One request behaves like the memoised registry. */
  lemma StepIsMemoised(s: PassState, qs: seq<Request>, q: Request)
    requires Mirrors(s, qs) && WellFormed(q)
    ensures MemoisedAt(qs + [q], |qs|, Fetches(s, q), Step(s, q).1)
  {
    var all, n := qs + [q], |qs|;
    assert all[..n] == qs;
    PrefixKeeps(all, n);
    assert q.host in s.limited <==> MarkedBefore(all, n, q.host);
    if q.host !in s.limited {
      CachedIsSeen(s, qs, q);
      forall i | 0 <= i <= n && TargetOf(all[i]) == TargetOf(q) && FirstOfTarget(all, i)
        ensures Step(s, q).1 == Fetched(all[i])
      {
        if i < n { SeenIsCached(s, qs, q, i); }
      }
    }
  }

  /** One request keeps the mirror. */
  lemma StepMirrors(s: PassState, qs: seq<Request>, q: Request)
    requires Mirrors(s, qs) && WellFormed(q) && forall p :: p in qs ==> WellFormed(p)
    ensures Mirrors(Step(s, q).0, qs + [q])
  {
    var all, n := qs + [q], |qs|;
    var s' := Step(s, q).0;
    assert all[..n] == qs;
    PrefixKeeps(all, n);
    forall h { MarksAfter(qs, q, h); }
    if q.host !in s.limited { CachedIsSeen(s, qs, q); }
    assert Fetches(s, q) ==> s'.limited == s.limited + if q.marks then {q.host} else {};
    assert !Fetches(s, q) ==> s' == s;
    forall k | 0 <= k < n + 1 && all[k].host !in s'.limited && FirstOfTarget(all, k)
      ensures Cached(s', TargetOf(all[k])) && Lookup(s', TargetOf(all[k])) == Fetched(all[k])
    {
      if k < n { assert qs[k] in qs && FirstOfTarget(qs, k); }
      SameKeySameTarget(s, q, all[k]);
    }
    forall t: Request | WellFormed(t) && t.host !in s'.limited && Cached(s', TargetOf(t))
      ensures exists k :: 0 <= k < n + 1 && TargetOf(all[k]) == TargetOf(t)
    {
      SameKeySameTarget(s, q, t);
      if TargetOf(q) == TargetOf(t) {
        assert TargetOf(all[n]) == TargetOf(t);
      } else {
        assert Cached(s, TargetOf(t));
        var k :| 0 <= k < n && TargetOf(qs[k]) == TargetOf(t);
        assert TargetOf(all[k]) == TargetOf(t);
      }
    }
  }

  lemma {:induction false} PassMirrors(qs: seq<Request>)
    requires forall q :: q in qs ==> WellFormed(q)
    ensures Mirrors(StateAfter(qs), qs)
  {
    if qs != [] {
      var n := |qs| - 1;
      PassMirrors(qs[..n]);
      StepMirrors(StateAfter(qs[..n]), qs[..n], qs[n]);
      assert qs[..n] + [qs[n]] == qs;
    }
  }

  /** Over any request sequence the pass layer is the memoised registry. */
  lemma PassRefinesMemo(qs: seq<Request>, j: nat)
    requires j < |qs| && forall q :: q in qs ==> WellFormed(q)
    ensures MemoisedAt(qs, j, Fetches(StateAfter(qs[..j]), qs[j]), Step(StateAfter(qs[..j]), qs[j]).1)
  {
    PassMirrors(qs[..j]);
    StepIsMemoised(StateAfter(qs[..j]), qs[..j], qs[j]);
    assert qs[..j] + [qs[j]] == qs[..j + 1];
    PrefixKeeps(qs, j + 1);
    PrefixKeeps(qs, j);
    PrefixKeeps(qs[..j + 1], j);
    assert qs[..j + 1][..j] == qs[..j];
  }

  /** No target is fetched twice, and a request after a marking one on its host makes no call
      and is told so. */
  lemma AtMostOneFetch(qs: seq<Request>, i: nat, j: nat)
    requires i < j < |qs| && forall q :: q in qs ==> WellFormed(q)
    ensures TargetOf(qs[i]) == TargetOf(qs[j]) ==> !Fetches(StateAfter(qs[..j]), qs[j])
    ensures qs[i].host == qs[j].host && qs[i].marks && Fetches(StateAfter(qs[..i]), qs[i]) ==>
              !Fetches(StateAfter(qs[..j]), qs[j]) && Step(StateAfter(qs[..j]), qs[j]).1 == LimitedAnswer(qs[j])
  {
    PassRefinesMemo(qs, i);
    PassRefinesMemo(qs, j);
  }

  function OnHost(qs: seq<Request>, h: string): seq<Request> {
    if qs == [] then []
    else OnHost(qs[..|qs| - 1], h) + if qs[|qs| - 1].host == h then [qs[|qs| - 1]] else []
  }

  /** Two pass states that agree on everything about one host. */
  ghost predicate SameOn(s: PassState, s': PassState, h: string) {
    && (h in s.limited <==> h in s'.limited)
    && forall q: Request :: WellFormed(q) && q.host == h ==>
         (Cached(s, TargetOf(q)) <==> Cached(s', TargetOf(q))) &&
         (Cached(s, TargetOf(q)) ==> Lookup(s, TargetOf(q)) == Lookup(s', TargetOf(q)))
  }

  lemma StepKeepsSame(s: PassState, s': PassState, h: string, q: Request)
    requires SameOn(s, s', h) && WellFormed(q)
    ensures SameOn(Step(s, q).0, if q.host == h then Step(s', q).0 else s', h)
  {
    forall t: Request | WellFormed(t) && t.host == h
      ensures var u, u' := Step(s, q).0, if q.host == h then Step(s', q).0 else s';
              (Cached(u, TargetOf(t)) <==> Cached(u', TargetOf(t))) &&
              (Cached(u, TargetOf(t)) ==> Lookup(u, TargetOf(t)) == Lookup(u', TargetOf(t)))
    {
      SameKeySameTarget(s, q, t);
      SameKeySameTarget(s', q, t);
    }
  }

  lemma {:induction false} StatesSameOn(qs: seq<Request>, h: string)
    requires forall q :: q in qs ==> WellFormed(q)
    ensures SameOn(StateAfter(qs), StateAfter(OnHost(qs, h)), h)
  {
    if qs != [] {
      var init, q := qs[..|qs| - 1], qs[|qs| - 1];
      StatesSameOn(init, h);
      StepKeepsSame(StateAfter(init), StateAfter(OnHost(init, h)), h, q);
      if q.host == h { assert OnHost(qs, h)[..|OnHost(qs, h)| - 1] == OnHost(init, h); }
      else { assert OnHost(qs, h) == OnHost(init, h); }
    }
  }

  /** No host affects another: a request is answered as if only the earlier requests on its
      own host had been made. */
  lemma HostsAreIsolated(qs: seq<Request>, q: Request)
    requires WellFormed(q) && forall p :: p in qs ==> WellFormed(p)
    ensures Step(StateAfter(qs), q).1 == Step(StateAfter(OnHost(qs, q.host)), q).1
    ensures Fetches(StateAfter(qs), q) == Fetches(StateAfter(OnHost(qs, q.host)), q)
  {
    StatesSameOn(qs, q.host);
  }
}
