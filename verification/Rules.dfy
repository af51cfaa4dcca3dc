/** Per-image rules: validation, lookup with the Docker Hub alias, and why a validated set
    resolves every image without ambiguity. */
module Rules {
  import opened Text
  import opened Wrappers

  const DOCKER_HUB_HOST := "index.docker.io"
  const LIBRARY := "library/"
  const TRACK_DIGEST := "digest"

  function RuleLookupKeys(host: string, repo: string): seq<string> {
    if host != DOCKER_HUB_HOST then [repo]
    else if LIBRARY <= repo && repo[|LIBRARY|..] != "" && '/' !in repo[|LIBRARY|..] then [repo, repo[|LIBRARY|..]]
    else if '/' !in repo then [repo, LIBRARY + repo]
    else [repo]
  }

  function RuleConfigKeys(image: string): seq<string> { RuleLookupKeys(DOCKER_HUB_HOST, image) }

  /** The full Docker Hub path of a repository. */
  function HubPath(repo: string): string { if '/' !in repo then LIBRARY + repo else repo }

  /** Docker Hub lookup keys form equivalence classes on non-empty names: two names are keys of
      each other exactly when they are the same repository. */
  lemma HubKeysAreClasses(k: string, repo: string)
    requires k != "" && repo != ""
    ensures k in RuleConfigKeys(repo) <==> HubPath(k) == HubPath(repo)
  {
    assert LIBRARY[7] == '/';
    assert forall s: string :: (LIBRARY + s)[|LIBRARY|..] == s && '/' in LIBRARY + s;
    if '/' in repo && '/' !in k && HubPath(k) == HubPath(repo) { assert repo[|LIBRARY|..] == k; }
    if '/' !in repo && '/' !in k && HubPath(k) == HubPath(repo) { assert (LIBRARY + k)[|LIBRARY|..] == k; }
    if k in RuleConfigKeys(repo) && k != repo && '/' in repo { assert LIBRARY + k == repo; }
  }

  /** The empty name breaks the symmetry, and nothing else does. */
  lemma HubKeysAreSymmetricExcept(k: string, repo: string)
    ensures (k in RuleConfigKeys(repo) <==> repo in RuleConfigKeys(k)) <==>
            !((k == "" && repo == LIBRARY) || (k == LIBRARY && repo == ""))
  {
    assert LIBRARY[7] == '/';
    if k != "" && repo != "" {
      HubKeysAreClasses(k, repo);
      HubKeysAreClasses(repo, k);
    } else {
      assert RuleConfigKeys("") == ["", LIBRARY + ""] && LIBRARY + "" == LIBRARY;
      assert LIBRARY[|LIBRARY|..] == "";
      assert RuleConfigKeys(LIBRARY) == [LIBRARY];
    }
  }

  /** Every lookup key: the repository itself, first, and on Docker Hub its other spelling, with
      or without the library prefix. */
  lemma LookupKeysExactly(host: string, repo: string, k: string)
    ensures var keys := RuleLookupKeys(host, repo);
            && 1 <= |keys| <= 2 && keys[0] == repo
            && (k in keys <==>
                || k == repo
                || (host == "index.docker.io" && repo == "library/" + k && k != "" && '/' !in k)
                || (host == "index.docker.io" && '/' !in repo && k == "library/" + repo))
  {
    assert LIBRARY[7] == '/';
    if repo == "library/" + k { assert repo[8..] == k && repo[7] == '/'; }
  }

  datatype RuleConfig = RuleConfig(image: string, incl: string, track: string, mode: string)

  type Matcher = string -> bool

  /** The regular expression engine: a partial function from patterns to matchers. */
  type Compiler = string -> Option<Matcher>

  function EffectiveRuleTrack(rule: RuleConfig): string {
    if TrimSpace(rule.track) != "" then TrimSpace(rule.track) else TrimSpace(rule.mode)
  }

  datatype Problem =
    ImageRequired | BothTrackAndMode | UnknownTrack | IncludeRequired | BadInclude | Conflict(prev: nat)

  /** What a single rule must look like: an image, at most one of track and mode, which can
      only say digest, and a usable include unless it does. */
  predicate WellFormed(compile: Compiler, rule: RuleConfig) {
    var track, mode := TrimSpace(rule.track), TrimSpace(rule.mode);
    && rule.image != ""
    && (track == "" || mode == "")
    && (track == TRACK_DIGEST || mode == TRACK_DIGEST || (track == "" && mode == "" && rule.incl != ""))
    && (rule.incl != "" ==> compile(rule.incl).Some?)
  }

  predicate ShareKey(a: string, b: string) {
    exists k :: k in RuleConfigKeys(a) && k in RuleConfigKeys(b)
  }

  /** No two of the first `n` rules share a key. */
  predicate NoSharedKeysBefore(rules: seq<RuleConfig>, n: nat)
    requires n <= |rules|
  {
    forall i, j :: 0 <= i < j < n ==> !ShareKey(rules[i].image, rules[j].image)
  }

  predicate NoSharedKeys(rules: seq<RuleConfig>) { NoSharedKeysBefore(rules, |rules|) }

  lemma NoSharedKeysGrows(rules: seq<RuleConfig>, i: nat)
    requires i < |rules| && NoSharedKeysBefore(rules, i)
    requires forall j :: 0 <= j < i ==> !ShareKey(rules[j].image, rules[i].image)
    ensures NoSharedKeysBefore(rules, i + 1)
  {
  }

  /** `now` is `seen` with `keys` given to `owner`. */
  ghost predicate Claimed(seen: map<string, nat>, keys: seq<string>, owner: nat, now: map<string, nat>) {
    && (forall k :: k in keys ==> k !in seen && k in now && now[k] == owner)
    && (forall k :: k in seen ==> k in now && now[k] == seen[k])
    && (forall k :: k in now ==> k in seen || k in keys)
  }

  /** Enters the keys of one rule, unless one of them is taken. */
  method ClaimKeys(seen: map<string, nat>, keys: seq<string>, owner: nat) returns (r: Result<map<string, nat>, nat>)
    requires forall a, b :: 0 <= a < b < |keys| ==> keys[a] != keys[b]
    ensures r.Success? ==> Claimed(seen, keys, owner, r.value)
    ensures r.Failure? ==> exists k :: k in keys && k in seen && seen[k] == r.error
  {
    var now: map<string, nat> := seen;
    for a := 0 to |keys|
      invariant Claimed(seen, keys[..a], owner, now)
    {
      var key := keys[a];
      assert keys[..a + 1] == keys[..a] + [key];
      if key in now {
        assert key !in keys[..a];
        return Failure(now[key]);
      }
      now := now[key := owner];
    }
    assert keys[..|keys|] == keys;
    r := Success(now);
  }

  /** `seen` maps every key of the first `i` rules, and no other, to a rule that has it. */
  ghost predicate Indexes(seen: map<string, nat>, rules: seq<RuleConfig>, i: nat)
    requires i <= |rules|
  {
    && (forall k :: k in seen ==> seen[k] < i && k in RuleConfigKeys(rules[seen[k]].image))
    && (forall j, k :: 0 <= j < i && k in RuleConfigKeys(rules[j].image) ==> k in seen)
  }

  lemma ClaimedKeysShare(seen: map<string, nat>, rules: seq<RuleConfig>, i: nat, prev: nat)
    requires i < |rules| && Indexes(seen, rules, i)
    requires exists k :: k in RuleConfigKeys(rules[i].image) && k in seen && seen[k] == prev
    ensures prev < i && ShareKey(rules[prev].image, rules[i].image) && !NoSharedKeys(rules)
  {
  }

  lemma FreeKeysExtend(seen: map<string, nat>, rules: seq<RuleConfig>, i: nat, now: map<string, nat>)
    requires i < |rules| && Indexes(seen, rules, i) && NoSharedKeysBefore(rules, i)
    requires Claimed(seen, RuleConfigKeys(rules[i].image), i, now)
    ensures NoSharedKeysBefore(rules, i + 1)
    ensures Indexes(now, rules, i + 1)
  {
    forall j | 0 <= j < i ensures !ShareKey(rules[j].image, rules[i].image) {}
    NoSharedKeysGrows(rules, i);
  }

  method CheckRule(compile: Compiler, rule: RuleConfig) returns (r: Option<Problem>)
    ensures r.None? <==> WellFormed(compile, rule)
    ensures r.Some? ==> !r.value.Conflict?
  {
    if rule.image == "" { return Some(ImageRequired); }
    var track := TrimSpace(rule.track);
    var mode := TrimSpace(rule.mode);
    if track != "" && mode != "" { return Some(BothTrackAndMode); }
    var effective := EffectiveRuleTrack(rule);
    if effective != "" && effective != TRACK_DIGEST { return Some(UnknownTrack); }
    if rule.incl == "" && effective != TRACK_DIGEST { return Some(IncludeRequired); }
    if rule.incl != "" && compile(rule.incl).None? { return Some(BadInclude); }
    r := None;
  }

  /** Succeeds exactly on well-formed rules with disjoint keys; otherwise names the first rule
      that is ill-formed or shares a key with an earlier one, and which. */
  method ValidateRules(compile: Compiler, rules: seq<RuleConfig>) returns (r: Option<(nat, Problem)>)
    ensures r.None? <==> (forall i :: 0 <= i < |rules| ==> WellFormed(compile, rules[i])) && NoSharedKeys(rules)
    ensures r.Some? ==>
              var (i, p) := r.value;
              && i < |rules| && NoSharedKeysBefore(rules, i)
              && (forall j :: 0 <= j < i ==> WellFormed(compile, rules[j]))
              && (p.Conflict? ==>
                    p.prev < i && ShareKey(rules[p.prev].image, rules[i].image) && WellFormed(compile, rules[i]))
              && (!p.Conflict? ==> !WellFormed(compile, rules[i]))
  {
    var seen: map<string, nat> := map[];
    for i := 0 to |rules|
      invariant forall j :: 0 <= j < i ==> WellFormed(compile, rules[j])
      invariant NoSharedKeysBefore(rules, i)
      invariant Indexes(seen, rules, i)
    {
      var rule := rules[i];
      var problem := CheckRule(compile, rule);
      if problem.Some? { return Some((i, problem.value)); }
      KeysAreDistinct(rule.image);
      var claimed := ClaimKeys(seen, RuleConfigKeys(rule.image), i);
      if claimed.Failure? {
        ClaimedKeysShare(seen, rules, i, claimed.error);
        return Some((i, Conflict(claimed.error)));
      }
      FreeKeysExtend(seen, rules, i, claimed.value);
      seen := claimed.value;
    }
    r := None;
  }

  lemma KeysAreDistinct(image: string)
    ensures var keys := RuleConfigKeys(image); forall a, b :: 0 <= a < b < |keys| ==> keys[a] != keys[b]
  {
  }

  datatype Rule = Rule(image: string, incl: Option<Matcher>, track: string)

  function RuleOf(compile: Compiler, rc: RuleConfig): Rule {
    Rule(rc.image, if rc.incl != "" then compile(rc.incl) else None, EffectiveRuleTrack(rc))
  }

  /** The rules by image, the last rule of an image winning. */
  function ByImage(compile: Compiler, rules: seq<RuleConfig>): map<string, Rule> {
    if rules == [] then map[]
    else ByImage(compile, rules[..|rules| - 1])[rules[|rules| - 1].image := RuleOf(compile, rules[|rules| - 1])]
  }

  datatype ConfigRuleResolver = ConfigRuleResolver(byImage: map<string, Rule>)

  method NewConfigRuleResolver(compile: Compiler, rules: seq<RuleConfig>) returns (r: Option<ConfigRuleResolver>)
    ensures r.Some? <==> forall i :: 0 <= i < |rules| && rules[i].incl != "" ==> compile(rules[i].incl).Some?
    ensures r.Some? ==> r.value.byImage == ByImage(compile, rules)
  {
    var byImage: map<string, Rule> := map[];
    for i := 0 to |rules|
      invariant byImage == ByImage(compile, rules[..i])
      invariant forall j :: 0 <= j < i && rules[j].incl != "" ==> compile(rules[j].incl).Some?
    {
      var rc := rules[i];
      assert rules[..i + 1][..i] == rules[..i];
      var re: Option<Matcher> := None;
      if rc.incl != "" {
        re := compile(rc.incl);
        if re.None? { return None; }
      }
      byImage := byImage[rc.image := Rule(rc.image, re, EffectiveRuleTrack(rc))];
    }
    assert rules[..|rules|] == rules;
    r := Some(ConfigRuleResolver(byImage));
  }

  function FirstIn(m: map<string, Rule>, keys: seq<string>): Option<Rule> {
    if keys == [] then None else if keys[0] in m then Some(m[keys[0]]) else FirstIn(m, keys[1..])
  }

  method RuleFor(resolver: Option<ConfigRuleResolver>, host: string, image: string) returns (r: Option<Rule>)
    ensures r == if resolver.None? then None else FirstIn(resolver.value.byImage, RuleLookupKeys(host, image))
  {
    if resolver.None? { return None; }
    var keys := RuleLookupKeys(host, image);
    for i := 0 to |keys|
      invariant FirstIn(resolver.value.byImage, keys) == FirstIn(resolver.value.byImage, keys[i..])
    {
      if keys[i] in resolver.value.byImage { return Some(resolver.value.byImage[keys[i]]); }
    }
    r := None;
  }

  datatype RuleQuery = RuleQuery(host: string, image: string, container: string, labels: map<string, string>)

  /** The chain of rule sources: the first source with an answer wins, absent ones are passed over. */
  method ChainRuleFor(sources: seq<Option<RuleQuery -> Option<Rule>>>, q: RuleQuery) returns (r: Option<Rule>)
    ensures r.None? <==> forall i :: 0 <= i < |sources| && sources[i].Some? ==> sources[i].value(q).None?
    ensures r.Some? ==> exists i :: 0 <= i < |sources| && sources[i].Some? && r == sources[i].value(q) &&
                          forall j :: 0 <= j < i && sources[j].Some? ==> sources[j].value(q).None?
  {
    for i := 0 to |sources|
      invariant forall j :: 0 <= j < i && sources[j].Some? ==> sources[j].value(q).None?
    {
      if sources[i].None? { continue; }
      var rule := sources[i].value(q);
      if rule.Some? { return rule; }
    }
    r := None;
  }

  predicate Matches(image: string, host: string, repo: string) { image in RuleLookupKeys(host, repo) }

  lemma MatchesShareKey(a: string, b: string, host: string, repo: string)
    requires a != "" && b != "" && Matches(a, host, repo) && Matches(b, host, repo)
    ensures ShareKey(a, b)
  {
    assert a in RuleConfigKeys(a) && b in RuleConfigKeys(b);
    if a != b {
      if repo != "" {
        HubKeysAreClasses(a, repo);
        HubKeysAreClasses(b, repo);
        HubKeysAreClasses(a, b);
      } else {
        assert RuleConfigKeys("") == ["", LIBRARY + ""];
      }
    }
  }

  /** Validation is exact: no two rules share a key exactly when no image on any host is
      matched by two of them. */
  lemma NoSharedKeysIsUnambiguous(rules: seq<RuleConfig>)
    requires forall i :: 0 <= i < |rules| ==> rules[i].image != ""
    ensures NoSharedKeys(rules) <==>
            forall host, repo, i, j :: 0 <= i < j < |rules| ==>
              !(Matches(rules[i].image, host, repo) && Matches(rules[j].image, host, repo))
  {
    forall host, repo, i, j
      | 0 <= i < j < |rules| && Matches(rules[i].image, host, repo) && Matches(rules[j].image, host, repo)
      ensures ShareKey(rules[i].image, rules[j].image)
    {
      MatchesShareKey(rules[i].image, rules[j].image, host, repo);
    }
    forall i, j | 0 <= i < j < |rules| && ShareKey(rules[i].image, rules[j].image)
      ensures Matches(rules[i].image, DOCKER_HUB_HOST, rules[j].image)
      ensures Matches(rules[j].image, DOCKER_HUB_HOST, rules[j].image)
    {
      var a, b := rules[i].image, rules[j].image;
      var k :| k in RuleConfigKeys(a) && k in RuleConfigKeys(b);
      HubKeysAreClasses(k, a);
      HubKeysAreClasses(k, b);
      HubKeysAreClasses(a, b);
    }
  }

  predicate IsImage(rules: seq<RuleConfig>, k: string) { exists i :: 0 <= i < |rules| && rules[i].image == k }

  lemma ImagesGrow(rules: seq<RuleConfig>, n: nat)
    requires n <= |rules|
    ensures forall k :: IsImage(rules[..n], k) ==> IsImage(rules, k)
  {
    forall k | IsImage(rules[..n], k) ensures IsImage(rules, k) {
      var i :| 0 <= i < n && rules[..n][i].image == k;
      assert rules[i].image == k;
    }
  }

  lemma {:induction false} ByImageHolds(compile: Compiler, rules: seq<RuleConfig>)
    requires forall i, j :: 0 <= i < j < |rules| ==> rules[i].image != rules[j].image
    ensures forall k :: k in ByImage(compile, rules) ==> IsImage(rules, k)
    ensures forall i :: 0 <= i < |rules| ==>
              rules[i].image in ByImage(compile, rules)
              && ByImage(compile, rules)[rules[i].image] == RuleOf(compile, rules[i])
  {
    if rules != [] {
      var n := |rules| - 1;
      var init, last := rules[..n], rules[n];
      ByImageHolds(compile, init);
      ImagesGrow(rules, n);
      assert IsImage(rules, last.image);
      forall i | 0 <= i < |rules|
        ensures rules[i].image in ByImage(compile, rules)
        ensures ByImage(compile, rules)[rules[i].image] == RuleOf(compile, rules[i])
      {
        if i < n {
          assert rules[i].image != rules[n].image;
          assert init[i].image in ByImage(compile, init);
        }
      }
    }
  }

  lemma {:induction false} FirstInConstant(m: map<string, Rule>, keys: seq<string>, found: Option<Rule>)
    requires forall k :: k in keys && k in m ==> found == Some(m[k])
    requires found.Some? ==> exists k :: k in keys && k in m
    ensures FirstIn(m, keys) == found
  {
    if keys != [] && keys[0] !in m { FirstInConstant(m, keys[1..], found); }
  }

  /** A lookup finds the one rule whose image is among the keys, whatever their order. */
  lemma LookupFindsTheRule(compile: Compiler, rules: seq<RuleConfig>, keys: seq<string>)
    requires forall i, j :: 0 <= i < j < |rules| ==> rules[i].image != rules[j].image
    requires forall i, j :: 0 <= i < j < |rules| ==> !(rules[i].image in keys && rules[j].image in keys)
    ensures var found := FirstIn(ByImage(compile, rules), keys);
            && (forall i :: 0 <= i < |rules| && rules[i].image in keys ==> found == Some(RuleOf(compile, rules[i])))
            && (found.None? <==> forall i :: 0 <= i < |rules| ==> rules[i].image !in keys)
  {
    ByImageHolds(compile, rules);
    var m := ByImage(compile, rules);
    if i :| 0 <= i < |rules| && rules[i].image in keys {
      forall k | k in keys && k in m ensures m[k] == RuleOf(compile, rules[i]) {
        var j :| 0 <= j < |rules| && rules[j].image == k;
      }
      FirstInConstant(m, keys, Some(RuleOf(compile, rules[i])));
    } else {
      FirstInConstant(m, keys, None);
    }
  }

  lemma DistinctImages(rules: seq<RuleConfig>)
    requires NoSharedKeys(rules)
    ensures forall i, j :: 0 <= i < j < |rules| ==> rules[i].image != rules[j].image
  {
    forall i, j | 0 <= i < j < |rules| ensures rules[i].image != rules[j].image {
      assert rules[i].image in RuleConfigKeys(rules[i].image);
      assert !ShareKey(rules[i].image, rules[j].image);
    }
  }

  ghost predicate Validated(rules: seq<RuleConfig>) {
    (forall i :: 0 <= i < |rules| ==> rules[i].image != "") && NoSharedKeys(rules)
  }

  /** After validation every rule survives in the map, and a lookup, with the keys in any
      order, finds the one rule that matches the image, or nothing when none does. */
  lemma ValidatedRulesResolve(compile: Compiler, rules: seq<RuleConfig>, host: string, repo: string, keys: seq<string>)
    requires Validated(rules) && forall k :: k in keys <==> Matches(k, host, repo)
    ensures forall i :: 0 <= i < |rules| ==>
              rules[i].image in ByImage(compile, rules)
              && ByImage(compile, rules)[rules[i].image] == RuleOf(compile, rules[i])
    ensures var found := FirstIn(ByImage(compile, rules), keys);
            && (forall i :: 0 <= i < |rules| && Matches(rules[i].image, host, repo) ==>
                  found == Some(RuleOf(compile, rules[i])))
            && (found.None? <==> forall i :: 0 <= i < |rules| ==> !Matches(rules[i].image, host, repo))
  {
    DistinctImages(rules);
    NoSharedKeysIsUnambiguous(rules);
    ByImageHolds(compile, rules);
    LookupFindsTheRule(compile, rules, keys);
  }

  /** The rule that an image resolves to carries the include pattern and the track of its
      configuration: the trimmed track or, where that is blank, the trimmed mode. */
  lemma ResolvedRule(compile: Compiler, rules: seq<RuleConfig>, host: string, repo: string, i: nat)
    requires Validated(rules) && i < |rules| && Matches(rules[i].image, host, repo)
    ensures var found, rc := FirstIn(ByImage(compile, rules), RuleLookupKeys(host, repo)), rules[i];
            && found.Some? && found.value.image == rc.image
            && found.value.incl == (if rc.incl == "" then None else compile(rc.incl))
            && TrimmedTo(if White(rc.track) then rc.mode else rc.track, found.value.track)
  {
    ValidatedRulesResolve(compile, rules, host, repo, RuleLookupKeys(host, repo));
    var rc := rules[i];
    TrimSpaceExactly(rc.track, TrimSpace(rc.track));
    TrimSpaceExactly(rc.mode, TrimSpace(rc.mode));
    WhiteTrimsAway(rc.track);
  }

  lemma WhiteTrimsAway(s: string)
    ensures TrimSpace(s) == "" <==> White(s)
  {
    TrimSpaceExactly(s, TrimSpace(s));
    if TrimSpace(s) == "" {
      var pre, post :| White(pre) && White(post) && s == pre + "" + post;
      assert forall i :: 0 <= i < |s| ==> s[i] == if i < |pre| then pre[i] else post[i - |pre|];
    }
    if White(s) { TrimIs(s, "", ""); assert s + "" + "" == s; }
  }

  /** The result depends on neither the order of the rules nor the order of the keys. */
  lemma RuleOrderIsIrrelevant(compile: Compiler, rules: seq<RuleConfig>, rules': seq<RuleConfig>, host: string,
                              repo: string, keys: seq<string>, keys': seq<string>)
    requires Validated(rules) && Validated(rules') && forall rc :: rc in rules <==> rc in rules'
    requires forall k :: k in keys <==> Matches(k, host, repo)
    requires forall k :: k in keys' <==> Matches(k, host, repo)
    ensures FirstIn(ByImage(compile, rules), keys) == FirstIn(ByImage(compile, rules'), keys')
  {
    ValidatedRulesResolve(compile, rules, host, repo, keys);
    ValidatedRulesResolve(compile, rules', host, repo, keys');
    if FirstIn(ByImage(compile, rules), keys).Some? {
      var i :| 0 <= i < |rules| && Matches(rules[i].image, host, repo);
      assert rules[i] in rules';
      var j :| 0 <= j < |rules'| && rules'[j] == rules[i];
    }
    if FirstIn(ByImage(compile, rules'), keys').Some? {
      var j :| 0 <= j < |rules'| && Matches(rules'[j].image, host, repo);
      assert rules'[j] in rules;
      var i :| 0 <= i < |rules| && rules[i] == rules'[j];
    }
  }
}
