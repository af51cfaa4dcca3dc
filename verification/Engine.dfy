/** One detection pass: which updates it reports, why each is real, and which state keys it
    keeps active. */
module Engine {
  import opened Wrappers
  import opened Model
  import opened NotificationState
  import opened Semver
  import opened SemverSelect
  import opened NumericSelect
  import opened RegistryRetry
  import Rules
  import opened Runs
  import opened History

  datatype Parsed = Parsed(host: string, repo: string, tag: string)

  /** The image reference parser. */
  type RefParser = string -> Option<Parsed>

  /** A parsed reference with a tag has a repository. */
  ghost predicate TagsHaveRepos(parse: RefParser) {
    forall s :: parse(s).Some? && parse(s).value.tag != "" ==> parse(s).value.repo != ""
  }

  /** What the world answers while one container is checked. */
  datatype Probe = Probe(
    registryKnown: bool, rule: Option<Rules.Rule>, tags: Answer<seq<string>>,
    localDigest: Option<string>, remoteDigest: Answer<string>, cancelled: bool)

  datatype Check = Skipped | UpToDate | UpdateFound(update: Update) | Failed

  datatype TrackMode = ModeSemver | ModeNumeric | ModeDigest

  function ResolveTrackingMode(g: Grammar, rule: Option<Rules.Rule>, tag: string): TrackMode {
    if rule.Some? && rule.value.track == Rules.TRACK_DIGEST then ModeDigest
    else if g(tag).Some? then ModeSemver
    else if ParseSpec(tag).Some? then ModeNumeric
    else ModeDigest
  }

  /** Registry failures skip the container, except those that are not understood and those of
      a pass that is being stopped. */
  function MapRegistryError(e: PassError, cancelled: bool): Check {
    if cancelled then Failed
    else if e.Plain? && !e.err.NotFound? && !e.err.Unauthorized? && !e.err.Network? then Failed
    else Skipped
  }

  predicate Admits(rule: Option<Rules.Rule>, tag: string) {
    rule.Some? && rule.value.incl.Some? ==> rule.value.incl.value(tag)
  }

  function Kept(tags: seq<string>, rule: Option<Rules.Rule>): seq<string> {
    if tags == [] then []
    else Kept(tags[..|tags| - 1], rule) + if Admits(rule, tags[|tags| - 1]) then [tags[|tags| - 1]] else []
  }

  lemma {:induction false} KeptMembers(tags: seq<string>, rule: Option<Rules.Rule>)
    ensures forall t :: t in Kept(tags, rule) <==> t in tags && Admits(rule, t)
  {
    if tags != [] {
      KeptMembers(tags[..|tags| - 1], rule);
      assert tags == tags[..|tags| - 1] + [tags[|tags| - 1]];
    }
  }

  method FilterTags(tags: seq<string>, ghost rule: Option<Rules.Rule>, incl: Rules.Matcher) returns (out: seq<string>)
    requires rule.Some? && rule.value.incl == Some(incl)
    ensures out == Kept(tags, rule)
  {
    out := [];
    for i := 0 to |tags|
      invariant out == Kept(tags[..i], rule)
    {
      assert tags[..i + 1][..i] == tags[..i];
      if incl(tags[i]) { out := out + [tags[i]]; }
    }
    assert tags[..|tags|] == tags;
  }

  function TagUpdate(c: Container, p: Parsed, latestTag: string, bump: Bump): Update {
    Update(c, p.host, p.repo, p.tag, latestTag, Some(bump), "", "")
  }

  function DigestUpdate(c: Container, p: Parsed, local: string, remote: string): Update {
    Update(c, p.host, p.repo, p.tag, "", None, local, remote)
  }

  // ---- what makes an update real ----

  /** The tag is the greatest candidate of the listing, and strictly newer than the current. */
  ghost predicate RealSemver(g: Grammar, c: Container, p: Parsed, probe: Probe, u: Update) {
    && g(p.tag).Some? && g(u.latestTag).Some? && probe.tags.Success?
    && IsSelection(g, p.tag, !HasInclude(probe.rule), false, Kept(probe.tags.value, probe.rule), Some(u.latestTag))
    && Compare(g(u.latestTag).value, g(p.tag).value) > 0
    && u == TagUpdate(c, p, u.latestTag, SemverBump(g(p.tag).value, g(u.latestTag).value))
  }

  ghost predicate RealNumeric(c: Container, p: Parsed, probe: Probe, u: Update) {
    && ParseSpec(p.tag).Some? && ParseSpec(u.latestTag).Some? && probe.tags.Success?
    && IsNumericSelection(Text.TrimSpace(p.tag), Kept(probe.tags.value, probe.rule), Some(u.latestTag))
    && CompareSegments(ParseSpec(u.latestTag).value, ParseSpec(p.tag).value) > 0
    && u == TagUpdate(c, p, u.latestTag, NumericBump(ParseSpec(p.tag).value, ParseSpec(u.latestTag).value))
  }

  /** The registry's digest for the same tag differs from the local one. */
  predicate RealDigest(c: Container, p: Parsed, probe: Probe, u: Update) {
    && HasLocalDigest(probe) && probe.remoteDigest.Success? && probe.remoteDigest.value != ""
    && NormalizeDigest(probe.localDigest.value) != NormalizeDigest(probe.remoteDigest.value)
    && u == DigestUpdate(c, p, probe.localDigest.value, probe.remoteDigest.value)
  }

  predicate HasInclude(rule: Option<Rules.Rule>) { rule.Some? && rule.value.incl.Some? }

  ghost predicate IsReal(g: Grammar, parse: RefParser, c: Container, probe: Probe, u: Update) {
    && parse(c.imageRef).Some? && parse(c.imageRef).value.tag != "" && probe.registryKnown
    && var p := parse(c.imageRef).value;
       match ResolveTrackingMode(g, probe.rule, p.tag)
       case ModeDigest => RealDigest(c, p, probe, u)
       case ModeSemver => Admits(probe.rule, p.tag) && RealSemver(g, c, p, probe, u)
       case ModeNumeric => Admits(probe.rule, p.tag) && RealNumeric(c, p, probe, u)
  }

  /** The answer the container's mode needs is a registry failure that stops the check. */
  predicate Fails(g: Grammar, parse: RefParser, c: Container, probe: Probe) {
    && parse(c.imageRef).Some? && parse(c.imageRef).value.tag != "" && probe.registryKnown
    && if ResolveTrackingMode(g, probe.rule, parse(c.imageRef).value.tag) == ModeDigest
       then HasLocalDigest(probe) && probe.remoteDigest.Failure?
            && MapRegistryError(probe.remoteDigest.error, probe.cancelled) == Failed
       else probe.tags.Failure? && MapRegistryError(probe.tags.error, probe.cancelled) == Failed
  }

  predicate HasLocalDigest(probe: Probe) { probe.localDigest.Some? && probe.localDigest.value != "" }

  /** The best candidate is no newer than the current tag, or the digests agree. */
  ghost predicate IsCurrent(g: Grammar, parse: RefParser, c: Container, probe: Probe) {
    && parse(c.imageRef).Some? && parse(c.imageRef).value.tag != "" && probe.registryKnown
    && var p := parse(c.imageRef).value;
       match ResolveTrackingMode(g, probe.rule, p.tag)
       case ModeDigest => SameDigest(probe)
       case ModeSemver => Admits(probe.rule, p.tag) && exists t :: CurrentSemver(g, p, probe, t)
       case ModeNumeric => Admits(probe.rule, p.tag) && exists t :: CurrentNumeric(p, probe, t)
  }

  predicate SameDigest(probe: Probe) {
    && HasLocalDigest(probe) && probe.remoteDigest.Success? && probe.remoteDigest.value != ""
    && NormalizeDigest(probe.localDigest.value) == NormalizeDigest(probe.remoteDigest.value)
  }

  ghost predicate CurrentSemver(g: Grammar, p: Parsed, probe: Probe, t: string) {
    && g(p.tag).Some? && g(t).Some? && probe.tags.Success? && Compare(g(t).value, g(p.tag).value) <= 0
    && IsSelection(g, p.tag, !HasInclude(probe.rule), false, Kept(probe.tags.value, probe.rule), Some(t))
  }

  ghost predicate CurrentNumeric(p: Parsed, probe: Probe, t: string) {
    && ParseSpec(p.tag).Some? && ParseSpec(t).Some? && probe.tags.Success?
    && CompareSegments(ParseSpec(t).value, ParseSpec(p.tag).value) <= 0
    && IsNumericSelection(Text.TrimSpace(p.tag), Kept(probe.tags.value, probe.rule), Some(t))
  }

  /** An update is found exactly when there is a real one, and it is that one. */
  ghost predicate IsOutcome(g: Grammar, parse: RefParser, c: Container, probe: Probe, r: Check) {
    && (r.UpdateFound? <==> exists u :: IsReal(g, parse, c, probe, u))
    && (r.UpdateFound? ==> IsReal(g, parse, c, probe, r.update))
  }

  method CheckContainer(g: Grammar, parse: RefParser, c: Container, probe: Probe) returns (r: Check)
    ensures IsOutcome(g, parse, c, probe, r)
    ensures r.Failed? <==> Fails(g, parse, c, probe)
    ensures r.UpToDate? <==> IsCurrent(g, parse, c, probe)
  {
    var parsed := parse(c.imageRef);
    if parsed.None? { return Skipped; }
    var p := parsed.value;
    if p.tag == "" { return Skipped; }
    if !probe.registryKnown { return Skipped; }
    var mode := ResolveTrackingMode(g, probe.rule, p.tag);
    if mode == ModeDigest {
      r := CheckDigest(c, p, probe);
      if r.UpdateFound? { assert IsReal(g, parse, c, probe, r.update); }
      return;
    }
    if probe.tags.Failure? { return MapRegistryError(probe.tags.error, probe.cancelled); }
    var tags := probe.tags.value;
    if HasInclude(probe.rule) {
      if !probe.rule.value.incl.value(p.tag) { return Skipped; }
      tags := FilterTags(tags, probe.rule, probe.rule.value.incl.value);
      if |tags| == 0 {
        return Skipped;
      }
    } else {
      KeepsAll(tags, probe.rule);
    }
    if mode == ModeNumeric {
      r := CheckNumeric(c, p, probe, tags);
      if r.UpdateFound? { assert IsReal(g, parse, c, probe, r.update); }
      return;
    }
    var current := g(p.tag);
    var best := SelectSemverTag(g, p.tag, tags, !HasInclude(probe.rule));
    forall u | RealSemver(g, c, p, probe, u) ensures best.Some? && u.latestTag == best.value.0 {
      SelectionIgnoresListingOrder(g, p.tag, !HasInclude(probe.rule), false, tags, tags,
                                   if best.Some? then Some(best.value.0) else None, Some(u.latestTag));
    }
    forall t | CurrentSemver(g, p, probe, t) ensures best.Some? && t == best.value.0 {
      SelectionIgnoresListingOrder(g, p.tag, !HasInclude(probe.rule), false, tags, tags,
                                   if best.Some? then Some(best.value.0) else None, Some(t));
    }
    if best.None? { return Skipped; }
    if Compare(best.value.1, current.value) > 0 {
      r := UpdateFound(TagUpdate(c, p, best.value.0, SemverBump(current.value, best.value.1)));
      assert IsReal(g, parse, c, probe, r.update);
    } else {
      assert CurrentSemver(g, p, probe, best.value.0);
      r := UpToDate;
    }
  }

  lemma {:induction false} KeepsAll(tags: seq<string>, rule: Option<Rules.Rule>)
    requires !HasInclude(rule)
    ensures Kept(tags, rule) == tags
  {
    if tags != [] { KeepsAll(tags[..|tags| - 1], rule); }
  }

  method CheckDigest(c: Container, p: Parsed, probe: Probe) returns (r: Check)
    ensures r.UpdateFound? <==> exists u :: RealDigest(c, p, probe, u)
    ensures r.UpdateFound? ==> RealDigest(c, p, probe, r.update)
    ensures r.Failed? <==>
            HasLocalDigest(probe) && probe.remoteDigest.Failure?
            && MapRegistryError(probe.remoteDigest.error, probe.cancelled) == Failed
    ensures r.UpToDate? <==> SameDigest(probe)
  {
    if probe.localDigest.None? || probe.localDigest.value == "" { return Skipped; }
    if probe.remoteDigest.Failure? { return MapRegistryError(probe.remoteDigest.error, probe.cancelled); }
    var local, remote := probe.localDigest.value, probe.remoteDigest.value;
    if remote == "" { return Skipped; }
    if NormalizeDigest(local) == NormalizeDigest(remote) { return UpToDate; }
    r := UpdateFound(DigestUpdate(c, p, local, remote));
    assert RealDigest(c, p, probe, r.update);
  }

  method CheckNumeric(c: Container, p: Parsed, probe: Probe, tags: seq<string>) returns (r: Check)
    requires ParseSpec(p.tag).Some? && probe.tags.Success? && tags == Kept(probe.tags.value, probe.rule)
    ensures r.UpdateFound? <==> exists u :: RealNumeric(c, p, probe, u)
    ensures r.UpdateFound? ==> RealNumeric(c, p, probe, r.update)
    ensures !r.Failed? && (r.UpToDate? <==> exists t :: CurrentNumeric(p, probe, t))
  {
    var original := Text.TrimSpace(p.tag);
    var current := ParseNumericVersion(p.tag);
    var best := SelectNumericTag(original, tags);
    forall u | RealNumeric(c, p, probe, u) ensures best.Some? && u.latestTag == best.value.0 {
      NumericSelectionIgnoresListingOrder(original, tags, tags,
                                          if best.Some? then Some(best.value.0) else None, Some(u.latestTag));
    }
    forall t | CurrentNumeric(p, probe, t) ensures best.Some? && t == best.value.0 {
      NumericSelectionIgnoresListingOrder(original, tags, tags,
                                          if best.Some? then Some(best.value.0) else None, Some(t));
    }
    if best.None? { return Skipped; }
    var cmp := CompareNumeric(best.value.1, current.value);
    if cmp > 0 {
      r := UpdateFound(TagUpdate(c, p, best.value.0, NumericBump(current.value, best.value.1)));
      assert RealNumeric(c, p, probe, r.update);
    } else {
      assert CurrentNumeric(p, probe, best.value.0);
      r := UpToDate;
    }
  }

  // ---- the check in plain terms ----

  /** The container has a tag on a known registry. */
  ghost predicate Identified(parse: RefParser, c: Container, probe: Probe) {
    parse(c.imageRef).Some? && parse(c.imageRef).value.tag != "" && probe.registryKnown
  }

  /** The tag is followed by digest: its rule says so, or it is no version of either kind. */
  ghost predicate ByDigest(g: Grammar, probe: Probe, tag: string) {
    (probe.rule.Some? && probe.rule.value.track == "digest") || (g(tag).None? && ParseSpec(tag).None?)
  }

  ghost predicate KnowsLocal(probe: Probe) { probe.localDigest.Some? && probe.localDigest.value != "" }

  ghost predicate KnowsBoth(probe: Probe) {
    KnowsLocal(probe) && probe.remoteDigest.Success? && probe.remoteDigest.value != ""
  }

  /** A registry failure that fails the check: any while the pass is being cancelled, otherwise
      one that is none of not found, unauthorized, network trouble, rate limit, unavailable and
      end of the context. */
  ghost predicate FailsCheck(e: PassError, cancelled: bool) {
    cancelled || (e.Plain? && (e.err.RateLimit? || e.err.Transport? || e.err.Other?))
  }

  ghost predicate Included(rule: Option<Rules.Rule>, tag: string) {
    rule.None? || rule.value.incl.None? || rule.value.incl.value(tag)
  }

  /** The listing offers `t` to a container on `tag`. Without an include pattern pre-releases
      are passed over. */
  ghost predicate Offers(g: Grammar, probe: Probe, tag: string, t: string) {
    && probe.tags.Success? && t in probe.tags.value && Included(probe.rule, tag) && Included(probe.rule, t)
    && if g(tag).Some? then Candidate(g, probe.rule.None? || probe.rule.value.incl.None?, t)
       else ParseSpec(tag).Some? && ParseSpec(t).Some?
  }

  /** And `t` is newer. */
  ghost predicate OffersNewer(g: Grammar, probe: Probe, tag: string, t: string) {
    && Offers(g, probe, tag, t)
    && if g(tag).Some? then Precedes(g(tag).value, g(t).value)
       else exists i: nat :: LessAt(ParseSpec(tag).value, ParseSpec(t).value, i)
  }

  /** Which update a check reports. Followed by digest: one with both digests and no tag, exactly
      when both are known and differ beyond the algorithm's name. Followed by tag: one to a
      newer tag, exactly when the listing offers one. */
  ghost predicate ReportsUpdate(g: Grammar, parse: RefParser, c: Container, probe: Probe, r: Check) {
    if !Identified(parse, c, probe) then !r.UpdateFound?
    else
      var p := parse(c.imageRef).value;
      if ByDigest(g, probe, p.tag) then
        && (r.UpdateFound? <==> KnowsBoth(probe) && !SameHex(probe.localDigest.value, probe.remoteDigest.value))
        && (r.UpdateFound? ==>
              r.update == Update(c, p.host, p.repo, p.tag, "", None, probe.localDigest.value, probe.remoteDigest.value))
      else
        && (r.UpdateFound? <==> exists t :: OffersNewer(g, probe, p.tag, t))
        && (r.UpdateFound? ==>
              && OffersNewer(g, probe, p.tag, r.update.latestTag) && r.update.bump.Some?
              && r.update == Update(c, p.host, p.repo, p.tag, r.update.latestTag, r.update.bump, "", ""))
  }

  /** When a check reports that the container is current, and when it fails. */
  ghost predicate ReportsRest(g: Grammar, parse: RefParser, c: Container, probe: Probe, r: Check) {
    if !Identified(parse, c, probe) then r.Skipped?
    else
      var p := parse(c.imageRef).value;
      if ByDigest(g, probe, p.tag) then
        && (r.UpToDate? <==> KnowsBoth(probe) && SameHex(probe.localDigest.value, probe.remoteDigest.value))
        && (r.Failed? <==>
              KnowsLocal(probe) && probe.remoteDigest.Failure? && FailsCheck(probe.remoteDigest.error, probe.cancelled))
      else
        && (r.UpToDate? <==>
              (exists t :: Offers(g, probe, p.tag, t)) && forall t :: !OffersNewer(g, probe, p.tag, t))
        && (r.Failed? <==> probe.tags.Failure? && FailsCheck(probe.tags.error, probe.cancelled))
  }

  /** A newer candidate makes the greatest one newer. */
  lemma NewerIsFound(g: Grammar, c: Container, p: Parsed, probe: Probe, t: string) returns (u: Update)
    requires OffersNewer(g, probe, p.tag, t)
    ensures if g(p.tag).Some? then RealSemver(g, c, p, probe, u) else RealNumeric(c, p, probe, u)
  {
    if g(p.tag).Some? {
      var best := BestSemver(g, p, probe);
      u := TagUpdate(c, p, best.value, SemverBump(g(p.tag).value, g(best.value).value));
    } else {
      var best := BestNumeric(g, p, probe);
      u := TagUpdate(c, p, best.value, NumericBump(ParseSpec(p.tag).value, ParseSpec(best.value).value));
    }
  }

  lemma RealIsOffered(g: Grammar, parse: RefParser, c: Container, probe: Probe, u: Update)
    requires Identified(parse, c, probe) && !ByDigest(g, probe, parse(c.imageRef).value.tag)
    requires IsReal(g, parse, c, probe, u)
    ensures OffersNewer(g, probe, parse(c.imageRef).value.tag, u.latestTag)
  {
    var p := parse(c.imageRef).value;
    KeptMembers(probe.tags.value, probe.rule);
    if g(p.tag).Some? {
      BareExactly(u.latestTag);
      ComparesByPrecedence(g(u.latestTag).value, g(p.tag).value);
    } else {
      ComparesPadded(ParseSpec(u.latestTag).value, ParseSpec(p.tag).value);
    }
  }

  /** A container is current exactly when something is offered and nothing newer. */
  lemma CurrentIsOffered(g: Grammar, parse: RefParser, c: Container, probe: Probe)
    requires Identified(parse, c, probe) && !ByDigest(g, probe, parse(c.imageRef).value.tag)
    ensures var p := parse(c.imageRef).value;
            IsCurrent(g, parse, c, probe) <==>
            (exists t :: Offers(g, probe, p.tag, t)) && forall t :: !OffersNewer(g, probe, p.tag, t)
  {
    var p := parse(c.imageRef).value;
    if probe.tags.Success? && Admits(probe.rule, p.tag) {
      if g(p.tag).Some? { SemverIsOffered(g, p, probe); } else { NumericIsOffered(g, p, probe); }
    }
  }

  /** The greatest candidate of the listing stands for all of them. */
  lemma BestSemver(g: Grammar, p: Parsed, probe: Probe) returns (best: Option<string>)
    requires g(p.tag).Some? && probe.tags.Success? && Admits(probe.rule, p.tag)
    ensures IsSelection(g, p.tag, !HasInclude(probe.rule), false, Kept(probe.tags.value, probe.rule), best)
    ensures best.None? ==> forall t :: !Offers(g, probe, p.tag, t)
    ensures best.Some? ==> Offers(g, probe, p.tag, best.value)
    ensures best.Some? && Compare(g(best.value).value, g(p.tag).value) <= 0 ==>
              forall t :: !OffersNewer(g, probe, p.tag, t)
    ensures best.Some? && Compare(g(best.value).value, g(p.tag).value) > 0 ==>
              OffersNewer(g, probe, p.tag, best.value)
  {
    var tags, skip := Kept(probe.tags.value, probe.rule), !HasInclude(probe.rule);
    KeptMembers(probe.tags.value, probe.rule);
    best := SelectionExists(g, p.tag, skip, false, tags);
    NothingToSelect(g, p.tag, skip, tags, best);
    if best.Some? {
      SelectedIsGreatest(g, p.tag, skip, tags, best.value);
      ComparesByPrecedence(g(best.value).value, g(p.tag).value);
      forall t | OffersNewer(g, probe, p.tag, t) ensures Compare(g(best.value).value, g(p.tag).value) > 0 {
        NotOutrankedIsNewer(g(best.value).value, g(t).value, g(p.tag).value);
      }
    }
  }

  lemma NotOutrankedIsNewer(x: Version, y: Version, z: Version)
    requires !Precedes(x, y) && Precedes(z, y)
    ensures Compare(x, z) > 0
  {
    ComparesByPrecedence(x, y);
    CompareFlip(x, y);
    ComparesByPrecedence(y, z);
    if Compare(x, y) > 0 { CompareTransitive(x, y, z); }
  }

  lemma SemverIsOffered(g: Grammar, p: Parsed, probe: Probe)
    requires g(p.tag).Some? && probe.tags.Success? && Admits(probe.rule, p.tag)
    ensures (exists t :: CurrentSemver(g, p, probe, t)) <==>
            (exists t :: Offers(g, probe, p.tag, t)) && forall t :: !OffersNewer(g, probe, p.tag, t)
  {
    var best := BestSemver(g, p, probe);
    if t :| CurrentSemver(g, p, probe, t) {
      var tags := Kept(probe.tags.value, probe.rule);
      SelectionIgnoresListingOrder(g, p.tag, !HasInclude(probe.rule), false, tags, tags, best, Some(t));
    }
    if best.Some? && Compare(g(best.value).value, g(p.tag).value) <= 0 {
      assert CurrentSemver(g, p, probe, best.value);
    }
  }

  lemma BestNumeric(g: Grammar, p: Parsed, probe: Probe) returns (best: Option<string>)
    requires g(p.tag).None? && ParseSpec(p.tag).Some? && probe.tags.Success? && Admits(probe.rule, p.tag)
    ensures IsNumericSelection(Text.TrimSpace(p.tag), Kept(probe.tags.value, probe.rule), best)
    ensures best.None? ==> forall t :: !Offers(g, probe, p.tag, t)
    ensures best.Some? ==> Offers(g, probe, p.tag, best.value)
    ensures best.Some? && CompareSegments(ParseSpec(best.value).value, ParseSpec(p.tag).value) <= 0 ==>
              forall t :: !OffersNewer(g, probe, p.tag, t)
    ensures best.Some? && CompareSegments(ParseSpec(best.value).value, ParseSpec(p.tag).value) > 0 ==>
              OffersNewer(g, probe, p.tag, best.value)
  {
    var tags := Kept(probe.tags.value, probe.rule);
    KeptMembers(probe.tags.value, probe.rule);
    best := NumericSelectionExists(Text.TrimSpace(p.tag), tags);
    if best.Some? {
      NumericSelectedIsGreatest(Text.TrimSpace(p.tag), tags, best.value);
      ComparesPadded(ParseSpec(best.value).value, ParseSpec(p.tag).value);
      forall t | OffersNewer(g, probe, p.tag, t)
        ensures CompareSegments(ParseSpec(best.value).value, ParseSpec(p.tag).value) > 0
      {
        NotExceededIsNewer(ParseSpec(best.value).value, ParseSpec(t).value, ParseSpec(p.tag).value);
      }
    }
  }

  lemma NotExceededIsNewer(x: Segments, y: Segments, z: Segments)
    requires (forall i: nat :: !LessAt(x, y, i)) && exists i: nat :: LessAt(z, y, i)
    ensures CompareSegments(x, z) > 0
  {
    ComparesPadded(x, y);
    ComparesPadded(y, z);
    CompareSegmentsTransitive(x, y, z);
  }

  lemma NumericIsOffered(g: Grammar, p: Parsed, probe: Probe)
    requires g(p.tag).None? && ParseSpec(p.tag).Some? && probe.tags.Success? && Admits(probe.rule, p.tag)
    ensures (exists t :: CurrentNumeric(p, probe, t)) <==>
            (exists t :: Offers(g, probe, p.tag, t)) && forall t :: !OffersNewer(g, probe, p.tag, t)
  {
    var best := BestNumeric(g, p, probe);
    if t :| CurrentNumeric(p, probe, t) {
      var tags := Kept(probe.tags.value, probe.rule);
      NumericSelectionIgnoresListingOrder(Text.TrimSpace(p.tag), tags, tags, best, Some(t));
    }
    if best.Some? && CompareSegments(ParseSpec(best.value).value, ParseSpec(p.tag).value) <= 0 {
      assert CurrentNumeric(p, probe, best.value);
    }
  }

  /** Every update that is reported, and every one that is not. */
  lemma OutcomeReports(g: Grammar, parse: RefParser, c: Container, probe: Probe, r: Check)
    requires IsOutcome(g, parse, c, probe, r)
    ensures ReportsUpdate(g, parse, c, probe, r)
  {
    if Identified(parse, c, probe) {
      var p := parse(c.imageRef).value;
      if ByDigest(g, probe, p.tag) {
        if KnowsBoth(probe) {
          var local, remote := probe.localDigest.value, probe.remoteDigest.value;
          SameHexExactly(local, remote);
          if !SameHex(local, remote) { assert IsReal(g, parse, c, probe, DigestUpdate(c, p, local, remote)); }
        }
      } else {
        if r.UpdateFound? { RealIsOffered(g, parse, c, probe, r.update); }
        if t :| OffersNewer(g, probe, p.tag, t) {
          var u := NewerIsFound(g, c, p, probe, t);
          assert IsReal(g, parse, c, probe, u);
        }
      }
    }
  }

  /** What CheckContainer reports, without its own terms: whether tag or digest decides, and
      what each then reports. */
  lemma CheckReports(g: Grammar, parse: RefParser, c: Container, probe: Probe, r: Check)
    requires IsOutcome(g, parse, c, probe, r)
    requires (r.Failed? <==> Fails(g, parse, c, probe)) && (r.UpToDate? <==> IsCurrent(g, parse, c, probe))
    ensures ReportsUpdate(g, parse, c, probe, r) && ReportsRest(g, parse, c, probe, r)
  {
    OutcomeReports(g, parse, c, probe, r);
    if Identified(parse, c, probe) {
      if ByDigest(g, probe, parse(c.imageRef).value.tag) {
        if KnowsBoth(probe) { SameHexExactly(probe.localDigest.value, probe.remoteDigest.value); }
      } else {
        CurrentIsOffered(g, parse, c, probe);
      }
    }
  }

  /** Every container of a pass is reported so. */
  lemma PassReports(g: Grammar, parse: RefParser, cs: seq<Container>, probes: nat -> Probe, checks: seq<Check>)
    requires Outcomes(g, parse, cs, probes, checks)
    ensures forall i :: 0 <= i < |cs| ==> ReportsUpdate(g, parse, cs[i], probes(i), checks[i])
  {
    forall i | 0 <= i < |cs| ensures ReportsUpdate(g, parse, cs[i], probes(i), checks[i]) {
      OutcomeReports(g, parse, cs[i], probes(i), checks[i]);
    }
  }

  // ---- the pass ----

  function ContainerKey(parse: RefParser, c: Container): Option<string> {
    match parse(c.imageRef)
    case None => None
    case Some(p) => if p.repo == "" then None else Some(FormatEntryKey(c.name, c.id, p.host, p.repo))
  }

  /** A container has a key exactly when its image reference parses to a repository, and it is
      that of its updates. */
  lemma ContainerKeyExactly(parse: RefParser, c: Container)
    ensures ContainerKey(parse, c).Some? <==> parse(c.imageRef).Some? && parse(c.imageRef).value.repo != ""
    ensures forall u: Update ::
              ContainerKey(parse, c).Some? && u.container == c && u.host == parse(c.imageRef).value.host
              && u.repo == parse(c.imageRef).value.repo ==>
                EntryKey(u) == ContainerKey(parse, c).value
  {
  }

  /** Distinct keys of the containers that have one, in order of first occurrence. */
  function ActiveKeys(parse: RefParser, cs: seq<Container>): seq<string> {
    if cs == [] then []
    else
      var before := ActiveKeys(parse, cs[..|cs| - 1]);
      var key := ContainerKey(parse, cs[|cs| - 1]);
      if key.Some? && key.value !in before then before + [key.value] else before
  }

  lemma {:induction false} ActiveKeysMembers(parse: RefParser, cs: seq<Container>)
    ensures forall k :: k in ActiveKeys(parse, cs) <==>
              exists i :: 0 <= i < |cs| && ContainerKey(parse, cs[i]) == Some(k)
    ensures forall i, j :: 0 <= i < j < |ActiveKeys(parse, cs)| ==> ActiveKeys(parse, cs)[i] != ActiveKeys(parse, cs)[j]
  {
    if cs != [] {
      var n := |cs| - 1;
      ActiveKeysMembers(parse, cs[..n]);
      forall k
        ensures k in ActiveKeys(parse, cs) <==> exists i :: 0 <= i < |cs| && ContainerKey(parse, cs[i]) == Some(k)
      {
        if i :| 0 <= i < |cs| && ContainerKey(parse, cs[i]) == Some(k) { assert i < n ==> cs[..n][i] == cs[i]; }
        if i :| 0 <= i < n && ContainerKey(parse, cs[..n][i]) == Some(k) { assert cs[i] == cs[..n][i]; }
      }
    }
  }

  function Monitored(monitor: Container -> bool, cs: seq<Container>): seq<Container> {
    if cs == [] then []
    else Monitored(monitor, cs[..|cs| - 1]) + if monitor(cs[|cs| - 1]) then [cs[|cs| - 1]] else []
  }

  method FilterByWatch(monitor: Container -> bool, cs: seq<Container>) returns (monitored: seq<Container>)
    ensures monitored == Monitored(monitor, cs)
  {
    monitored := [];
    for i := 0 to |cs|
      invariant monitored == Monitored(monitor, cs[..i])
    {
      assert cs[..i + 1][..i] == cs[..i];
      if monitor(cs[i]) { monitored := monitored + [cs[i]]; }
    }
    assert cs[..|cs|] == cs;
  }

  function UpdatesOf(checks: seq<Check>): seq<Update> {
    if checks == [] then []
    else UpdatesOf(checks[..|checks| - 1])
         + if checks[|checks| - 1].UpdateFound? then [checks[|checks| - 1].update] else []
  }

  /** `checks` are outcomes of checking `cs` one after the other. */
  ghost predicate Outcomes(g: Grammar, parse: RefParser, cs: seq<Container>, probes: nat -> Probe, checks: seq<Check>) {
    |checks| == |cs| && forall i :: 0 <= i < |cs| ==> IsOutcome(g, parse, cs[i], probes(i), checks[i])
  }

  /** One more container checked, a failure counting as skipped. */
  lemma OutcomesGrow(g: Grammar, parse: RefParser, cs: seq<Container>, probes: nat -> Probe, checks: seq<Check>,
                     n: nat, r: Check)
    requires n < |cs| && Outcomes(g, parse, cs[..n], probes, checks)
    requires IsOutcome(g, parse, cs[n], probes(n), r)
    ensures Outcomes(g, parse, cs[..n + 1], probes, checks + [r])
    ensures UpdatesOf(checks + [r]) == UpdatesOf(checks) + if r.UpdateFound? then [r.update] else []
  {
    assert (checks + [r])[..|checks|] == checks;
    forall i | 0 <= i < n + 1 ensures IsOutcome(g, parse, cs[..n + 1][i], probes(i), (checks + [r])[i]) {
      if i < n { assert cs[..n + 1][i] == cs[..n][i] && (checks + [r])[i] == checks[i]; }
    }
  }

  /** A failed check stops a pass that is being cancelled and is otherwise counted as skipped. */
  method CheckOrSkip(g: Grammar, parse: RefParser, c: Container, probe: Probe) returns (r: Check, stop: bool)
    ensures stop <==> Fails(g, parse, c, probe) && probe.cancelled
    ensures IsOutcome(g, parse, c, probe, r)
  {
    r := CheckContainer(g, parse, c, probe);
    stop := r.Failed? && probe.cancelled;
    if r.Failed? { r := Skipped; }
  }

  /** Checking container `i` fails while the pass is being cancelled. */
  predicate StopsThePass(g: Grammar, parse: RefParser, cs: seq<Container>, probes: nat -> Probe, i: int) {
    0 <= i < |cs| && Fails(g, parse, cs[i], probes(i)) && probes(i).cancelled
  }

  lemma ActiveKeysGrow(parse: RefParser, cs: seq<Container>, n: nat)
    requires n < |cs|
    ensures var before, key := ActiveKeys(parse, cs[..n]), ContainerKey(parse, cs[n]);
            ActiveKeys(parse, cs[..n + 1]) == if key.Some? && key.value !in before then before + [key.value] else before
  {
    assert cs[..n + 1][..n] == cs[..n];
  }

  /** The loop of a pass after `i` containers. */
  ghost predicate PassSoFar(g: Grammar, parse: RefParser, cs: seq<Container>, probes: nat -> Probe, i: nat,
                            found: seq<Update>, activeKeys: seq<string>, checks: seq<Check>)
    requires i <= |cs|
  {
    && Outcomes(g, parse, cs[..i], probes, checks)
    && found == UpdatesOf(checks) && activeKeys == ActiveKeys(parse, cs[..i])
    && forall j :: 0 <= j < i ==> !StopsThePass(g, parse, cs, probes, j)
  }

  lemma PassAdvances(g: Grammar, parse: RefParser, cs: seq<Container>, probes: nat -> Probe, i: nat,
                     found: seq<Update>, activeKeys: seq<string>, checks: seq<Check>, r: Check)
    requires i < |cs| && PassSoFar(g, parse, cs, probes, i, found, activeKeys, checks)
    requires IsOutcome(g, parse, cs[i], probes(i), r) && !StopsThePass(g, parse, cs, probes, i)
    ensures var key := ContainerKey(parse, cs[i]);
            PassSoFar(g, parse, cs, probes, i + 1,
                      if r.UpdateFound? then found + [r.update] else found,
                      if key.Some? && key.value !in activeKeys then activeKeys + [key.value] else activeKeys,
                      checks + [r])
  {
    OutcomesGrow(g, parse, cs, probes, checks, i, r);
    ActiveKeysGrow(parse, cs, i);
  }

  /** Containers have distinct names, or short ids where they have none, without a `|`. */
  ghost predicate DistinctNames(cs: seq<Container>) {
    && (forall i :: 0 <= i < |cs| ==> '|' !in NamePart(cs[i].name, cs[i].id))
    && forall i, j :: 0 <= i < j < |cs| ==> NamePart(cs[i].name, cs[i].id) != NamePart(cs[j].name, cs[j].id)
  }

  /** The listing is what RunOnce reports, in some environment, for distinctly named containers. */
  ghost predicate ReportedByRunOnce(g: Grammar, parse: RefParser, listing: Listing)
    requires listing.Listed?
  {
    exists cs: seq<Container>, probes: nat -> Probe, checks: seq<Check> ::
      DistinctNames(cs) && Outcomes(g, parse, cs, probes, checks)
      && listing.updates == UpdatesOf(checks) && listing.active == ActiveKeys(parse, cs)
  }

  /** A pass reports, in order, the real update of every monitored container that has one; it
      fails only without a container list or when it is stopped. */
  method RunOnce(g: Grammar, parse: RefParser, fleet: Option<seq<Container>>, monitor: Container -> bool,
                 probes: nat -> Probe)
    returns (r: Listing, ghost checks: seq<Check>)
    ensures r.ListError? <==>
            fleet.None? || exists i :: StopsThePass(g, parse, Monitored(monitor, fleet.value), probes, i)
    ensures r.Listed? ==>
              && Outcomes(g, parse, Monitored(monitor, fleet.value), probes, checks)
              && r == Listed(UpdatesOf(checks), ActiveKeys(parse, Monitored(monitor, fleet.value)), fleet.value != [])
              && (DistinctNames(Monitored(monitor, fleet.value)) ==> ReportedByRunOnce(g, parse, r))
              && forall i :: 0 <= i < |checks| ==>
                   ReportsUpdate(g, parse, Monitored(monitor, fleet.value)[i], probes(i), checks[i])
  {
    checks := [];
    if fleet.None? { return ListError, []; }
    var canPrune := |fleet.value| > 0;
    var monitored := FilterByWatch(monitor, fleet.value);
    var found: seq<Update> := [];
    var activeKeys: seq<string> := [];
    var activeSeen: set<string> := {};
    for i := 0 to |monitored|
      invariant PassSoFar(g, parse, monitored, probes, i, found, activeKeys, checks)
      invariant forall k :: k in activeSeen <==> k in activeKeys
    {
      var c := monitored[i];
      ghost var keysBefore := activeKeys;
      var key := ContainerKey(parse, c);
      if key.Some? {
        if key.value !in activeSeen {
          activeSeen := activeSeen + {key.value};
          activeKeys := activeKeys + [key.value];
        }
      }
      var result, stop := CheckOrSkip(g, parse, c, probes(i));
      if stop {
        assert StopsThePass(g, parse, monitored, probes, i);
        return ListError, [];
      }
      PassAdvances(g, parse, monitored, probes, i, found, keysBefore, checks, result);
      if result.UpdateFound? { found := found + [result.update]; }
      checks := checks + [result];
    }
    assert monitored[..|monitored|] == monitored;
    r := Listed(found, activeKeys, canPrune);
    PassReports(g, parse, monitored, probes, checks);
  }

  lemma {:induction false} UpdatesComeFromChecks(checks: seq<Check>, u: Update) returns (i: nat)
    requires u in UpdatesOf(checks)
    ensures i < |checks| && checks[i] == UpdateFound(u)
  {
    var n := |checks| - 1;
    if checks[n] == UpdateFound(u) { i := n; } else { i := UpdatesComeFromChecks(checks[..n], u); }
  }

  lemma RealUpdateHasContainerKey(g: Grammar, parse: RefParser, c: Container, probe: Probe, u: Update)
    requires TagsHaveRepos(parse) && IsReal(g, parse, c, probe, u)
    ensures ContainerKey(parse, c) == Some(EntryKey(u))
  {
  }

  lemma UpdateHasItsContainer(g: Grammar, parse: RefParser, cs: seq<Container>, probes: nat -> Probe,
                              checks: seq<Check>, u: Update)
    returns (i: nat)
    requires TagsHaveRepos(parse) && Outcomes(g, parse, cs, probes, checks) && u in UpdatesOf(checks)
    ensures i < |cs| && i < |checks| && checks[i] == UpdateFound(u) && ContainerKey(parse, cs[i]) == Some(EntryKey(u))
  {
    i := UpdatesComeFromChecks(checks, u);
    RealUpdateHasContainerKey(g, parse, cs[i], probes(i), u);
  }

  /** The store and the pass compute the same key: every reported update is active, so a pass
      never prunes what it just recorded. */
  lemma ReportedKeysAreActive(g: Grammar, parse: RefParser, cs: seq<Container>, probes: nat -> Probe,
                              checks: seq<Check>, u: Update)
    requires TagsHaveRepos(parse) && Outcomes(g, parse, cs, probes, checks) && u in UpdatesOf(checks)
    ensures EntryKey(u) in ActiveKeys(parse, cs)
  {
    var i := UpdateHasItsContainer(g, parse, cs, probes, checks, u);
    ActiveKeysMembers(parse, cs);
  }

  ghost predicate DistinctKeys(parse: RefParser, cs: seq<Container>) {
    forall i, j :: 0 <= i < j < |cs| && ContainerKey(parse, cs[i]).Some? ==>
      ContainerKey(parse, cs[i]) != ContainerKey(parse, cs[j])
  }

  lemma SameKeySameUpdate(g: Grammar, parse: RefParser, cs: seq<Container>, probes: nat -> Probe, checks: seq<Check>,
                          u: Update, v: Update)
    requires TagsHaveRepos(parse) && Outcomes(g, parse, cs, probes, checks) && DistinctKeys(parse, cs)
    requires u in UpdatesOf(checks) && v in UpdatesOf(checks) && EntryKey(u) == EntryKey(v)
    ensures u == v
  {
    var i := UpdateHasItsContainer(g, parse, cs, probes, checks, u);
    var j := UpdateHasItsContainer(g, parse, cs, probes, checks, v);
    assert i == j;
  }

  /** What the history laws ask of a pass holds when monitored containers have distinct keys. */
  lemma DistinctKeysReportWell(g: Grammar, parse: RefParser, cs: seq<Container>, probes: nat -> Probe,
                               checks: seq<Check>, p: PassLog)
    requires TagsHaveRepos(parse) && Outcomes(g, parse, cs, probes, checks) && DistinctKeys(parse, cs)
    requires p.updates == UpdatesOf(checks) && p.active == ActiveKeys(parse, cs)
    ensures WellReported(p)
  {
    forall u | u in p.updates ensures EntryKey(u) in p.active {
      ReportedKeysAreActive(g, parse, cs, probes, checks, u);
    }
    forall u, v | u in p.updates && v in p.updates && EntryKey(u) == EntryKey(v) ensures TargetFor(u) == TargetFor(v) {
      SameKeySameUpdate(g, parse, cs, probes, checks, u, v);
    }
  }

  /** A parsed host holds no `/`. */
  ghost predicate HostsHaveNoSlash(parse: RefParser) {
    forall s :: parse(s).Some? ==> '/' !in parse(s).value.host
  }

  lemma NamesMakeKeysDistinct(parse: RefParser, cs: seq<Container>)
    requires DistinctNames(cs) && HostsHaveNoSlash(parse)
    ensures DistinctKeys(parse, cs)
  {
    forall i, j | 0 <= i < j < |cs| && ContainerKey(parse, cs[i]).Some?
      ensures ContainerKey(parse, cs[i]) != ContainerKey(parse, cs[j])
    {
      if ContainerKey(parse, cs[j]).Some? {
        var p, q := parse(cs[i].imageRef).value, parse(cs[j].imageRef).value;
        EntryKeyIsInjective(cs[i].name, cs[i].id, p.host, p.repo, cs[j].name, cs[j].id, q.host, q.repo);
      }
    }
  }

  /** Docker gives running containers distinct names. Then every pass that reports what RunOnce
      reports meets both hypotheses of the history laws. */
  lemma RunOnceReportsWell(g: Grammar, parse: RefParser, cs: seq<Container>, probes: nat -> Probe, checks: seq<Check>,
                           p: PassLog)
    requires TagsHaveRepos(parse) && HostsHaveNoSlash(parse) && DistinctNames(cs)
    requires Outcomes(g, parse, cs, probes, checks)
    requires p.updates == UpdatesOf(checks) && p.active == ActiveKeys(parse, cs)
    ensures WellReported(p)
  {
    NamesMakeKeysDistinct(parse, cs);
    DistinctKeysReportWell(g, parse, cs, probes, checks, p);
  }

  lemma ReportedWell(g: Grammar, parse: RefParser, listing: Listing)
    requires listing.Listed? && ReportedByRunOnce(g, parse, listing)
    requires TagsHaveRepos(parse) && HostsHaveNoSlash(parse)
    ensures OneTargetPerKey(listing.updates) && AllActive(listing.updates, listing.active)
  {
    var cs: seq<Container>, probes: nat -> Probe, checks: seq<Check> :|
      DistinctNames(cs) && Outcomes(g, parse, cs, probes, checks)
      && listing.updates == UpdatesOf(checks) && listing.active == ActiveKeys(parse, cs);
    var p := PassLog(SCHEDULED, 0, listing.updates, listing.active, listing.canPrune, [], 0, [], false);
    RunOnceReportsWell(g, parse, cs, probes, checks, p);
  }

  /** Every listing of the run is what RunOnce reports for distinctly named containers, which
      may be others in every pass, as may be what the registries answer. */
  ghost predicate ReportedRun(g: Grammar, parse: RefParser, events: seq<Event>) {
    && TagsHaveRepos(parse) && HostsHaveNoSlash(parse)
    && forall e :: e in events && e.PassRuns? && e.listing.Listed? ==> ReportedByRunOnce(g, parse, e.listing)
  }

  lemma RunIsWellReported(g: Grammar, parse: RefParser, f: DiskFile, events: seq<Event>)
    requires ReportedRun(g, parse, events)
    ensures forall k :: 0 <= k < |Run(f, events).log| ==> WellReported(Run(f, events).log[k])
  {
    forall e | e in events && e.PassRuns? && e.listing.Listed?
      ensures OneTargetPerKey(e.listing.updates) && AllActive(e.listing.updates, e.listing.active)
    {
      ReportedWell(g, parse, e.listing);
    }
    LogIsWellReported(f, events);
  }

  /** The whole program over whole runs, through crashes and restarts: a target that two passes
      deliver was disturbed in between. */
  lemma NoRepeatAcrossPasses(g: Grammar, parse: RefParser, f: DiskFile, events: seq<Event>, i: nat, j: nat,
                             u: Update, v: Update)
    requires ReportedRun(g, parse, events)
    requires i < j < |Run(f, events).log| && Delivers(Run(f, events).log[i], u)
    requires Run(f, events).log[j].mode.suppress && v in Run(f, events).log[j].offered && SameTarget(v, u)
    ensures exists k :: i < k < j && Disturbs(Run(f, events).log[k], u)
  {
    RunIsWellReported(g, parse, f, events);
    NoRepeatWithoutCause(f, events, i, j, u, v);
  }

  /** And a suppressing pass holds an update back exactly when its target is standing. */
  lemma SuppressionAcrossPasses(g: Grammar, parse: RefParser, f: DiskFile, events: seq<Event>, j: nat, u: Update)
    requires ReportedRun(g, parse, events)
    requires j < |Run(f, events).log| && Run(f, events).log[j].mode.suppress && u in Run(f, events).log[j].updates
    ensures var log := Run(f, events).log; u !in log[j].offered <==> Standing(Loaded(f), log[..j], u)
  {
    RunIsWellReported(g, parse, f, events);
    SuppressedExactlyWhenStanding(f, events, j, u);
  }

  /** The bump names the first segment that rose from `old'` to `new'`, all before it being
      equal; a patch bump stands for any later rise. */
  ghost predicate BumpIsRight(bump: Option<Bump>, old': (nat, nat), new': (nat, nat)) {
    && (bump == Some(Major) <==> new'.0 > old'.0)
    && (bump == Some(Minor) <==> new'.0 == old'.0 && new'.1 > old'.1)
    && (bump == Some(Patch) <==> new' == old')
  }

  /** A reported tag update names a listed tag that the include rule admits, that is no bare
      integer and is newer than the current one, and its bump names the segment that rose. */
  lemma ReportedTagIsNewer(g: Grammar, parse: RefParser, c: Container, probe: Probe, u: Update)
    requires IsReal(g, parse, c, probe, u) && u.latestTag != ""
    ensures probe.tags.Success? && u.latestTag in probe.tags.value
    ensures Admits(probe.rule, u.latestTag) && !IsBareInteger(u.latestTag)
    ensures var tag, latest := parse(c.imageRef).value.tag, u.latestTag;
            if g(tag).Some?
            then g(latest).Some? && Compare(g(latest).value, g(tag).value) > 0 &&
                 BumpIsRight(u.bump, (g(tag).value.major, g(tag).value.minor),
                             (g(latest).value.major, g(latest).value.minor))
            else ParseSpec(latest).Some? && ParseSpec(tag).Some? &&
                 CompareSegments(ParseSpec(latest).value, ParseSpec(tag).value) > 0 &&
                 BumpIsRight(u.bump, (Seg(ParseSpec(tag).value, 0), Seg(ParseSpec(tag).value, 1)),
                             (Seg(ParseSpec(latest).value, 0), Seg(ParseSpec(latest).value, 1)))
  {
    KeptMembers(probe.tags.value, probe.rule);
    var tag := parse(c.imageRef).value.tag;
    if g(tag).Some? {
      BumpNamesFirstRise(g(tag).value, g(u.latestTag).value);
    } else {
      NumericBumpNamesFirstRise(ParseSpec(tag).value, ParseSpec(u.latestTag).value);
      NumericIsNotBare(u.latestTag);
    }
  }
}
