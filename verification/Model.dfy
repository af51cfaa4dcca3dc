/** Containers, updates and the keys under which their history is kept. */
module Model {
  import opened Text
  import opened Semver
  import opened Wrappers

  datatype Container = Container(id: string, name: string, imageRef: string, labels: map<string, string>)

  datatype Update = Update(
    container: Container, host: string, repo: string, currentTag: string, latestTag: string,
    bump: Option<Bump>, localDigest: string, remoteDigest: string)

  function ShortContainerId(id: string): string {
    if id == "" then "unknown" else if |id| > 12 then id[..12] else id
  }

  function NamePart(name: string, id: string): string { if name == "" then ShortContainerId(id) else name }

  function FormatEntryKey(name: string, id: string, host: string, repo: string): string {
    NamePart(name, id) + "|" + host + "/" + repo
  }

  function EntryKey(u: Update): string { FormatEntryKey(u.container.name, u.container.id, u.host, u.repo) }

  /** State keys separate containers, hosts and repositories. */
  lemma EntryKeyIsInjective(n: string, i: string, h: string, r: string, n': string, i': string, h': string, r': string)
    requires '|' !in NamePart(n, i) && '|' !in NamePart(n', i') && '/' !in h && '/' !in h'
    ensures FormatEntryKey(n, i, h, r) == FormatEntryKey(n', i', h', r') <==>
            NamePart(n, i) == NamePart(n', i') && h == h' && r == r'
  {
    if FormatEntryKey(n, i, h, r) == FormatEntryKey(n', i', h', r') {
      assert FormatEntryKey(n, i, h, r) == NamePart(n, i) + ['|'] + (h + ['/'] + r);
      assert FormatEntryKey(n', i', h', r') == NamePart(n', i') + ['|'] + (h' + ['/'] + r');
      CutIsUnique(NamePart(n, i), NamePart(n', i'), h + ['/'] + r, h' + ['/'] + r', '|');
      CutIsUnique(h, h', r, r', '/');
    }
  }

  /** The key of an update in full: container, host and repository. A container without a name
      is known by the first twelve characters of its id, one without either as unknown. */
  lemma EntryKeyFormat(u: Update)
    ensures var c, rest := u.container, "|" + u.host + "/" + u.repo;
            && (c.name != "" ==> EntryKey(u) == c.name + rest)
            && (c.name == "" && c.id == "" ==> EntryKey(u) == "unknown" + rest)
            && (c.name == "" && 1 <= |c.id| <= 12 ==> EntryKey(u) == c.id + rest)
            && (c.name == "" && |c.id| > 12 ==> EntryKey(u) == c.id[..12] + rest)
  {
    var part := NamePart(u.container.name, u.container.id);
    assert part + "|" + u.host + "/" + u.repo == part + ("|" + u.host + "/" + u.repo);
  }

  const SHA256_PREFIX := "sha256:"

  function NormalizeDigest(d: string): string { if SHA256_PREFIX <= d then d[|SHA256_PREFIX|..] else d }

  /** The (mode, value) pair that identifies what an update would move to. */
  function TargetFor(u: Update): (string, string) {
    if u.latestTag != "" then ("semver", u.latestTag) else ("digest", NormalizeDigest(u.remoteDigest))
  }

  /** `hex` is the digest `d` without its algorithm. */
  ghost predicate DigestHex(d: string, hex: string) {
    d == "sha256:" + hex || (d == hex && !("sha256:" <= d))
  }

  ghost predicate SameHex(d: string, e: string) { exists hex :: DigestHex(d, hex) && DigestHex(e, hex) }

  lemma NormalizedIsHex(d: string)
    ensures DigestHex(d, NormalizeDigest(d)) && forall hex :: DigestHex(d, hex) ==> hex == NormalizeDigest(d)
  {
    forall hex | DigestHex(d, hex) ensures hex == NormalizeDigest(d) {
      if d == "sha256:" + hex { assert d[7..] == hex; }
    }
  }

  lemma SameHexExactly(d: string, e: string)
    ensures SameHex(d, e) <==> NormalizeDigest(d) == NormalizeDigest(e)
  {
    NormalizedIsHex(d);
    NormalizedIsHex(e);
  }

  /** An update and a recorded pair agree: the tag it moves to or, without one, the remote
      digest without its algorithm. */
  ghost predicate MovesTo(u: Update, mode: string, value: string) {
    if u.latestTag != "" then mode == "semver" && value == u.latestTag
    else mode == "digest" && DigestHex(u.remoteDigest, value)
  }

  lemma TargetIsWhereItMoves(u: Update, mode: string, value: string)
    ensures TargetFor(u) == (mode, value) <==> MovesTo(u, mode, value)
  {
    NormalizedIsHex(u.remoteDigest);
  }

  /** Two updates have the same target exactly when they move the same container and image to
      the same tag or, both without a tag, to the same digest. */
  lemma SameTargetExactly(u: Update, v: Update)
    ensures SameTarget(u, v) <==>
            EntryKey(u) == EntryKey(v) && u.latestTag == v.latestTag &&
            (u.latestTag == "" ==> SameHex(u.remoteDigest, v.remoteDigest))
  {
    SameHexExactly(u.remoteDigest, v.remoteDigest);
  }

  predicate SameTarget(u: Update, v: Update) { EntryKey(u) == EntryKey(v) && TargetFor(u) == TargetFor(v) }
}
