/** Versions and their precedence (section 11 of Semantic Versioning 2.0.0), as the
    semver library orders them. Build metadata never takes part, so it is dropped. */
module Semver {
  import opened Text
  import opened Wrappers

  datatype Ident = Num(n: nat) | Alnum(s: string)

  /** A parsed tag. Missing minor and patch numbers are already read as 0. */
  datatype Version = Version(major: nat, minor: nat, patch: nat, pre: seq<Ident>)

  /** The library's parser: any function from tags to versions. */
  type Grammar = string -> Option<Version>

  function CompareNat(a: nat, b: nat): int {
    if a < b then -1 else if a > b then 1 else 0
  }

  function CompareIdent(a: Ident, b: Ident): int {
    match (a, b)
    case (Num(m), Num(n)) => CompareNat(m, n)
    case (Num(_), Alnum(_)) => -1
    case (Alnum(_), Num(_)) => 1
    case (Alnum(s), Alnum(t)) => if s == t then 0 else if Less(s, t) then -1 else 1
  }

  function CompareIdents(a: seq<Ident>, b: seq<Ident>): int {
    if a == [] && b == [] then 0
    else if a == [] then -1
    else if b == [] then 1
    else if CompareIdent(a[0], b[0]) != 0 then CompareIdent(a[0], b[0])
    else CompareIdents(a[1..], b[1..])
  }

  /** A pre-release comes before the release it belongs to. */
  function ComparePre(a: seq<Ident>, b: seq<Ident>): int {
    if a == [] && b == [] then 0
    else if a == [] then 1
    else if b == [] then -1
    else CompareIdents(a, b)
  }

  function Compare(a: Version, b: Version): int {
    if a.major != b.major then CompareNat(a.major, b.major)
    else if a.minor != b.minor then CompareNat(a.minor, b.minor)
    else if a.patch != b.patch then CompareNat(a.patch, b.patch)
    else ComparePre(a.pre, b.pre)
  }

  // ---- section 11, rule by rule ----

  ghost predicate IdentPrecedes(x: Ident, y: Ident) {
    || (x.Num? && y.Num? && x.n < y.n)
    || (x.Num? && y.Alnum?)
    || (x.Alnum? && y.Alnum? && BytewiseLess(x.s, y.s))
  }

  ghost predicate SameUpTo(a: seq<Ident>, b: seq<Ident>, i: nat)
    requires i <= |a| && i <= |b|
  {
    forall j :: 0 <= j < i ==> a[j] == b[j]
  }

  /** Identifier `i` is the first that differs, and it precedes. */
  ghost predicate PrecedesAt(a: seq<Ident>, b: seq<Ident>, i: nat) {
    i < |a| && i < |b| && SameUpTo(a, b, i) && IdentPrecedes(a[i], b[i])
  }

  /** The first identifier that differs decides; where none does, fewer come first. */
  ghost predicate IdentsPrecede(a: seq<Ident>, b: seq<Ident>) {
    (exists i: nat :: PrecedesAt(a, b, i)) || (|a| < |b| && SameUpTo(a, b, |a|))
  }

  /** `a` has lower precedence than `b`. */
  ghost predicate Precedes(a: Version, b: Version) {
    || a.major < b.major
    || (a.major == b.major && a.minor < b.minor)
    || (a.major == b.major && a.minor == b.minor && a.patch < b.patch)
    || (a.major == b.major && a.minor == b.minor && a.patch == b.patch && a.pre != []
        && (b.pre == [] || IdentsPrecede(a.pre, b.pre)))
  }

  lemma {:induction false} IdentsBySection11(a: seq<Ident>, b: seq<Ident>)
    ensures CompareIdents(a, b) < 0 <==> IdentsPrecede(a, b)
  {
    if a != [] && b != [] {
      if a[0].Alnum? && b[0].Alnum? {
        LessIsTotal(a[0].s, b[0].s);
        LessIsBytewise(a[0].s, b[0].s);
      }
      IdentsBySection11(a[1..], b[1..]);
      PrecedenceShifts(a, b);
    }
  }

  lemma SameUpToShifts(a: seq<Ident>, b: seq<Ident>, i: nat)
    requires 0 < i <= |a| && i <= |b| && a[0] == b[0]
    ensures SameUpTo(a, b, i) <==> SameUpTo(a[1..], b[1..], i - 1)
  {
    if SameUpTo(a[1..], b[1..], i - 1) {
      forall j | 0 <= j < i ensures a[j] == b[j] { if j > 0 { assert a[1..][j - 1] == b[1..][j - 1]; } }
    }
  }

  lemma PrecedenceShifts(a: seq<Ident>, b: seq<Ident>)
    requires a != [] && b != []
    ensures IdentsPrecede(a, b) <==> IdentPrecedes(a[0], b[0]) || (a[0] == b[0] && IdentsPrecede(a[1..], b[1..]))
  {
    var a', b' := a[1..], b[1..];
    assert IdentPrecedes(a[0], b[0]) <==> PrecedesAt(a, b, 0);
    if i: nat :| i > 0 && PrecedesAt(a, b, i) {
      SameUpToShifts(a, b, i);
      assert PrecedesAt(a', b', i - 1);
    }
    if a[0] == b[0] {
      if i: nat :| PrecedesAt(a', b', i) {
        SameUpToShifts(a, b, i + 1);
        assert PrecedesAt(a, b, i + 1);
      }
      if |a| < |b| { SameUpToShifts(a, b, |a|); }
    }
  }

  /** The comparison is precedence. */
  lemma ComparesByPrecedence(a: Version, b: Version)
    ensures Compare(a, b) < 0 <==> Precedes(a, b)
    ensures Compare(a, b) > 0 <==> Precedes(b, a)
  {
    CompareFlip(a, b);
    IdentsBySection11(a.pre, b.pre);
    IdentsBySection11(b.pre, a.pre);
  }

  lemma {:induction false} IdentsFlip(a: seq<Ident>, b: seq<Ident>)
    ensures CompareIdents(a, b) == -CompareIdents(b, a)
    ensures CompareIdents(a, b) == 0 <==> a == b
  {
    if a != [] && b != [] {
      IdentsFlip(a[1..], b[1..]);
      assert a == [a[0]] + a[1..] && b == [b[0]] + b[1..];
      if a[0].Alnum? && b[0].Alnum? { LessIsTotal(a[0].s, b[0].s); }
    }
  }

  lemma {:induction false} IdentsTransitive(a: seq<Ident>, b: seq<Ident>, c: seq<Ident>)
    requires CompareIdents(a, b) > 0 && CompareIdents(b, c) > 0
    ensures CompareIdents(a, c) > 0
  {
    if b != [] && c != [] {
      if a[0].Alnum? && b[0].Alnum? && c[0].Alnum? {
        LessIsTotal(a[0].s, b[0].s);
        LessIsTotal(b[0].s, c[0].s);
        LessIsTotal(a[0].s, c[0].s);
        if Less(c[0].s, b[0].s) && Less(b[0].s, a[0].s) {
          LessTransitive(c[0].s, b[0].s, a[0].s);
        }
      }
      if a[0] == b[0] == c[0] { IdentsTransitive(a[1..], b[1..], c[1..]); }
    }
  }

  /** Precedence is antisymmetric, and without build metadata it identifies no two versions. */
  lemma CompareFlip(a: Version, b: Version)
    ensures Compare(a, b) == -Compare(b, a)
    ensures Compare(a, b) == 0 <==> a == b
  {
    IdentsFlip(a.pre, b.pre);
  }

  lemma CompareTransitive(a: Version, b: Version, c: Version)
    requires Compare(a, b) > 0 && Compare(b, c) > 0
    ensures Compare(a, c) > 0
  {
    if a.pre != [] && b.pre != [] && c.pre != [] && CompareIdents(a.pre, b.pre) > 0 && CompareIdents(b.pre, c.pre) > 0 {
      IdentsTransitive(a.pre, b.pre, c.pre);
    }
  }

  datatype Bump = Major | Minor | Patch

  function SemverBump(current: Version, latest: Version): Bump {
    if latest.major != current.major then Major
    else if latest.minor != current.minor then Minor
    else Patch
  }

  /** When a newer version is reported, the bump names the first segment that changed, and
      that segment went up. */
  lemma BumpNamesFirstRise(current: Version, latest: Version)
    requires Compare(latest, current) > 0
    ensures SemverBump(current, latest).Major? <==> latest.major > current.major
    ensures SemverBump(current, latest).Minor? <==> latest.major == current.major && latest.minor > current.minor
    ensures SemverBump(current, latest).Patch? <==>
            latest.major == current.major && latest.minor == current.minor &&
            (latest.patch > current.patch || (latest.patch == current.patch && ComparePre(latest.pre, current.pre) > 0))
  {
  }
}
