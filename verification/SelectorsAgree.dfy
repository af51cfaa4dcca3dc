/** On two- and three-segment numeric tags the semver and the numeric selector are the same. */
module SelectorsAgree {
  import opened Text
  import opened Wrappers
  import opened Semver
  import opened SemverSelect
  import opened NumericSelect

  /** A dotted numeric tag that the semver library also reads: two or three segments. */
  predicate ShortDotted(tag: string) {
    TrimSpace(tag) == tag && ParseSpec(tag).Some? && |ParseSpec(tag).value| <= 3
  }

  function ToVersion(a: Segments): Version { Version(Seg(a, 0), Seg(a, 1), Seg(a, 2), []) }

  /** All that is asked of the library's parser: missing segments are read as 0. */
  ghost predicate ReadsShortDotted(g: Grammar) {
    forall t :: ShortDotted(t) ==> g(t) == Some(ToVersion(ParseSpec(t).value))
  }

  lemma CompareAgrees(a: Segments, b: Segments)
    requires |a| <= 3 && |b| <= 3
    ensures CompareSegments(a, b) == Compare(ToVersion(a), ToVersion(b))
  {
    ComparesPadded(a, b);
    CompareIsSign(a, b);
    assert forall i: nat :: i >= 3 ==> Seg(a, i) == Seg(b, i);
    if i: nat :| LessAt(a, b, i) { assert i < 3; }
    if i: nat :| LessAt(b, a, i) { assert i < 3; }
  }

  lemma {:induction false} JoinChars(parts: seq<string>)
    requires forall p :: p in parts ==> AllDigits(p)
    ensures forall c :: c in Join(parts, ".") ==> IsDigit(c) || c == '.'
  {
    if parts != [] {
      assert AllDigits(parts[0]);
      JoinChars(parts[1..]);
    }
  }

  lemma NumericCore(s: string)
    requires forall p :: p in Split(s, '.') ==> AllDigits(p)
    ensures BeforeSuffix(s) == s && CountNonEmpty(Split(s, '.')) == |Split(s, '.')|
  {
    var parts := Split(s, '.');
    JoinSplit(s, '.');
    JoinChars(parts);
    BeforeSuffixStops(s, "");
    assert s + "" == s;
    forall i | 0 <= i < |parts| ensures parts[i] != [] { assert AllDigits(parts[i]); }
    CountAllNonEmpty(parts);
  }

  lemma FormAgrees(g: Grammar, t: string)
    requires ReadsShortDotted(g) && ShortDotted(t)
    ensures FormOf(g, t).components == DottedComponentCount(t) && FormOf(g, t).suffix == []
  {
    assert MatchesNumericRE(t);
    NumericCore(WithoutV(t));
    assert DottedCore(t) == Split(WithoutV(t), '.');
  }

  lemma PreferAgrees(g: Grammar, current: string, a: string, b: string)
    requires ReadsShortDotted(g) && ShortDotted(current) && ShortDotted(a) && ShortDotted(b)
    ensures PreferEqualSemver(g, current, a, b) == PreferEqualDotted(current, a, b)
  {
    FormAgrees(g, current);
    FormAgrees(g, a);
    FormAgrees(g, b);
  }

  /** When the current tag and every candidate have two or three segments, both selectors
      pick the same tag. */
  lemma SelectorsPickTheSameTag(g: Grammar, current: string, skip: bool, tags: seq<string>, a: Option<string>,
                                b: Option<string>)
    requires ReadsShortDotted(g) && ShortDotted(current)
    requires forall t :: t in tags && (Eligible(g, skip, false, t) || ParseSpec(t).Some?) ==> ShortDotted(t)
    requires IsSelection(g, current, skip, false, tags, a) && IsNumericSelection(current, tags, b)
    ensures a == b
  {
    forall t | t in tags ensures Eligible(g, skip, false, t) <==> ParseSpec(t).Some? {
      if ParseSpec(t).Some? { NumericIsNotBare(t); }
    }
    if a.Some? && b.Some? && a != b {
      var x, y := a.value, b.value;
      CompareAgrees(ParseSpec(x).value, ParseSpec(y).value);
      PreferAgrees(g, current, x, y);
      BetterDottedIsTotal(current, x, y);
    }
  }
}
