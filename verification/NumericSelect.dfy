/** Strictly numeric dotted tags: parsing, comparison with zero padding, and selection. */
module NumericSelect {
  import opened Text
  import opened Wrappers
  import opened Semver
  import opened SemverSelect

  /** Largest value strconv.Atoi accepts on a 64-bit platform. */
  const MAX_INT := 0x7FFF_FFFF_FFFF_FFFF

  type Segments = seq<nat>

  function WithoutV(raw: string): string {
    if raw != [] && raw[0] == 'v' then raw[1..] else raw
  }

  /** `^v?\d+(\.\d+)+$`, read off the grammar: two or more digit groups joined by dots. */
  ghost predicate InNumericLanguage(raw: string) {
    exists groups: seq<string> ::
      |groups| >= 2 && (forall p :: p in groups ==> AllDigits(p)) && WithoutV(raw) == Join(groups, ".")
  }

  /** The same test by splitting at the dots. */
  predicate MatchesNumericRE(raw: string) {
    var parts := Split(WithoutV(raw), '.');
    |parts| >= 2 && forall p :: p in parts ==> AllDigits(p)
  }

  lemma NumericREIsItsLanguage(raw: string)
    ensures MatchesNumericRE(raw) <==> InNumericLanguage(raw)
  {
    var s := WithoutV(raw);
    JoinSplit(s, '.');
    if InNumericLanguage(raw) {
      var groups :| |groups| >= 2 && (forall p :: p in groups ==> AllDigits(p)) && s == Join(groups, ".");
      assert forall p :: p in groups ==> '.' !in p;
      SplitJoin(groups, '.');
    }
  }

  function Values(parts: seq<string>): Segments
    requires forall p :: p in parts ==> AllDigits(p)
    ensures |Values(parts)| == |parts|
  {
    seq(|parts|, i requires 0 <= i < |parts| => assert AllDigits(parts[i]); Value(parts[i]))
  }

  predicate Fits(segs: Segments) { forall i :: 0 <= i < |segs| ==> segs[i] <= MAX_INT }

  /** What parseNumericVersion accepts, and the segments it returns. */
  function ParseSpec(tag: string): Option<Segments> {
    var raw := TrimSpace(tag);
    if !MatchesNumericRE(raw) then None
    else
      var segs := Values(Split(WithoutV(raw), '.'));
      if Fits(segs) then Some(segs) else None
  }

  /** What is accepted, in plain terms: after trimming and an optional `v`, two or more groups
      of decimal digits joined by dots, whose values are the segments and fit 64 bits. */
  ghost predicate WrittenAs(tag: string, groups: seq<string>, segs: Segments) {
    && |groups| == |segs| && |groups| >= 2 && (forall p :: p in groups ==> DigitString(p))
    && (TrimmedTo(tag, Join(groups, ".")) || TrimmedTo(tag, "v" + Join(groups, ".")))
    && forall i :: 0 <= i < |segs| ==> ValueOf(groups[i], segs[i]) && segs[i] <= 0x7FFF_FFFF_FFFF_FFFF
  }

  ghost predicate ValueOf(digits: string, n: nat) { AllDigits(digits) && Value(digits) == n }

  lemma ParseSpecExactly(tag: string, segs: Segments)
    ensures ParseSpec(tag) == Some(segs) <==> exists groups :: WrittenAs(tag, groups, segs)
  {
    var raw := TrimSpace(tag);
    TrimSpaceExactly(tag, raw);
    if ParseSpec(tag) == Some(segs) {
      var groups := Split(WithoutV(raw), '.');
      JoinSplit(WithoutV(raw), '.');
      forall p | p in groups ensures DigitString(p) { AllDigitsExactly(p); }
      forall i | 0 <= i < |segs| ensures ValueOf(groups[i], segs[i]) { assert AllDigits(groups[i]); }
      assert raw == (if raw != [] && raw[0] == 'v' then "v" else "") + Join(groups, ".");
      assert WrittenAs(tag, groups, segs);
    }
    if groups :| WrittenAs(tag, groups, segs) {
      var s := Join(groups, ".");
      forall p | p in groups ensures AllDigits(p) && '.' !in p { AllDigitsExactly(p); }
      JoinEdges(groups);
      TrimSpaceExactly(tag, s);
      TrimSpaceExactly(tag, "v" + s);
      assert WithoutV(raw) == s;
      SplitJoin(groups, '.');
      assert Values(groups) == segs;
    }
  }

  method ParseNumericVersion(tag: string) returns (r: Option<Segments>)
    ensures r == ParseSpec(tag)
  {
    var raw := TrimSpace(tag);
    if !MatchesNumericRE(raw) { return None; }
    var parts := Split(WithoutV(raw), '.');
    var segs: Segments := [];
    for i := 0 to |parts|
      invariant segs == Values(parts)[..i]
      invariant Fits(segs)
    {
      assert AllDigits(parts[i]);
      var n := Value(parts[i]);
      if n > MAX_INT {
        assert Values(parts)[i] == n;
        return None;
      }
      segs := segs + [n];
    }
    assert segs == Values(parts);
    r := Some(segs);
  }

  function Decimals(segs: Segments): seq<string> { seq(|segs|, i requires 0 <= i < |segs| => Decimal(segs[i])) }

  function Print(hasV: bool, segs: Segments): string {
    (if hasV then "v" else "") + Join(Decimals(segs), ".")
  }

  predicate NoEdgeSpace(s: string) { s != [] ==> !IsSpace(s[0]) && !IsSpace(s[|s| - 1]) }

  lemma {:induction false} JoinEdges(parts: seq<string>)
    requires parts != [] && forall p :: p in parts ==> AllDigits(p)
    ensures var s := Join(parts, "."); s != [] && IsDigit(s[0]) && IsDigit(s[|s| - 1])
  {
    assert AllDigits(parts[0]);
    if |parts| > 1 { JoinEdges(parts[1..]); }
  }

  /** Round trip: printing two or more segments and parsing the text gives them back. */
  lemma ParseAfterPrint(hasV: bool, segs: Segments)
    requires |segs| >= 2
    ensures ParseSpec(Print(hasV, segs)) == if Fits(segs) then Some(segs) else None
    ensures HasVPrefix(Print(hasV, segs)) == hasV
  {
    var parts := Decimals(segs);
    var s := Print(hasV, segs);
    JoinEdges(parts);
    assert NoEdgeSpace(s);
    assert TrimSpace(s) == s;
    assert WithoutV(s) == Join(parts, ".");
    assert forall p :: p in parts ==> AllDigits(p) && '.' !in p;
    SplitJoin(parts, '.');
    forall i | 0 <= i < |segs| ensures Values(parts)[i] == segs[i] { ValueDecimal(segs[i]); }
    assert Values(parts) == segs;
  }

  /** Numeric tags and bare integers are disjoint, so the bare check in the selector never
      changes its result. */
  lemma NumericIsNotBare(tag: string)
    requires ParseSpec(tag).Some?
    ensures !IsBareInteger(tag)
  {
    var s := WithoutV(TrimSpace(tag));
    JoinSplit(s, '.');
    var parts := Split(s, '.');
    assert s == parts[0] + "." + Join(parts[1..], ".");
    assert s[|parts[0]|] == '.';
    assert !AllDigits(s);
  }

  function Seg(a: Segments, i: nat): nat { if i < |a| then a[i] else 0 }

  function Tail(a: Segments): Segments { if a == [] then [] else a[1..] }

  function CompareSegments(a: Segments, b: Segments): int
    decreases |a| + |b|
  {
    if a == [] && b == [] then 0
    else if Seg(a, 0) != Seg(b, 0) then CompareNat(Seg(a, 0), Seg(b, 0))
    else CompareSegments(Tail(a), Tail(b))
  }

  /** The first position where zero-padded `a` and `b` differ is `i`, and `a` is smaller there. */
  ghost predicate LessAt(a: Segments, b: Segments, i: nat) {
    Seg(a, i) < Seg(b, i) && forall j :: 0 <= j < i ==> Seg(a, j) == Seg(b, j)
  }

  ghost predicate SamePadded(a: Segments, b: Segments) { forall i: nat :: Seg(a, i) == Seg(b, i) }

  /** CompareSegments is lexicographic order on zero-padded segments. */
  lemma {:induction false} ComparesPadded(a: Segments, b: Segments)
    ensures CompareSegments(a, b) < 0 <==> exists i: nat :: LessAt(a, b, i)
    ensures CompareSegments(a, b) > 0 <==> exists i: nat :: LessAt(b, a, i)
    ensures CompareSegments(a, b) == 0 <==> SamePadded(a, b)
    decreases |a| + |b|
  {
    if a != [] || b != [] {
      var a', b' := Tail(a), Tail(b);
      assert forall i: nat :: Seg(a, i + 1) == Seg(a', i) && Seg(b, i + 1) == Seg(b', i);
      ComparesPadded(a', b');
      if Seg(a, 0) == Seg(b, 0) {
        Shift(a, b);
        Shift(b, a);
        if SamePadded(a', b') {
          forall i: nat ensures Seg(a, i) == Seg(b, i) {
            if i > 0 { assert Seg(a', i - 1) == Seg(b', i - 1); }
          }
        }
        if SamePadded(a, b) {
          forall i: nat ensures Seg(a', i) == Seg(b', i) { assert Seg(a, i + 1) == Seg(b, i + 1); }
        }
      } else {
        assert LessAt(a, b, 0) || LessAt(b, a, 0);
      }
    }
  }

  lemma Shift(a: Segments, b: Segments)
    requires Seg(a, 0) == Seg(b, 0)
    ensures (exists i: nat :: LessAt(a, b, i)) <==> (exists i: nat :: LessAt(Tail(a), Tail(b), i))
  {
    var a', b' := Tail(a), Tail(b);
    assert forall i: nat :: Seg(a, i + 1) == Seg(a', i) && Seg(b, i + 1) == Seg(b', i);
    if i: nat :| LessAt(a, b, i) {
      forall j | 0 <= j < i - 1 ensures Seg(a', j) == Seg(b', j) { assert Seg(a, j + 1) == Seg(b, j + 1); }
      assert LessAt(a', b', i - 1);
    }
    if i: nat :| LessAt(a', b', i) {
      forall j | 0 <= j < i + 1 ensures Seg(a, j) == Seg(b, j) {
        if j > 0 { assert Seg(a', j - 1) == Seg(b', j - 1); }
      }
      assert LessAt(a, b, i + 1);
    }
  }

  method CompareNumeric(a: Segments, b: Segments) returns (r: int)
    ensures r == CompareSegments(a, b)
  {
    var n := if |b| > |a| then |b| else |a|;
    for i := 0 to n
      invariant forall j :: 0 <= j < i ==> Seg(a, j) == Seg(b, j)
    {
      var av, bv := 0, 0;
      if i < |a| { av := a[i]; }
      if i < |b| { bv := b[i]; }
      if av < bv {
        ComparesPadded(a, b);
        assert LessAt(a, b, i);
        CompareIsSign(a, b);
        return -1;
      }
      if av > bv {
        ComparesPadded(a, b);
        assert LessAt(b, a, i);
        CompareIsSign(a, b);
        return 1;
      }
    }
    ComparesPadded(a, b);
    assert SamePadded(a, b);
    r := 0;
  }

  lemma CompareIsSign(a: Segments, b: Segments)
    ensures -1 <= CompareSegments(a, b) <= 1
    decreases |a| + |b|
  {
    if a != [] || b != [] { CompareIsSign(Tail(a), Tail(b)); }
  }

  lemma {:induction false} CompareSegmentsFlip(a: Segments, b: Segments)
    ensures CompareSegments(a, b) == -CompareSegments(b, a)
    decreases |a| + |b|
  {
    if a != [] || b != [] { CompareSegmentsFlip(Tail(a), Tail(b)); }
  }

  /** A total preorder: equal segments may be swapped anywhere, and greater is transitive. */
  lemma {:induction false} CompareSegmentsTransitive(a: Segments, b: Segments, c: Segments)
    requires CompareSegments(a, b) >= 0 && CompareSegments(b, c) >= 0
    ensures CompareSegments(a, c) >= 0
    ensures CompareSegments(a, c) == 0 <==> CompareSegments(a, b) == 0 && CompareSegments(b, c) == 0
    decreases |a| + |b| + |c|
  {
    if a != [] || b != [] || c != [] {
      if Seg(a, 0) == Seg(b, 0) == Seg(c, 0) { CompareSegmentsTransitive(Tail(a), Tail(b), Tail(c)); }
    }
  }

  function DottedComponentCount(raw: string): nat {
    match ParseSpec(raw) case Some(segs) => |segs| case None => 0
  }

  predicate PreferEqualDotted(current: string, a: string, b: string) {
    var (decisive, preferA) := PreferMatchingVPrefix(current, a, b);
    var curN, aN, bN := DottedComponentCount(current), DottedComponentCount(a), DottedComponentCount(b);
    if decisive then preferA
    else if (aN == curN) != (bN == curN) then aN == curN
    else if aN != bN then aN > bN
    else if |a| != |b| then |a| > |b|
    else Less(a, b)
  }

  predicate BetterDotted(current: string, a: string, b: string)
    requires ParseSpec(a).Some? && ParseSpec(b).Some?
  {
    var c := CompareSegments(ParseSpec(a).value, ParseSpec(b).value);
    c > 0 || (c == 0 && PreferEqualDotted(current, a, b))
  }

  lemma BetterDottedIsTotal(current: string, a: string, b: string)
    requires ParseSpec(a).Some? && ParseSpec(b).Some?
    ensures a == b ==> !BetterDotted(current, a, b)
    ensures a != b ==> BetterDotted(current, a, b) != BetterDotted(current, b, a)
  {
    CompareSegmentsFlip(ParseSpec(a).value, ParseSpec(b).value);
    LessIsTotal(a, b);
  }

  lemma BetterDottedIsTransitive(current: string, a: string, b: string, c: string)
    requires ParseSpec(a).Some? && ParseSpec(b).Some? && ParseSpec(c).Some?
    requires BetterDotted(current, a, b) && BetterDotted(current, b, c)
    ensures BetterDotted(current, a, c)
  {
    CompareSegmentsTransitive(ParseSpec(a).value, ParseSpec(b).value, ParseSpec(c).value);
    if Less(a, b) && Less(b, c) { LessTransitive(a, b, c); }
  }

  /** `best` is the greatest numeric tag, or there is none. */
  ghost predicate IsNumericSelection(current: string, tags: seq<string>, best: Option<string>) {
    match best
    case None => forall t :: t in tags ==> ParseSpec(t).None?
    case Some(b) =>
      && b in tags && ParseSpec(b).Some?
      && forall t :: t in tags && ParseSpec(t).Some? && t != b ==> BetterDotted(current, b, t)
  }

  method SelectNumericTag(current: string, tags: seq<string>) returns (best: Option<(string, Segments)>)
    ensures best.Some? ==> ParseSpec(best.value.0) == Some(best.value.1)
    ensures IsNumericSelection(current, tags, if best.Some? then Some(best.value.0) else None)
  {
    best := None;
    for i := 0 to |tags|
      invariant best.Some? ==> ParseSpec(best.value.0) == Some(best.value.1)
      invariant IsNumericSelection(current, tags[..i], if best.Some? then Some(best.value.0) else None)
    {
      var raw := tags[i];
      ghost var was := best;
      assert tags[..i + 1] == tags[..i] + [raw];
      var v := ParseNumericVersion(raw);
      if v.Some? { NumericIsNotBare(raw); }
      if IsBareInteger(raw) { continue; }
      if v.None? { continue; }
      if best.None? {
        best := Some((raw, v.value));
        continue;
      }
      var cmp := CompareNumeric(v.value, best.value.1);
      BetterDottedIsTotal(current, raw, best.value.0);
      if cmp > 0 || (cmp == 0 && PreferEqualDotted(current, raw, best.value.0)) {
        forall t | t in tags[..i] && ParseSpec(t).Some? && t != raw ensures BetterDotted(current, raw, t) {
          if t != was.value.0 { BetterDottedIsTransitive(current, raw, was.value.0, t); }
        }
        best := Some((raw, v.value));
      }
    }
    assert tags[..|tags|] == tags;
  }

  lemma {:induction false} NumericSelectionExists(current: string, tags: seq<string>) returns (best: Option<string>)
    ensures IsNumericSelection(current, tags, best)
  {
    if tags == [] {
      best := None;
    } else {
      var init, raw := tags[..|tags| - 1], tags[|tags| - 1];
      best := NumericSelectionExists(current, init);
      assert tags == init + [raw];
      if ParseSpec(raw).Some? {
        if best.None? { return Some(raw); }
        BetterDottedIsTotal(current, raw, best.value);
        if BetterDotted(current, raw, best.value) {
          forall t | t in init && ParseSpec(t).Some? && t != raw ensures BetterDotted(current, raw, t) {
            if t != best.value { BetterDottedIsTransitive(current, raw, best.value, t); }
          }
          best := Some(raw);
        }
      }
    }
  }

  lemma NumericSelectionIgnoresListingOrder(current: string, tags: seq<string>, tags': seq<string>, a: Option<string>,
                                            b: Option<string>)
    requires forall t :: t in tags <==> t in tags'
    requires IsNumericSelection(current, tags, a) && IsNumericSelection(current, tags', b)
    ensures a == b
  {
    if a.Some? && b.Some? { BetterDottedIsTotal(current, a.value, b.value); }
  }

  /** Among numeric tags with the selected version, the selected one follows the same
      priorities: v-prefix like the current tag, then segment count like the current tag, then
      more segments, then length, then smaller bytes. */
  lemma NumericSelectedFormIsClosest(current: string, tags: seq<string>, b: string, t: string)
    requires IsNumericSelection(current, tags, Some(b)) && t in tags && ParseSpec(t).Some?
    requires CompareSegments(ParseSpec(t).value, ParseSpec(b).value) == 0
    ensures var cur := if ParseSpec(current).Some? then |ParseSpec(current).value| else 0;
            var nb, nt := |ParseSpec(b).value|, |ParseSpec(t).value|;
            var vb, vt := HasVPrefix(b) == HasVPrefix(current), HasVPrefix(t) == HasVPrefix(current);
            && (vt ==> vb)
            && (vb == vt && nt == cur ==> nb == cur)
            && (vb == vt && (nb == cur) == (nt == cur) ==> nb >= nt)
            && (vb == vt && nb == nt ==> |b| >= |t|)
            && (vb == vt && nb == nt && |b| == |t| && b != t ==> BytewiseLess(b, t))
  {
    CompareSegmentsFlip(ParseSpec(t).value, ParseSpec(b).value);
    LessIsBytewise(b, t);
  }

  /** No numeric tag of the listing is greater than the selected one on padded segments. */
  lemma NumericSelectedIsGreatest(current: string, tags: seq<string>, b: string)
    requires IsNumericSelection(current, tags, Some(b))
    ensures b in tags && ParseSpec(b).Some?
    ensures forall t, i: nat :: t in tags && ParseSpec(t).Some? ==>
              !LessAt(ParseSpec(b).value, ParseSpec(t).value, i)
  {
    forall t | t in tags && ParseSpec(t).Some? ensures CompareSegments(ParseSpec(b).value, ParseSpec(t).value) >= 0 {
      assert t != b ==> BetterDotted(current, b, t);
      CompareSegmentsFlip(ParseSpec(b).value, ParseSpec(t).value);
    }
    forall t, i: nat | t in tags && ParseSpec(t).Some? ensures !LessAt(ParseSpec(b).value, ParseSpec(t).value, i) {
      ComparesPadded(ParseSpec(b).value, ParseSpec(t).value);
    }
  }

  function NumericBump(current: Segments, latest: Segments): Bump {
    if Seg(latest, 0) != Seg(current, 0) then Major
    else if Seg(latest, 1) != Seg(current, 1) then Minor
    else Patch
  }

  /** When a newer version is reported, the bump names the first of major and minor that
      changed, and that segment went up. */
  lemma NumericBumpNamesFirstRise(current: Segments, latest: Segments)
    requires CompareSegments(latest, current) > 0
    ensures NumericBump(current, latest).Major? <==> Seg(latest, 0) > Seg(current, 0)
    ensures NumericBump(current, latest).Minor? <==>
            Seg(latest, 0) == Seg(current, 0) && Seg(latest, 1) > Seg(current, 1)
    ensures NumericBump(current, latest).Patch? ==> exists i: nat :: i >= 2 && LessAt(current, latest, i)
  {
    ComparesPadded(latest, current);
    var i: nat :| LessAt(current, latest, i);
  }
}
