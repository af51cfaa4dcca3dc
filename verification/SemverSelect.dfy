/** Choice of the newest semver tag of a registry listing, independent of listing order. */
module SemverSelect {
  import opened Text
  import opened Wrappers
  import opened Semver

  /** `^v?\d+$` on the trimmed tag. */
  predicate IsBareInteger(tag: string) {
    var s := TrimSpace(tag);
    AllDigits(s) || (s != [] && s[0] == 'v' && AllDigits(s[1..]))
  }

  /** White space, an optional lower-case `v`, decimal digits, white space. */
  ghost predicate InBareLanguage(tag: string) {
    exists pre, digits, post ::
      White(pre) && DigitString(digits) && White(post)
      && (tag == pre + digits + post || tag == pre + ("v" + digits) + post)
  }

  lemma BareExactly(tag: string)
    ensures IsBareInteger(tag) <==> InBareLanguage(tag)
  {
    if IsBareInteger(tag) { BareIsWritten(tag); }
    if pre, digits, post :|
      White(pre) && DigitString(digits) && White(post)
      && (tag == pre + digits + post || tag == pre + ("v" + digits) + post)
    {
      WrittenIsBare(pre, digits, post);
    }
  }

  lemma BareIsWritten(tag: string)
    requires IsBareInteger(tag)
    ensures InBareLanguage(tag)
  {
    var s := TrimSpace(tag);
    TrimSpaceExactly(tag, s);
    var pre, post :| White(pre) && White(post) && tag == pre + s + post;
    AllDigitsExactly(s);
    AllDigitsExactly(s[1..]);
    if !AllDigits(s) { assert s == "v" + s[1..]; }
  }

  lemma WrittenIsBare(pre: string, digits: string, post: string)
    requires White(pre) && DigitString(digits) && White(post)
    ensures IsBareInteger(pre + digits + post) && IsBareInteger(pre + ("v" + digits) + post)
  {
    AllDigitsExactly(digits);
    DigitEdges(digits);
    TrimIs(pre, digits, post);
    TrimIs(pre, "v" + digits, post);
    assert ("v" + digits)[1..] == digits;
  }

  lemma DigitEdges(digits: string)
    requires DigitString(digits)
    ensures !White(digits[..1]) && !White(digits[|digits| - 1..])
    ensures !White(("v" + digits)[..1]) && !White(("v" + digits)[|digits|..])
  {
    var last := |digits| - 1;
    assert digits[0] in digits && digits[last] in digits;
    assert digits[..1][0] == digits[0] && digits[last..][0] == digits[last];
    assert ("v" + digits)[..1][0] == 'v' && ("v" + digits)[|digits|..][0] == digits[last];
  }

  /** A leading lower-case `v`, the only one the semver library reads. */
  predicate HasVPrefix(raw: string) {
    var s := TrimSpace(raw);
    s != [] && s[0] == 'v'
  }

  datatype TagForm = TagForm(hasV: bool, components: nat, suffix: seq<Ident>)

  function BeforeSuffix(s: string): string {
    if s == [] || s[0] == '-' || s[0] == '+' then [] else [s[0]] + BeforeSuffix(s[1..])
  }

  function CountNonEmpty(parts: seq<string>): nat {
    if parts == [] then 0
    else CountNonEmpty(parts[..|parts| - 1]) + (if parts[|parts| - 1] != [] then 1 else 0)
  }

  function DottedCore(raw: string): seq<string> {
    var s := TrimSpace(raw);
    Split(BeforeSuffix(if HasVPrefix(s) then s[1..] else s), '.')
  }

  function FormOf(g: Grammar, raw: string): TagForm {
    match g(raw)
    case None => TagForm(false, 0, [])
    case Some(v) => TagForm(HasVPrefix(TrimSpace(raw)), CountNonEmpty(DottedCore(raw)), v.pre)
  }

  /** A part of a tag between dots: not empty, without a dot and without a suffix. */
  predicate IsPart(p: string) { p != "" && '.' !in p && '-' !in p && '+' !in p }

  lemma {:induction false} BeforeSuffixStops(core: string, suffix: string)
    requires '-' !in core && '+' !in core && (suffix == "" || suffix[0] == '-' || suffix[0] == '+')
    ensures BeforeSuffix(core + suffix) == core
  {
    var s := core + suffix;
    if core == "" {
      assert s == suffix;
    } else {
      BeforeSuffixStops(core[1..], suffix);
      assert s[1..] == core[1..] + suffix && s[0] == core[0] && core[0] in core;
      assert core == [core[0]] + core[1..];
    }
  }

  lemma {:induction false} CountAllNonEmpty(parts: seq<string>)
    requires forall i :: 0 <= i < |parts| ==> parts[i] != ""
    ensures CountNonEmpty(parts) == |parts|
  {
    if parts != [] { CountAllNonEmpty(parts[..|parts| - 1]); }
  }

  ghost predicate AllParts(parts: seq<string>) {
    parts != [] && forall i :: 0 <= i < |parts| ==> IsPart(parts[i])
  }

  lemma {:induction false} PartsJoin(parts: seq<string>)
    requires AllParts(parts)
    ensures var s := Join(parts, "."); s != "" && s[0] == parts[0][0] && '-' !in s && '+' !in s
  {
    if |parts| > 1 {
      PartsJoin(parts[1..]);
      assert Join(parts, ".")[0] == parts[0][0];
    }
  }

  lemma PartsCount(parts: seq<string>)
    requires AllParts(parts)
    ensures CountNonEmpty(Split(Join(parts, "."), '.')) == |parts|
  {
    SplitJoin(parts, '.');
    CountAllNonEmpty(parts);
  }

  /** A written tag: an optional `v`, its parts joined by dots, and its suffix. */
  function Written(hasV: bool, parts: seq<string>, suffix: string): string {
    (if hasV then "v" else "") + Join(parts, ".") + suffix
  }

  lemma WrittenCore(hasV: bool, parts: seq<string>, suffix: string)
    requires AllParts(parts) && (parts[0][0] != 'v' || hasV)
    requires suffix == "" || suffix[0] == '-' || suffix[0] == '+'
    ensures var s := Written(hasV, parts, suffix);
            && s != "" && (s[0] == 'v' <==> hasV)
            && BeforeSuffix(if hasV then s[1..] else s) == Join(parts, ".")
  {
    PartsJoin(parts);
    BeforeSuffixStops(Join(parts, "."), suffix);
    assert hasV ==> Written(hasV, parts, suffix)[1..] == Join(parts, ".") + suffix;
    assert !hasV ==> Written(hasV, parts, suffix) == Join(parts, ".") + suffix;
  }

  /** The form of a written tag: whether it starts with `v`, how many parts it has before any
      suffix, and its pre-release. */
  lemma FormOfWritten(g: Grammar, raw: string, hasV: bool, parts: seq<string>, suffix: string)
    requires g(raw).Some? && AllParts(parts) && (parts[0][0] != 'v' || hasV)
    requires suffix == "" || suffix[0] == '-' || suffix[0] == '+'
    requires TrimmedTo(raw, Written(hasV, parts, suffix))
    ensures FormOf(g, raw) == TagForm(hasV, |parts|, g(raw).value.pre)
  {
    var s := Written(hasV, parts, suffix);
    TrimSpaceExactly(raw, s);
    TrimmedStays(raw, s);
    WrittenCore(hasV, parts, suffix);
    PartsCount(parts);
  }

  lemma TrimmedStays(raw: string, s: string)
    requires TrimmedTo(raw, s)
    ensures TrimSpace(s) == s
  {
    TrimIs("", s, "");
    assert "" + s + "" == s;
  }

  method ParseTagForm(g: Grammar, raw: string) returns (form: TagForm)
    ensures form == FormOf(g, raw)
  {
    var v := g(raw);
    if v.None? { return TagForm(false, 0, []); }
    var parts := DottedCore(raw);
    var components := 0;
    for i := 0 to |parts|
      invariant components == CountNonEmpty(parts[..i])
    {
      assert parts[..i + 1][..i] == parts[..i];
      if parts[i] != [] { components := components + 1; }
    }
    assert parts[..|parts|] == parts;
    form := TagForm(HasVPrefix(TrimSpace(raw)), components, v.value.pre);
  }

  /** First tie-break: (decisive, whether `a` is preferred). */
  function PreferMatchingVPrefix(current: string, a: string, b: string): (bool, bool) {
    var cur, fa, fb := HasVPrefix(current), HasVPrefix(a), HasVPrefix(b);
    if (fa == cur) != (fb == cur) then (true, fa == cur) else (false, false)
  }

  predicate PreferEqualSemver(g: Grammar, current: string, a: string, b: string) {
    var (decisive, preferA) := PreferMatchingVPrefix(current, a, b);
    var cur, fa, fb := FormOf(g, current), FormOf(g, a), FormOf(g, b);
    if decisive then preferA
    else if (fa.components == cur.components) != (fb.components == cur.components) then
      fa.components == cur.components
    else if (fa.suffix == cur.suffix) != (fb.suffix == cur.suffix) then
      fa.suffix == cur.suffix
    else if fa.components != fb.components then fa.components > fb.components
    else if |a| != |b| then |a| > |b|
    else Less(a, b)
  }

  /** The five criteria in their order: `v` as the current tag has it, as many components as it
      has, its suffix, more components, more bytes, and last the smaller bytes. */
  lemma PreferencesInOrder(g: Grammar, current: string, a: string, b: string)
    ensures var cur, fa, fb := FormOf(g, current), FormOf(g, a), FormOf(g, b);
            var va, vb := HasVPrefix(a) == HasVPrefix(current), HasVPrefix(b) == HasVPrefix(current);
            var ca, cb := fa.components == cur.components, fb.components == cur.components;
            var sa, sb := fa.suffix == cur.suffix, fb.suffix == cur.suffix;
            var even := va == vb && ca == cb && sa == sb;
            PreferEqualSemver(g, current, a, b) <==>
              || (va && !vb)
              || (va == vb && ca && !cb)
              || (va == vb && ca == cb && sa && !sb)
              || (even && fa.components > fb.components)
              || (even && fa.components == fb.components && |a| > |b|)
              || (even && fa.components == fb.components && |a| == |b| && BytewiseLess(a, b))
  {
    LessIsBytewise(a, b);
  }

  /** The tie-break is a strict total order on distinct tags. */
  lemma PreferEqualSemverIsTotal(g: Grammar, current: string, a: string, b: string)
    ensures a == b ==> !PreferEqualSemver(g, current, a, b)
    ensures a != b ==> PreferEqualSemver(g, current, a, b) != PreferEqualSemver(g, current, b, a)
  {
    LessIsTotal(a, b);
  }

  lemma PreferEqualSemverIsTransitive(g: Grammar, current: string, a: string, b: string, c: string)
    requires PreferEqualSemver(g, current, a, b) && PreferEqualSemver(g, current, b, c)
    ensures PreferEqualSemver(g, current, a, c)
  {
    if Less(a, b) && Less(b, c) { LessTransitive(a, b, c); }
  }

  /** `a` is picked over `b`: a newer version, or the same version in a preferred form. */
  predicate Better(g: Grammar, current: string, a: string, b: string)
    requires g(a).Some? && g(b).Some?
  {
    var c := Compare(g(a).value, g(b).value);
    c > 0 || (c == 0 && PreferEqualSemver(g, current, a, b))
  }

  lemma BetterIsTotal(g: Grammar, current: string, a: string, b: string)
    requires g(a).Some? && g(b).Some?
    ensures a == b ==> !Better(g, current, a, b)
    ensures a != b ==> Better(g, current, a, b) != Better(g, current, b, a)
  {
    CompareFlip(g(a).value, g(b).value);
    PreferEqualSemverIsTotal(g, current, a, b);
  }

  lemma BetterIsTransitive(g: Grammar, current: string, a: string, b: string, c: string)
    requires g(a).Some? && g(b).Some? && g(c).Some?
    requires Better(g, current, a, b) && Better(g, current, b, c)
    ensures Better(g, current, a, c)
  {
    var x, y, z := g(a).value, g(b).value, g(c).value;
    CompareFlip(x, y);
    CompareFlip(y, z);
    if Compare(x, y) > 0 && Compare(y, z) > 0 {
      CompareTransitive(x, y, z);
    } else if x == y == z {
      PreferEqualSemverIsTransitive(g, current, a, b, c);
      CompareFlip(x, z);
    }
  }

  /** A tag that may be selected. The selectors never admit bare integers; the diagnosis
      of omitted ones asks what would happen if they did. */
  predicate Eligible(g: Grammar, skipPrerelease: bool, admitBare: bool, tag: string) {
    && (admitBare || !IsBareInteger(tag))
    && g(tag).Some?
    && (skipPrerelease ==> g(tag).value.pre == [])
  }

  /** `best` is the greatest eligible tag, or there is none. */
  ghost predicate IsSelection(g: Grammar, current: string, skip: bool, bare: bool, tags: seq<string>,
                              best: Option<string>) {
    match best
    case None => forall t :: t in tags ==> !Eligible(g, skip, bare, t)
    case Some(b) =>
      && b in tags && Eligible(g, skip, bare, b)
      && forall t :: t in tags && Eligible(g, skip, bare, t) && t != b ==> Better(g, current, b, t)
  }

  method SelectSemverTag(g: Grammar, current: string, tags: seq<string>, skipPrerelease: bool)
    returns (best: Option<(string, Version)>)
    ensures best.Some? ==> g(best.value.0) == Some(best.value.1)
    ensures IsSelection(g, current, skipPrerelease, false, tags, if best.Some? then Some(best.value.0) else None)
  {
    best := None;
    for i := 0 to |tags|
      invariant best.Some? ==> g(best.value.0) == Some(best.value.1)
      invariant IsSelection(g, current, skipPrerelease, false, tags[..i],
                            if best.Some? then Some(best.value.0) else None)
    {
      var raw := tags[i];
      ghost var was := best;
      assert tags[..i + 1] == tags[..i] + [raw];
      if IsBareInteger(raw) { continue; }
      var v := g(raw);
      if v.None? { continue; }
      if skipPrerelease && v.value.pre != [] { continue; }
      if best.None? {
        best := Some((raw, v.value));
        continue;
      }
      BetterIsTotal(g, current, raw, best.value.0);
      CompareFlip(v.value, best.value.1);
      if Compare(v.value, best.value.1) > 0
         || (Compare(v.value, best.value.1) == 0 && PreferEqualSemver(g, current, raw, best.value.0)) {
        forall t | t in tags[..i] && Eligible(g, skipPrerelease, false, t) && t != raw
          ensures Better(g, current, raw, t)
        {
          if t != was.value.0 { BetterIsTransitive(g, current, raw, was.value.0, t); }
        }
        best := Some((raw, v.value));
      }
    }
    assert tags[..|tags|] == tags;
  }

  /** What the selection looks for, in plain terms: no bare integer, read by the semver library
      and, where pre-releases are skipped, a release. */
  ghost predicate Candidate(g: Grammar, skip: bool, tag: string) {
    !InBareLanguage(tag) && g(tag).Some? && (skip ==> g(tag).value.pre == [])
  }

  /** The selected tag is a candidate that no candidate outranks. */
  lemma SelectedIsGreatest(g: Grammar, current: string, skip: bool, tags: seq<string>, b: string)
    requires IsSelection(g, current, skip, false, tags, Some(b))
    ensures b in tags && Candidate(g, skip, b)
    ensures forall t :: t in tags && Candidate(g, skip, t) ==> !Precedes(g(b).value, g(t).value)
  {
    BareExactly(b);
    forall t | t in tags && Candidate(g, skip, t) ensures !Precedes(g(b).value, g(t).value) {
      BareExactly(t);
      assert t != b ==> Better(g, current, b, t);
      CompareFlip(g(b).value, g(t).value);
      ComparesByPrecedence(g(b).value, g(t).value);
    }
  }

  /** There is nothing to select exactly when no listed tag is a candidate. */
  lemma NothingToSelect(g: Grammar, current: string, skip: bool, tags: seq<string>, best: Option<string>)
    requires IsSelection(g, current, skip, false, tags, best)
    ensures best.None? <==> forall t :: t in tags ==> !Candidate(g, skip, t)
  {
    forall t { BareExactly(t); }
  }

  /** Every listing has a selection. */
  lemma {:induction false} SelectionExists(g: Grammar, current: string, skip: bool, bare: bool, tags: seq<string>)
    returns (best: Option<string>)
    ensures IsSelection(g, current, skip, bare, tags, best)
  {
    if tags == [] {
      best := None;
    } else {
      var init, raw := tags[..|tags| - 1], tags[|tags| - 1];
      best := SelectionExists(g, current, skip, bare, init);
      assert tags == init + [raw];
      if Eligible(g, skip, bare, raw) {
        if best.None? { return Some(raw); }
        BetterIsTotal(g, current, raw, best.value);
        if Better(g, current, raw, best.value) {
          forall t | t in init && Eligible(g, skip, bare, t) && t != raw ensures Better(g, current, raw, t) {
            if t != best.value { BetterIsTransitive(g, current, raw, best.value, t); }
          }
          best := Some(raw);
        }
      }
    }
  }

  /** Listings with the same tags, in any order, with any repetition and however split into
      pages, lead to the same selection. */
  lemma SelectionIgnoresListingOrder(g: Grammar, current: string, skip: bool, bare: bool,
                                     tags: seq<string>, tags': seq<string>, a: Option<string>, b: Option<string>)
    requires forall t :: t in tags <==> t in tags'
    requires IsSelection(g, current, skip, bare, tags, a)
    requires IsSelection(g, current, skip, bare, tags', b)
    ensures a == b
  {
    if a.Some? && b.Some? {
      BetterIsTotal(g, current, a.value, b.value);
    }
  }

  /** Among eligible tags of the selected version, the selected one follows the documented
      priorities: v-prefix like the current tag, then component count like the current tag,
      then more components, then length, then the smaller bytes. The suffix criterion never decides: equal versions
      have equal suffixes. */
  lemma SelectedFormIsClosest(g: Grammar, current: string, skip: bool, bare: bool, tags: seq<string>, b: string,
                              t: string)
    requires IsSelection(g, current, skip, bare, tags, Some(b))
    requires t in tags && Eligible(g, skip, bare, t) && Compare(g(t).value, g(b).value) == 0
    ensures FormOf(g, t).suffix == FormOf(g, b).suffix
    ensures var cur, ft, fb := FormOf(g, current), FormOf(g, t), FormOf(g, b);
            var vb, vt := HasVPrefix(b) == HasVPrefix(current), HasVPrefix(t) == HasVPrefix(current);
            var cb, ct := fb.components == cur.components, ft.components == cur.components;
            && (vt ==> vb)
            && (vb == vt && ct ==> cb)
            && (vb == vt && cb == ct ==> fb.components >= ft.components)
            && (vb == vt && fb.components == ft.components ==> |b| >= |t|)
            && (vb == vt && fb.components == ft.components && |b| == |t| && b != t ==> BytewiseLess(b, t))
  {
    CompareFlip(g(t).value, g(b).value);
    LessIsBytewise(b, t);
  }
}
