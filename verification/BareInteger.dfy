/** The diagnosis of omitted bare-integer tags, and why it is exact. */
module BareInteger {
  import opened Text
  import opened Wrappers
  import opened Semver
  import opened SemverSelect

  /** Distinct trimmed bare-integer tags in order of first occurrence. */
  function BareTags(tags: seq<string>): seq<string> {
    if tags == [] then []
    else
      var before := BareTags(tags[..|tags| - 1]);
      var raw := TrimSpace(tags[|tags| - 1]);
      if IsBareInteger(raw) && raw !in before then before + [raw] else before
  }

  method CollectBareIntegerTags(tags: seq<string>) returns (out: seq<string>)
    ensures out == BareTags(tags)
  {
    out := [];
    var seen: set<string> := {};
    for i := 0 to |tags|
      invariant out == BareTags(tags[..i])
      invariant forall t :: t in seen <==> t in out
    {
      assert tags[..i + 1][..i] == tags[..i];
      var raw := TrimSpace(tags[i]);
      if !IsBareInteger(raw) { continue; }
      if raw in seen { continue; }
      seen := seen + {raw};
      out := out + [raw];
    }
    assert tags[..|tags|] == tags;
  }

  predicate NewerThan(g: Grammar, tag: string, bound: Version) {
    g(tag).Some? && Compare(g(tag).value, bound) > 0
  }

  /** The tags that parse to a version newer than `bound`, in order. */
  function KeepNewer(g: Grammar, tags: seq<string>, bound: Version): seq<string> {
    if tags == [] then []
    else
      var before := KeepNewer(g, tags[..|tags| - 1], bound);
      if NewerThan(g, tags[|tags| - 1], bound) then before + [tags[|tags| - 1]] else before
  }

  method CollectBareIntegerTagsNewerThan(g: Grammar, tags: seq<string>, current: Option<Version>)
    returns (out: seq<string>)
    ensures out == if current.None? then [] else KeepNewer(g, BareTags(tags), current.value)
  {
    out := [];
    if current.None? { return; }
    var bares := CollectBareIntegerTags(tags);
    for i := 0 to |bares|
      invariant out == KeepNewer(g, bares[..i], current.value)
    {
      assert bares[..i + 1][..i] == bares[..i];
      var v := g(bares[i]);
      if v.None? { continue; }
      if Compare(v.value, current.value) > 0 { out := out + [bares[i]]; }
    }
    assert bares[..|bares|] == bares;
  }

  method BareIntegersAffectingSelection(g: Grammar, claiming: seq<string>, selected: Option<Version>)
    returns (out: seq<string>)
    ensures out == if selected.None? then claiming else KeepNewer(g, claiming, selected.value)
  {
    if selected.None? { return claiming; }
    out := [];
    for i := 0 to |claiming|
      invariant out == KeepNewer(g, claiming[..i], selected.value)
    {
      assert claiming[..i + 1][..i] == claiming[..i];
      var v := g(claiming[i]);
      if v.None? { continue; }
      if Compare(v.value, selected.value) > 0 { out := out + [claiming[i]]; }
    }
    assert claiming[..|claiming|] == claiming;
  }

  /** Position `a` is the first in the listing whose trimmed tag is `t`. */
  predicate FirstAt(tags: seq<string>, a: nat, t: string) {
    a < |tags| && TrimSpace(tags[a]) == t && forall b :: 0 <= b < a ==> TrimSpace(tags[b]) != t
  }

  predicate Listed(tags: seq<string>, t: string) { exists a :: 0 <= a < |tags| && TrimSpace(tags[a]) == t }

  lemma {:induction false} BareTagsMembers(tags: seq<string>)
    ensures forall t :: t in BareTags(tags) <==> IsBareInteger(t) && Listed(tags, t)
  {
    if tags != [] {
      var n := |tags| - 1;
      BareTagsMembers(tags[..n]);
      forall t ensures Listed(tags, t) <==> Listed(tags[..n], t) || t == TrimSpace(tags[n]) {
        if a :| 0 <= a < n && TrimSpace(tags[..n][a]) == t { assert TrimSpace(tags[a]) == t; }
        if a :| 0 <= a < |tags| && TrimSpace(tags[a]) == t { assert a < n ==> TrimSpace(tags[..n][a]) == t; }
      }
    }
  }

  lemma {:induction false} BareTagsKeepOrder(tags: seq<string>, i: nat, j: nat, a: nat, b: nat)
    requires i < j < |BareTags(tags)| && FirstAt(tags, a, BareTags(tags)[i]) && FirstAt(tags, b, BareTags(tags)[j])
    ensures BareTags(tags)[i] != BareTags(tags)[j] && a < b
  {
    var n := |tags| - 1;
    var init, before := tags[..n], BareTags(tags[..n]);
    BareTagsMembers(init);
    assert before[i] in before && Listed(init, before[i]);
    var c :| 0 <= c < n && TrimSpace(init[c]) == before[i];
    assert TrimSpace(tags[c]) == before[i] && a <= c;
    if j < |before| {
      assert before[j] in before && Listed(init, before[j]);
      var d :| 0 <= d < n && TrimSpace(init[d]) == before[j];
      assert TrimSpace(tags[d]) == before[j] && b <= d;
      BareTagsKeepOrder(init, i, j, a, b);
    } else {
      assert !Listed(init, TrimSpace(tags[n]));
      assert forall x :: 0 <= x < n ==> TrimSpace(init[x]) != TrimSpace(tags[n]);
    }
  }

  lemma {:induction false} FirstExistsAt(tags: seq<string>, c: nat) returns (a: nat)
    requires c < |tags|
    ensures FirstAt(tags, a, TrimSpace(tags[c]))
  {
    if b :| 0 <= b < c && TrimSpace(tags[b]) == TrimSpace(tags[c]) { a := FirstExistsAt(tags, b); } else { a := c; }
  }

  /** The collected tags have no duplicates and stand in the order of their first positions. */
  lemma BareTagsInFirstOrder(tags: seq<string>, i: nat, j: nat) returns (a: nat, b: nat)
    requires i < j < |BareTags(tags)|
    ensures FirstAt(tags, a, BareTags(tags)[i]) && FirstAt(tags, b, BareTags(tags)[j]) && a < b
    ensures BareTags(tags)[i] != BareTags(tags)[j]
  {
    var out := BareTags(tags);
    BareTagsMembers(tags);
    assert out[i] in out && out[j] in out;
    var c :| 0 <= c < |tags| && TrimSpace(tags[c]) == out[i];
    var d :| 0 <= d < |tags| && TrimSpace(tags[d]) == out[j];
    a := FirstExistsAt(tags, c);
    b := FirstExistsAt(tags, d);
    BareTagsKeepOrder(tags, i, j, a, b);
  }

  lemma TrimmedListed(tags: seq<string>)
    requires forall t :: t in tags ==> TrimSpace(t) == t
    ensures forall t :: Listed(tags, t) <==> t in tags
  {
  }

  lemma {:induction false} KeepNewerMembers(g: Grammar, tags: seq<string>, bound: Version)
    ensures forall t :: t in KeepNewer(g, tags, bound) <==> t in tags && NewerThan(g, t, bound)
  {
    if tags != [] {
      var init, last := tags[..|tags| - 1], tags[|tags| - 1];
      assert tags == init + [last];
      KeepNewerMembers(g, init, bound);
    }
  }

  /** A bare integer that parses never carries a pre-release. */
  ghost predicate BaresAreReleases(g: Grammar) {
    forall t :: IsBareInteger(t) && g(t).Some? ==> g(t).value.pre == []
  }

  /** When a tag was selected, the affecting list is non-empty exactly when admitting bare
      integers would have selected a version newer than both the current and the selected. */
  lemma AffectingIsExact(g: Grammar, currentRaw: string, current: Version, skip: bool, tags: seq<string>,
                         selected: string, admitted: Option<string>)
    requires BaresAreReleases(g)
    requires forall t :: t in tags ==> TrimSpace(t) == t
    requires IsSelection(g, currentRaw, skip, false, tags, Some(selected))
    requires IsSelection(g, currentRaw, skip, true, tags, admitted)
    ensures var affecting := KeepNewer(g, KeepNewer(g, BareTags(tags), current), g(selected).value);
            affecting != [] <==>
            admitted.Some? && NewerThan(g, admitted.value, current) && NewerThan(g, admitted.value, g(selected).value)
  {
    var bares := BareTags(tags);
    var claiming := KeepNewer(g, bares, current);
    var affecting := KeepNewer(g, claiming, g(selected).value);
    BareTagsMembers(tags);
    TrimmedListed(tags);
    KeepNewerMembers(g, bares, current);
    KeepNewerMembers(g, claiming, g(selected).value);
    assert Eligible(g, skip, true, selected);
    var best := admitted.value;
    if affecting != [] {
      var t := affecting[0];
      assert t in affecting && Eligible(g, skip, true, t);
      if t != best {
        NotOlderIsNewer(g(best).value, g(t).value, current);
        NotOlderIsNewer(g(best).value, g(t).value, g(selected).value);
      }
    }
    if NewerThan(g, best, current) && NewerThan(g, best, g(selected).value) && !IsBareInteger(best) {
      CompareFlip(g(best).value, g(selected).value);
      assert Eligible(g, skip, false, best);
    }
  }

  lemma NotOlderIsNewer(a: Version, b: Version, bound: Version)
    requires Compare(a, b) >= 0 && Compare(b, bound) > 0
    ensures Compare(a, bound) > 0
  {
    CompareFlip(a, b);
    if Compare(a, b) > 0 { CompareTransitive(a, b, bound); }
  }
}
