/** Splitting digest lines into embeds and packing embeds into messages. */
module DiscordEmbeds {
  import opened Text

  const MAX_EMBED_DESCRIPTION: nat := 4096
  const MAX_EMBED_TITLE: nat := 256
  const MAX_EMBEDS_PER_MESSAGE: nat := 10
  const MAX_EMBED_TOTAL_CHARS: nat := 6000
  const ITEM_SEPARATOR := "\n\n"

  datatype Embed = Embed(title: string, description: string, color: int)

  function EmbedCharCount(e: Embed): nat { |e.title| + |e.description| }

  function TruncateRunes(s: string, max: nat): string { if |s| <= max then s else s[..max] }

  function Flatten<T>(groups: seq<seq<T>>): seq<T> {
    if groups == [] then [] else Flatten(groups[..|groups| - 1]) + groups[|groups| - 1]
  }

  lemma {:induction false} FlattenFront<T>(groups: seq<seq<T>>)
    requires groups != []
    ensures Flatten(groups) == groups[0] + Flatten(groups[1..])
  {
    var n := |groups| - 1;
    if n > 0 {
      FlattenFront(groups[..n]);
      assert groups[..n][1..] == groups[1..][..n - 1];
      assert groups[1..][n - 1] == groups[n];
    }
  }

  // ---- packing ----

  function Chars(batch: seq<Embed>): nat {
    if batch == [] then 0 else Chars(batch[..|batch| - 1]) + EmbedCharCount(batch[|batch| - 1])
  }

  /** A block the packing may form: within both limits, or a lone embed. */
  predicate Fits(batch: seq<Embed>) {
    |batch| == 1 || (1 < |batch| <= MAX_EMBEDS_PER_MESSAGE && Chars(batch) <= MAX_EMBED_TOTAL_CHARS)
  }

  /** All titles and descriptions of a batch, one after the other. */
  function AllText(batch: seq<Embed>): string {
    if batch == [] then ""
    else AllText(batch[..|batch| - 1]) + batch[|batch| - 1].title + batch[|batch| - 1].description
  }

  lemma {:induction false} CharsIsTextLength(batch: seq<Embed>)
    ensures Chars(batch) == |AllText(batch)|
  {
    if batch != [] { CharsIsTextLength(batch[..|batch| - 1]); }
  }

  /** A message Discord takes: at most ten embeds with at most 6000 bytes of text, or a lone
      embed of any length. */
  predicate Sendable(message: seq<Embed>) {
    |message| == 1 || (2 <= |message| <= 10 && |AllText(message)| <= 6000)
  }

  ghost predicate MessagesOf(messages: seq<seq<Embed>>, embeds: seq<Embed>) {
    Flatten(messages) == embeds && forall i :: 0 <= i < |messages| ==> Sendable(messages[i])
  }

  /** The blocks of the packing are the messages Discord takes. */
  lemma PartitionsAreMessages(embeds: seq<Embed>)
    ensures forall batches :: Partitions(batches, embeds) <==> MessagesOf(batches, embeds)
  {
    forall b { CharsIsTextLength(b); }
    assert forall b :: Fits(b) <==> Sendable(b);
  }

  ghost predicate Partitions(batches: seq<seq<Embed>>, embeds: seq<Embed>) {
    Flatten(batches) == embeds && forall i :: 0 <= i < |batches| ==> Fits(batches[i])
  }

  /** The first embed of `b` does not fit after `a`. */
  predicate Overfull(a: seq<Embed>, b: seq<Embed>) { b != [] && !Fits(a + b[..1]) }

  /** No batch could have taken the first embed of the next one. */
  ghost predicate Greedy(batches: seq<seq<Embed>>) {
    forall i, j :: 0 <= i < |batches| && j == i + 1 && j < |batches| ==> Overfull(batches[i], batches[j])
  }

  /** `batches` are closed, `current` is being filled, and together they hold `embeds`. */
  ghost predicate Packing(embeds: seq<Embed>, batches: seq<seq<Embed>>, current: seq<Embed>) {
    && Flatten(batches) + current == embeds
    && (forall j :: 0 <= j < |batches| ==> Fits(batches[j]))
    && if current == [] then batches == [] else Fits(current) && Greedy(batches + [current])
  }

  lemma KeepsPacking(embeds: seq<Embed>, batches: seq<seq<Embed>>, current: seq<Embed>, e: Embed)
    requires Packing(embeds, batches, current) && (current == [] || Fits(current + [e]))
    ensures Packing(embeds + [e], batches, current + [e])
  {
    if current != [] {
      var was, now := batches + [current], batches + [current + [e]];
      forall i, j | 0 <= i < |now| && j == i + 1 && j < |now| ensures Overfull(now[i], now[j]) {
        assert Overfull(was[i], was[j]) && now[i] == was[i] && now[j][..1] == was[j][..1];
      }
    } else {
      assert current + [e] == [e] && batches + [[e]] == [[e]];
    }
  }

  lemma ClosesPacking(embeds: seq<Embed>, batches: seq<seq<Embed>>, current: seq<Embed>, e: Embed)
    requires Packing(embeds, batches, current) && current != [] && !Fits(current + [e])
    ensures Packing(embeds + [e], batches + [current], [e])
  {
    var was, now := batches + [current], batches + [current] + [[e]];
    assert was[..|batches|] == batches;
    forall i, j | 0 <= i < |now| && j == i + 1 && j < |now| ensures Overfull(now[i], now[j]) {
      if j < |was| { assert Overfull(was[i], was[j]); }
      else { assert [e][..1] == [e]; }
    }
  }

  method PackEmbedsIntoMessages(embeds: seq<Embed>) returns (batches: seq<seq<Embed>>)
    ensures MessagesOf(batches, embeds)
    ensures forall other: seq<seq<Embed>> :: MessagesOf(other, embeds) ==> |batches| <= |other|
  {
    PartitionsAreMessages(embeds);
    batches := [];
    if |embeds| == 0 { return; }
    var current: seq<Embed> := [];
    var currentChars := 0;
    for i := 0 to |embeds|
      invariant currentChars == Chars(current) && (current == [] <==> i == 0)
      invariant Packing(embeds[..i], batches, current)
    {
      var e := embeds[i];
      var eChars := EmbedCharCount(e);
      assert embeds[..i + 1] == embeds[..i] + [e];
      CharsOfNext(current, e);
      if |current| > 0 && (|current| >= MAX_EMBEDS_PER_MESSAGE || currentChars + eChars > MAX_EMBED_TOTAL_CHARS) {
        ClosesPacking(embeds[..i], batches, current, e);
        batches := batches + [current];
        current := [];
        currentChars := 0;
        CharsOfNext([], e);
        assert [] + [e] == [e];
      } else {
        KeepsPacking(embeds[..i], batches, current, e);
      }
      current := current + [e];
      currentChars := currentChars + eChars;
    }
    assert embeds[..|embeds|] == embeds;
    if |current| > 0 {
      PackingIsMinimal(embeds, batches, current);
      batches := batches + [current];
    }
  }

  lemma CharsOfNext(current: seq<Embed>, e: Embed)
    ensures Chars(current + [e]) == Chars(current) + EmbedCharCount(e)
  {
    assert (current + [e])[..|current|] == current;
  }

  lemma {:induction false} CharsConcat(a: seq<Embed>, b: seq<Embed>)
    ensures Chars(a + b) == Chars(a) + Chars(b)
  {
    if b == [] { assert a + b == a; }
    else {
      CharsConcat(a, b[..|b| - 1]);
      assert (a + b)[..|a + b| - 1] == a + b[..|b| - 1];
    }
  }

  /** Every non-empty run inside a block that fits also fits. */
  lemma SubBlockFits(pre: seq<Embed>, mid: seq<Embed>, post: seq<Embed>)
    requires Fits(pre + mid + post) && mid != []
    ensures Fits(mid)
  {
    CharsConcat(pre + mid, post);
    CharsConcat(pre, mid);
  }

  /** A block that fits and starts no later than `g0` ends no later than `g0`. */
  lemma BlockEndsInTime(lead: seq<Embed>, g0: seq<Embed>, rest: seq<Embed>, p0: seq<Embed>, restP: seq<Embed>)
    requires Overfull(g0, rest) && Fits(p0)
    requires lead + g0 + rest == p0 + restP
    ensures |rest| <= |restP|
  {
    if |restP| < |rest| {
      var mid := g0 + rest[..1];
      var k := |lead| + |mid|;
      assert (lead + g0 + rest)[..k] == lead + mid;
      assert (p0 + restP)[..k] == p0[..k];
      assert p0 == lead + mid + p0[k..];
      SubBlockFits(lead, mid, p0[k..]);
    }
  }

  lemma SuffixOfSuffix<T>(front: seq<T>, rest: seq<T>, first: seq<T>, restP: seq<T>) returns (lead: seq<T>)
    requires front + rest == first + restP && |rest| <= |restP|
    ensures restP == lead + rest
  {
    var all := first + restP;
    assert restP == all[|first|..] && rest == all[|all| - |rest|..];
    lead := restP[..|restP| - |rest|];
    assert restP == lead + rest;
  }

  /** Greedy stays ahead: when what it still has to cover is a suffix of what another valid
      partition has to cover, it needs no more blocks. */
  lemma {:induction false} GreedyStaysAhead(gs: seq<seq<Embed>>, ps: seq<seq<Embed>>, lead: seq<Embed>)
    requires Greedy(gs) && (forall i :: 0 <= i < |gs| ==> gs[i] != []) && (forall i :: 0 <= i < |ps| ==> Fits(ps[i]))
    requires Flatten(ps) == lead + Flatten(gs)
    ensures |gs| <= |ps|
  {
    if gs != [] {
      FlattenFront(gs);
      assert |Flatten(ps)| > 0;
      FlattenFront(ps);
      var gs', ps' := gs[1..], ps[1..];
      var restG, restP := Flatten(gs'), Flatten(ps');
      assert lead + gs[0] + restG == ps[0] + restP;
      if gs' != [] {
        FlattenFront(gs');
        assert Overfull(gs[0], gs[1]) && restG[..1] == gs[1][..1];
        BlockEndsInTime(lead, gs[0], restG, ps[0], restP);
      }
      var lead' := SuffixOfSuffix(lead + gs[0], restG, ps[0], restP);
      assert forall i :: 0 <= i < |gs'| ==> gs'[i] == gs[i + 1];
      GreedyStaysAhead(gs', ps', lead');
    }
  }

  /** Greedy packing is optimal among all order-preserving partitions into valid blocks. */
  lemma PackingIsMinimal(embeds: seq<Embed>, batches: seq<seq<Embed>>, current: seq<Embed>)
    requires Packing(embeds, batches, current) && current != []
    ensures Partitions(batches + [current], embeds)
    ensures forall other: seq<seq<Embed>> :: Partitions(other, embeds) ==> |batches + [current]| <= |other|
  {
    var gs := batches + [current];
    assert gs[..|batches|] == batches;
    forall other: seq<seq<Embed>> | Partitions(other, embeds) ensures |gs| <= |other| {
      assert Flatten(other) == [] + Flatten(gs);
      GreedyStaysAhead(gs, other, []);
    }
  }

  // ---- splitting ----

  /** Flushing a non-empty chunk; only the first embed has a title. */
  function EmbedOf(title: string, chunk: seq<string>, first: bool, color: int): Embed {
    Embed(if first then TruncateRunes(title, MAX_EMBED_TITLE) else "",
          TruncateRunes(Join(chunk, ITEM_SEPARATOR), MAX_EMBED_DESCRIPTION), color)
  }

  /** A lone line that does not fit together with the title. */
  predicate TooLongWithTitle(title: string, group: seq<string>) {
    |group| == 1 && |group[0]| + |title| > MAX_EMBED_DESCRIPTION
  }

  /** The title length that the first line of group `i` is measured with. The line that closes
      the first group is still charged the title, unless the first group closed by itself. */
  function FirstLineCharge(title: string, groups: seq<seq<string>>, i: nat): nat
    requires i <= |groups|
  {
    if i == 0 || (i == 1 && !TooLongWithTitle(title, groups[0])) then |title| else 0
  }

  /** `group`, being the i-th, takes line `x` too: both its first line and all its lines with `x`
      are within the limit, the title counting as described. */
  predicate Takes(title: string, groups: seq<seq<string>>, i: nat, group: seq<string>, x: string)
    requires i <= |groups| && group != []
  {
    && |group[0]| + FirstLineCharge(title, groups, i) <= MAX_EMBED_DESCRIPTION
    && |Join(group + [x], ITEM_SEPARATOR)| + (if i == 0 then |title| else 0) <= MAX_EMBED_DESCRIPTION
  }

  /** Group `i` took each of its lines. */
  predicate GroupFits(title: string, groups: seq<seq<string>>, i: nat)
    requires i < |groups|
  {
    |groups[i]| >= 2 ==> var last := |groups[i]| - 1; Takes(title, groups, i, groups[i][..last], groups[i][last])
  }

  /** Group `i` did not take line `x`. */
  predicate Refuses(title: string, groups: seq<seq<string>>, i: nat, x: string)
    requires i < |groups|
  {
    groups[i] != [] && !Takes(title, groups, i, groups[i], x)
  }

  /** Every group took its lines, and did not take the first line of the next. */
  ghost predicate GreedyGroups(title: string, groups: seq<seq<string>>) {
    && (forall i :: 0 <= i < |groups| ==> groups[i] != [] && GroupFits(title, groups, i))
    && (forall i, j :: 0 <= i < |groups| && j == i + 1 && j < |groups| ==> Refuses(title, groups, i, groups[j][0]))
  }

  /** The embeds show the groups, one each. */
  ghost predicate Shows(title: string, color: int, embeds: seq<Embed>, groups: seq<seq<string>>) {
    |embeds| == |groups| && forall i :: 0 <= i < |groups| ==> embeds[i] == EmbedOf(title, groups[i], i == 0, color)
  }

  /** The embeds show consecutive groups of all the lines, filled greedily. */
  ghost predicate SplitOf(title: string, lines: seq<string>, color: int, embeds: seq<Embed>, groups: seq<seq<string>>) {
    Flatten(groups) == lines && GreedyGroups(title, groups) && Shows(title, color, embeds, groups)
  }

  /** `embeds` show the closed groups, the non-empty `chunk` is being filled, and together they
      hold `lines`. */
  ghost predicate Filling(title: string, lines: seq<string>, color: int, embeds: seq<Embed>, groups: seq<seq<string>>,
                          chunk: seq<string>, first: bool) {
    && Shows(title, color, embeds, groups) && first == (groups == [])
    && Flatten(groups) + chunk == lines && chunk != [] && GreedyGroups(title, groups + [chunk])
  }

  /** Between two lines a chunk is being filled that is within the limit, or nothing is open and
      the last group is a lone line that closed by itself. */
  ghost predicate Splitting(title: string, lines: seq<string>, color: int, embeds: seq<Embed>,
                            groups: seq<seq<string>>, chunk: seq<string>, first: bool) {
    if chunk != [] then
      && Filling(title, lines, color, embeds, groups, chunk, first)
      && |chunk[0]| + FirstLineCharge(title, groups, |groups|) <= MAX_EMBED_DESCRIPTION
      && (first ==> |Join(chunk, ITEM_SEPARATOR)| + |title| <= MAX_EMBED_DESCRIPTION)
    else
      && SplitOf(title, lines, color, embeds, groups) && first == (groups == [])
      && (groups != [] ==> Rests(title, groups))
  }

  /** The last group is a lone line too long for itself. */
  predicate Rests(title: string, groups: seq<seq<string>>)
    requires groups != []
  {
    var i := |groups| - 1;
    |groups[i]| == 1 && |groups[i][0]| + FirstLineCharge(title, groups, i) > MAX_EMBED_DESCRIPTION
  }

  lemma {:induction false} JoinIsLonger(group: seq<string>, x: string)
    ensures |Join(group + [x], ITEM_SEPARATOR)| >= |Join(group, ITEM_SEPARATOR)|
  {
    if |group| >= 2 {
      assert (group + [x])[1..] == group[1..] + [x];
      JoinIsLonger(group[1..], x);
    } else if |group| == 1 {
      assert (group + [x])[1..] == [x];
    }
  }

  /** A longer chunk in place of the last group, whose first line it keeps. */
  lemma ChunkGrows(title: string, groups: seq<seq<string>>, chunk: seq<string>, x: string)
    requires chunk != [] && GreedyGroups(title, groups + [chunk]) && Takes(title, groups, |groups|, chunk, x)
    ensures GreedyGroups(title, groups + [chunk + [x]])
  {
    var was, now := groups + [chunk], groups + [chunk + [x]];
    assert (chunk + [x])[..|chunk|] == chunk;
    forall i | 0 <= i < |now| ensures now[i] != [] && GroupFits(title, now, i) { assert GroupFits(title, was, i); }
    forall i, j | 0 <= i < |now| && j == i + 1 && j < |now| ensures Refuses(title, now, i, now[j][0]) {
      assert Refuses(title, was, i, was[j][0]);
    }
  }

  /** A new group of one line after a last group that does not take it. */
  lemma GroupOpens(title: string, groups: seq<seq<string>>, x: string)
    requires GreedyGroups(title, groups)
    requires groups != [] ==> Refuses(title, groups, |groups| - 1, x)
    ensures GreedyGroups(title, groups + [[x]])
  {
    var now := groups + [[x]];
    forall i | 0 <= i < |now| ensures now[i] != [] && GroupFits(title, now, i) {
      if i < |groups| { assert GroupFits(title, groups, i); }
    }
    forall i, j | 0 <= i < |now| && j == i + 1 && j < |now| ensures Refuses(title, now, i, now[j][0]) {
      assert now[i] == groups[i];
      assert Refuses(title, groups, i, now[j][0]);
    }
  }

  lemma FlushSplits(title: string, lines: seq<string>, color: int, embeds: seq<Embed>, groups: seq<seq<string>>,
                    chunk: seq<string>, first: bool)
    requires Filling(title, lines, color, embeds, groups, chunk, first)
    ensures SplitOf(title, lines, color, embeds + [EmbedOf(title, chunk, first, color)], groups + [chunk])
  {
    assert (groups + [chunk])[..|groups|] == groups;
  }

  /** A line was just added to the chunk, measured with `titleLen`: alone it is charged as the
      first line of its group, otherwise it was taken. */
  predicate JustPlaced(title: string, groups: seq<seq<string>>, chunk: seq<string>, titleLen: nat) {
    && chunk != []
    && if |chunk| == 1 then titleLen == FirstLineCharge(title, groups, |groups|)
       else
         && titleLen == (if groups == [] then |title| else 0)
         && Takes(title, groups, |groups|, chunk[..|chunk| - 1], chunk[|chunk| - 1])
  }

  lemma LineFills(title: string, done: seq<string>, color: int, embeds: seq<Embed>, groups: seq<seq<string>>,
                  chunk: seq<string>, first: bool, line: string, titleLen: nat)
    requires Splitting(title, done, color, embeds, groups, chunk, first) && titleLen == if first then |title| else 0
    ensures if chunk != [] && |Join(chunk + [line], ITEM_SEPARATOR)| + titleLen > MAX_EMBED_DESCRIPTION
            then Filling(title, done + [line], color, embeds + [EmbedOf(title, chunk, first, color)],
                         groups + [chunk], [line], false) &&
                 JustPlaced(title, groups + [chunk], [line], titleLen)
            else Filling(title, done + [line], color, embeds, groups, chunk + [line], first) &&
                 JustPlaced(title, groups, chunk + [line], titleLen)
  {
    assert Flatten(groups) + (chunk + [line]) == Flatten(groups) + chunk + [line];
    if chunk == [] {
      GroupOpens(title, groups, line);
      assert chunk + [line] == [line];
    } else if |Join(chunk + [line], ITEM_SEPARATOR)| + titleLen > MAX_EMBED_DESCRIPTION {
      FlushSplits(title, done, color, embeds, groups, chunk, first);
      GroupOpens(title, groups + [chunk], line);
    } else {
      ChunkGrows(title, groups, chunk, line);
    }
  }

  /** A chunk that is too long once a line was placed is that line alone. */
  lemma TooLongIsAlone(title: string, groups: seq<seq<string>>, chunk: seq<string>, titleLen: nat)
    requires JustPlaced(title, groups, chunk, titleLen)
    ensures |Join(chunk, ITEM_SEPARATOR)| + titleLen > MAX_EMBED_DESCRIPTION ==>
              |chunk| == 1 && |chunk[0]| + FirstLineCharge(title, groups, |groups|) > MAX_EMBED_DESCRIPTION
    ensures |Join(chunk, ITEM_SEPARATOR)| + titleLen <= MAX_EMBED_DESCRIPTION ==>
              |chunk[0]| + FirstLineCharge(title, groups, |groups|) <= MAX_EMBED_DESCRIPTION
    ensures |chunk| >= 2 || groups == [] ==> titleLen == if groups == [] then |title| else 0
  {
    if |chunk| >= 2 { assert chunk[..|chunk| - 1] + [chunk[|chunk| - 1]] == chunk; }
  }

  /** The chunk that the line left is flushed at once, or it is within the limit. */
  lemma LineSettles(title: string, lines: seq<string>, color: int, embeds: seq<Embed>, groups: seq<seq<string>>,
                    chunk: seq<string>, first: bool, titleLen: nat)
    requires Filling(title, lines, color, embeds, groups, chunk, first) && JustPlaced(title, groups, chunk, titleLen)
    ensures if |Join(chunk, ITEM_SEPARATOR)| + titleLen <= MAX_EMBED_DESCRIPTION
            then Splitting(title, lines, color, embeds, groups, chunk, first)
            else Splitting(title, lines, color, embeds + [EmbedOf(title, chunk, first, color)], groups + [chunk], [],
                           false)
  {
    TooLongIsAlone(title, groups, chunk, titleLen);
    if |Join(chunk, ITEM_SEPARATOR)| + titleLen > MAX_EMBED_DESCRIPTION {
      FlushSplits(title, lines, color, embeds, groups, chunk, first);
    }
  }

  /** One line of the loop: flush what has no room for it, add it, flush it if it is too long. */
  method PlaceLine(title: string, ghost done: seq<string>, line: string, color: int, embeds: seq<Embed>,
                   ghost groups: seq<seq<string>>, chunk: seq<string>, first: bool)
    returns (embeds': seq<Embed>, ghost groups': seq<seq<string>>, chunk': seq<string>, first': bool)
    requires Splitting(title, done, color, embeds, groups, chunk, first)
    ensures Splitting(title, done + [line], color, embeds', groups', chunk', first')
  {
    embeds', groups', chunk', first' := embeds, groups, chunk, first;
    var candidate := line;
    if |chunk| > 0 { candidate := Join(chunk + [line], ITEM_SEPARATOR); }
    var titleLen := if first then |title| else 0;
    LineFills(title, done, color, embeds, groups, chunk, first, line, titleLen);
    if |candidate| + titleLen > MAX_EMBED_DESCRIPTION && |chunk| > 0 {
      embeds' := embeds + [EmbedOf(title, chunk, first, color)];
      groups' := groups + [chunk];
      first', chunk' := false, [];
      assert chunk' + [line] == [line];
    }
    chunk' := chunk' + [line];
    LineSettles(title, done + [line], color, embeds', groups', chunk', first', titleLen);
    if |Join(chunk', ITEM_SEPARATOR)| + titleLen > MAX_EMBED_DESCRIPTION {
      embeds' := embeds' + [EmbedOf(title, chunk', first', color)];
      groups' := groups' + [chunk'];
      first', chunk' := false, [];
    }
  }

  method SplitDigestLinesIntoEmbeds(title: string, lines: seq<string>, color: int) returns (embeds: seq<Embed>)
    ensures exists groups :: SplitOf(title, lines, color, embeds, groups)
  {
    embeds := [];
    ghost var groups: seq<seq<string>> := [];
    assert SplitOf(title, [], color, embeds, groups);
    if |lines| == 0 { return; }
    var first := true;
    var chunk: seq<string> := [];
    for i := 0 to |lines|
      invariant Splitting(title, lines[..i], color, embeds, groups, chunk, first)
    {
      assert lines[..i + 1] == lines[..i] + [lines[i]];
      embeds, groups, chunk, first := PlaceLine(title, lines[..i], lines[i], color, embeds, groups, chunk, first);
    }
    assert lines[..|lines|] == lines;
    if |chunk| > 0 {
      FlushSplits(title, lines, color, embeds, groups, chunk, first);
      embeds := embeds + [EmbedOf(title, chunk, first, color)];
      groups := groups + [chunk];
    }
    assert SplitOf(title, lines, color, embeds, groups);
  }

  /** Digest splitting loses no update: an embed shows its lines in full, with an empty line
      between any two, unless it holds one line alone that is longer than 4096 bytes, and then
      shows its first 4096. The first embed carries the title, up to 256 bytes, no other does. */
  lemma SplitLosesNothing(title: string, lines: seq<string>, color: int, embeds: seq<Embed>, groups: seq<seq<string>>,
                          i: nat)
    requires SplitOf(title, lines, color, embeds, groups) && i < |groups|
    ensures if |groups[i]| == 1 && |groups[i][0]| > 4096 then embeds[i].description == groups[i][0][..4096]
            else embeds[i].description == Join(groups[i], "\n\n")
    ensures embeds[i].title == (if i > 0 then "" else if |title| <= 256 then title else title[..256])
    ensures embeds[i].color == color
  {
    assert GroupFits(title, groups, i);
    if |groups[i]| >= 2 { assert groups[i][..|groups[i]| - 1] + [groups[i][|groups[i]| - 1]] == groups[i]; }
  }

  // ---- when an embed is not filled ----

  /** Every embed but the second is filled: the first line of the next had no room in it. */
  lemma EmbedsAreFilled(title: string, lines: seq<string>, color: int, embeds: seq<Embed>, groups: seq<seq<string>>,
                        i: nat)
    requires SplitOf(title, lines, color, embeds, groups) && i + 1 < |groups| && i != 1
    ensures |Join(groups[i] + [groups[i + 1][0]], ITEM_SEPARATOR)| + (if i == 0 then |title| else 0)
            > MAX_EMBED_DESCRIPTION
  {
    assert Refuses(title, groups, i, groups[i + 1][0]);
    JoinIsLonger([groups[i][0]], "");
    PrefixIsShorter(groups[i], groups[i + 1][0], 1);
  }

  /** The second embed closes with room left for the next line exactly when it is a lone line
      that closed the first group, was too long with the title, and has room for that line. */
  lemma SecondEmbedClosesEarly(title: string, lines: seq<string>, color: int, embeds: seq<Embed>,
                               groups: seq<seq<string>>)
    requires SplitOf(title, lines, color, embeds, groups) && |groups| >= 3
    ensures |Join(groups[1] + [groups[2][0]], ITEM_SEPARATOR)| <= MAX_EMBED_DESCRIPTION <==>
            TooLongWithTitle(title, groups[1]) && !TooLongWithTitle(title, groups[0])
            && |groups[1][0]| + |ITEM_SEPARATOR| + |groups[2][0]| <= MAX_EMBED_DESCRIPTION
  {
    assert Refuses(title, groups, 1, groups[2][0]) && GroupFits(title, groups, 1);
    PrefixIsShorter(groups[1], groups[2][0], 1);
  }

  /** The position of the first element of group `k`. */
  function StartOf<T>(groups: seq<seq<T>>, k: nat): nat
    requires k <= |groups|
  {
    if k == 0 then 0 else StartOf(groups, k - 1) + |groups[k - 1]|
  }

  /** Element `j` of group `k` is where it should be in `all`. */
  ghost predicate ElementAt<T>(all: seq<T>, groups: seq<seq<T>>, k: nat, j: nat)
    requires k < |groups| && j < |groups[k]|
  {
    StartOf(groups, k) + j < |all| && all[StartOf(groups, k) + j] == groups[k][j]
  }

  ghost predicate LaidOut<T>(all: seq<T>, groups: seq<seq<T>>) {
    && |all| == StartOf(groups, |groups|)
    && forall k, j :: 0 <= k < |groups| && 0 <= j < |groups[k]| ==> ElementAt(all, groups, k, j)
  }

  lemma {:induction false} StartOfInit<T>(groups: seq<seq<T>>, k: nat)
    requires k < |groups|
    ensures StartOf(groups[..|groups| - 1], k) == StartOf(groups, k)
  {
    if k > 0 { StartOfInit(groups, k - 1); }
  }

  lemma {:induction false} FlattenLaysOut<T>(groups: seq<seq<T>>)
    ensures LaidOut(Flatten(groups), groups)
  {
    if groups != [] {
      var n := |groups| - 1;
      var init, all := groups[..n], Flatten(groups);
      FlattenLaysOut(init);
      StartOfInit(groups, n);
      forall k, j | 0 <= k < |groups| && 0 <= j < |groups[k]| ensures ElementAt(all, groups, k, j) {
        if k < n {
          assert ElementAt(Flatten(init), init, k, j);
          StartOfInit(groups, k);
        }
      }
    }
  }

  /** The groups are determined by the title and the lines, so all embeds are. */
  lemma SplitIsDetermined(title: string, lines: seq<string>, color: int, embeds: seq<Embed>, groups: seq<seq<string>>,
                          embeds': seq<Embed>, groups': seq<seq<string>>)
    requires SplitOf(title, lines, color, embeds, groups) && SplitOf(title, lines, color, embeds', groups')
    ensures groups == groups' && embeds == embeds'
  {
    FlattenLaysOut(groups);
    FlattenLaysOut(groups');
    SameGroups(title, lines, groups, groups', 0);
  }

  lemma {:induction false} SameGroups(title: string, lines: seq<string>, gs: seq<seq<string>>, hs: seq<seq<string>>,
                                      k: nat)
    requires GreedyGroups(title, gs) && GreedyGroups(title, hs) && LaidOut(lines, gs) && LaidOut(lines, hs)
    requires k <= |gs| && k <= |hs| && StartOf(gs, k) == StartOf(hs, k) && forall i :: 0 <= i < k ==> gs[i] == hs[i]
    ensures gs == hs
    decreases |gs| - k
  {
    if k < |gs| { assert ElementAt(lines, gs, k, 0); }
    if k < |hs| { assert ElementAt(lines, hs, k, 0); }
    if k < |gs| && k < |hs| {
      NotShorter(title, lines, gs, hs, k);
      NotShorter(title, lines, hs, gs, k);
      ShorterIsPrefix(lines, gs, hs, k);
      SameGroups(title, lines, gs, hs, k + 1);
    }
  }

  lemma SameElement<T>(all: seq<T>, gs: seq<seq<T>>, k: nat, i: nat, hs: seq<seq<T>>, l: nat, j: nat)
    requires LaidOut(all, gs) && k < |gs| && i < |gs[k]|
    requires LaidOut(all, hs) && l < |hs| && j < |hs[l]|
    requires StartOf(gs, k) + i == StartOf(hs, l) + j
    ensures gs[k][i] == hs[l][j]
  {
    assert ElementAt(all, gs, k, i) && ElementAt(all, hs, l, j);
  }

  /** Of two groups that start at the same element, the shorter is a prefix of the other. */
  lemma ShorterIsPrefix<T>(all: seq<T>, gs: seq<seq<T>>, hs: seq<seq<T>>, k: nat)
    requires LaidOut(all, gs) && LaidOut(all, hs) && k < |gs| && k < |hs| && StartOf(gs, k) == StartOf(hs, k)
    requires |gs[k]| <= |hs[k]|
    ensures gs[k] == hs[k][..|gs[k]|]
  {
    forall j | 0 <= j < |gs[k]| ensures gs[k][j] == hs[k][j] { SameElement(all, gs, k, j, hs, k, j); }
  }

  /** After the strictly shorter one comes the next element of the other. */
  lemma NextElement<T>(all: seq<T>, gs: seq<seq<T>>, hs: seq<seq<T>>, k: nat)
    requires LaidOut(all, gs) && LaidOut(all, hs) && k < |gs| && k < |hs| && StartOf(gs, k) == StartOf(hs, k)
    requires |gs[k]| < |hs[k]| && (k + 1 < |gs| ==> gs[k + 1] != [])
    ensures k + 1 < |gs| && gs[k + 1][0] == hs[k][|gs[k]|]
  {
    var n := |gs[k]|;
    assert ElementAt(all, hs, k, n) && StartOf(gs, k + 1) == StartOf(gs, k) + n;
    SameElement(all, gs, k + 1, 0, hs, k, n);
  }

  lemma SameTakes(title: string, gs: seq<seq<string>>, hs: seq<seq<string>>, k: nat, group: seq<string>, x: string)
    requires k <= |gs| && k <= |hs| && (k >= 1 ==> gs[0] == hs[0]) && group != []
    ensures Takes(title, gs, k, group, x) == Takes(title, hs, k, group, x)
  {
  }

  /** A greedy group is not shorter than another one that starts at the same line. */
  lemma NotShorter(title: string, lines: seq<string>, gs: seq<seq<string>>, hs: seq<seq<string>>, k: nat)
    requires GreedyGroups(title, gs) && GreedyGroups(title, hs) && LaidOut(lines, gs) && LaidOut(lines, hs)
    requires k < |gs| && k < |hs| && StartOf(gs, k) == StartOf(hs, k) && (k >= 1 ==> gs[0] == hs[0])
    ensures |gs[k]| >= |hs[k]|
  {
    if |gs[k]| < |hs[k]| {
      ShorterIsPrefix(lines, gs, hs, k);
      NextElement(lines, gs, hs, k);
      SameTakes(title, gs, hs, k, gs[k], gs[k + 1][0]);
      assert Refuses(title, gs, k, gs[k + 1][0]);
      TookEveryLine(title, hs, k, |gs[k]|);
    }
  }

  /** A group that fits took each of its lines after the first. */
  lemma TookEveryLine(title: string, groups: seq<seq<string>>, i: nat, n: nat)
    requires i < |groups| && 1 <= n < |groups[i]| && GroupFits(title, groups, i)
    ensures Takes(title, groups, i, groups[i][..n], groups[i][n])
  {
    var group, last := groups[i], |groups[i]| - 1;
    assert group[..n] + [group[n]] == group[..n + 1];
    assert group[..last] + [group[last]] == group;
    if n < last {
      assert group[..last][..n + 1] == group[..n + 1];
      PrefixIsShorter(group[..last], group[last], n + 1);
    }
  }

  lemma {:induction false} PrefixIsShorter(group: seq<string>, x: string, n: nat)
    requires n <= |group|
    ensures |Join(group[..n], ITEM_SEPARATOR)| <= |Join(group + [x], ITEM_SEPARATOR)|
    decreases |group|
  {
    JoinIsLonger(group, x);
    if n == |group| {
      assert group[..n] == group;
    } else {
      var last := |group| - 1;
      assert group[..last] + [group[last]] == group && group[..last][..n] == group[..n];
      PrefixIsShorter(group[..last], group[last], n);
    }
  }

  /** An input: the second and third line share one description, yet the second closes alone. */
  lemma SecondLineStaysAlone(title: string, a: string, b: string, c: string, color: int, embeds: seq<Embed>,
                             groups: seq<seq<string>>)
    requires |title| == 20 && |a| == 4000 && |b| == 4080 && |c| == 10
    requires SplitOf(title, [a, b, c], color, embeds, groups)
    ensures groups == [[a], [b], [c]] && |Join([b, c], ITEM_SEPARATOR)| <= MAX_EMBED_DESCRIPTION
  {
    var hs := [[a], [b], [c]];
    assert Join([a] + [b], ITEM_SEPARATOR) == a + ITEM_SEPARATOR + b;
    assert Refuses(title, hs, 0, b) && Refuses(title, hs, 1, c);
    assert Flatten([[a]]) == [a] by { assert [[a]][..0] == []; }
    assert Flatten([[a], [b]]) == [a, b] by { assert [[a], [b]][..1] == [[a]]; }
    assert Flatten(hs) == [a, b, c] by { assert hs[..2] == [[a], [b]]; }
    FlattenLaysOut(groups);
    FlattenLaysOut(hs);
    SameGroups(title, [a, b, c], groups, hs, 0);
  }

  lemma CharsOfOne(e: Embed)
    ensures Chars([e]) == EmbedCharCount(e)
  {
    assert [e][..0] == [];
  }

  lemma ShownIsShort(title: string, group: seq<string>, first: bool, color: int)
    ensures EmbedCharCount(EmbedOf(title, group, first, color)) <= MAX_EMBED_TITLE + MAX_EMBED_DESCRIPTION
  {
  }

  /** Any block the packing forms out of split embeds keeps both limits, a lone embed too. */
  lemma BlocksKeepLimits(title: string, color: int, embeds: seq<Embed>, groups: seq<seq<string>>, block: seq<Embed>)
    requires Shows(title, color, embeds, groups)
    requires Sendable(block) && forall e :: e in block ==> e in embeds
    ensures 1 <= |block| <= 10 && |AllText(block)| <= 6000
  {
    CharsIsTextLength(block);
    if |block| == 1 {
      var e := block[0];
      assert block == [e] && e in embeds;
      CharsOfOne(e);
      var i :| 0 <= i < |embeds| && embeds[i] == e;
      ShownIsShort(title, groups[i], i == 0, color);
    }
  }

  /** Split and packed: every message keeps both Discord limits, and their embeds are those of
      the split, in order. */
  method DigestMessages(title: string, lines: seq<string>, color: int) returns (messages: seq<seq<Embed>>)
    ensures exists groups :: SplitOf(title, lines, color, Flatten(messages), groups)
    ensures forall m :: 0 <= m < |messages| ==> 1 <= |messages[m]| <= 10 && |AllText(messages[m])| <= 6000
  {
    var embeds := SplitDigestLinesIntoEmbeds(title, lines, color);
    ghost var groups :| SplitOf(title, lines, color, embeds, groups);
    messages := PackEmbedsIntoMessages(embeds);
    forall m | 0 <= m < |messages|
      ensures 1 <= |messages[m]| <= 10 && |AllText(messages[m])| <= 6000
    {
      forall e | e in messages[m] ensures e in embeds { FlattenHolds(messages, m, e); }
      BlocksKeepLimits(title, color, embeds, groups, messages[m]);
    }
  }

  lemma {:induction false} FlattenHolds<T>(groups: seq<seq<T>>, m: nat, x: T)
    requires m < |groups| && x in groups[m]
    ensures x in Flatten(groups)
  {
    if m < |groups| - 1 { FlattenHolds(groups[..|groups| - 1], m, x); }
  }
}
