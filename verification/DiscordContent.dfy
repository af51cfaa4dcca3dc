/** Splitting plain content at line breaks. */
module DiscordContent {
  const NEWLINE := '\n'

  predicate Newlines(s: string) { forall i :: 0 <= i < |s| ==> s[i] == NEWLINE }

  function TrimRightNewlines(s: string): string {
    if s != [] && s[|s| - 1] == NEWLINE then TrimRightNewlines(s[..|s| - 1]) else s
  }

  function TrimLeftNewlines(s: string): string {
    if s != [] && s[0] == NEWLINE then TrimLeftNewlines(s[1..]) else s
  }

  lemma {:induction false} TrimRightCuts(s: string) returns (cut: string)
    ensures s == TrimRightNewlines(s) + cut && Newlines(cut)
    ensures TrimRightNewlines(s) == "" <==> Newlines(s)
  {
    if s != [] && s[|s| - 1] == NEWLINE {
      cut := TrimRightCuts(s[..|s| - 1]);
      cut := cut + [NEWLINE];
    } else {
      cut := "";
    }
  }

  lemma {:induction false} TrimLeftCuts(s: string) returns (cut: string)
    ensures s == cut + TrimLeftNewlines(s) && Newlines(cut)
    ensures TrimLeftNewlines(s) != "" ==> TrimLeftNewlines(s)[0] != NEWLINE
  {
    if s != [] && s[0] == NEWLINE {
      cut := TrimLeftCuts(s[1..]);
      cut := [NEWLINE] + cut;
    } else {
      cut := "";
    }
  }

  /** The position of the last newline, or -1. */
  function LastNewline(s: string): (i: int)
    ensures -1 <= i < |s| && (i >= 0 ==> s[i] == NEWLINE)
    ensures forall j :: i < j < |s| ==> s[j] != NEWLINE
  {
    if s == [] then -1 else if s[|s| - 1] == NEWLINE then |s| - 1 else LastNewline(s[..|s| - 1])
  }

  /** The chunks, each followed by the gap after it. */
  function Weave(chunks: seq<string>, gaps: seq<string>): string
    requires |chunks| == |gaps|
  {
    if chunks == [] then []
    else Weave(chunks[..|chunks| - 1], gaps[..|gaps| - 1]) + chunks[|chunks| - 1] + gaps[|gaps| - 1]
  }

  /** Where the first chunk of an over-long text ends: after the last newline of its second
      half, or at the limit. */
  function CutPoint(text: string, maxLen: nat): (cut: nat)
    requires |text| > maxLen
    ensures cut <= maxLen && (maxLen >= 1 ==> cut >= 1)
  {
    var idx := LastNewline(text[..maxLen]);
    if idx > maxLen / 2 then idx + 1 else maxLen
  }

  lemma {:induction false} TrimRightEnds(s: string)
    requires TrimRightNewlines(s) != ""
    ensures TrimRightNewlines(s)[|TrimRightNewlines(s)| - 1] != NEWLINE
  {
    if s[|s| - 1] == NEWLINE { TrimRightEnds(s[..|s| - 1]); }
  }

  /** Cutting a text loses newlines only, and a chunk is empty only if it was all newlines. */
  lemma CutChunk(rest: string, cut: nat) returns (gap: string)
    requires 1 <= cut <= |rest|
    ensures var chunk, rest' := TrimRightNewlines(rest[..cut]), TrimLeftNewlines(rest[cut..]);
            && rest == chunk + gap + rest' && Newlines(gap)
            && |chunk| <= cut <= |chunk| + |gap| && |rest'| < |rest|
            && (chunk != "" ==> chunk[|chunk| - 1] != NEWLINE)
            && (rest' != "" ==> rest'[0] != NEWLINE)
            && (chunk == "" <==> Newlines(rest[..cut]))
            && (rest[0] != NEWLINE ==> chunk != "" && chunk[0] != NEWLINE)
  {
    var right := TrimRightCuts(rest[..cut]);
    var left := TrimLeftCuts(rest[cut..]);
    gap := right + left;
    assert rest == rest[..cut] + rest[cut..];
    assert rest[..cut][0] == rest[0];
    if rest[0] != NEWLINE { assert !Newlines(rest[..cut]); }
    if TrimRightNewlines(rest[..cut]) != "" { TrimRightEnds(rest[..cut]); }
  }

  /** The only way to an empty chunk: an over-long text with nothing but newlines before its
      first cut. */
  predicate StartsBlank(text: string, maxLen: nat) { |text| > maxLen && Newlines(text[..CutPoint(text, maxLen)]) }

  /** Where a chunk that does not take all of `rest` is cut: after the last newline of the first
      `maxLen` bytes, when that lies beyond their middle, else at `maxLen`. */
  ghost predicate CutAt(rest: string, maxLen: nat, cut: nat) {
    && 1 <= cut <= maxLen < |rest|
    && (forall j :: cut <= j < maxLen ==> rest[j] != '\n')
    && ((rest[cut - 1] == '\n' && cut - 1 > maxLen / 2) ||
        (cut == maxLen && forall j :: maxLen / 2 < j < maxLen ==> rest[j] != '\n'))
  }

  /** `chunk` is taken off `rest`: all of it when it is short, else what precedes the cut without
      the newlines at its end; `gap` is the newlines dropped, as many as there are. */
  ghost predicate TakenOff(rest: string, maxLen: nat, chunk: string, gap: string) {
    if |rest| <= maxLen then chunk == rest && gap == ""
    else
      && chunk + gap <= rest && Newlines(gap)
      && (chunk != "" ==> chunk[|chunk| - 1] != '\n')
      && (|chunk + gap| < |rest| ==> rest[|chunk + gap|] != '\n')
      && exists cut: nat :: CutAt(rest, maxLen, cut) && |chunk| <= cut <= |chunk| + |gap|
  }

  lemma CutPointIsCut(rest: string, maxLen: nat)
    requires 1 <= maxLen < |rest|
    ensures CutAt(rest, maxLen, CutPoint(rest, maxLen))
  {
    var idx := LastNewline(rest[..maxLen]);
    assert forall j :: 0 <= j < maxLen ==> rest[..maxLen][j] == rest[j];
  }

  lemma TakesOff(rest: string, maxLen: nat, cut: nat, chunk: string, gap: string, rest': string)
    requires CutAt(rest, maxLen, cut) && rest == chunk + gap + rest' && Newlines(gap)
    requires |chunk| <= cut <= |chunk| + |gap| && (chunk != "" ==> chunk[|chunk| - 1] != NEWLINE)
    requires rest' != "" ==> rest'[0] != NEWLINE
    ensures TakenOff(rest, maxLen, chunk, gap)
  {
    assert rest == (chunk + gap) + rest';
  }

  /** Every chunk is what is taken off the text after the earlier ones. */
  ghost predicate EachTakenOff(text: string, maxLen: nat, chunks: seq<string>, gaps: seq<string>)
    requires |chunks| == |gaps|
  {
    chunks != [] ==>
      var n := |chunks| - 1;
      var before := Weave(chunks[..n], gaps[..n]);
      && EachTakenOff(text, maxLen, chunks[..n], gaps[..n])
      && before <= text && TakenOff(text[|before|..], maxLen, chunks[n], gaps[n])
  }

  /** `text` is the chunks with newlines between them, followed by `rest`. */
  ghost predicate SplitInto(text: string, maxLen: nat, chunks: seq<string>, gaps: seq<string>, rest: string) {
    && |chunks| == |gaps| && text == Weave(chunks, gaps) + rest
    && (forall i :: 0 <= i < |chunks| ==> |chunks[i]| <= maxLen && Newlines(gaps[i]))
    && (forall i :: 0 < i < |chunks| ==> chunks[i] != "" && chunks[i][0] != NEWLINE)
    && (chunks != [] ==> (chunks[0] == "" <==> StartsBlank(text, maxLen)))
  }

  lemma SplitExtends(text: string, maxLen: nat, chunks: seq<string>, gaps: seq<string>, rest: string, chunk: string,
                     gap: string, rest': string)
    requires SplitInto(text, maxLen, chunks, gaps, rest) && rest == chunk + gap + rest'
    requires |chunk| <= maxLen && Newlines(gap)
    requires if chunks == [] then chunk == "" <==> StartsBlank(text, maxLen) else chunk != "" && chunk[0] != NEWLINE
    ensures SplitInto(text, maxLen, chunks + [chunk], gaps + [gap], rest')
  {
    assert (chunks + [chunk])[..|chunks|] == chunks && (gaps + [gap])[..|gaps|] == gaps;
    assert Weave(chunks + [chunk], gaps + [gap]) == Weave(chunks, gaps) + chunk + gap;
    assert text == Weave(chunks, gaps) + chunk + gap + rest';
  }

  lemma TakenOffNext(text: string, maxLen: nat, chunks: seq<string>, gaps: seq<string>, rest: string, chunk: string,
                     gap: string)
    requires |chunks| == |gaps| && EachTakenOff(text, maxLen, chunks, gaps) && text == Weave(chunks, gaps) + rest
    requires TakenOff(rest, maxLen, chunk, gap)
    ensures EachTakenOff(text, maxLen, chunks + [chunk], gaps + [gap])
  {
    assert (chunks + [chunk])[..|chunks|] == chunks && (gaps + [gap])[..|gaps|] == gaps;
    assert text[|Weave(chunks, gaps)|..] == rest;
  }

  /** `text` is split so far, each chunk taken off as the rule says, and `rest` is left. */
  ghost predicate SplitSoFar(text: string, maxLen: nat, chunks: seq<string>, gaps: seq<string>, rest: string) {
    SplitInto(text, maxLen, chunks, gaps, rest) && EachTakenOff(text, maxLen, chunks, gaps)
  }

  /** `text` is split into `chunks`, dropping newlines only, and `rest` is left, which starts
      with none unless it is the whole text. */
  ghost predicate Splits(text: string, maxLen: nat, chunks: seq<string>, rest: string) {
    && (if chunks == [] then rest == text else rest != "" ==> rest[0] != NEWLINE)
    && exists gaps :: SplitSoFar(text, maxLen, chunks, gaps, rest)
  }

  lemma NothingTaken(text: string, maxLen: nat)
    ensures Splits(text, maxLen, [], text)
  {
    assert SplitSoFar(text, maxLen, [], [], text);
  }

  lemma ChunkTaken(text: string, maxLen: nat, chunks: seq<string>, rest: string, chunk: string, gap: string,
                   rest': string)
    requires Splits(text, maxLen, chunks, rest) && rest == chunk + gap + rest'
    requires |chunk| <= maxLen && Newlines(gap) && TakenOff(rest, maxLen, chunk, gap)
    requires chunks == [] ==> (chunk == "" <==> StartsBlank(text, maxLen))
    requires chunks != [] ==> chunk != "" && chunk[0] != NEWLINE
    requires rest' != "" ==> rest'[0] != NEWLINE
    ensures Splits(text, maxLen, chunks + [chunk], rest')
  {
    var gaps :| SplitSoFar(text, maxLen, chunks, gaps, rest);
    SplitExtends(text, maxLen, chunks, gaps, rest, chunk, gap, rest');
    TakenOffNext(text, maxLen, chunks, gaps, rest, chunk, gap);
    assert SplitSoFar(text, maxLen, chunks + [chunk], gaps + [gap], rest');
  }

  lemma LastChunk(text: string, maxLen: nat, chunks: seq<string>, rest: string)
    requires Splits(text, maxLen, chunks, rest) && 1 <= |rest| <= maxLen
    ensures Splits(text, maxLen, chunks + [rest], "")
  {
    assert rest == rest + "" + "";
    ChunkTaken(text, maxLen, chunks, rest, rest, "", "");
  }

  lemma CutTaken(rest: string, maxLen: nat) returns (gap: string)
    requires 1 <= maxLen < |rest|
    ensures var cut := CutPoint(rest, maxLen);
            var chunk, rest' := TrimRightNewlines(rest[..cut]), TrimLeftNewlines(rest[cut..]);
            && rest == chunk + gap + rest' && |rest'| < |rest| && (rest' != "" ==> rest'[0] != NEWLINE)
            && |chunk| <= maxLen && Newlines(gap) && TakenOff(rest, maxLen, chunk, gap)
            && (chunk == "" <==> StartsBlank(rest, maxLen))
            && (rest[0] != NEWLINE ==> chunk != "" && chunk[0] != NEWLINE)
  {
    var cut := CutPoint(rest, maxLen);
    gap := CutChunk(rest, cut);
    CutPointIsCut(rest, maxLen);
    TakesOff(rest, maxLen, cut, TrimRightNewlines(rest[..cut]), gap, TrimLeftNewlines(rest[cut..]));
  }

  lemma NextChunk(text: string, maxLen: nat, chunks: seq<string>, rest: string)
    requires Splits(text, maxLen, chunks, rest) && 1 <= maxLen < |rest|
    ensures var cut := CutPoint(rest, maxLen);
            var chunk, rest' := TrimRightNewlines(rest[..cut]), TrimLeftNewlines(rest[cut..]);
            Splits(text, maxLen, chunks + [chunk], rest') && |rest'| < |rest|
  {
    var cut := CutPoint(rest, maxLen);
    var chunk, rest' := TrimRightNewlines(rest[..cut]), TrimLeftNewlines(rest[cut..]);
    var gap := CutTaken(rest, maxLen);
    ChunkTaken(text, maxLen, chunks, rest, chunk, gap, rest');
  }

  /** Every chunk is within the limit and cut where the rule says, the text is the chunks with
      only newlines between, and no chunk is empty but the first, when nothing but newlines
      came before its cut. */
  method SplitContent(text: string, maxLen: nat) returns (chunks: seq<string>)
    requires maxLen >= 1
    ensures Splits(text, maxLen, chunks, "")
    ensures chunks == [] <==> text == ""
  {
    chunks := [];
    NothingTaken(text, maxLen);
    if text == "" { return; }
    if |text| <= maxLen {
      LastChunk(text, maxLen, [], text);
      return [text];
    }
    var rest := text;
    while |rest| > 0
      invariant Splits(text, maxLen, chunks, rest)
      decreases |rest|
    {
      if |rest| <= maxLen {
        LastChunk(text, maxLen, chunks, rest);
        chunks := chunks + [rest];
        break;
      }
      var cut := maxLen;
      var idx := LastNewline(rest[..cut]);
      if idx > maxLen / 2 { cut := idx + 1; }
      assert cut == CutPoint(rest, maxLen);
      NextChunk(text, maxLen, chunks, rest);
      chunks := chunks + [TrimRightNewlines(rest[..cut])];
      rest := TrimLeftNewlines(rest[cut..]);
    }
  }
}
