/**
 * SubRip documents (utils/srtParser.ts): the block record, `parseSRT`,
 * `stringifySRT` and `adjustSrtTiming`.
 */
module Srt {
  import opened Wrappers
  import opened Strings
  import opened Timestamp

  /** One cue of a subtitle file; `translatedText` is absent until a translation lands. */
  datatype SubtitleBlock = SubtitleBlock(index: string, timestamp: string, originalText: string, translatedText: Option<string>)

  /** `b.translatedText || b.originalText`: an absent or empty translation falls back to the original. */
  function EffectiveText(b: SubtitleBlock): string
  {
    if b.translatedText.Some? && b.translatedText.value != "" then b.translatedText.value else b.originalText
  }

  // ---------------------------------------------------------------------
  // Well-formed text
  // ---------------------------------------------------------------------

  /**
   * Text whose lines are all non-empty and carry no leading or trailing
   * whitespace: it is non-empty, neither end is whitespace, and every
   * newline sits between two characters that are not whitespace.
   */
  predicate CleanLines(t: string)
  {
    t != [] && !IsWhitespace(t[0]) && !IsWhitespace(t[|t| - 1])
    && forall i :: 0 <= i < |t| && t[i] == '\n' ==> 0 < i < |t| - 1 && !IsWhitespace(t[i - 1]) && !IsWhitespace(t[i + 1])
  }

  /** A single non-empty line with no whitespace at either end. */
  predicate CleanLine(t: string)
  {
    CleanLines(t) && '\n' !in t
  }

  /** What `parseSRT` can give back unchanged: one-line index and timestamp, clean lines of text. */
  predicate WellFormed(b: SubtitleBlock)
  {
    CleanLine(b.index) && CleanLine(b.timestamp) && CleanLines(EffectiveText(b))
  }

  // ---------------------------------------------------------------------
  // stringifySRT
  // ---------------------------------------------------------------------

  /** `${b.index}\n${b.timestamp}\n${b.translatedText || b.originalText}` */
  function BlockText(b: SubtitleBlock): string
  {
    b.index + "\n" + b.timestamp + "\n" + EffectiveText(b)
  }

  function BlockTexts(bs: seq<SubtitleBlock>): (r: seq<string>)
    ensures |r| == |bs| && forall i :: 0 <= i < |bs| ==> r[i] == BlockText(bs[i])
  {
    seq(|bs|, i requires 0 <= i < |bs| => BlockText(bs[i]))
  }

  /** `stringifySRT`: the blocks' texts joined by one blank line. */
  function StringifySrt(bs: seq<SubtitleBlock>): string
  {
    Join(BlockTexts(bs), "\n\n")
  }

  /**
   * No blocks give the empty text, one block its own text, and each further
   * block follows the earlier ones after exactly one blank line, with no
   * separator at the end.
   */
  lemma StringifySrtShape(b: SubtitleBlock, rest: seq<SubtitleBlock>)
    ensures StringifySrt([]) == ""
    ensures StringifySrt([b]) == BlockText(b)
    ensures rest != [] ==> StringifySrt([b] + rest) == BlockText(b) + "\n\n" + StringifySrt(rest)
  {
    assert BlockTexts([b] + rest)[1..] == BlockTexts(rest);
  }

  // ---------------------------------------------------------------------
  // parseSRT
  // ---------------------------------------------------------------------

  /** There is no carriage return directly followed by a line feed. */
  predicate NoCrLf(s: string)
  {
    forall i :: 0 <= i < |s| - 1 ==> !(s[i] == '\r' && s[i + 1] == '\n')
  }

  /** `s.replace(/\r\n/g, '\n')`, left to right. */
  function ReplaceCrLf(s: string): (r: string)
    ensures |r| <= |s|
    ensures NoCrLf(s) ==> r == s
  {
    if |s| >= 2 && s[0] == '\r' && s[1] == '\n' then "\n" + ReplaceCrLf(s[2..])
    else if s == [] then []
    else
      var r := [s[0]] + ReplaceCrLf(s[1..]);
      assert NoCrLf(s) ==> NoCrLf(s[1..]) by {
        if NoCrLf(s) {
          forall i | 0 <= i < |s[1..]| - 1 ensures !(s[1..][i] == '\r' && s[1..][i + 1] == '\n') {
            assert s[1..][i] == s[i + 1] && s[1..][i + 1] == s[i + 2];
          }
        }
      }
      r
  }

  /** The last newline in `s[lo..hi]`. */
  function LastNewline(s: string, lo: nat, hi: nat): (r: Option<nat>)
    requires lo <= hi <= |s|
    ensures r.Some? ==> lo <= r.value < hi && s[r.value] == '\n'
    ensures r.Some? ==> forall j :: r.value < j < hi ==> s[j] != '\n'
    ensures r.None? ==> forall j :: lo <= j < hi ==> s[j] != '\n'
    decreases hi - lo
  {
    if lo == hi then None
    else if s[hi - 1] == '\n' then Some(hi - 1)
    else LastNewline(s, lo, hi - 1)
  }

  /**
   * Where a match of `/\n\s*\n/` that starts at `q` ends: `\s*` first takes
   * the whole whitespace run after the newline, then gives back characters
   * until a newline follows it, so the match ends just after the last
   * newline of that run.
   */
  function BlankMatchEnd(s: string, q: nat): (r: Option<nat>)
    requires q < |s|
    ensures r.Some? ==> q + 2 <= r.value <= |s| && s[q] == '\n' && s[r.value - 1] == '\n'
    ensures r.Some? ==> forall j :: q < j < r.value ==> IsWhitespace(s[j])
  {
    if s[q] != '\n' then None
    else
      match LastNewline(s, q + 1, WsRunEnd(s, q + 1))
      case None => None
      case Some(k) => Some(k + 1)
  }

  /** `s.split(/\n\s*\n/)`. */
  function SplitBlank(s: string): (r: seq<string>)
    ensures |r| >= 1
    decreases |s|, |s| + 1
  {
    SplitBlankFrom(s, 0)
  }

  /** Looks for the first match at or after `q`; the piece being built starts at 0. */
  function SplitBlankFrom(s: string, q: nat): (r: seq<string>)
    requires q <= |s|
    ensures |r| >= 1
    decreases |s|, |s| - q
  {
    if q == |s| then [s]
    else
      match BlankMatchEnd(s, q)
      case None => SplitBlankFrom(s, q + 1)
      case Some(e) => [s[..q]] + SplitBlank(s[e..])
  }

  /** `lines.map(l => l.trim())` */
  function TrimEach(lines: seq<string>): (r: seq<string>)
    ensures |r| == |lines| && forall i :: 0 <= i < |lines| ==> r[i] == Trim(lines[i])
  {
    seq(|lines|, i requires 0 <= i < |lines| => Trim(lines[i]))
  }

  /** `lines.filter(l => l !== "")` */
  function DropEmpty(lines: seq<string>): (r: seq<string>)
    ensures |r| <= |lines|
    ensures forall l :: l in r ==> l in lines && l != ""
    ensures forall l :: l in lines && l != "" ==> l in r
  {
    if lines == [] then []
    else if lines[0] == "" then DropEmpty(lines[1..])
    else [lines[0]] + DropEmpty(lines[1..])
  }

  /** The lines of a chunk, trimmed, without the empty ones. */
  function NonBlankLines(chunk: string): seq<string>
  {
    DropEmpty(TrimEach(SplitOn(chunk, '\n')))
  }

  /** Each non-blank line is a clean line. */
  lemma NonBlankLinesClean(chunk: string)
    ensures forall l :: l in NonBlankLines(chunk) ==> CleanLine(l)
  {
    var pieces := SplitOn(chunk, '\n');
    forall l | l in NonBlankLines(chunk) ensures CleanLine(l) {
      var i :| 0 <= i < |pieces| && l == Trim(pieces[i]);
      TrimKeepsNoNewline(pieces[i]);
    }
  }

  /** The block a chunk of at least three non-blank lines becomes; shorter chunks are dropped. */
  function BlockOf(chunk: string): Option<SubtitleBlock>
  {
    var lines := NonBlankLines(chunk);
    if |lines| >= 3 then
      var index := lines[0];
      var timestamp := lines[1];
      var originalText := Join(lines[2..], "\n");
      if index != "" && timestamp != "" && originalText != "" then
        Some(SubtitleBlock(index, timestamp, originalText, None))
      else None
    else None
  }

  /** The block of one chunk, as a list of zero or one blocks. */
  function BlocksOfChunk(chunk: string): seq<SubtitleBlock>
  {
    match BlockOf(chunk)
    case Some(b) => [b]
    case None => []
  }

  /** The blocks of a sequence of chunks, in order. */
  function BlocksOf(chunks: seq<string>): seq<SubtitleBlock>
  {
    if chunks == [] then []
    else BlocksOf(chunks[..|chunks| - 1]) + BlocksOfChunk(chunks[|chunks| - 1])
  }

  /** `content.replace(/\r\n/g, '\n').trim()` */
  function Normalize(content: string): string
  {
    Trim(ReplaceCrLf(content))
  }

  /** What `parseSRT` returns. */
  function ParsedBlocks(content: string): seq<SubtitleBlock>
  {
    BlocksOf(SplitBlank(Normalize(content)))
  }

  /** `parseSRT`: normalizes the text, splits it into chunks and reads each chunk's block. */
  method ParseSrt(content: string) returns (blocks: seq<SubtitleBlock>)
    ensures blocks == ParsedBlocks(content)
    ensures forall b :: b in blocks ==>
              (CleanLine(b.index) && CleanLine(b.timestamp) && CleanLines(b.originalText) && b.translatedText.None?)
  {
    var chunks := SplitBlank(Normalize(content));
    blocks := ParseChunks(chunks);
    ParsedBlocksClean(content);
  }

  /** The `forEach` of `parseSRT`: one pass over the chunks, pushing each block that qualifies. */
  method ParseChunks(chunks: seq<string>) returns (blocks: seq<SubtitleBlock>)
    ensures blocks == BlocksOf(chunks)
  {
    blocks := [];
    var k := 0;
    while k < |chunks|
      invariant 0 <= k <= |chunks|
      invariant blocks == BlocksOf(chunks[..k])
    {
      BlocksOfStep(chunks, k);
      var lines := NonBlankLines(chunks[k]);
      if |lines| >= 3 {
        var index := lines[0];
        var timestamp := lines[1];
        var originalText := Join(lines[2..], "\n");
        if index != "" && timestamp != "" && originalText != "" {
          blocks := blocks + [SubtitleBlock(index, timestamp, originalText, None)];
        }
      }
      k := k + 1;
    }
    assert chunks[..k] == chunks;
  }

  /** One more chunk adds its block, if it has one, at the end. */
  lemma BlocksOfStep(chunks: seq<string>, k: nat)
    requires k < |chunks|
    ensures BlocksOf(chunks[..k + 1]) == BlocksOf(chunks[..k]) + BlocksOfChunk(chunks[k])
  {
    assert chunks[..k + 1][..k] == chunks[..k];
  }

  // ---------------------------------------------------------------------
  // Properties of parsing
  // ---------------------------------------------------------------------

  /**
   * A chunk yields a block exactly when it has at least three non-blank
   * lines (the truthiness test on the three fields never fails), and the
   * block is the first line, the second line and the rest joined.
   */
  lemma BlockOfIff(chunk: string)
    ensures BlockOf(chunk).Some? <==> |NonBlankLines(chunk)| >= 3
    ensures |NonBlankLines(chunk)| >= 3 ==>
      BlockOf(chunk) == Some(SubtitleBlock(NonBlankLines(chunk)[0], NonBlankLines(chunk)[1],
                                           Join(NonBlankLines(chunk)[2..], "\n"), None))
  {
    var lines := NonBlankLines(chunk);
    if |lines| >= 3 {
      NonBlankLinesClean(chunk);
      assert lines[0] in lines && lines[1] in lines && lines[2] in lines;
      JoinNonEmpty(lines[2..], "\n");
    }
  }

  /** Every block a chunk yields has clean one-line fields and clean text, and no translation. */
  lemma BlockOfClean(chunk: string)
    requires BlockOf(chunk).Some?
    ensures var b := BlockOf(chunk).value;
      CleanLine(b.index) && CleanLine(b.timestamp) && CleanLines(b.originalText) && b.translatedText.None?
  {
    var lines := NonBlankLines(chunk);
    NonBlankLinesClean(chunk);
    BlockOfIff(chunk);
    assert lines[0] in lines && lines[1] in lines;
    forall l | l in lines[2..] ensures CleanLine(l) {
      assert l in lines;
    }
    JoinCleanLines(lines[2..]);
  }

  /**
   * `parseSRT` keeps the order of the chunks and drops the short ones: the
   * blocks of a list of chunks are those of its first chunk followed by those
   * of the rest.
   */
  lemma BlocksOfCons(c: string, cs: seq<string>)
    ensures BlocksOf([c] + cs) == BlocksOfChunk(c) + BlocksOf(cs)
  {
    assert [c][..0] == [];
    BlocksOfAppend([c], cs);
  }

  /** The blocks of two runs of chunks are the blocks of the first followed by those of the second. */
  lemma {:induction false} BlocksOfAppend(xs: seq<string>, ys: seq<string>)
    ensures BlocksOf(xs + ys) == BlocksOf(xs) + BlocksOf(ys)
    decreases |ys|
  {
    if ys == [] {
      assert xs + ys == xs;
    } else {
      var init := ys[..|ys| - 1];
      assert (xs + ys)[..|xs + ys| - 1] == xs + init;
      BlocksOfAppend(xs, init);
    }
  }

  lemma {:induction false} BlocksOfLength(chunks: seq<string>)
    ensures |BlocksOf(chunks)| <= |chunks|
  {
    if chunks != [] {
      BlocksOfLength(chunks[..|chunks| - 1]);
    }
  }

  /** Every block `parseSRT` returns has clean fields and no translation. */
  lemma ParsedBlocksClean(content: string)
    ensures forall b :: b in ParsedBlocks(content) ==>
              (CleanLine(b.index) && CleanLine(b.timestamp) && CleanLines(b.originalText) && b.translatedText.None?)
  {
    BlocksOfClean(SplitBlank(Normalize(content)));
  }

  lemma {:induction false} BlocksOfClean(chunks: seq<string>)
    ensures forall b :: b in BlocksOf(chunks) ==>
              (CleanLine(b.index) && CleanLine(b.timestamp) && CleanLines(b.originalText) && b.translatedText.None?)
  {
    if chunks != [] {
      BlocksOfClean(chunks[..|chunks| - 1]);
      if BlockOf(chunks[|chunks| - 1]).Some? {
        BlockOfClean(chunks[|chunks| - 1]);
      }
    }
  }

  // ---------------------------------------------------------------------
  // Helpers about lines
  // ---------------------------------------------------------------------

  lemma TrimKeepsNoNewline(s: string)
    ensures Trim(s) != "" && '\n' !in s ==> CleanLine(Trim(s))
  {
    var r := Trim(s);
    if r != "" && '\n' !in s {
      var t := TrimStart(s);
      assert r == TrimEnd(t);
      CleanSlice(s, t, r);
    }
  }

  /** A trimmed piece of a text with no newline is a clean line. */
  lemma CleanSlice(s: string, t: string, r: string)
    requires '\n' !in s && r != [] && Trimmed(r)
    requires |t| <= |s| && t == s[|s| - |t|..] && |r| <= |t| && r == t[..|r|]
    ensures CleanLine(r)
  {
    assert forall i :: 0 <= i < |t| ==> t[i] == s[|s| - |t| + i];
    assert forall i :: 0 <= i < |r| ==> r[i] == t[i];
    assert forall i :: 0 <= i < |r| ==> r[i] != '\n';
  }

  lemma JoinNonEmpty(parts: seq<string>, sep: string)
    requires parts != [] && parts[0] != ""
    ensures Join(parts, sep) != ""
  {
  }

  /** Clean lines joined by newlines give clean text. */
  lemma {:induction false} JoinCleanLines(lines: seq<string>)
    requires lines != []
    requires forall l :: l in lines ==> CleanLine(l)
    ensures CleanLines(Join(lines, "\n"))
  {
    assert lines[0] in lines;
    if |lines| > 1 {
      forall l | l in lines[1..] ensures CleanLine(l) {
        assert l in lines;
      }
      JoinCleanLines(lines[1..]);
      var a := lines[0];
      var b := Join(lines[1..], "\n");
      var t := a + "\n" + b;
      assert Join(lines, "\n") == t;
      forall i | 0 <= i < |t| && t[i] == '\n'
        ensures 0 < i < |t| - 1 && !IsWhitespace(t[i - 1]) && !IsWhitespace(t[i + 1])
      {
        if i > |a| {
          assert t[i] == b[i - |a| - 1];
          assert t[i - 1] == b[i - |a| - 2] || i - 1 == |a|;
        }
      }
    }
  }

  // ---------------------------------------------------------------------
  // adjustSrtTiming
  // ---------------------------------------------------------------------

  /** The separator between the two ends of a cue's timestamp. */
  const Arrow := " --> "

  /** What `msToTimestamp` writes for `Infinity` (a time divided by 0) and for `NaN` (0 divided by 0). */
  const InfinityClock := "Infinity:NaN:NaN,NaN"
  const NaNClock := "NaN:NaN:NaN,NaN"

  /**
   * One end of a cue at `1 / speed` of its time:
   * `msToTimestamp(timestampToMs(ts) / speed)`. Dividing by 0 gives
   * `Infinity`, or `NaN` for a time of 0, whose fields print as those words;
   * a negative speed gives a negative time, whose fields are negative.
   */
  function Rescaled(ts: string, speed: real): string
  {
    var ms := TimestampToMs(ts);
    if speed == 0.0 then (if ms == 0 then NaNClock else InfinityClock)
    else MsToTimestampOf(ms as real / speed)
  }

  /** A time in milliseconds divided by a positive speed factor. */
  function Scaled(ms: nat, speed: real): (r: real)
    requires speed > 0.0
    ensures r >= 0.0
    ensures r * speed == ms as real
  {
    var r := ms as real / speed;
    assert r * speed == ms as real;
    r
  }

  /** A block whose timestamp splits into exactly two parts on `" --> "` gets both ends rescaled. */
  function AdjustBlock(b: SubtitleBlock, speed: real): SubtitleBlock
  {
    var parts := SplitOnSeparator(b.timestamp, Arrow);
    if |parts| != 2 then b
    else b.(timestamp := Rescaled(parts[0], speed) + Arrow + Rescaled(parts[1], speed))
  }

  /**
   * `adjustSrtTiming`, for any finite speed: speed 1 gives back the blocks
   * themselves; any other speed rewrites each block's timestamp and nothing
   * else, and leaves a block alone whose timestamp does not have exactly two
   * parts.
   */
  function AdjustSrtTiming(blocks: seq<SubtitleBlock>, speed: real): (r: seq<SubtitleBlock>)
    ensures |r| == |blocks|
    ensures speed == 1.0 ==> r == blocks
    ensures forall k :: 0 <= k < |blocks| ==>
              r[k].index == blocks[k].index && r[k].originalText == blocks[k].originalText
              && r[k].translatedText == blocks[k].translatedText
    ensures forall k :: 0 <= k < |blocks| && |SplitOnSeparator(blocks[k].timestamp, Arrow)| != 2 ==> r[k] == blocks[k]
  {
    if speed == 1.0 then blocks
    else seq(|blocks|, k requires 0 <= k < |blocks| => AdjustBlock(blocks[k], speed))
  }

  /**
   * A speed of 0 writes `Infinity` or `NaN` fields, and a negative speed
   * writes a time that starts with a minus sign, unless the time was 0.
   */
  lemma RescaledOddSpeeds(ts: string, speed: real)
    requires speed <= 0.0
    ensures speed == 0.0 ==> Rescaled(ts, speed) == if TimestampToMs(ts) == 0 then NaNClock else InfinityClock
    ensures speed < 0.0 && TimestampToMs(ts) > 0 ==> Rescaled(ts, speed)[0] == '-'
  {
    if speed < 0.0 && TimestampToMs(ts) > 0 {
      NegativeQuotientSign(TimestampToMs(ts) as real, speed);
    }
  }

  lemma NegativeQuotientSign(ms: real, speed: real)
    requires ms > 0.0 && speed < 0.0
    ensures MsToTimestampOf(ms / speed)[0] == '-'
  {
    assert ms / speed < 0.0 by {
      assert (ms / speed) * speed == ms;
    }
    NegativeTimeSign(ms / speed);
  }

  /**
   * A rescaled end reads back as the whole milliseconds of the scaled time,
   * modulo 100 hours.
   */
  lemma RescaledReads(ts: string, speed: real)
    requires speed > 0.0
    ensures var ms := Scaled(TimestampToMs(ts), speed);
      ms.Floor >= 0 && TimestampToMs(Rescaled(ts, speed)) == ms.Floor % HourWrap
  {
    var ms := Scaled(TimestampToMs(ts), speed);
    MsToTimestampOfFloor(ms);
    TimestampRoundTrip(ms.Floor);
  }

  /**
   * After adjustment a two-part timestamp still has exactly two parts, and
   * each reads back as the old value divided by the speed, rounded down
   * (modulo 100 hours).
   */
  lemma AdjustBlockTimestamp(b: SubtitleBlock, speed: real)
    requires speed > 0.0
    requires |SplitOnSeparator(b.timestamp, Arrow)| == 2
    ensures var parts := SplitOnSeparator(b.timestamp, Arrow);
      var after := SplitOnSeparator(AdjustBlock(b, speed).timestamp, Arrow);
      |after| == 2
      && TimestampToMs(after[0]) == Scaled(TimestampToMs(parts[0]), speed).Floor % HourWrap
      && TimestampToMs(after[1]) == Scaled(TimestampToMs(parts[1]), speed).Floor % HourWrap
  {
    var parts := SplitOnSeparator(b.timestamp, Arrow);
    AdjustBlockSplits(b, speed);
    RescaledReads(parts[0], speed);
    RescaledReads(parts[1], speed);
  }

  /**
   * At any speed, a two-part timestamp comes out as the two rescaled ends,
   * which split apart again on `" --> "`.
   */
  lemma AdjustBlockSplits(b: SubtitleBlock, speed: real)
    requires |SplitOnSeparator(b.timestamp, Arrow)| == 2
    ensures var parts := SplitOnSeparator(b.timestamp, Arrow);
      SplitOnSeparator(AdjustBlock(b, speed).timestamp, Arrow) == [Rescaled(parts[0], speed), Rescaled(parts[1], speed)]
  {
    var parts := SplitOnSeparator(b.timestamp, Arrow);
    RescaledNoSpace(parts[0], speed);
    RescaledNoSpace(parts[1], speed);
    SplitAroundArrow(Rescaled(parts[0], speed), Rescaled(parts[1], speed));
  }

  /** At any speed, a rescaled end has no space and is at least twelve characters long. */
  lemma RescaledNoSpace(ts: string, speed: real)
    ensures ' ' !in Rescaled(ts, speed) && |Rescaled(ts, speed)| >= 12
  {
    if speed != 0.0 {
      MsToTimestampOfNoSpace(TimestampToMs(ts) as real / speed);
    }
  }

  /** Two texts without spaces joined by the arrow split back apart. */
  lemma SplitAroundArrow(a: string, c: string)
    requires ' ' !in a && ' ' !in c && |c| >= |Arrow|
    ensures SplitOnSeparator(a + Arrow + c, Arrow) == [a, c]
  {
    var s := a + Arrow + c;
    ArrowFoundAt(a, c);
    assert s[..|a|] == a;
    assert s[|a| + |Arrow|..] == c;
    SplitOnSeparatorAbsent(c, Arrow);
  }

  lemma ArrowFoundAt(a: string, c: string)
    requires ' ' !in a
    ensures IndexOfFrom(a + Arrow + c, Arrow, 0) == Some(|a|)
  {
    var s := a + Arrow + c;
    assert s[|a|..|a| + |Arrow|] == Arrow;
    forall j: nat | j < |a| ensures !OccursAt(s, Arrow, j) {
      assert s[j] == a[j] != ' ';
    }
    FirstOccurrence(s, Arrow, 0, |a|);
  }

  /**
   * At any speed other than 1, every block whose timestamp has two parts
   * comes out with two parts, each reading back as the old end divided by
   * the speed, rounded down (modulo 100 hours).
   */
  lemma AdjustSrtTimingReads(blocks: seq<SubtitleBlock>, speed: real, k: nat)
    requires speed > 0.0 && speed != 1.0
    requires k < |blocks| && |SplitOnSeparator(blocks[k].timestamp, Arrow)| == 2
    ensures var parts := SplitOnSeparator(blocks[k].timestamp, Arrow);
      var after := SplitOnSeparator(AdjustSrtTiming(blocks, speed)[k].timestamp, Arrow);
      |after| == 2
      && TimestampToMs(after[0]) == Scaled(TimestampToMs(parts[0]), speed).Floor % HourWrap
      && TimestampToMs(after[1]) == Scaled(TimestampToMs(parts[1]), speed).Floor % HourWrap
  {
    AdjustBlockTimestamp(blocks[k], speed);
  }
}
