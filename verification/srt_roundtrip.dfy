/**
 * Writing blocks out with `stringifySRT` and reading them back with
 * `parseSRT` (utils/srtParser.ts:113-137) gives the same cues, as long as
 * each index and timestamp is one clean line and each text is made of clean
 * lines; parsing is therefore idempotent through a write.
 */
module SrtRoundTrip {
  import opened Wrappers
  import opened Strings
  import opened Srt

  /** The blocks `parseSRT` reads back: the text written becomes the original, with no translation. */
  function Reread(bs: seq<SubtitleBlock>): (r: seq<SubtitleBlock>)
    ensures |r| == |bs|
  {
    seq(|bs|, i requires 0 <= i < |bs| => SubtitleBlock(bs[i].index, bs[i].timestamp, EffectiveText(bs[i]), None))
  }

  /** Parsing what `stringifySRT` wrote gives back every cue, in order. */
  lemma ParseStringify(bs: seq<SubtitleBlock>)
    requires forall b :: b in bs ==> WellFormed(b)
    ensures ParsedBlocks(StringifySrt(bs)) == Reread(bs)
  {
    var s := StringifySrt(bs);
    if bs == [] {
      assert s == "";
      assert SplitBlank("") == [""];
      assert BlocksOf([""]) == BlocksOf([]) + BlocksOfChunk("");
      assert NonBlankLines("") == [];
    } else {
      var texts := BlockTexts(bs);
      forall k | 0 <= k < |texts| ensures CleanLines(texts[k]) {
        assert bs[k] in bs;
        BlockTextClean(bs[k]);
      }
      JoinedChunks(texts);
      assert ReplaceCrLf(s) == s;
      assert Normalize(s) == s;
      SplitBlankJoin(texts);
      BlocksOfTexts(bs);
    }
  }

  /** A document parsed, written out and parsed again gives the same blocks. */
  lemma ParseIdempotent(content: string)
    ensures ParsedBlocks(StringifySrt(ParsedBlocks(content))) == ParsedBlocks(content)
  {
    var bs := ParsedBlocks(content);
    ParsedBlocksClean(content);
    forall b | b in bs ensures WellFormed(b) && b.translatedText.None? {
    }
    ParseStringify(bs);
    RereadUntranslated(bs);
  }

  /** Blocks without a translation read back as themselves. */
  lemma RereadUntranslated(bs: seq<SubtitleBlock>)
    requires forall b :: b in bs ==> b.translatedText.None?
    ensures Reread(bs) == bs
  {
    forall k | 0 <= k < |bs| ensures Reread(bs)[k] == bs[k] {
      assert bs[k] in bs;
    }
  }

  // ---------------------------------------------------------------------
  // One block
  // ---------------------------------------------------------------------

  /** Two clean texts joined by a newline are clean. */
  lemma CleanLinesConcat(a: string, c: string)
    requires CleanLines(a) && CleanLines(c)
    ensures CleanLines(a + "\n" + c)
  {
    var t := a + "\n" + c;
    forall i | 0 <= i < |t| && t[i] == '\n'
      ensures 0 < i < |t| - 1 && !IsWhitespace(t[i - 1]) && !IsWhitespace(t[i + 1])
    {
      if i < |a| {
        assert t[i] == a[i];
      } else if i > |a| {
        assert t[i] == c[i - |a| - 1];
        if i - 1 > |a| {
          assert t[i - 1] == c[i - |a| - 2];
        }
      }
    }
  }

  lemma BlockTextClean(b: SubtitleBlock)
    requires WellFormed(b)
    ensures CleanLines(BlockText(b))
  {
    CleanLinesConcat(b.timestamp, EffectiveText(b));
    CleanLinesConcat(b.index, b.timestamp + "\n" + EffectiveText(b));
    assert BlockText(b) == b.index + "\n" + (b.timestamp + "\n" + EffectiveText(b));
  }

  /** Each line of clean text is a clean line. */
  lemma {:induction false} SplitCleanLines(t: string)
    requires CleanLines(t)
    ensures forall p :: p in SplitOn(t, '\n') ==> CleanLine(p)
    decreases |t|
  {
    if '\n' !in t {
      SplitOnAbsent(t, '\n');
    } else {
      var i :| 0 <= i < |t| && t[i] == '\n';
      var j := FirstNewline(t, 0, i);
      CleanHead(t, j);
      CleanTail(t, j);
      assert t == t[..j] + ['\n'] + t[j + 1..];
      SplitOnPrefix(t[..j], '\n', t[j + 1..]);
      SplitCleanLines(t[j + 1..]);
    }
  }

  lemma CleanHead(t: string, j: nat)
    requires CleanLines(t) && j < |t| && t[j] == '\n'
    requires forall k :: 0 <= k < j ==> t[k] != '\n'
    ensures CleanLine(t[..j])
  {
    var a := t[..j];
    assert forall k :: 0 <= k < |a| ==> a[k] == t[k];
  }

  lemma CleanTail(t: string, j: nat)
    requires CleanLines(t) && j < |t| && t[j] == '\n'
    ensures CleanLines(t[j + 1..])
  {
    var c := t[j + 1..];
    assert forall k :: 0 <= k < |c| ==> c[k] == t[j + 1 + k];
    forall k | 0 <= k < |c| && c[k] == '\n'
      ensures 0 < k < |c| - 1 && !IsWhitespace(c[k - 1]) && !IsWhitespace(c[k + 1])
    {
      assert t[j + 1 + k] == '\n';
    }
  }

  /** The first newline of `t` at or after `from`, given that there is one at `i`. */
  function FirstNewline(t: string, from: nat, i: nat): (j: nat)
    requires from <= i < |t| && t[i] == '\n'
    ensures from <= j <= i && t[j] == '\n'
    ensures forall k :: from <= k < j ==> t[k] != '\n'
    decreases i - from
  {
    if t[from] == '\n' then from else FirstNewline(t, from + 1, i)
  }

  lemma {:induction false} DropEmptyKeeps(lines: seq<string>)
    requires forall k :: 0 <= k < |lines| ==> lines[k] != ""
    ensures DropEmpty(lines) == lines
  {
    if lines != [] {
      DropEmptyKeeps(lines[1..]);
    }
  }

  /** Clean text reads back as its own lines. */
  lemma CleanNonBlankLines(t: string)
    requires CleanLines(t)
    ensures NonBlankLines(t) == SplitOn(t, '\n')
  {
    var pieces := SplitOn(t, '\n');
    SplitCleanLines(t);
    forall k | 0 <= k < |pieces| ensures Trim(pieces[k]) == pieces[k] {
      assert pieces[k] in pieces;
    }
    assert TrimEach(pieces) == pieces;
    forall k | 0 <= k < |pieces| ensures pieces[k] != "" {
      assert pieces[k] in pieces;
    }
    DropEmptyKeeps(pieces);
  }

  /** The non-blank lines of a well-formed block's text: index, timestamp, then the lines of the text. */
  lemma BlockLines(b: SubtitleBlock)
    requires WellFormed(b)
    ensures NonBlankLines(BlockText(b)) == [b.index, b.timestamp] + SplitOn(EffectiveText(b), '\n')
  {
    BlockTextClean(b);
    CleanNonBlankLines(BlockText(b));
    ThreeParts(b.index, b.timestamp, EffectiveText(b), BlockText(b));
  }

  lemma ThreeParts(a: string, c: string, t: string, whole: string)
    requires '\n' !in a && '\n' !in c
    requires whole == a + "\n" + c + "\n" + t
    ensures SplitOn(whole, '\n') == [a, c] + SplitOn(t, '\n')
  {
    var rest := c + ['\n'] + t;
    assert whole == a + ['\n'] + rest;
    SplitOnPrefix(a, '\n', rest);
    SplitOnPrefix(c, '\n', t);
    var x := SplitOn(t, '\n');
    assert [a] + ([c] + x) == [a, c] + x;
  }

  /** A well-formed block's text is read back as that block with its effective text as the original. */
  lemma BlockOfBlockText(b: SubtitleBlock)
    requires WellFormed(b)
    ensures BlocksOfChunk(BlockText(b)) == [SubtitleBlock(b.index, b.timestamp, EffectiveText(b), None)]
  {
    var lines := NonBlankLines(BlockText(b));
    BlockLines(b);
    assert lines[2..] == SplitOn(EffectiveText(b), '\n');
    BlockOfIff(BlockText(b));
  }

  lemma {:induction false} BlocksOfTexts(bs: seq<SubtitleBlock>)
    requires forall b :: b in bs ==> WellFormed(b)
    ensures BlocksOf(BlockTexts(bs)) == Reread(bs)
    decreases |bs|
  {
    if bs != [] {
      var n := |bs|;
      var init := bs[..n - 1];
      forall b | b in init ensures WellFormed(b) {
        assert b in bs;
      }
      BlocksOfTexts(init);
      assert bs[n - 1] in bs;
      BlockOfBlockText(bs[n - 1]);
      TextsSnoc(bs);
    }
  }

  lemma TextsSnoc(bs: seq<SubtitleBlock>)
    requires bs != []
    ensures BlocksOf(BlockTexts(bs)) == BlocksOf(BlockTexts(bs[..|bs| - 1])) + BlocksOfChunk(BlockText(bs[|bs| - 1]))
    ensures Reread(bs) == Reread(bs[..|bs| - 1]) + [SubtitleBlock(bs[|bs| - 1].index, bs[|bs| - 1].timestamp, EffectiveText(bs[|bs| - 1]), None)]
  {
    var n := |bs|;
    var texts := BlockTexts(bs);
    assert texts[..n - 1] == BlockTexts(bs[..n - 1]);
    assert BlocksOf(texts) == BlocksOf(texts[..n - 1]) + BlocksOfChunk(texts[n - 1]);
    RereadSnoc(bs);
  }

  lemma RereadSnoc(bs: seq<SubtitleBlock>)
    requires bs != []
    ensures Reread(bs) == Reread(bs[..|bs| - 1]) + [SubtitleBlock(bs[|bs| - 1].index, bs[|bs| - 1].timestamp, EffectiveText(bs[|bs| - 1]), None)]
  {
  }

  // ---------------------------------------------------------------------
  // The blank-line split
  // ---------------------------------------------------------------------

  /** Inside clean text no blank-line match can start. */
  lemma NoMatchInClean(s: string, c: string, q: nat)
    requires CleanLines(c) && |c| <= |s| && s[..|c|] == c && q < |c|
    ensures BlankMatchEnd(s, q).None?
  {
    if s[q] == '\n' {
      assert c[q] == '\n';
      assert s[q + 1] == c[q + 1];
      assert WsRunEnd(s, q + 1) == q + 1;
    }
  }

  /** Positions where no match starts are passed over. */
  lemma {:induction false} SkipNoMatch(s: string, q: nat, hi: nat)
    requires q <= hi <= |s|
    requires forall p :: q <= p < hi ==> BlankMatchEnd(s, p).None?
    ensures SplitBlankFrom(s, q) == SplitBlankFrom(s, hi)
    decreases hi - q
  {
    if q < hi {
      SkipNoMatch(s, q + 1, hi);
    }
  }

  lemma SkipClean(s: string, c: string)
    requires CleanLines(c) && |c| <= |s| && s[..|c|] == c
    ensures SplitBlankFrom(s, 0) == SplitBlankFrom(s, |c|)
  {
    forall p | 0 <= p < |c| ensures BlankMatchEnd(s, p).None? {
      NoMatchInClean(s, c, p);
    }
    SkipNoMatch(s, 0, |c|);
  }

  /** A clean text followed by a blank line and more text splits off as the first piece. */
  lemma SplitBlankStep(c: string, t: string)
    requires CleanLines(c) && t != [] && !IsWhitespace(t[0])
    ensures SplitBlank(c + "\n\n" + t) == [c] + SplitBlank(t)
  {
    var s := c + "\n\n" + t;
    assert s[..|c|] == c;
    SkipClean(s, c);
    assert s[|c| + 2] == t[0];
    assert WsRunEnd(s, |c| + 2) == |c| + 2;
    assert WsRunEnd(s, |c| + 1) == |c| + 2;
    assert BlankMatchEnd(s, |c|) == Some(|c| + 2);
    assert s[|c| + 2..] == t;
    assert s[..|c|] == c;
  }

  lemma SplitBlankLast(c: string)
    requires CleanLines(c)
    ensures SplitBlank(c) == [c]
  {
    assert c[..|c|] == c;
    SkipClean(c, c);
  }

  /** Clean texts joined by blank lines split back into those texts. */
  lemma {:induction false} SplitBlankJoin(pieces: seq<string>)
    requires pieces != []
    requires forall k :: 0 <= k < |pieces| ==> CleanLines(pieces[k])
    ensures SplitBlank(Join(pieces, "\n\n")) == pieces
    decreases |pieces|
  {
    if |pieces| == 1 {
      SplitBlankLast(pieces[0]);
    } else {
      var rest := pieces[1..];
      SplitBlankJoin(rest);
      JoinedChunks(rest);
      SplitBlankStep(pieces[0], Join(rest, "\n\n"));
    }
  }

  /**
   * Clean texts joined by blank lines hold no CRLF pair, and neither end of
   * the result is whitespace.
   */
  lemma {:induction false} JoinedChunks(pieces: seq<string>)
    requires pieces != []
    requires forall k :: 0 <= k < |pieces| ==> CleanLines(pieces[k])
    ensures var s := Join(pieces, "\n\n");
      s != [] && NoCrLf(s) && !IsWhitespace(s[0]) && !IsWhitespace(s[|s| - 1])
    decreases |pieces|
  {
    var a := pieces[0];
    assert CleanLines(a);
    if |pieces| == 1 {
      CleanNoCrLf(a);
    } else {
      JoinedChunks(pieces[1..]);
      var t := Join(pieces[1..], "\n\n");
      var s := a + "\n\n" + t;
      assert Join(pieces, "\n\n") == s;
      CleanNoCrLf(a);
      forall i | 0 <= i < |s| - 1 ensures !(s[i] == '\r' && s[i + 1] == '\n') {
        if i < |a| - 1 {
          assert s[i] == a[i] && s[i + 1] == a[i + 1];
        } else if i > |a| + 1 {
          assert s[i] == t[i - |a| - 2] && s[i + 1] == t[i - |a| - 1];
        }
      }
      assert s[|s| - 1] == t[|t| - 1];
    }
  }

  lemma CleanNoCrLf(t: string)
    requires CleanLines(t)
    ensures NoCrLf(t)
  {
    forall i | 0 <= i < |t| - 1 ensures !(t[i] == '\r' && t[i + 1] == '\n') {
      if t[i + 1] == '\n' {
        assert !IsWhitespace(t[i]);
      }
    }
  }
}
