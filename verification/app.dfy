/**
 * The rules the page applies around the services: the `.srt` name check,
 * the resume marking of a freshly parsed file, the resume-mode and
 * finished tests, the wording of errors, and the counters the progress
 * callback keeps. The page translates through the Gemini-only service.
 */
module App {
  import opened Wrappers
  import opened Strings
  import opened Srt
  import opened Translation
  import opened FileNames
  import AiService
  import GeminiService

  // ---------------------------------------------------------------------
  // The file check
  // ---------------------------------------------------------------------

  /** `file.name.toLowerCase().endsWith('.srt')`. */
  predicate IsSrtName(name: string)
  {
    EndsWith(ToLower(name), ".srt")
  }

  /** A name ending in ".srt" in any mix of cases passes the check. */
  lemma SrtSuffixAccepted(stem: string, ext: string)
    requires ToLower(ext) == ".srt"
    ensures IsSrtName(stem + ext)
  {
    ToLowerAppend(stem, ext);
    var low := ToLower(stem + ext);
    assert low == ToLower(stem) + ".srt";
    assert low[|low| - 4..] == ".srt";
  }

  /** A name ending in ".srt" passes the check. */
  lemma LowerSrtAccepted(name: string)
    requires EndsWith(name, ".srt")
    ensures IsSrtName(name)
  {
    var stem := name[..|name| - 4];
    assert name == stem + ".srt";
    SrtIsLower();
    SrtSuffixAccepted(stem, ".srt");
  }

  lemma SrtIsLower()
    ensures ToLower(".srt") == ".srt"
  {
    ToLowerKeeps(".srt");
  }

  /** Every name `generateFileName` produces passes the `.srt` check. */
  lemma GeneratedNamesAccepted(name: string, isFinished: bool, speed: Option<SpeedArg>)
    ensures IsSrtName(GenerateFileName(name, isFinished, speed))
  {
    LowerSrtAccepted(GenerateFileName(name, isFinished, speed));
  }

  /** The name `downloadSRT` gives the file: `[Partial]_` or `[Done]_` before the uploaded name. */
  function DownloadName(fileName: string, isPartial: bool): string
  {
    (if isPartial then "[Partial]" else "[Done]") + "_" + fileName
  }

  /** A downloaded file, whose uploaded name passed the check, passes it again when it is uploaded. */
  lemma DownloadNamesAccepted(fileName: string, isPartial: bool)
    requires IsSrtName(fileName)
    ensures IsSrtName(DownloadName(fileName, isPartial))
  {
    var prefix := (if isPartial then "[Partial]" else "[Done]") + "_";
    ToLowerAppend(prefix, fileName);
    var low, tail := ToLower(prefix + fileName), ToLower(fileName);
    assert low == ToLower(prefix) + tail;
    assert low[|low| - 4..] == tail[|tail| - 4..];
  }

  /** The message a rejected file sets. */
  const NotSrtError := "Chỉ chấp nhận file định dạng .SRT"

  // ---------------------------------------------------------------------
  // Resume marking
  // ---------------------------------------------------------------------

  /** A block with no Chinese character counts as done: its translation is its original text. */
  function Mark(b: SubtitleBlock): SubtitleBlock
  {
    if ContainsChinese(b.originalText) then b else b.(translatedText := Some(b.originalText))
  }

  /** `parsed.map(...)` of the marking. */
  function Marked(parsed: seq<SubtitleBlock>): seq<SubtitleBlock>
  {
    seq(|parsed|, k requires 0 <= k < |parsed| => Mark(parsed[k]))
  }

  /** How many blocks the marking counts as done. */
  function ResumedCount(parsed: seq<SubtitleBlock>): nat
  {
    if parsed == [] then 0
    else ResumedCount(parsed[..|parsed| - 1]) + (if ContainsChinese(parsed[|parsed| - 1].originalText) then 0 else 1)
  }

  /**
   * The `map` with its `resumedCount++`: one pass over the parsed blocks
   * that marks each block without Chinese and counts it.
   */
  method MarkResumed(parsed: seq<SubtitleBlock>) returns (blocks: seq<SubtitleBlock>, resumed: nat)
    ensures blocks == Marked(parsed) && resumed == ResumedCount(parsed)
  {
    blocks, resumed := [], 0;
    var k := 0;
    while k < |parsed|
      invariant 0 <= k <= |parsed|
      invariant blocks == Marked(parsed[..k]) && resumed == ResumedCount(parsed[..k])
    {
      var b := parsed[k];
      assert parsed[..k + 1][..k] == parsed[..k];
      if !ContainsChinese(b.originalText) {
        resumed := resumed + 1;
        blocks := blocks + [b.(translatedText := Some(b.originalText))];
      } else {
        blocks := blocks + [b];
      }
      assert blocks == Marked(parsed[..k + 1]);
      k := k + 1;
    }
    assert parsed[..k] == parsed;
  }

  /** Marking changes only the translation of blocks without Chinese, to their original text, and keeps every cue. */
  lemma MarkedBlocks(parsed: seq<SubtitleBlock>)
    ensures var m := Marked(parsed);
      KeepsCues(m, parsed)
      && (forall k :: 0 <= k < |parsed| && ContainsChinese(parsed[k].originalText) ==> m[k] == parsed[k])
      && (forall k :: 0 <= k < |parsed| && !ContainsChinese(parsed[k].originalText) ==>
            m[k].translatedText == Some(parsed[k].originalText))
  {
  }

  /** The count is at most the number of blocks; it is 0 exactly when every block has Chinese, and the number of blocks exactly when none has. */
  lemma {:induction false} ResumedCountBounds(parsed: seq<SubtitleBlock>)
    ensures ResumedCount(parsed) <= |parsed|
    ensures ResumedCount(parsed) == 0 <==> forall k :: 0 <= k < |parsed| ==> ContainsChinese(parsed[k].originalText)
    ensures ResumedCount(parsed) == |parsed| <==> forall k :: 0 <= k < |parsed| ==> !ContainsChinese(parsed[k].originalText)
  {
    if parsed != [] {
      var init := parsed[..|parsed| - 1];
      ResumedCountBounds(init);
      assert forall k :: 0 <= k < |init| ==> init[k] == parsed[k];
    }
  }

  /** `resumedCount > 0 && resumedCount < parsed.length`. */
  predicate IsResumeMode(resumed: nat, total: nat)
  {
    0 < resumed < total
  }

  /** The file is in resume mode exactly when it has a block with Chinese and a block without. */
  lemma ResumeModeIff(parsed: seq<SubtitleBlock>)
    ensures IsResumeMode(ResumedCount(parsed), |parsed|) <==>
      (exists k :: 0 <= k < |parsed| && ContainsChinese(parsed[k].originalText))
      && (exists k :: 0 <= k < |parsed| && !ContainsChinese(parsed[k].originalText))
  {
    ResumedCountBounds(parsed);
  }

  /** A translation `!b.translatedText` counts as missing: absent or empty. */
  predicate HasTranslation(b: SubtitleBlock)
  {
    b.translatedText.Some? && b.translatedText.value != ""
  }

  /** `blocks.filter(b => b.translatedText).length`. */
  function TranslatedCount(bs: seq<SubtitleBlock>): nat
  {
    if bs == [] then 0
    else TranslatedCount(bs[..|bs| - 1]) + (if HasTranslation(bs[|bs| - 1]) then 1 else 0)
  }

  /** What `parseSRT` gives: no translation and a non-empty original text. */
  predicate Fresh(parsed: seq<SubtitleBlock>)
  {
    forall k :: 0 <= k < |parsed| ==> parsed[k].translatedText.None? && parsed[k].originalText != ""
  }

  /** Every list `parseSRT` returns is fresh. */
  lemma ParsedFresh(content: string)
    ensures Fresh(ParsedBlocks(content))
  {
    var bs := ParsedBlocks(content);
    ParsedBlocksClean(content);
    assert forall k :: 0 <= k < |bs| ==> bs[k] in bs;
  }

  /**
   * After marking a fresh file, the blocks the multi-provider loop would
   * still send are exactly those with Chinese, and the blocks that count as
   * translated are exactly those the marking counted.
   */
  lemma {:induction false} MarkedPending(parsed: seq<SubtitleBlock>)
    requires Fresh(parsed)
    ensures forall k :: 0 <= k < |parsed| ==> (IsPending(Marked(parsed)[k]) <==> ContainsChinese(parsed[k].originalText))
    ensures TranslatedCount(Marked(parsed)) == ResumedCount(parsed)
  {
    if parsed != [] {
      var init := parsed[..|parsed| - 1];
      MarkedPending(init);
      assert Marked(parsed) == Marked(init) + [Mark(parsed[|parsed| - 1])];
      assert Marked(parsed)[..|parsed| - 1] == Marked(init);
    }
  }

  /** `blocks.length > 0 && blocks.every(b => !!b.translatedText && !containsChinese(b.translatedText))`. */
  predicate IsFinished(bs: seq<SubtitleBlock>)
  {
    |bs| > 0 && forall k :: 0 <= k < |bs| ==> HasTranslation(bs[k]) && !ContainsChinese(bs[k].translatedText.value)
  }

  /** A fresh file loads as finished exactly when it has blocks and none of them holds Chinese. */
  lemma LoadedFinished(parsed: seq<SubtitleBlock>)
    requires Fresh(parsed)
    ensures IsFinished(Marked(parsed)) <==> |parsed| > 0 && ResumedCount(parsed) == |parsed|
  {
    ResumedCountBounds(parsed);
    var m := Marked(parsed);
    if IsFinished(m) {
      forall k | 0 <= k < |parsed| ensures !ContainsChinese(parsed[k].originalText) {
        assert HasTranslation(m[k]);
      }
    }
  }

  /** What the upload does to the page: an error, or the loaded blocks with the counters set from the marking. */
  datatype Upload =
    | Rejected(error: string)
    | Loaded(fileName: string, blocks: seq<SubtitleBlock>, resumeMode: bool, progress: nat, total: nat, translatedBlocks: nat)

  /** The state the upload of `content` under `name` leads to. */
  function UploadOf(name: string, content: string): Upload
  {
    if !IsSrtName(name) then Rejected(NotSrtError)
    else
      var parsed := ParsedBlocks(content);
      var resumed := ResumedCount(parsed);
      Loaded(name, Marked(parsed), IsResumeMode(resumed, |parsed|), resumed, |parsed|, resumed)
  }

  /**
   * `processFile` with the file's text already read: a name that fails the
   * check sets the error and nothing is parsed; otherwise the text is
   * parsed, marked and counted.
   */
  method ProcessFile(name: string, content: string) returns (u: Upload)
    ensures u == UploadOf(name, content)
  {
    if !EndsWith(ToLower(name), ".srt") {
      return Rejected(NotSrtError);
    }
    var parsed := ParseSrt(content);
    var blocks, resumed := MarkResumed(parsed);
    u := Loaded(name, blocks, resumed > 0 && resumed < |parsed|, resumed, |parsed|, resumed);
  }

  /**
   * A loaded file: every block is a parsed cue; the blocks still to send
   * are exactly those with Chinese; the progress and the translated-block
   * counter equal the number of blocks with a translation; the file is in
   * resume mode exactly when some blocks are done and some are not.
   */
  lemma UploadProperties(name: string, content: string)
    requires IsSrtName(name)
    ensures var u := UploadOf(name, content);
      var parsed := ParsedBlocks(content);
      u.Loaded? && KeepsCues(u.blocks, parsed) && u.total == |u.blocks|
      && (forall k :: 0 <= k < |u.blocks| ==> (IsPending(u.blocks[k]) <==> ContainsChinese(parsed[k].originalText)))
      && u.progress == u.translatedBlocks == TranslatedCount(u.blocks) <= u.total
      && (u.resumeMode <==> 0 < TranslatedCount(u.blocks) < u.total)
  {
    var parsed := ParsedBlocks(content);
    ParsedFresh(content);
    MarkedBlocks(parsed);
    MarkedPending(parsed);
    ResumedCountBounds(parsed);
  }

  // ---------------------------------------------------------------------
  // Error messages
  // ---------------------------------------------------------------------

  /** The three messages the title analysis can show. */
  datatype AnalyzeNotice = AnalyzeQuota | InvalidKey | AnalyzeFailed

  /** The two messages an interrupted translation can show. */
  datatype TranslateNotice = TranslateQuota | Interrupted

  /** The quota test both handlers apply to the error's `toString()`. */
  predicate IsQuotaError(error: string)
  {
    Contains(error, "429") || Contains(ToLower(error), "quota") || Contains(ToLower(error), "resource_exhausted")
  }

  function ClassifyAnalyzeError(error: string): AnalyzeNotice
  {
    if IsQuotaError(error) then AnalyzeQuota
    else if Contains(error, "401") || Contains(error, "403") then InvalidKey
    else AnalyzeFailed
  }

  function ClassifyTranslateError(error: string): TranslateNotice
  {
    if IsQuotaError(error) then TranslateQuota else Interrupted
  }

  function AnalyzeMessage(n: AnalyzeNotice): string
  {
    match n
    case AnalyzeQuota => "Hết hạn mức API (429 Quota Exceeded). Vui lòng kiểm tra gói dịch vụ hoặc thử lại sau 1 phút."
    case InvalidKey => "API Key không hợp lệ hoặc đã hết hạn."
    case AnalyzeFailed => "Lỗi phân tích tiêu đề. Vui lòng thử lại."
  }

  function TranslateMessage(n: TranslateNotice): string
  {
    match n
    case TranslateQuota =>
      "Lỗi 429: Hết hạn mức API. Hệ thống đã thử lại 3 lần nhưng không thành công. Vui lòng tải file dở dang về, chờ 1 phút rồi upload lại để dịch tiếp."
    case Interrupted => "Quá trình dịch bị gián đoạn. Hãy tải file dở dang về và gửi lại sau."
  }

  /**
   * The two handlers agree on what a quota error is; the quota test comes
   * first, so an error naming both a quota and 401 or 403 is shown as a
   * quota error; a key error is shown only for an error that is not a quota
   * error and names 401 or 403.
   */
  lemma ClassificationsAgree(error: string)
    ensures ClassifyAnalyzeError(error) == AnalyzeQuota <==> ClassifyTranslateError(error) == TranslateQuota
    ensures ClassifyAnalyzeError(error) == InvalidKey <==>
      !IsQuotaError(error) && (Contains(error, "401") || Contains(error, "403"))
    ensures ClassifyTranslateError(error) == Interrupted <==> ClassifyAnalyzeError(error) != AnalyzeQuota
  {
  }

  /** A quota word in any mix of cases, say "QUOTA" or Gemini's "RESOURCE_EXHAUSTED", gives the quota message in both handlers. */
  lemma QuotaInAnyCase(error: string, word: string)
    requires Contains(error, word) && (ToLower(word) == "quota" || ToLower(word) == "resource_exhausted")
    ensures ClassifyAnalyzeError(error) == AnalyzeQuota && ClassifyTranslateError(error) == TranslateQuota
  {
    ToLowerContains(error, word);
  }

  /** An error `withRetry` retries because of a 429 or a quota gives the quota message once the retries run out. */
  lemma RetriedQuotaShown(error: string)
    requires Contains(error, "429") || Contains(ToLower(error), "quota")
    ensures AiService.IsRetryable(error)
    ensures ClassifyAnalyzeError(error) == AnalyzeQuota && ClassifyTranslateError(error) == TranslateQuota
  {
  }

  // ---------------------------------------------------------------------
  // The progress callback
  // ---------------------------------------------------------------------

  /** `Math.max(0, count - lastProgress)`. */
  function NewlyTranslated(last: nat, count: nat): nat
  {
    if count > last then count - last else 0
  }

  /** What the counter gains over the callbacks `counts` from `last` on, as written: `lastProgress` becomes each count in turn. */
  function TallyAsWritten(last: nat, counts: seq<nat>): nat
    decreases |counts|
  {
    if counts == [] then 0 else NewlyTranslated(last, counts[0]) + TallyAsWritten(counts[0], counts[1..])
  }

  /** What the counter gains when `lastProgress` only ever moves up. */
  function TallyCorrected(last: nat, counts: seq<nat>): nat
    decreases |counts|
  {
    if counts == [] then 0 else NewlyTranslated(last, counts[0]) + TallyCorrected(Max(last, counts[0]), counts[1..])
  }

  /** The largest of `last` and the counts. */
  function Peak(last: nat, counts: seq<nat>): (r: nat)
    decreases |counts|
  {
    if counts == [] then last else Peak(Max(last, counts[0]), counts[1..])
  }

  /** The peak is the largest: at least `last` and every count, and one of them. */
  lemma {:induction false} PeakIsLargest(last: nat, counts: seq<nat>)
    ensures Peak(last, counts) >= last && forall j :: 0 <= j < |counts| ==> Peak(last, counts) >= counts[j]
    ensures Peak(last, counts) == last || exists j :: 0 <= j < |counts| && Peak(last, counts) == counts[j]
    decreases |counts|
  {
    if counts != [] {
      PeakIsLargest(Max(last, counts[0]), counts[1..]);
      assert forall j :: 1 <= j < |counts| ==> counts[j] == counts[1..][j - 1];
    }
  }

  /** With `lastProgress` moving only up, the counter gains exactly how far the peak lies above where it started, whatever the counts. */
  lemma {:induction false} TallyCorrectedPeak(last: nat, counts: seq<nat>)
    ensures TallyCorrected(last, counts) == Peak(last, counts) - last
    decreases |counts|
  {
    PeakIsLargest(last, counts);
    if counts != [] {
      TallyCorrectedPeak(Max(last, counts[0]), counts[1..]);
      PeakIsLargest(Max(last, counts[0]), counts[1..]);
    }
  }

  /** Counts that increase strictly. */
  predicate Increasing(counts: seq<nat>)
  {
    forall j, j' :: 0 <= j < j' < |counts| ==> counts[j] < counts[j']
  }

  /** As written, over increasing counts, the counter gains what the first callback adds plus the distance from the first count to the last. */
  lemma {:induction false} TallyAsWrittenIncreasing(last: nat, counts: seq<nat>)
    requires counts != [] && Increasing(counts)
    ensures TallyAsWritten(last, counts) == NewlyTranslated(last, counts[0]) + (counts[|counts| - 1] - counts[0])
    decreases |counts|
  {
    if |counts| > 1 {
      var rest := counts[1..];
      assert Increasing(rest) by {
        assert forall j :: 0 <= j < |rest| ==> rest[j] == counts[j + 1];
      }
      TallyAsWrittenIncreasing(counts[0], rest);
      assert counts[0] < rest[0];
    }
  }

  /**
   * The counter as written overshoots: when the first callback's count is
   * below the number of blocks already translated, a run that reports up to
   * `n` leaves the counter above `n`.
   */
  lemma TallyAsWrittenOvershoots(start: nat, counts: seq<nat>)
    requires counts != [] && Increasing(counts) && counts[0] < start <= counts[|counts| - 1]
    ensures start + TallyAsWritten(start, counts) > counts[|counts| - 1]
  {
    TallyAsWrittenIncreasing(start, counts);
  }

  /**
   * 40 blocks of which the last 20 hold no Chinese: the page starts the
   * counter and `lastProgress` at 20, the chunks of 15 report 15, 30 and 40,
   * and the counter ends at 45.
   */
  lemma OvershootExample()
    ensures 20 + TallyAsWritten(20, [15, 30, 40]) == 45
  {
    assert [15, 30, 40][1..] == [30, 40];
    assert [30, 40][1..] == [40];
    assert [40][1..] == [];
  }

  /** With `lastProgress` moving only up, a counter that starts at `lastProgress` ends at the last count of a run that ends at the largest count. */
  lemma TallyCorrectedEndsAtTotal(start: nat, counts: seq<nat>, n: nat)
    requires start <= n && counts != [] && counts[|counts| - 1] == n
    requires forall j :: 0 <= j < |counts| ==> counts[j] <= n
    ensures start + TallyCorrected(start, counts) == n
  {
    TallyCorrectedPeak(start, counts);
    PeakIsLargest(start, counts);
  }

  /** The session counters `startTranslation` keeps while the service reports progress. */
  class ProgressTracker {
    var lastProgress: nat
    var progress: nat
    var requests: nat
    var totalTokens: nat
    var translatedBlocks: nat

    /** The counters at the start of a translation: `lastProgress` is the number of blocks with a translation. */
    constructor (blocks: seq<SubtitleBlock>, progress0: nat, requests0: nat, totalTokens0: nat, translatedBlocks0: nat)
      ensures lastProgress == TranslatedCount(blocks)
      ensures progress == progress0 && requests == requests0 && totalTokens == totalTokens0
      ensures translatedBlocks == translatedBlocks0
    {
      lastProgress := TranslatedCount(blocks);
      progress := progress0;
      requests := requests0;
      totalTokens := totalTokens0;
      translatedBlocks := translatedBlocks0;
    }

    /**
     * One `onProgress(count, tokens)`: the progress shows `count`, one more
     * request and `tokens` more tokens are counted, the counter gains what
     * lies above `lastProgress`, and `lastProgress` moves up to `count`.
     */
    method OnProgress(count: nat, tokens: nat)
      modifies this
      ensures progress == count && requests == old(requests) + 1 && totalTokens == old(totalTokens) + tokens
      ensures translatedBlocks == old(translatedBlocks) + NewlyTranslated(old(lastProgress), count)
      ensures lastProgress == Max(old(lastProgress), count)
    {
      translatedBlocks := translatedBlocks + NewlyTranslated(lastProgress, count);
      lastProgress := Max(lastProgress, count);
      progress := count;
      requests := requests + 1;
      totalTokens := totalTokens + tokens;
    }

    /** The callbacks of one run, in order. */
    method Replay(events: seq<Progress>)
      modifies this
      ensures translatedBlocks == old(translatedBlocks) + TallyCorrected(old(lastProgress), Counts(events))
      ensures lastProgress == Peak(old(lastProgress), Counts(events))
      ensures requests == old(requests) + |events| && totalTokens == old(totalTokens) + Tokens(events)
      ensures progress == if events == [] then old(progress) else events[|events| - 1].count
    {
      var k := 0;
      while k < |events|
        invariant 0 <= k <= |events|
        invariant translatedBlocks + TallyCorrected(lastProgress, Counts(events[k..]))
                  == old(translatedBlocks) + TallyCorrected(old(lastProgress), Counts(events))
        invariant Peak(lastProgress, Counts(events[k..])) == Peak(old(lastProgress), Counts(events))
        invariant requests == old(requests) + k
        invariant totalTokens + Tokens(events[k..]) == old(totalTokens) + Tokens(events)
        invariant progress == if k == 0 then old(progress) else events[k - 1].count
      {
        var rest := Counts(events[k..]);
        assert rest[0] == events[k].count && rest[1..] == Counts(events[k + 1..]);
        assert events[k..][1..] == events[k + 1..];
        OnProgress(events[k].count, events[k].tokens);
        k := k + 1;
      }
      assert events[k..] == [];
      assert events[..] == events[0..];
    }
  }

  /** The tokens the progress calls report, added up. */
  function Tokens(events: seq<Progress>): nat
  {
    if events == [] then 0 else events[0].tokens + Tokens(events[1..])
  }

  /**
   * A run of either service's loop over the page's blocks that does not
   * rethrow leaves the corrected counter at the number of blocks, when it
   * started at the number of blocks with a translation.
   */
  lemma RunCountsEveryBlock(size: nat, filter: bool, call: Request -> Attempt<Response>, bs: seq<SubtitleBlock>)
    requires size > 0 && bs != []
    ensures var r := RunFrom(size, filter, call, bs, 0);
      var start := TranslatedCount(bs);
      r.failure.None? ==> start + TallyCorrected(start, Counts(r.events)) == |bs|
  {
    var r := RunFrom(size, filter, call, bs, 0);
    ProgressIncreases(size, filter, call, bs);
    TranslatedCountBound(bs);
    if r.failure.None? {
      var c := Counts(r.events);
      TallyCorrectedEndsAtTotal(TranslatedCount(bs), c, |bs|);
    }
  }

  lemma {:induction false} TranslatedCountBound(bs: seq<SubtitleBlock>)
    ensures TranslatedCount(bs) <= |bs|
  {
    if bs != [] {
      TranslatedCountBound(bs[..|bs| - 1]);
    }
  }
}
