# Donghua subtitle translator: a Dafny model of its core

This project models the logic of a web application that translates Chinese
donghua subtitles (SubRip `.srt` files) into Vietnamese. It covers four parts.

- **`utils/srtParser.ts`** converts between `HH:MM:SS,mmm` timestamps and
  milliseconds. It parses `.srt` text into blocks and writes blocks back. It
  rescales every timestamp by a playback speed. It applies the
  `[Speed-x]` / `[Translated]` / `[Partial-N]` file-name versioning rules.
- **`services/aiService.ts`** picks the provider from the model name and
  maps model names to model ids. Its `withRetry` policy retries quota and
  server errors, with the delay doubling each time. Its `translateSubtitles`
  works in chunks of 8. For each chunk it sends only the blocks that still
  need the model, and merges the `{id, translated}` results back into the
  blocks.
- **`services/geminiService.ts`** has its own `translateSubtitles`, which the
  application actually uses. It works in chunks of 15, sends every block and
  never retries.
- **`App.tsx`** holds the rules inside the user-interface handlers:
  - the CJK test;
  - the `.srt` name check;
  - marking blocks with no CJK character as already translated, and resume
    mode;
  - the "finished" test;
  - how errors become messages;
  - the counter of translated blocks that the progress callback keeps.

The hosted model is an oracle: a function from the request (plus the call
number, for the retrying service) to either a reply or a thrown error. The
model name and the key are part of the call. `JSON.parse` of the reply is a
parameter `parse` that gives either a list of items or an error.

The blocks live in one `array<SubtitleBlock>`. The source copies the array
with `[...blocks]` but shares the block objects with the caller. A write to
`translatedBlocks[k].translatedText` is therefore a write the caller sees,
and that is how the methods update the array. Each loop method is proved
equal to a function, `Translation.RunFrom`, over the blocks it started with.
That function gives the final blocks, the `onProgress` calls, the requests
sent and the error rethrown, if any. The lemmas state what the source
promises about that run.

Modules, one per file:

| module | contents |
|---|---|
| `Wrappers` | `Option`, `Min`, `Max` |
| `Strings` | JavaScript string operations: `trim` (ECMAScript white space), `split`, `join`, `includes`, `startsWith`, `toLowerCase`, `padStart`, number to text, `/[一-龥]/` |
| `Timestamp` | `timestampToMs`, `msToTimestamp`, the JavaScript floating-point steps in `msToTimestamp` |
| `Srt` | the block, `parseSRT` (a function and a loop method), `stringifySRT`, `adjustSrtTiming` |
| `SrtRoundTrip` | parsing what `stringifySRT` writes |
| `FileNames` | `generateFileName` |
| `Translation` | the oracle types, the merge, the chunk loop both services share |
| `AiService` | `getProvider`, `MAP_MODEL_ID`, `withRetry`, key selection, `translateSubtitles` with chunks of 8 |
| `GeminiService` | `translateSubtitles` with chunks of 15 |
| `App` | the file check, resume marking, upload, error messages, the progress counter |

Where the specification of the system and the code disagree, the model
follows the code:

- **msToTimestamp on negative input.** The specification says
  `msToTimestamp` clamps negative input to zero. The code has no clamp, and
  `adjustSrtTiming` does not check the speed. The model follows the code. A
  negative speed gives a negative time, whose fields are written negative,
  as JavaScript writes them (`-1:-1:-1,-500` for 1000 ms at speed -2). A
  speed of 0 gives `Infinity:NaN:NaN,NaN`, or `NaN:NaN:NaN,NaN` for a time of
  0.
- **The timestamp round trip.** The specification says
  `timestampToMs(msToTimestamp(ms)) == ms` for every `ms >= 0`. The regex in
  `timestampToMs` is not anchored, so for 100 hours or more it reads the
  last two hour digits. `Timestamp.TimestampRoundTrip` proves what the code
  does: the result is `ms % 360000000`. `TimestampRoundTripBelowWrap` proves
  the exact round trip below 100 hours.
- **Retries behind the quota message.** The translation quota message says
  the system retried 3 times. `App.tsx` imports `translateSubtitles` from
  `geminiService.ts`, which makes one call per chunk and never retries. The
  retrying `aiService.ts` would make at most 3 attempts: `withRetry` starts
  with `retries = 2`.
- **The progress counter.** `App.ProgressTracker.OnProgress` models the
  corrected progress counter. See "Findings".

## Model

| member | source | states |
|---|---|---|
| Timestamp.ValueAt | utils/srtParser.ts:10-11 | the value `h*3600000 + m*60000 + s*1000 + ms` of a match is at most 362,439,999 |
| Timestamp.TimestampToMs | utils/srtParser.ts:7-12 | no `DD:DD:DD,DDD` substring gives 0; otherwise the value of the leftmost match (unanchored regex); always at most 362,439,999 |
| Timestamp.FirstPatternIsLeftmost | utils/srtParser.ts:8 | the scan finds exactly the leftmost match, and none when no position matches |
| Timestamp.ClockFormat | utils/srtParser.ts:22 | the text written for `h, m, s, x` ends in `HH:MM:SS,mmm` with the last two hour digits; it is 12 characters exactly when `h < 100`; it has no space |
| Timestamp.MsToTimestampFormat | utils/srtParser.ts:17-23 | minutes and seconds are below 60 and the fields are zero-padded 2/2/2/3; hours are padded, never truncated, so the text is 12 characters exactly when `ms < 360000000` |
| Timestamp.TimestampRoundTrip | utils/srtParser.ts:7-23 | `timestampToMs(msToTimestamp(ms)) == ms % 360000000` for every `ms >= 0` |
| Timestamp.TimestampRoundTripBelowWrap | utils/srtParser.ts:7-23 | `timestampToMs(msToTimestamp(ms)) == ms` for `0 <= ms < 360000000` |
| Timestamp.MsToTimestamp | utils/srtParser.ts:17-23 | definition for a whole number of milliseconds; properties in `MsToTimestampFormat` and `TimestampRoundTrip` |
| Timestamp.MsToTimestampOf | utils/srtParser.ts:17-23 | definition for any real time, negative ones included (`Math.floor`, JavaScript `%`, `toString`, `padStart`); properties in `MsToTimestampOfFloor` and `NegativeTimeSign` |
| Timestamp.MsToTimestampOfNoSpace | utils/srtParser.ts:17-23 | for any real time the text has no space and is at least 12 characters long |
| Timestamp.NegativeTimeSign | utils/srtParser.ts:17-23 | a negative time is written with a negative hour field, so the text starts with `-` |
| Timestamp.MsToTimestampOfFloor | utils/srtParser.ts:17-23 | `msToTimestamp` of a non-negative real (`startMs / speed`) writes the same text as for its floor |
| Timestamp.JsRem | utils/srtParser.ts:19-21 | JavaScript `%` takes the sign of the dividend: on a non-negative real it lies in `[0, n)`, on a non-positive one in `(-n, 0]` |
| Timestamp.FloorOfQuotient | utils/srtParser.ts:18 | `Math.floor(x / n) == floor(x) div n` for real `x >= 0` |
| Timestamp.FloorOfRemainder | utils/srtParser.ts:19-21 | `Math.floor((x % n) / d) == floor(x) mod n div d` |
| Srt.StringifySrt | utils/srtParser.ts:133-137 | definition; properties in `BlockTexts`, `StringifySrtShape` and the `SrtRoundTrip` lemmas |
| Srt.BlockTexts | utils/srtParser.ts:135 | one `index\ntimestamp\ntext` per block, in order, with the translation preferred when it is non-empty |
| Srt.StringifySrtShape | utils/srtParser.ts:133-137 | `[]` gives `""`, one block gives its text, and further blocks follow after exactly one blank line, with nothing trailing |
| Srt.ReplaceCrLf | utils/srtParser.ts:115 | replacing `\r\n` never lengthens the text and leaves text without `\r\n` unchanged |
| Srt.BlankMatchEnd | utils/srtParser.ts:116 | a match of `\n\s*\n` at `q` starts and ends with a newline with only white space between |
| Srt.TrimEach | utils/srtParser.ts:119 | each line is trimmed, in place |
| Srt.DropEmpty | utils/srtParser.ts:119 | the filter keeps exactly the non-empty lines |
| Srt.NonBlankLinesClean | utils/srtParser.ts:119 | every kept line is non-empty, trimmed and has no newline |
| Srt.ParsedBlocks | utils/srtParser.ts:113-131 | definition of the parse; properties in `ParsedBlocksClean`, `BlockOfIff`, `BlocksOfAppend` and the `SrtRoundTrip` lemmas |
| Srt.ParseSrt | utils/srtParser.ts:113-131 | the loop returns the parse of the text; every block has a non-empty trimmed one-line index and timestamp, text made of non-empty trimmed lines, and no translation |
| Srt.ParseChunks | utils/srtParser.ts:118-129 | the loop over the chunks pushes exactly the blocks of the chunks, in chunk order |
| Srt.BlocksOfStep | utils/srtParser.ts:118-129 | one more chunk adds its block, if it has one, after the blocks already pushed |
| Srt.BlockOfIff | utils/srtParser.ts:119-127 | a chunk yields a block exactly when it has at least 3 non-blank lines; the block is lines 0 and 1 and the rest joined with `\n` |
| Srt.BlockOfClean | utils/srtParser.ts:119-126 | a block read from a chunk has a clean index, timestamp and text and no translation |
| Srt.BlocksOfCons | utils/srtParser.ts:118-129 | the first chunk's block comes first |
| Srt.BlocksOfAppend | utils/srtParser.ts:118-129 | parsing keeps chunk order: the blocks of `xs + ys` are those of `xs` then those of `ys` |
| Srt.BlocksOfLength | utils/srtParser.ts:118-129 | at most one block per chunk: chunks are dropped, never split |
| Srt.ParsedBlocksClean | utils/srtParser.ts:113-131 | every parsed block has a clean one-line index and timestamp, clean text lines, and no translation |
| Srt.BlocksOfClean | utils/srtParser.ts:118-129 | the same, for the blocks of any list of chunks |
| Srt.TrimKeepsNoNewline | utils/srtParser.ts:119 | a non-empty trimmed piece of a line is a clean line |
| Srt.JoinCleanLines | utils/srtParser.ts:123 | joining clean lines with `\n` gives clean text lines |
| Srt.Rescaled | utils/srtParser.ts:35-39 | definition for any speed; properties in `RescaledReads` and `RescaledOddSpeeds` |
| Srt.RescaledOddSpeeds | utils/srtParser.ts:35-39 | speed 0 writes `Infinity:NaN:NaN,NaN`, or `NaN:NaN:NaN,NaN` for a time of 0; a negative speed writes a non-zero time with a leading `-` |
| Srt.AdjustBlock | utils/srtParser.ts:32-44 | definition; properties in `AdjustBlockSplits`, `AdjustBlockTimestamp` and `AdjustSrtTiming` |
| Srt.AdjustBlockSplits | utils/srtParser.ts:32-44 | at every speed, a two-part timestamp is rewritten to the two rescaled ends, which split apart again on `" --> "` |
| Srt.Scaled | utils/srtParser.ts:38-39 | `ms / speed` is the non-negative real whose product with the speed is `ms` |
| Srt.AdjustSrtTiming | utils/srtParser.ts:29-46 | for every speed: speed 1 returns the blocks unchanged; otherwise the length is kept, index, text and translation are kept, and a timestamp that does not split in two on `" --> "` leaves its block as it is |
| Srt.RescaledReads | utils/srtParser.ts:35-39 | for a positive speed, the rewritten timestamp reads back as `floor(ms / speed)` modulo 100 hours |
| Srt.AdjustBlockTimestamp | utils/srtParser.ts:32-44 | for a positive speed, the rewritten timestamp splits in two again, and each half reads back as its old value divided by the speed |
| Srt.AdjustSrtTimingReads | utils/srtParser.ts:29-46 | the same, stated for the k-th block of the list |
| Srt.SplitAroundArrow | utils/srtParser.ts:32 | `a + " --> " + c` splits into exactly `[a, c]` when `a` and `c` have no space |
| SrtRoundTrip.Reread | utils/srtParser.ts:113-137 | the blocks a re-parse is expected to give, one per block |
| SrtRoundTrip.ParseStringify | utils/srtParser.ts:113-137 | parsing what `stringifySRT` writes gives back every block's index and timestamp, with its effective text as the original text and no translation, provided the fields are clean |
| SrtRoundTrip.ParseIdempotent | utils/srtParser.ts:113-137 | writing parsed blocks and parsing again gives the same blocks |
| SrtRoundTrip.RereadUntranslated | utils/srtParser.ts:113-137 | for untranslated clean blocks the round trip is the identity |
| SrtRoundTrip.BlockOfBlockText | utils/srtParser.ts:119-135 | the text written for one clean block parses back to that block |
| SrtRoundTrip.SplitBlankJoin | utils/srtParser.ts:116 | splitting text joined with blank lines on `\n\s*\n` gives back the pieces, when the pieces are clean |
| SrtRoundTrip.BlocksOfTexts | utils/srtParser.ts:118-135 | the chunks written for clean blocks parse to the expected blocks, in order |
| FileNames.LastDot | utils/srtParser.ts:85 | the last `.` of a name, or none |
| FileNames.StripExtension | utils/srtParser.ts:85 | `/\.[^/.]+$/` removes the last extension (a dot with no `/` or `.` after it, and at least one character); otherwise the name is kept |
| FileNames.StripExtensionSrt | utils/srtParser.ts:85 | the name before an added `.srt` is recovered exactly |
| FileNames.PartialTagOf | utils/srtParser.ts:101 | a `[Partial]` / `[Partial-N]` prefix match ends inside the name, and its group is digits |
| FileNames.GenerateFileName | utils/srtParser.ts:84-111 | every generated name ends in `.srt` |
| FileNames.SpeedRenaming | utils/srtParser.ts:88-92 | renaming for a second speed replaces the first `[Speed-…]` prefix instead of adding one |
| FileNames.SpeedRenamingStable | utils/srtParser.ts:88-92 | renaming for speed `s1` then `s2` is the same as renaming for `s2` directly |
| FileNames.PartialSuccessor | utils/srtParser.ts:100-110 | an unfinished save raises the `[Partial]` level by one (exactly as JavaScript does for levels below 2^53) (none to `[Partial]`, `[Partial]` to `[Partial-2]`, `[Partial-N]` to `[Partial-(N+1)]`) and keeps the rest of the name |
| FileNames.FinishAfterPartial | utils/srtParser.ts:95-110 | finishing after a partial save gives the same name as finishing directly |
| FileNames.FinishedIsNotPartial | utils/srtParser.ts:95-98 | a finished name starts with `[Translated] ` and has no `[Partial…]` prefix |
| AiService.GetProvider | services/aiService.ts:8-10 | definition; properties in `ProviderOfGpt` and `CallsUseModel` |
| AiService.MapModelId | services/aiService.ts:15-23 | definition; properties in `MapModelIdProperties`, `ProIdWords` and `FlashIdWords` |
| AiService.ProviderOfGpt | services/aiService.ts:8-10 | a model name containing `gpt` in any ASCII case is an OpenAI model |
| AiService.ProIdWords | services/aiService.ts:18 | the pro id is lower case, contains `gemini` and `pro`, and not `gpt` |
| AiService.FlashIdWords | services/aiService.ts:19-20 | the flash id is lower case, contains `gemini`, and neither `pro` nor `gpt` |
| AiService.MapModelIdProperties | services/aiService.ts:15-23 | names without `gemini` are kept; Gemini names map to the pro id if they contain `pro`, else the flash id; the mapping is idempotent and keeps Gemini names with Gemini |
| AiService.IsRetryable | services/aiService.ts:30 | definition; properties in `QuietNotRetryable`, `KeyErrorNotRetryable` and `App.RetriedQuotaShown` |
| AiService.RetryFrom | services/aiService.ts:25-38 | definition of the retry recursion; properties in `RetryShape` |
| AiService.WithRetry | services/aiService.ts:25-38 | definition with the defaults `retries = 2`, `delay = 2000`; properties in `DefaultRetries` |
| AiService.RetryShape | services/aiService.ts:25-38 | at most `retries` waits; only retryable errors are retried; the result is the first attempt that returns or throws a non-retryable error, or the last allowed attempt; each delay doubles the one before |
| AiService.DefaultRetries | services/aiService.ts:25-38 | by default the waits are a prefix of 2000, 4000, so there are at most 3 attempts; a non-retryable first error is thrown after one attempt |
| AiService.QuietNotRetryable | services/aiService.ts:30 | text with none of `4`, `5`, `q`, `Q` is not retryable |
| AiService.KeyErrorNotRetryable | services/aiService.ts:30 | the OpenAI key error is never retried |
| AiService.GeminiKeyRejected | services/aiService.ts:43-48 | an OpenAI call with a Gemini key (`AIza…`) throws the key error at once, with no retry and no call to the model |
| AiService.ProviderCall | services/aiService.ts:200-226 | definition of one Gemini or OpenAI call; properties in `CallsUseModel` and `GeminiKeyRejected` |
| AiService.ChunkCall | services/aiService.ts:196-228 | definition; properties in `ChunkCallParses` |
| AiService.ChunkCallParses | services/aiService.ts:196-228 | a chunk's call throws exactly when the retried call does; otherwise it parses the reply text (`"[]"` for an empty one) and reports its tokens |
| AiService.CallsUseModel | services/aiService.ts:200-226 | Gemini calls go to the mapped model id; OpenAI calls with a usable key go to the model name as given |
| AiService.ApiKey | services/aiService.ts:176-179 | OpenAI uses only the custom key; Gemini falls back to the environment key; there is no key exactly when neither usable key applies |
| AiService.TranslateSubtitles | services/aiService.ts:169-243 | with no key it throws `Thiếu API KEY.` before touching a chunk; otherwise it is the shared chunk loop with chunks of 8, sending only pending blocks, through the selected provider |
| AiService.GeminiKeyStopsRun | services/aiService.ts:44-48 | an OpenAI run with a Gemini key leaves the blocks unchanged and, if it fails, fails with the key error after one request |
| Translation.PromptLines | services/aiService.ts:194 | the prompt data has one `{id: index, text: originalText}` per block, in order |
| Translation.FirstIndexFinds | services/aiService.ts:230 | `findIndex` gives the first block whose index equals the id, or none when no block has it |
| Translation.FindIndex | services/aiService.ts:230 | the loop gives `-1` or a valid position, agreeing with the first-match function |
| Translation.Merge | services/aiService.ts:228-232 | definition of the `forEach` merge; properties in `MergeSameCues`, `MergeCompletes` and `MergeEffect` |
| Translation.MergeSameCues | services/aiService.ts:228-232 | the merge changes only `translatedText`: index, timestamp and original text stay as they were |
| Translation.MergeCompletes | services/aiService.ts:228-232 | the `forEach` runs to the end exactly when no result element is `null` |
| Translation.MergeInto | services/aiService.ts:228-232 | the in-place merge of the array leaves exactly the blocks of the merge function |
| Translation.LastTranslation | services/aiService.ts:229-231 | the translation left for an id is the last entry naming it, or none |
| Translation.MergeEffect | services/aiService.ts:228-232 | a completed merge gives the first block with each index the last translation for it; unknown ids and later repeated indexes are ignored |
| Translation.IsPending | services/aiService.ts:187 | definition; properties in `PendingMembers` and `App.MarkedPending` |
| Translation.PendingMembers | services/aiService.ts:187 | the filter keeps exactly the chunk's pending blocks |
| Translation.ChunkStep | services/aiService.ts:185-239 | definition of one pass; properties in `ChunkStepSends` and `ChunkStepSameCues` |
| Translation.ChunkStepSends | services/aiService.ts:185-234 | one pass reports `min(i + size, n)`; it sends at most one request; with the filter it sends the pending blocks, or nothing and reports 0 tokens when none is pending; without it, it sends the whole chunk |
| Translation.ChunkStepSameCues | services/aiService.ts:228-232 | one pass keeps every block's cue |
| Translation.ChunksPartition | services/geminiService.ts:76-77 | the chunks, in order, are exactly the blocks from the start; each is non-empty and at most `size`, and all but the last are full |
| Translation.ChunkRequestsCover | services/geminiService.ts:76-94 | one request per chunk, each carrying the prompt data of its chunk |
| Translation.ChunkEndsIncrease | services/aiService.ts:185-190 | the reported ends strictly increase, lie in `(i, n]`, and the last is `n` |
| Translation.RunFrom | services/aiService.ts:185-243 | definition of the loop; properties in `RunSameCues`, `RunReports`, `ProgressIncreases` and `RunStops` |
| Translation.RunSameCues | services/aiService.ts:182-243 | the loop keeps the number, order and cue of every block |
| Translation.RunReports | services/aiService.ts:185-239 | the loop's progress counts are the chunk ends in order, one per completed chunk, and its requests are those of the chunks it reached |
| Translation.ProgressIncreases | services/aiService.ts:185-234 | the progress counts strictly increase and lie in `(0, n]`; a run that does not fail ends at `n` |
| Translation.RunStops | services/aiService.ts:236-239 | a failing chunk ends the run with its error, and no later chunk runs |
| Translation.TranslateChunks | services/aiService.ts:185-242 | the loop over the array is the run function: final blocks, progress calls, requests sent and the error rethrown |
| Translation.NextChunk | services/aiService.ts:186-239 | one pass of the loop either stops the run with its error or carries the loop invariant to the next chunk |
| Translation.TranslateChunk | services/aiService.ts:186-234 | the body for one chunk, in place, follows the one-pass function |
| GeminiService.ChunkCall | services/geminiService.ts:100-120 | definition of one call and parse; properties in `ThrowStops` |
| GeminiService.TranslateSubtitles | services/geminiService.ts:66-137 | the shared loop with chunks of 15, every block sent, through the model as named |
| GeminiService.RunProperties | services/geminiService.ts:73-136 | the run keeps cues; its chunks of 15 partition the blocks; request k carries chunk k's data; the requests are the progress calls plus one on failure; counts strictly increase and end at `n` on success |
| GeminiService.ThrowStops | services/geminiService.ts:99-133 | a chunk whose call throws rethrows that error, reports no progress for it, and stops the loop |
| Strings.ContainsChinese | App.tsx:68 | definition; properties in `ContainsChineseIff` |
| Strings.ContainsChineseIff | App.tsx:68 | the CJK test holds exactly when some character lies in U+4E00 to U+9FA5 |
| App.IsSrtName | App.tsx:96 | definition; properties in `SrtSuffixAccepted`, `LowerSrtAccepted`, `GeneratedNamesAccepted` and `DownloadNamesAccepted` |
| App.SrtSuffixAccepted | App.tsx:95-99 | a name whose suffix lower-cases to `.srt` is accepted, in any case |
| App.LowerSrtAccepted | App.tsx:96 | a name ending in `.srt` is accepted |
| App.GeneratedNamesAccepted | App.tsx:96 | every name `generateFileName` produces passes the upload check |
| App.DownloadName | App.tsx:192-193 | definition: `[Partial]_` or `[Done]_` before the uploaded name; properties in `DownloadNamesAccepted` |
| App.DownloadNamesAccepted | App.tsx:186-194 | a downloaded file, whose uploaded name passed the check, passes it again |
| App.Mark | App.tsx:108-113 | definition; properties in `MarkedBlocks` |
| App.Marked | App.tsx:108-114 | definition; properties in `MarkedBlocks` and `MarkResumed` |
| App.ResumedCount | App.tsx:107-114 | definition; properties in `ResumedCountBounds` and `MarkResumed` |
| App.MarkResumed | App.tsx:107-114 | the marking loop gives the marked blocks and counts the blocks with no CJK character |
| App.MarkedBlocks | App.tsx:108-114 | marking keeps every cue; blocks with CJK are unchanged; blocks without it get their original text as translation |
| App.ResumedCountBounds | App.tsx:107-114 | the count is at most the block count; it is 0 exactly when every block has CJK, and the block count exactly when none has |
| App.ResumeModeIff | App.tsx:116 | resume mode is on exactly when some block has CJK and some block has none |
| App.ParsedFresh | utils/srtParser.ts:126 | parsed blocks have no translation and non-empty text |
| App.MarkedPending | App.tsx:107-124 | after marking, a block is pending for the model exactly when it has CJK, and the translated-block count equals the marked count |
| App.IsFinished | App.tsx:217 | definition; properties in `LoadedFinished` |
| App.LoadedFinished | App.tsx:217 | freshly loaded blocks are finished exactly when there is at least one and none has CJK |
| App.ProcessFile | App.tsx:95-127 | the upload handler gives the rejection or the loaded state |
| App.UploadProperties | App.tsx:95-124 | an accepted upload keeps every parsed cue; total is the block count; progress and the translated counter are the number of marked blocks; resume mode is exactly `0 < marked < total` |
| App.ClassifyAnalyzeError | App.tsx:82-88 | definition; properties in `ClassificationsAgree` and `QuotaInAnyCase` |
| App.ClassifyTranslateError | App.tsx:173-177 | definition; properties in `ClassificationsAgree`, `QuotaInAnyCase` and `RetriedQuotaShown` |
| App.ClassificationsAgree | App.tsx:82-88 | both handlers treat the same errors as quota errors; `401`/`403` gives the key message only when the error is not a quota error |
| App.QuotaInAnyCase | App.tsx:84 | `quota` or `resource_exhausted` in any ASCII case gives the quota message in both handlers |
| App.RetriedQuotaShown | App.tsx:173-177 | every error the service retries as a `429` or quota error is reported with the quota message |
| App.TallyAsWritten | App.tsx:159-160 | definition as written; properties in `TallyAsWrittenIncreasing`, `TallyAsWrittenOvershoots` and `OvershootExample` |
| App.TallyCorrected | App.tsx:155-168 | corrected definition; properties in `TallyCorrectedPeak` and `TallyCorrectedEndsAtTotal` |
| App.OvershootExample | App.tsx:155-168 | as written, 20 resumed blocks and progress 15, 30, 40 count 45 translated blocks out of 40 |
| App.TallyAsWrittenIncreasing | App.tsx:159-160 | as written, increasing counts add the first delta from `lastProgress` and then the span of the counts |
| App.TallyAsWrittenOvershoots | App.tsx:155-168 | as written, the counter ends above the last count whenever the first count is below the resumed count |
| App.PeakIsLargest | App.tsx:159-160 | the peak is the largest of `lastProgress` and the counts |
| App.TallyCorrectedPeak | App.tsx:159-160 | with `lastProgress` kept at its maximum, the counter grows by exactly the peak minus the start |
| App.TallyCorrectedEndsAtTotal | App.tsx:155-168 | corrected, a run whose last count is `n` leaves the counter at exactly `n` |
| App.ProgressTracker.constructor | App.tsx:155 | `lastProgress` starts at the number of blocks with a translation |
| App.ProgressTracker.OnProgress | App.tsx:158-168 | progress becomes the count, requests grow by one, tokens by the tokens reported, and the counter by `max(0, count - lastProgress)`; `lastProgress` never decreases |
| App.ProgressTracker.Replay | App.tsx:158-168 | a sequence of callbacks leaves the counter grown by the corrected tally, `lastProgress` at the peak, one request per call and the tokens summed |
| App.RunCountsEveryBlock | App.tsx:155-168 | with the corrected callback, a run that does not fail leaves the counter at exactly the block count |
| App.TranslatedCountBound | App.tsx:155 | the starting count is at most the block count |

## Left out

- Hosted-model calls are not modelled. `GoogleGenAI.generateContent` and `fetch` to the OpenAI endpoint are an oracle function. Network errors are its thrown errors.
- `JSON.parse` of replies is not modelled. It is the parameter `parse`.
- The prompt text is reduced to the `{id, text}` data it carries. The film analysis fields in the prompt are not modelled.
- `checkApiHealth` and `analyzeTitle`, in both services, are not modelled: they are thin wrappers around one network call. Only the error classification of the analysis handler is modelled.
- The `setTimeout` waits are not modelled. `withRetry`'s delays are returned as the list of waits, and the 600 ms pause between chunks is left out. The steps are sequential.
- React rendering, state hooks, `FileReader`, drag and drop, the Blob download and `clearAll` are user interface and I/O. The upload handler is modelled on the file's name and text.
- `extractChineseTitle` is not modelled. It needs a regular-expression engine with Unicode classes, and it only fills an input box.
- Console logging is not modelled.
- The progress percentage with `Math.round` is not modelled.
- The text of `${speed}` is not modelled. JavaScript's number-to-string conversion is given with the speed (`FileNames.SpeedArg`).
- `ms / speed` is modelled with exact reals, not IEEE doubles, and `Math.floor` and `%` on reals are modelled exactly.
- Srt.AdjustSrtTiming: speeds that are not finite numbers (`NaN`, `Infinity`) are not modelled, because the speed is a Dafny `real`.
- Srt.RescaledReads: the read-back is stated for positive speeds only. For other speeds the text is the negative or `Infinity`/`NaN` text of `RescaledOddSpeeds`, which `timestampToMs` does not read back as that time.
- Timestamp.MsToTimestampOf: an hour field of 1e21 or more, which JavaScript writes in exponent form, is written in full.
- FileNames.GenerateFileName: the next `[Partial-N]` number is computed exactly. The source computes `parseInt(...) + 1` as a double, so above 2^53 - 1 it rounds, and from 1e21 on it prints in exponent form.
- Strings are sequences of Dafny `char`, which are Unicode scalar values, not UTF-16 units: a lone surrogate cannot be written, and a character outside the Basic Multilingual Plane is one `char`, not two units. No operation of the model depends on the difference. `toLowerCase` is not modelled in full. Only `A`-`Z` and the two characters whose lower-case form holds an ASCII letter (U+0130 and the Kelvin sign) are lowered. Every other character is kept. This cannot change whether one of the ASCII words the code looks for occurs.
- `AiService.ProviderOfGpt`: states only that a name containing a spelling of `gpt` is OpenAI, through ASCII lower-casing. The converse is immediate from the definition.
- `FileNames.GenerateFileName`: its own contract states only the `.srt` suffix. The renaming rules are the lemmas beside it.

## Findings

| source | as written | input that shows it | evidently intended | confidence | as-written member | corrected member |
|---|---|---|---|---|---|---|
| App.tsx:155-168 | `lastProgress` starts at the number of already-translated blocks and is then overwritten by each progress count, even a smaller one. | 40 blocks, the last 20 without CJK, chunks of 15. `lastProgress` starts at 20. The counts 15, 30 and 40 add 0, 15 and 10. The counter ends at 20 + 25 = 45 for 40 blocks. | The counter ends at the number of blocks. This holds with `lastProgress = max(lastProgress, count)`. | not executed | App.TallyAsWritten, App.OvershootExample, App.TallyAsWrittenOvershoots | App.TallyCorrected, App.TallyCorrectedEndsAtTotal, App.ProgressTracker.OnProgress, App.RunCountsEveryBlock |
