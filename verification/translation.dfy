/**
 * What the two `translateSubtitles` loops share: the hosted model seen as
 * an oracle, the merge of its `{id, translated}` results into the blocks by
 * the first block with that `index`, and the chunk loop itself as a
 * function of the blocks, which both services' methods are proved to
 * follow. The blocks live in one array that the caller also sees: the
 * source's `[...blocks]` copies the array but shares the block objects, so
 * writing `translatedBlocks[k].translatedText` changes the caller's block.
 */
module Translation {
  import opened Wrappers
  import opened Strings
  import opened Srt

  // ---------------------------------------------------------------------
  // The oracle
  // ---------------------------------------------------------------------

  /** One element of the JSON array the model returns; `Missing` is a `null` element, on which reading `res.id` throws. */
  datatype Item = Entry(id: string, translated: string) | Missing

  /** The model's text after `JSON.parse`: an array of items, or text that is not a JSON array (the parse or the `forEach` throws). */
  datatype Payload = Parsed(items: seq<Item>) | Unparseable(error: string)

  /** What the hosted model answers before parsing: its text (`""` for an absent one) and the token count it reports. */
  datatype Reply = Reply(text: string, tokens: nat)

  /** A reply of the model: its parsed text and the token count it reports. */
  datatype Response = Response(payload: Payload, tokens: nat)

  /** An awaited call: it returned a value or threw an error, given by its `toString()`. */
  datatype Attempt<T> = Returned(value: T) | Threw(error: string)

  /** One `{id, text}` object of the prompt's data. */
  datatype PromptLine = PromptLine(id: string, text: string)

  /** The request for one chunk: where the chunk starts, and the data the prompt carries. */
  datatype Request = Request(start: nat, data: seq<PromptLine>)

  /** One `onProgress(translatedCount, tokensAdded)` call. */
  datatype Progress = Progress(count: nat, tokens: nat)

  /** The error `forEach` throws on a `null` element. */
  const NullItemError := "TypeError: Cannot read properties of null (reading 'id')"

  /** `JSON.stringify(chunk.map(b => ({ id: b.index, text: b.originalText })))`, before it is written out. */
  function Prompt(chunk: seq<SubtitleBlock>): (r: seq<PromptLine>)
  {
    seq(|chunk|, k requires 0 <= k < |chunk| => PromptLine(chunk[k].index, chunk[k].originalText))
  }

  /** One line per block of the chunk, in order, carrying its number and its original text. */
  lemma PromptLines(chunk: seq<SubtitleBlock>)
    ensures |Prompt(chunk)| == |chunk|
    ensures forall k :: 0 <= k < |chunk| ==> Prompt(chunk)[k] == PromptLine(chunk[k].index, chunk[k].originalText)
  {
  }

  /** Two blocks are the same cue: only their `translatedText` may differ. */
  predicate SameCue(a: SubtitleBlock, b: SubtitleBlock)
  {
    a.index == b.index && a.timestamp == b.timestamp && a.originalText == b.originalText
  }

  /** `cs` is `bs` with at most the translations changed, block by block. */
  predicate KeepsCues(cs: seq<SubtitleBlock>, bs: seq<SubtitleBlock>)
  {
    |cs| == |bs| && forall k :: 0 <= k < |bs| ==> SameCue(cs[k], bs[k])
  }

  // ---------------------------------------------------------------------
  // findIndex and the merge
  // ---------------------------------------------------------------------

  /** `blocks.findIndex(b => b.index === id)`, with `None` for -1. */
  function FirstIndex(bs: seq<SubtitleBlock>, id: string): (r: Option<nat>)
    ensures r.Some? ==> r.value < |bs|
  {
    if bs == [] then None
    else if bs[0].index == id then Some(0)
    else
      match FirstIndex(bs[1..], id)
      case None => None
      case Some(k) => Some(k + 1)
  }

  /** The index found is that of the first block with the id; none is found when no block has it. */
  lemma {:induction false} FirstIndexFinds(bs: seq<SubtitleBlock>, id: string)
    ensures var r := FirstIndex(bs, id);
      (r.Some? ==> bs[r.value].index == id && forall j :: 0 <= j < r.value ==> bs[j].index != id)
      && (r.None? ==> forall j :: 0 <= j < |bs| ==> bs[j].index != id)
  {
    if bs != [] && bs[0].index != id {
      FirstIndexFinds(bs[1..], id);
      assert forall j :: 1 <= j < |bs| ==> bs[j] == bs[1..][j - 1];
    }
  }

  /** `findIndex` as the loop it is. */
  method FindIndex(a: array<SubtitleBlock>, id: string) returns (idx: int)
    ensures idx == -1 || 0 <= idx < a.Length
    ensures FirstIndex(a[..], id) == if idx == -1 then None else Some(idx as nat)
  {
    FirstIndexFinds(a[..], id);
    var j := 0;
    while j < a.Length
      invariant 0 <= j <= a.Length
      invariant forall l :: 0 <= l < j ==> a[l].index != id
    {
      if a[j].index == id {
        return j;
      }
      j := j + 1;
    }
    return -1;
  }

  /** One `{id, translated}` result applied: the first block with that index gets the translation. */
  function SetTranslation(bs: seq<SubtitleBlock>, id: string, t: string): seq<SubtitleBlock>
  {
    match FirstIndex(bs, id)
    case None => bs
    case Some(k) => bs[k := bs[k].(translatedText := Some(t))]
  }

  /** The blocks after `results.forEach(...)`, and whether the loop ran to the end (it stops by throwing at a `null` element). */
  datatype Merged = Merged(blocks: seq<SubtitleBlock>, complete: bool)

  function Merge(bs: seq<SubtitleBlock>, items: seq<Item>): (r: Merged)
    ensures |r.blocks| == |bs|
    decreases |items|
  {
    if items == [] then Merged(bs, true)
    else
      match items[0]
      case Missing => Merged(bs, false)
      case Entry(id, t) => Merge(SetTranslation(bs, id, t), items[1..])
  }

  /** The merge only ever writes `translatedText`: every block stays the same cue. */
  lemma {:induction false} MergeSameCues(bs: seq<SubtitleBlock>, items: seq<Item>)
    ensures forall k :: 0 <= k < |bs| ==> SameCue(Merge(bs, items).blocks[k], bs[k])
    decreases |items|
  {
    if items != [] && items[0].Entry? {
      var bs' := SetTranslation(bs, items[0].id, items[0].translated);
      MergeSameCues(bs', items[1..]);
      assert forall k :: 0 <= k < |bs| ==> SameCue(bs'[k], bs[k]);
    }
  }

  /** The merge runs to the end exactly when no result is `null`. */
  lemma {:induction false} MergeCompletes(bs: seq<SubtitleBlock>, items: seq<Item>)
    ensures Merge(bs, items).complete <==> forall j :: 0 <= j < |items| ==> items[j].Entry?
    decreases |items|
  {
    if items != [] && items[0].Entry? {
      MergeCompletes(SetTranslation(bs, items[0].id, items[0].translated), items[1..]);
      assert forall j :: 1 <= j < |items| ==> items[j] == items[1..][j - 1];
    }
  }

  /** The `forEach` over the results, writing into the shared blocks. */
  method MergeInto(a: array<SubtitleBlock>, items: seq<Item>) returns (complete: bool)
    modifies a
    ensures Merge(old(a[..]), items) == Merged(a[..], complete)
  {
    var j := 0;
    while j < |items|
      invariant 0 <= j <= |items|
      invariant Merge(old(a[..]), items) == Merge(a[..], items[j..])
    {
      assert items[j..][1..] == items[j + 1..];
      match items[j]
      case Missing =>
        return false;
      case Entry(id, t) =>
        ghost var before := a[..];
        var idx := FindIndex(a, id);
        if idx != -1 {
          a[idx] := a[idx].(translatedText := Some(t));
        }
        assert a[..] == SetTranslation(before, id, t);
      j := j + 1;
    }
    return true;
  }

  /** The translation the merge leaves for `id`: that of the last entry with that id. */
  function LastTranslation(items: seq<Item>, id: string): (r: Option<string>)
    ensures r.Some? ==> exists j :: 0 <= j < |items| && items[j] == Entry(id, r.value)
                          && forall j' :: j < j' < |items| ==> !(items[j'].Entry? && items[j'].id == id)
    ensures r.None? ==> forall j :: 0 <= j < |items| ==> !(items[j].Entry? && items[j].id == id)
    decreases |items|
  {
    if items == [] then None
    else
      var rest := LastTranslation(items[1..], id);
      assert forall j :: 1 <= j < |items| ==> items[j] == items[1..][j - 1];
      if rest.Some? then
        var j :| 0 <= j < |items[1..]| && items[1..][j] == Entry(id, rest.value)
                 && forall j' :: j < j' < |items[1..]| ==> !(items[1..][j'].Entry? && items[1..][j'].id == id);
        assert items[j + 1] == Entry(id, rest.value);
        rest
      else if items[0].Entry? && items[0].id == id then Some(items[0].translated)
      else None
  }

  /** Blocks that are the same cues have the same first index for every id. */
  lemma FirstIndexSameCues(bs: seq<SubtitleBlock>, cs: seq<SubtitleBlock>, id: string)
    requires |bs| == |cs| && forall k :: 0 <= k < |bs| ==> SameCue(bs[k], cs[k])
    ensures FirstIndex(bs, id) == FirstIndex(cs, id)
  {
    var x, y := FirstIndex(bs, id), FirstIndex(cs, id);
    FirstIndexFinds(bs, id);
    FirstIndexFinds(cs, id);
    if x.Some? && y.Some? {
      assert bs[y.value].index == id;
      assert cs[x.value].index == id;
    }
  }

  /**
   * A merge that runs to the end gives each block the translation of the
   * last result naming its index, when the block is the first with that
   * index, and leaves every other block as it was: results for unknown ids
   * and later blocks with a repeated index are ignored.
   */
  lemma {:induction false} MergeEffect(bs: seq<SubtitleBlock>, items: seq<Item>, k: nat)
    requires Merge(bs, items).complete && k < |bs|
    ensures var t := LastTranslation(items, bs[k].index);
      Merge(bs, items).blocks[k]
      == if FirstIndex(bs, bs[k].index) == Some(k) && t.Some? then bs[k].(translatedText := t) else bs[k]
    decreases |items|
  {
    if items != [] {
      var id, t := items[0].id, items[0].translated;
      var bs' := SetTranslation(bs, id, t);
      assert Merge(bs, items) == Merge(bs', items[1..]);
      MergeEffect(bs', items[1..], k);
      FirstIndexSameCues(bs, bs', bs[k].index);
      FirstIndexFinds(bs, id);
      FirstIndexFinds(bs, bs[k].index);
    }
  }

  // ---------------------------------------------------------------------
  // The chunk loop
  // ---------------------------------------------------------------------

  /** `!b.translatedText || /[\u4e00-\u9fa5]/.test(b.originalText)`: the block still needs the model. */
  predicate IsPending(b: SubtitleBlock)
  {
    b.translatedText.None? || b.translatedText.value == "" || ContainsChinese(b.originalText)
  }

  /** `chunk.filter(IsPending)`. */
  function Pending(chunk: seq<SubtitleBlock>): seq<SubtitleBlock>
  {
    if chunk == [] then []
    else
      var rest := Pending(chunk[1..]);
      if IsPending(chunk[0]) then [chunk[0]] + rest else rest
  }

  /** The filter keeps exactly the pending blocks of the chunk, and no more blocks than it has. */
  lemma {:induction false} PendingMembers(chunk: seq<SubtitleBlock>)
    ensures |Pending(chunk)| <= |chunk|
    ensures forall b :: b in Pending(chunk) <==> b in chunk && IsPending(b)
  {
    if chunk != [] {
      PendingMembers(chunk[1..]);
      assert forall b :: b in chunk <==> b == chunk[0] || b in chunk[1..];
    }
  }

  /** Everything the loop does: the blocks it leaves, its progress calls, the requests it sends, and the error it rethrows. */
  datatype Run = Run(blocks: seq<SubtitleBlock>, events: seq<Progress>, requests: seq<Request>, failure: Option<string>)

  /** One pass of the loop body: it goes on with new blocks after a progress call, or stops with an error. */
  datatype Step =
    | Continue(blocks: seq<SubtitleBlock>, progress: Progress, sent: seq<Request>)
    | Stop(blocks: seq<SubtitleBlock>, sent: seq<Request>, error: string)

  /**
   * The body for the chunk at offset `i`, with chunks of `size` blocks,
   * sending the pending blocks of the chunk when `filter` holds and the whole
   * chunk otherwise, and `call` standing for the awaited model call on a
   * request. A filtered chunk with nothing pending reports progress with no
   * tokens and makes no call; a call that throws, text that is not an array
   * and a `null` result element stop the loop with that error.
   */
  function ChunkStep(size: nat, filter: bool, call: Request -> Attempt<Response>, bs: seq<SubtitleBlock>, i: nat): (r: Step)
    requires size > 0 && i < |bs|
    ensures |r.blocks| == |bs|
  {
    var end := Min(i + size, |bs|);
    var chunk := ChunkAt(bs, i, size);
    if filter && |Pending(chunk)| == 0 then Continue(bs, Progress(end, 0), [])
    else
      var req := Request(i, Prompt(if filter then Pending(chunk) else chunk));
      match call(req)
      case Threw(e) => Stop(bs, [req], e)
      case Returned(resp) =>
        match resp.payload
        case Unparseable(e) => Stop(bs, [req], e)
        case Parsed(items) =>
          var m := Merge(bs, items);
          if m.complete then Continue(m.blocks, Progress(end, resp.tokens), [req])
          else Stop(m.blocks, [req], NullItemError)
  }

  /**
   * What one pass reports and sends: progress up to the end of its chunk;
   * exactly one request unless it skips a filtered chunk with nothing
   * pending, which it does without tokens and without touching the blocks;
   * a pass that stops has sent its request. The request carries the whole
   * chunk, or its pending blocks when `filter` holds.
   */
  lemma ChunkStepSends(size: nat, filter: bool, call: Request -> Attempt<Response>, bs: seq<SubtitleBlock>, i: nat)
    requires size > 0 && i < |bs|
    ensures var r := ChunkStep(size, filter, call, bs, i);
      (r.Continue? ==> r.progress.count == Min(i + size, |bs|))
      && |r.sent| <= 1 && (r.Stop? ==> |r.sent| == 1)
      && (!filter ==> r.sent == [Request(i, Prompt(ChunkAt(bs, i, size)))])
      && (filter ==> (r.sent == [] <==> Pending(ChunkAt(bs, i, size)) == []))
      && (filter && r.sent == [] ==> r == Continue(bs, Progress(Min(i + size, |bs|), 0), []))
      && (filter && r.sent != [] ==> r.sent == [Request(i, Prompt(Pending(ChunkAt(bs, i, size))))])
  {
  }

  /** One pass leaves every block the same cue. */
  lemma ChunkStepSameCues(size: nat, filter: bool, call: Request -> Attempt<Response>, bs: seq<SubtitleBlock>, i: nat)
    requires size > 0 && i < |bs|
    ensures KeepsCues(ChunkStep(size, filter, call, bs, i).blocks, bs)
  {
    var chunk := ChunkAt(bs, i, size);
    if !(filter && |Pending(chunk)| == 0) {
      var req := Request(i, Prompt(if filter then Pending(chunk) else chunk));
      if call(req).Returned? && call(req).value.payload.Parsed? {
        MergeSameCues(bs, call(req).value.payload.items);
      }
    }
  }

  /** `blocks.slice(start, start + size)`. */
  function ChunkAt(bs: seq<SubtitleBlock>, start: nat, size: nat): (r: seq<SubtitleBlock>)
    ensures start + size <= |bs| ==> |r| == size
  {
    bs[Min(start, |bs|)..Min(start + size, |bs|)]
  }

  /** The end of each chunk from offset `i` on, `Math.min(i + size, n)`: the count each progress call reports. */
  function ChunkEnds(size: nat, i: nat, n: nat): (r: seq<nat>)
    requires size > 0
    ensures |r| > 0 <==> i < n
    decreases n - i
  {
    if i >= n then [] else [Min(i + size, n)] + ChunkEnds(size, i + size, n)
  }

  /** The request for each chunk from offset `i` on, when every block of the chunk is sent. */
  function ChunkRequests(size: nat, bs: seq<SubtitleBlock>, i: nat): (r: seq<Request>)
    requires size > 0
    ensures |r| == |ChunkEnds(size, i, |bs|)|
    decreases |bs| - i
  {
    if i >= |bs| then [] else [Request(i, Prompt(ChunkAt(bs, i, size)))] + ChunkRequests(size, bs, i + size)
  }

  /** The chunks from offset `i` on, `blocks.slice(i, i + size)` for each offset the loop visits. */
  function Chunks(size: nat, bs: seq<SubtitleBlock>, i: nat): (r: seq<seq<SubtitleBlock>>)
    requires size > 0
    decreases |bs| - i
  {
    if i >= |bs| then [] else [ChunkAt(bs, i, size)] + Chunks(size, bs, i + size)
  }

  function Flatten(css: seq<seq<SubtitleBlock>>): seq<SubtitleBlock>
  {
    if css == [] then [] else css[0] + Flatten(css[1..])
  }

  /** The chunks partition the blocks from `i` on: in order, each non-empty and at most `size` long, all but the last exactly `size` long. */
  lemma {:induction false} ChunksPartition(size: nat, bs: seq<SubtitleBlock>, i: nat)
    requires size > 0 && i <= |bs|
    ensures Flatten(Chunks(size, bs, i)) == bs[i..]
    ensures var c := Chunks(size, bs, i);
      forall k :: 0 <= k < |c| ==> 0 < |c[k]| <= size && (k < |c| - 1 ==> |c[k]| == size)
    decreases |bs| - i
  {
    if i < |bs| {
      var c := Chunks(size, bs, i);
      if i + size < |bs| {
        ChunksPartition(size, bs, i + size);
        var c' := Chunks(size, bs, i + size);
        assert c == [bs[i..i + size]] + c';
        assert c[1..] == c';
        assert bs[i..] == bs[i..i + size] + bs[i + size..];
        assert forall k :: 0 < k < |c| ==> c[k] == c'[k - 1];
      } else {
        assert Chunks(size, bs, i + size) == [];
        assert Min(i, |bs|) == i && Min(i + size, |bs|) == |bs|;
        assert ChunkAt(bs, i, size) == bs[i..];
        assert c[1..] == [];
        assert bs[i..] + [] == bs[i..];
      }
    } else {
      assert bs[i..] == [];
    }
  }

  /** When every block is sent, the k-th request carries the `{id, text}` of exactly the blocks of the k-th chunk. */
  lemma {:induction false} ChunkRequestsCover(size: nat, bs: seq<SubtitleBlock>, i: nat)
    requires size > 0
    ensures var q := ChunkRequests(size, bs, i);
      var c := Chunks(size, bs, i);
      |q| == |c| && forall k :: 0 <= k < |q| ==> q[k].data == Prompt(c[k])
    decreases |bs| - i
  {
    if i < |bs| {
      ChunkRequestsCover(size, bs, i + size);
      var q := ChunkRequests(size, bs, i);
      var c := Chunks(size, bs, i);
      var q' := ChunkRequests(size, bs, i + size);
      var c' := Chunks(size, bs, i + size);
      assert q == [q[0]] + q' && c == [c[0]] + c';
      assert forall k :: 0 < k < |q| ==> q[k] == q'[k - 1] && c[k] == c'[k - 1];
    }
  }

  /** The `count` of each progress call, in order. */
  function Counts(es: seq<Progress>): (r: seq<nat>)
    ensures |r| == |es|
    ensures forall k :: 0 <= k < |es| ==> r[k] == es[k].count
  {
    seq(|es|, k requires 0 <= k < |es| => es[k].count)
  }

  /**
   * What the loop from chunk offset `i` on reports: its progress calls give
   * the ends of the chunks in order, a prefix of them, all of them when the
   * loop ends normally and fewer when it rethrows (it stops inside a
   * chunk). When every block is sent, it sends one request per chunk in
   * order, the last one being the one that failed, if one did.
   */
  predicate Reports(size: nat, filter: bool, bs: seq<SubtitleBlock>, i: nat, r: Run)
    requires size > 0
  {
    var e := ChunkEnds(size, i, |bs|);
    |r.events| <= |e| && Counts(r.events) == e[..|r.events|]
    && (r.failure.None? <==> |r.events| == |e|)
    && (!filter ==> |r.requests| == |r.events| + (if r.failure.Some? then 1 else 0)
                    && r.requests == ChunkRequests(size, bs, i)[..|r.requests|])
  }

  /** The loop from chunk offset `i` on. */
  function RunFrom(size: nat, filter: bool, call: Request -> Attempt<Response>, bs: seq<SubtitleBlock>, i: nat): (r: Run)
    requires size > 0
    ensures |r.blocks| == |bs|
    decreases |bs| - i
  {
    if i >= |bs| then Run(bs, [], [], None)
    else
      match ChunkStep(size, filter, call, bs, i)
      case Stop(b, sent, e) => Run(b, [], sent, Some(e))
      case Continue(b, p, sent) =>
        var rest := RunFrom(size, filter, call, b, i + size);
        Run(rest.blocks, [p] + rest.events, sent + rest.requests, rest.failure)
  }

  /** The loop leaves every block the same cue: it only ever fills in translations. */
  lemma {:induction false} RunSameCues(size: nat, filter: bool, call: Request -> Attempt<Response>, bs: seq<SubtitleBlock>, i: nat)
    requires size > 0
    ensures LoopKeepsCues(size, filter, call, bs, i)
    decreases |bs| - i
  {
    if i < |bs| {
      var st := ChunkStep(size, filter, call, bs, i);
      if st.Continue? {
        RunSameCues(size, filter, call, st.blocks, i + size);
      }
      StepSameCues(size, filter, call, bs, i);
    }
  }

  /** The loop from chunk offset `i` on leaves the cues of `bs` as they were. */
  ghost predicate LoopKeepsCues(size: nat, filter: bool, call: Request -> Attempt<Response>, bs: seq<SubtitleBlock>, i: nat)
    requires size > 0
  {
    KeepsCues(RunFrom(size, filter, call, bs, i).blocks, bs)
  }

  lemma StepSameCues(size: nat, filter: bool, call: Request -> Attempt<Response>, bs: seq<SubtitleBlock>, i: nat)
    requires size > 0 && i < |bs|
    requires ChunkStep(size, filter, call, bs, i).Continue? ==>
      LoopKeepsCues(size, filter, call, ChunkStep(size, filter, call, bs, i).blocks, i + size)
    ensures LoopKeepsCues(size, filter, call, bs, i)
  {
    var st := ChunkStep(size, filter, call, bs, i);
    ChunkStepSameCues(size, filter, call, bs, i);
    if st.Stop? {
      RunStops(size, filter, call, bs, i, st.blocks, st.sent, st.error);
    } else {
      RunContinues(size, filter, call, bs, i, st.blocks, st.progress, st.sent);
    }
  }

  /** The loop reports what `Reports` says. */
  lemma {:induction false} RunReports(size: nat, filter: bool, call: Request -> Attempt<Response>, bs: seq<SubtitleBlock>, i: nat)
    requires size > 0
    ensures Reports(size, filter, bs, i, RunFrom(size, filter, call, bs, i))
    decreases |bs| - i
  {
    if i >= |bs| {
      assert Counts([]) == [];
    } else if ChunkStep(size, filter, call, bs, i).Stop? {
      StopReports(size, filter, call, bs, i);
    } else {
      RunReports(size, filter, call, ChunkStep(size, filter, call, bs, i).blocks, i + size);
      ContinueReports(size, filter, call, bs, i);
    }
  }

  lemma StopReports(size: nat, filter: bool, call: Request -> Attempt<Response>, bs: seq<SubtitleBlock>, i: nat)
    requires size > 0 && i < |bs| && ChunkStep(size, filter, call, bs, i).Stop?
    ensures Reports(size, filter, bs, i, RunFrom(size, filter, call, bs, i))
  {
    var st := ChunkStep(size, filter, call, bs, i);
    ChunkStepSends(size, filter, call, bs, i);
    RunStops(size, filter, call, bs, i, st.blocks, st.sent, st.error);
    ReportsStop(size, filter, bs, i, st.sent, RunFrom(size, filter, call, bs, i));
  }

  lemma ContinueReports(size: nat, filter: bool, call: Request -> Attempt<Response>, bs: seq<SubtitleBlock>, i: nat)
    requires size > 0 && i < |bs| && ChunkStep(size, filter, call, bs, i).Continue?
    requires var b := ChunkStep(size, filter, call, bs, i).blocks;
      Reports(size, filter, b, i + size, RunFrom(size, filter, call, b, i + size))
    ensures Reports(size, filter, bs, i, RunFrom(size, filter, call, bs, i))
  {
    var st := ChunkStep(size, filter, call, bs, i);
    ChunkStepSends(size, filter, call, bs, i);
    ChunkStepSameCues(size, filter, call, bs, i);
    RunContinues(size, filter, call, bs, i, st.blocks, st.progress, st.sent);
    ReportsCons(size, filter, bs, st.blocks, i, st.progress, st.sent, RunFrom(size, filter, call, st.blocks, i + size));
  }

  /** A loop that stops at its first chunk reports nothing and has sent that chunk's request. */
  lemma ReportsStop(size: nat, filter: bool, bs: seq<SubtitleBlock>, i: nat, sent: seq<Request>, r: Run)
    requires size > 0 && i < |bs| && |sent| == 1
    requires !filter ==> sent == [Request(i, Prompt(ChunkAt(bs, i, size)))]
    requires r.events == [] && r.requests == sent && r.failure.Some?
    ensures Reports(size, filter, bs, i, r)
  {
    assert Counts([]) == [];
  }

  /** A loop that goes on after its first chunk reports that chunk, then what the loop from the next chunk reports. */
  lemma ReportsCons(size: nat, filter: bool, bs: seq<SubtitleBlock>, b: seq<SubtitleBlock>, i: nat, p: Progress, sent: seq<Request>, rest: Run)
    requires size > 0 && i < |bs| && p.count == Min(i + size, |bs|)
    requires KeepsCues(b, bs)
    requires !filter ==> sent == [Request(i, Prompt(ChunkAt(bs, i, size)))]
    requires Reports(size, filter, b, i + size, rest)
    ensures Reports(size, filter, bs, i, Run(rest.blocks, [p] + rest.events, sent + rest.requests, rest.failure))
  {
    var r := Run(rest.blocks, [p] + rest.events, sent + rest.requests, rest.failure);
    EventsCons(size, i, |bs|, p, rest.events);
    if !filter {
      ChunkRequestsSameCues(size, b, bs, i + size);
      RequestsCons(size, bs, i, sent[0], rest.requests);
      assert |r.requests| == |r.events| + (if r.failure.Some? then 1 else 0);
    }
  }

  /** A prefix of `ys` with `x` in front is a prefix of `[x] + ys`. */
  lemma PrefixCons<T>(x: T, xs: seq<T>, ys: seq<T>)
    requires |xs| <= |ys| && xs == ys[..|xs|]
    ensures [x] + xs == ([x] + ys)[..|xs| + 1]
  {
    assert ([x] + ys)[..|xs| + 1] == [x] + ys[..|xs|];
  }

  /** The report of the chunk at `i` followed by a prefix of the reports from `i + size` on is a prefix of the reports from `i` on. */
  lemma EventsCons(size: nat, i: nat, n: nat, p: Progress, rest: seq<Progress>)
    requires size > 0 && i < n && p.count == Min(i + size, n)
    requires |rest| <= |ChunkEnds(size, i + size, n)| && Counts(rest) == ChunkEnds(size, i + size, n)[..|rest|]
    ensures |ChunkEnds(size, i, n)| == |ChunkEnds(size, i + size, n)| + 1
    ensures Counts([p] + rest) == ChunkEnds(size, i, n)[..|rest| + 1]
  {
    assert Counts([p] + rest) == [p.count] + Counts(rest);
    PrefixCons(p.count, Counts(rest), ChunkEnds(size, i + size, n));
  }

  /** The request for the chunk at `i` followed by a prefix of the requests from `i + size` on is a prefix of the requests from `i` on. */
  lemma RequestsCons(size: nat, bs: seq<SubtitleBlock>, i: nat, q: Request, rest: seq<Request>)
    requires size > 0 && i < |bs| && q == Request(i, Prompt(ChunkAt(bs, i, size)))
    requires |rest| <= |ChunkRequests(size, bs, i + size)| && rest == ChunkRequests(size, bs, i + size)[..|rest|]
    ensures [q] + rest == ChunkRequests(size, bs, i)[..|rest| + 1]
  {
    PrefixCons(q, rest, ChunkRequests(size, bs, i + size));
  }

  /** The requests read only what a merge leaves alone, so they are the same for blocks that are the same cues. */
  lemma {:induction false} ChunkRequestsSameCues(size: nat, bs: seq<SubtitleBlock>, cs: seq<SubtitleBlock>, i: nat)
    requires size > 0 && KeepsCues(bs, cs)
    ensures ChunkRequests(size, bs, i) == ChunkRequests(size, cs, i)
    decreases |bs| - i
  {
    if i < |bs| {
      var x := ChunkAt(bs, i, size);
      var y := ChunkAt(cs, i, size);
      assert KeepsCues(x, y) by {
        assert forall k :: 0 <= k < |x| ==> x[k] == bs[i + k] && y[k] == cs[i + k];
      }
      PromptSameCues(x, y);
      ChunkRequestsSameCues(size, bs, cs, i + size);
    }
  }

  /** The prompt only reads the cue of each block, not its translation. */
  lemma PromptSameCues(x: seq<SubtitleBlock>, y: seq<SubtitleBlock>)
    requires KeepsCues(x, y)
    ensures Prompt(x) == Prompt(y)
  {
    assert forall k :: 0 <= k < |x| ==> Prompt(x)[k] == Prompt(y)[k];
  }

  /** The chunk ends strictly increase, stay within `(i, n]`, and the last one is `n`. */
  lemma {:induction false} ChunkEndsIncrease(size: nat, i: nat, n: nat)
    requires size > 0
    ensures var e := ChunkEnds(size, i, n);
      (forall k :: 0 <= k < |e| ==> i < e[k] <= n)
      && (forall k, k' :: 0 <= k < k' < |e| ==> e[k] < e[k'])
      && (i < n ==> e[|e| - 1] == n)
    decreases n - i
  {
    if i < n {
      var e := ChunkEnds(size, i, n);
      var rest := ChunkEnds(size, i + size, n);
      ChunkEndsIncrease(size, i + size, n);
      assert e == [Min(i + size, n)] + rest;
      if i + size >= n {
        assert rest == [];
      } else {
        assert e[0] == i + size;
        forall k, k' | 0 <= k < k' < |e| ensures e[k] < e[k'] {
          assert e[k'] == rest[k' - 1];
          if k > 0 {
            assert e[k] == rest[k - 1];
          }
        }
        assert e[|e| - 1] == rest[|rest| - 1];
      }
    }
  }

  /** The k-th chunk request carries the `{id, text}` of exactly the blocks of its chunk. */
  lemma {:induction false} ChunkRequestsData(size: nat, bs: seq<SubtitleBlock>, i: nat)
    requires size > 0
    ensures forall k :: 0 <= k < |ChunkRequests(size, bs, i)| ==>
      ChunkRequests(size, bs, i)[k].data == Prompt(ChunkAt(bs, ChunkRequests(size, bs, i)[k].start, size))
    decreases |bs| - i
  {
    if i < |bs| {
      ChunkRequestsData(size, bs, i + size);
      var q := ChunkRequests(size, bs, i);
      var q' := ChunkRequests(size, bs, i + size);
      assert q == [Request(i, Prompt(ChunkAt(bs, i, size)))] + q';
      forall k | 0 <= k < |q| ensures q[k].data == Prompt(ChunkAt(bs, q[k].start, size)) {
        if k > 0 {
          assert q[k] == q'[k - 1];
          assert q'[k - 1].data == Prompt(ChunkAt(bs, q'[k - 1].start, size));
        } else {
          assert q[0].start == i;
        }
      }
    }
  }

  /** The first chunk request starts at `i`, and each later one where the previous chunk ended. */
  lemma {:induction false} ChunkRequestsStarts(size: nat, bs: seq<SubtitleBlock>, i: nat)
    requires size > 0
    ensures var q := ChunkRequests(size, bs, i);
      var e := ChunkEnds(size, i, |bs|);
      (q != [] ==> q[0].start == i) && forall k :: 0 < k < |q| ==> q[k].start == e[k - 1]
    decreases |bs| - i
  {
    if i < |bs| {
      ChunkRequestsStarts(size, bs, i + size);
      var q := ChunkRequests(size, bs, i);
      var q' := ChunkRequests(size, bs, i + size);
      var e := ChunkEnds(size, i, |bs|);
      var e' := ChunkEnds(size, i + size, |bs|);
      assert q == [q[0]] + q';
      assert e == [e[0]] + e';
      forall k | 0 < k < |q| ensures q[k].start == e[k - 1] {
        if k == 1 {
          assert q[1] == q'[0];
        } else {
          assert q[k] == q'[k - 1] && e[k - 1] == e'[k - 2];
        }
      }
    }
  }

  /** The progress counts strictly increase, and a run that ends normally over at least one block ends by reporting all of them. */
  lemma ProgressIncreases(size: nat, filter: bool, call: Request -> Attempt<Response>, bs: seq<SubtitleBlock>)
    requires size > 0
    ensures var r := RunFrom(size, filter, call, bs, 0);
      (forall j, j' :: 0 <= j < j' < |r.events| ==> r.events[j].count < r.events[j'].count)
      && (forall j :: 0 <= j < |r.events| ==> 0 < r.events[j].count <= |bs|)
      && (r.failure.None? && bs != [] ==> r.events != [] && r.events[|r.events| - 1].count == |bs|)
  {
    var r := RunFrom(size, filter, call, bs, 0);
    RunReports(size, filter, call, bs, 0);
    ChunkEndsIncrease(size, 0, |bs|);
    var e := ChunkEnds(size, 0, |bs|);
    assert forall j :: 0 <= j < |r.events| ==> r.events[j].count == Counts(r.events)[j] == e[j];
  }

  // ---------------------------------------------------------------------
  // The loop itself
  // ---------------------------------------------------------------------

  /**
   * `for (let i = 0; i < blocks.length; i += size)` over the shared blocks
   * in `a`: it does what `RunFrom` says, merging each reply into `a` in
   * place, and returns the error it rethrows, if any, with the progress
   * calls and the requests in the order they were made.
   */
  method TranslateChunks(a: array<SubtitleBlock>, size: nat, filter: bool, call: Request -> Attempt<Response>)
      returns (failure: Option<string>, events: seq<Progress>, sent: seq<Request>)
    requires size > 0
    modifies a
    ensures RunFrom(size, filter, call, old(a[..]), 0) == Run(a[..], events, sent, failure)
  {
    ghost var total := RunFrom(size, filter, call, a[..], 0);
    StartReaching(size, filter, call, a[..]);
    var i: nat := 0;
    events, sent := [], [];
    while i < a.Length
      invariant Reaches(size, filter, call, a[..], i, events, sent, total)
      decreases a.Length - i
    {
      var error, progress, req := NextChunk(a, size, filter, call, i, events, sent, total);
      if error.Some? {
        return error, events, sent + req;
      }
      events, sent := events + [progress], sent + req;
      i := i + size;
    }
    EndReaching(size, filter, call, a[..], i, events, sent, total);
    failure := None;
  }

  /** Before its first pass the loop is on its way to the run from offset 0. */
  lemma StartReaching(size: nat, filter: bool, call: Request -> Attempt<Response>, bs: seq<SubtitleBlock>)
    requires size > 0
    ensures Reaches(size, filter, call, bs, 0, [], [], RunFrom(size, filter, call, bs, 0))
  {
    RunAfterIsContinued(size, filter, call, bs, 0, [], []);
    assert Continued([], [], RunFrom(size, filter, call, bs, 0)) == RunFrom(size, filter, call, bs, 0);
  }

  /** Past the last chunk the loop has made the whole run. */
  lemma EndReaching(size: nat, filter: bool, call: Request -> Attempt<Response>, bs: seq<SubtitleBlock>, i: nat,
                    events: seq<Progress>, sent: seq<Request>, total: Run)
    requires size > 0 && i >= |bs| && Reaches(size, filter, call, bs, i, events, sent, total)
    ensures total == Run(bs, events, sent, None)
  {
  }

  /** The body of the loop, after the progress calls `events` and the requests `sent`, as one more step towards the whole run `total`. */
  method NextChunk(a: array<SubtitleBlock>, size: nat, filter: bool, call: Request -> Attempt<Response>, i: nat,
                   ghost events: seq<Progress>, ghost sent: seq<Request>, ghost total: Run)
      returns (error: Option<string>, progress: Progress, req: seq<Request>)
    requires size > 0 && i < a.Length && Reaches(size, filter, call, a[..], i, events, sent, total)
    modifies a
    ensures error.Some? ==> total == Run(a[..], events, sent + req, error)
    ensures error.None? ==> Reaches(size, filter, call, a[..], i + size, events + [progress], sent + req, total)
  {
    ghost var bs := a[..];
    error, progress, req := TranslateChunk(a, size, filter, call, i);
    RunAfterStep(size, filter, call, bs, i, events, sent, error, a[..], progress, req, total);
  }

  /**
   * The body of the loop for the chunk at `i`: the pending filter, the call,
   * and the merge into `a`; it returns the error the body throws, or else
   * the progress it reports, and the request it sent, if any.
   */
  method TranslateChunk(a: array<SubtitleBlock>, size: nat, filter: bool, call: Request -> Attempt<Response>, i: nat)
      returns (error: Option<string>, progress: Progress, sent: seq<Request>)
    requires size > 0 && i < a.Length
    modifies a
    ensures ChunkStep(size, filter, call, old(a[..]), i)
         == if error.Some? then Stop(a[..], sent, error.value) else Continue(a[..], progress, sent)
  {
    var end := Min(i + size, a.Length);
    var chunk := a[i..end];
    assert chunk == ChunkAt(a[..], i, size);
    var pending := Pending(chunk);
    if filter && |pending| == 0 {
      return None, Progress(end, 0), [];
    }
    var req := Request(i, Prompt(if filter then pending else chunk));
    match call(req)
    case Threw(e) =>
      return Some(e), Progress(end, 0), [req];
    case Returned(resp) =>
      match resp.payload
      case Unparseable(e) =>
        return Some(e), Progress(end, 0), [req];
      case Parsed(items) =>
        var complete := MergeInto(a, items);
        if !complete {
          return Some(NullItemError), Progress(end, 0), [req];
        }
        return None, Progress(end, resp.tokens), [req];
  }

  /** A loop whose first pass goes on reports that pass, then what the loop from the next chunk reports. */
  lemma RunContinues(size: nat, filter: bool, call: Request -> Attempt<Response>, bs: seq<SubtitleBlock>, i: nat,
                     b: seq<SubtitleBlock>, p: Progress, sent: seq<Request>)
    requires size > 0 && i < |bs| && ChunkStep(size, filter, call, bs, i) == Continue(b, p, sent)
    ensures RunFrom(size, filter, call, bs, i) == Continued([p], sent, RunFrom(size, filter, call, b, i + size))
  {
  }

  /** A loop whose first pass throws reports nothing and rethrows. */
  lemma RunStops(size: nat, filter: bool, call: Request -> Attempt<Response>, bs: seq<SubtitleBlock>, i: nat,
                 b: seq<SubtitleBlock>, sent: seq<Request>, e: string)
    requires size > 0 && i < |bs| && ChunkStep(size, filter, call, bs, i) == Stop(b, sent, e)
    ensures RunFrom(size, filter, call, bs, i) == Run(b, [], sent, Some(e))
  {
  }

  lemma ContinuedTwice(events: seq<Progress>, sent: seq<Request>, p: Progress, s: seq<Request>, rest: Run)
    ensures Continued(events, sent, Continued([p], s, rest)) == Continued(events + [p], sent + s, rest)
  {
    assert events + ([p] + rest.events) == events + [p] + rest.events;
    assert sent + (s + rest.requests) == sent + s + rest.requests;
  }

  /**
   * The loop from chunk offset `i` on, after it has made the progress calls
   * `events` and sent `sent`: the loop in the order the method runs it.
   */
  function RunAfter(size: nat, filter: bool, call: Request -> Attempt<Response>, bs: seq<SubtitleBlock>, i: nat,
                    events: seq<Progress>, sent: seq<Request>): Run
    requires size > 0
    decreases |bs| - i
  {
    if i >= |bs| then Run(bs, events, sent, None)
    else
      match ChunkStep(size, filter, call, bs, i)
      case Stop(b, s, e) => Run(b, events, sent + s, Some(e))
      case Continue(b, p, s) => RunAfter(size, filter, call, b, i + size, events + [p], sent + s)
  }

  /** The loop after one more pass. */
  lemma RunAfterStep(size: nat, filter: bool, call: Request -> Attempt<Response>, bs: seq<SubtitleBlock>, i: nat,
                     events: seq<Progress>, sent: seq<Request>, error: Option<string>, b: seq<SubtitleBlock>, p: Progress, req: seq<Request>,
                     total: Run)
    requires size > 0 && i < |bs| && Reaches(size, filter, call, bs, i, events, sent, total)
    requires ChunkStep(size, filter, call, bs, i) == if error.Some? then Stop(b, req, error.value) else Continue(b, p, req)
    ensures error.Some? ==> total == Run(b, events, sent + req, error)
    ensures error.None? ==> Reaches(size, filter, call, b, i + size, events + [p], sent + req, total)
  {
  }

  /** The loop from chunk offset `i` on, after `events` and `sent`, is the whole run `total`. */
  ghost predicate Reaches(size: nat, filter: bool, call: Request -> Attempt<Response>, bs: seq<SubtitleBlock>, i: nat,
                          events: seq<Progress>, sent: seq<Request>, total: Run)
    requires size > 0
  {
    RunAfter(size, filter, call, bs, i, events, sent) == total
  }

  /** Running on after some progress calls and requests is the run from there, after them. */
  lemma {:induction false} RunAfterIsContinued(size: nat, filter: bool, call: Request -> Attempt<Response>, bs: seq<SubtitleBlock>, i: nat,
                                              events: seq<Progress>, sent: seq<Request>)
    requires size > 0
    ensures RunAfter(size, filter, call, bs, i, events, sent) == Continued(events, sent, RunFrom(size, filter, call, bs, i))
    decreases |bs| - i
  {
    if i >= |bs| {
      assert events + [] == events && sent + [] == sent;
    } else {
      var st := ChunkStep(size, filter, call, bs, i);
      if st.Stop? {
        RunStops(size, filter, call, bs, i, st.blocks, st.sent, st.error);
        assert events + [] == events;
      } else {
        RunAfterIsContinued(size, filter, call, st.blocks, i + size, events + [st.progress], sent + st.sent);
        RunContinues(size, filter, call, bs, i, st.blocks, st.progress, st.sent);
        ContinuedTwice(events, sent, st.progress, st.sent, RunFrom(size, filter, call, st.blocks, i + size));
      }
    }
  }

  /** The whole run, given what was reported before the chunk where the rest of it starts. */
  function Continued(events: seq<Progress>, sent: seq<Request>, rest: Run): Run
  {
    Run(rest.blocks, events + rest.events, sent + rest.requests, rest.failure)
  }
}
