/**
 * The Gemini-only service: `translateSubtitles` runs the shared chunk loop
 * with chunks of 15, sending every block of each chunk, one call per chunk
 * and no retry. The hosted model is an oracle that sees the model name and
 * the request.
 */
module GeminiService {
  import opened Wrappers
  import opened Srt
  import opened Translation

  /**
   * One chunk's `generateContent` call and `JSON.parse(response.text)`: a
   * throw is rethrown as it is; otherwise the text is parsed as it stands
   * (there is no fallback for an absent text) and the tokens are the
   * reported count, 0 when there is none.
   */
  function ChunkCall(generate: (string, Request) -> Attempt<Reply>, parse: string -> Payload, model: string,
                     req: Request): Attempt<Response>
  {
    match generate(model, req)
    case Threw(e) => Threw(e)
    case Returned(reply) => Returned(Response(parse(reply.text), reply.tokens))
  }

  /** The call the loop makes for each request. */
  function Caller(generate: (string, Request) -> Attempt<Reply>, parse: string -> Payload, model: string): Request -> Attempt<Response>
  {
    req => ChunkCall(generate, parse, model, req)
  }

  /** The chunk size of this service. */
  const ChunkSize := 15

  /**
   * `translateSubtitles` over the shared blocks in `a`: the chunk loop with
   * chunks of 15, sending every block, through the model as named.
   */
  method TranslateSubtitles(a: array<SubtitleBlock>, model: string, generate: (string, Request) -> Attempt<Reply>,
                            parse: string -> Payload)
      returns (failure: Option<string>, events: seq<Progress>, sent: seq<Request>)
    modifies a
    ensures RunFrom(ChunkSize, false, Caller(generate, parse, model), old(a[..]), 0) == Run(a[..], events, sent, failure)
  {
    failure, events, sent := TranslateChunks(a, ChunkSize, false, Caller(generate, parse, model));
  }

  /**
   * What a run of this service does to the blocks `bs`: it keeps their
   * number, order and cues; its chunks of 15 partition the blocks in order
   * and the requests it sent are those of the first chunks, one per chunk,
   * each carrying the `{id, text}` of every block of its chunk; its
   * progress counts strictly increase, each at most the number of blocks,
   * and a run that does not rethrow reports all of them; a run that
   * rethrows stops at the chunk whose request it sent last.
   */
  lemma RunProperties(generate: (string, Request) -> Attempt<Reply>, parse: string -> Payload, model: string,
                      bs: seq<SubtitleBlock>)
    ensures var r := RunFrom(ChunkSize, false, Caller(generate, parse, model), bs, 0);
      var c := Chunks(ChunkSize, bs, 0);
      KeepsCues(r.blocks, bs)
      && Flatten(c) == bs
      && |r.requests| <= |c|
      && (forall k :: 0 <= k < |r.requests| ==> r.requests[k].data == Prompt(c[k]))
      && |r.requests| == |r.events| + (if r.failure.Some? then 1 else 0)
      && (forall j, j' :: 0 <= j < j' < |r.events| ==> r.events[j].count < r.events[j'].count)
      && (forall j :: 0 <= j < |r.events| ==> 0 < r.events[j].count <= |bs|)
      && (r.failure.None? && bs != [] ==> r.events[|r.events| - 1].count == |bs|)
  {
    var call := Caller(generate, parse, model);
    var r := RunFrom(ChunkSize, false, call, bs, 0);
    RunSameCues(ChunkSize, false, call, bs, 0);
    ChunksPartition(ChunkSize, bs, 0);
    assert bs[0..] == bs;
    RunReports(ChunkSize, false, call, bs, 0);
    ChunkRequestsCover(ChunkSize, bs, 0);
    var q := ChunkRequests(ChunkSize, bs, 0);
    assert forall k :: 0 <= k < |r.requests| ==> r.requests[k] == q[k];
    ProgressIncreases(ChunkSize, false, call, bs);
  }

  /**
   * A chunk whose call throws ends the loop there: the error is rethrown,
   * no progress is reported for it, its request is the only one sent, and
   * the blocks are as the earlier chunks left them.
   */
  lemma ThrowStops(generate: (string, Request) -> Attempt<Reply>, parse: string -> Payload, model: string,
                   bs: seq<SubtitleBlock>, i: nat)
    requires i < |bs| && generate(model, Request(i, Prompt(ChunkAt(bs, i, ChunkSize)))).Threw?
    ensures var req := Request(i, Prompt(ChunkAt(bs, i, ChunkSize)));
      RunFrom(ChunkSize, false, Caller(generate, parse, model), bs, i) == Run(bs, [], [req], Some(generate(model, req).error))
  {
    var req := Request(i, Prompt(ChunkAt(bs, i, ChunkSize)));
    var call := Caller(generate, parse, model);
    assert call(req) == Threw(generate(model, req).error);
    RunStops(ChunkSize, false, call, bs, i, bs, [req], generate(model, req).error);
  }
}
