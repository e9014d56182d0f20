/**
 * The multi-provider service: which provider a model name selects, the
 * model id sent to Gemini, the retry policy around each model call, the
 * OpenAI key check, and `translateSubtitles`, which runs the shared chunk
 * loop with chunks of 8 and the pending filter. The hosted models are one
 * oracle that sees which provider, model id and key a call uses, the
 * request, and which attempt of the request it is.
 */
module AiService {
  import opened Wrappers
  import opened Strings
  import opened Srt
  import opened Translation

  datatype Provider = OpenAi | Gemini

  /** `modelName.toLowerCase().includes('gpt') ? 'openai' : 'gemini'`. */
  function GetProvider(modelName: string): Provider
  {
    if Contains(ToLower(modelName), "gpt") then OpenAi else Gemini
  }

  /** Any name holding "gpt" in any mix of cases selects OpenAI, and so does any other name whose lower-cased form holds it. */
  lemma ProviderOfGpt(modelName: string, word: string)
    requires Contains(modelName, word) && ToLower(word) == "gpt"
    ensures GetProvider(modelName) == OpenAi
  {
    ToLowerContains(modelName, word);
  }

  /** The Gemini model ids the mapping produces. */
  const GeminiPro := "gemini-3-pro-preview"
  const GeminiFlash := "gemini-3-flash-preview"

  /** `MAP_MODEL_ID`: Gemini names map to the pro or the flash preview model; any other name is kept. */
  function MapModelId(modelName: string): string
  {
    var name := ToLower(modelName);
    if Contains(name, "gemini") then
      if Contains(name, "pro") then GeminiPro else GeminiFlash
    else modelName
  }

  /** An id spelled in lower case that starts with "gemini", has "pro" at 9 and no 't' names Gemini and "pro", and not "gpt". */
  lemma ProWords(id: string)
    requires forall j :: 0 <= j < |id| ==> KeptByLower(id[j]) && id[j] != 't'
    requires |id| >= 12
    requires forall j :: 0 <= j < 6 ==> id[j] == "gemini"[j]
    requires forall j :: 0 <= j < 3 ==> id[9 + j] == "pro"[j]
    ensures ToLower(id) == id
    ensures Contains(id, "gemini") && Contains(id, "pro") && !Contains(id, "gpt")
  {
    ToLowerKeeps(id);
    ContainsWhere(id, "gemini", 0);
    ContainsWhere(id, "pro", 9);
    LacksChar(id, "gpt", 't');
  }

  /** An id spelled in lower case that starts with "gemini" and has no 'o' and no 't' names Gemini, and neither "pro" nor "gpt". */
  lemma FlashWords(id: string)
    requires forall j :: 0 <= j < |id| ==> KeptByLower(id[j]) && id[j] != 'o' && id[j] != 't'
    requires |id| >= 6
    requires forall j :: 0 <= j < 6 ==> id[j] == "gemini"[j]
    ensures ToLower(id) == id
    ensures Contains(id, "gemini") && !Contains(id, "pro") && !Contains(id, "gpt")
  {
    ToLowerKeeps(id);
    ContainsWhere(id, "gemini", 0);
    LacksChar(id, "pro", 'o');
    LacksChar(id, "gpt", 't');
  }

  /** The pro id is its own lower-cased form; it names Gemini and "pro", and does not hold "gpt". */
  lemma ProIdWords()
    ensures ToLower(GeminiPro) == GeminiPro
    ensures Contains(GeminiPro, "gemini") && Contains(GeminiPro, "pro") && !Contains(GeminiPro, "gpt")
  {
    ProWords(GeminiPro);
  }

  /** The flash id is its own lower-cased form; it names Gemini, and holds neither "pro" nor "gpt". */
  lemma FlashIdWords()
    ensures ToLower(GeminiFlash) == GeminiFlash
    ensures Contains(GeminiFlash, "gemini") && !Contains(GeminiFlash, "pro") && !Contains(GeminiFlash, "gpt")
  {
    FlashWords(GeminiFlash);
  }

  /**
   * Names without "gemini" (in any case) are kept; Gemini names become the
   * pro model exactly when they mention "pro", and the flash model
   * otherwise; mapping twice is mapping once, and a mapped Gemini name
   * still selects the Gemini provider.
   */
  lemma MapModelIdProperties(modelName: string)
    ensures var name := ToLower(modelName);
      MapModelId(modelName) == (if !Contains(name, "gemini") then modelName
                                else if Contains(name, "pro") then GeminiPro else GeminiFlash)
    ensures MapModelId(MapModelId(modelName)) == MapModelId(modelName)
    ensures Contains(ToLower(modelName), "gemini") ==> GetProvider(MapModelId(modelName)) == Gemini
  {
    ProIdWords();
    FlashIdWords();
  }

  // ---------------------------------------------------------------------
  // withRetry
  // ---------------------------------------------------------------------

  /** The test `withRetry` applies to the error's `toString()`. */
  predicate IsRetryable(error: string)
  {
    Contains(error, "429") || Contains(error, "500") || Contains(error, "503") || Contains(ToLower(error), "quota")
  }

  /** The outcome of a call under `withRetry`, and the delays it waited before its retries, in order. */
  datatype Retried<T> = Retried(result: Attempt<T>, waits: seq<nat>)

  /**
   * `withRetry(fn, retries, delay)` where `fn(k)` is what the `k`-th call of
   * `fn` does: a retryable error with retries left waits `delay`, then
   * tries again with one retry less and twice the delay.
   */
  function RetryFrom<T>(fn: nat -> Attempt<T>, k: nat, retries: nat, delay: nat): Retried<T>
    decreases retries
  {
    match fn(k)
    case Returned(v) => Retried(Returned(v), [])
    case Threw(e) =>
      if retries > 0 && IsRetryable(e) then
        var r := RetryFrom(fn, k + 1, retries - 1, delay * 2);
        Retried(r.result, [delay] + r.waits)
      else Retried(Threw(e), [])
  }

  /** `withRetry(fn)` with its defaults: two retries, the first after 2000 ms. */
  function WithRetry<T>(fn: nat -> Attempt<T>): Retried<T>
  {
    RetryFrom(fn, 0, 2, 2000)
  }

  /**
   * The retry policy: the call is made once per wait plus once; the result
   * is that of the last call; every earlier call threw a retryable error;
   * the waits start at `delay` and double, and there are at most `retries`
   * of them; a call that throws in the end threw an error that is not
   * retryable, or used up every retry.
   */
  lemma {:induction false} RetryShape<T>(fn: nat -> Attempt<T>, k: nat, retries: nat, delay: nat)
    ensures var r := RetryFrom(fn, k, retries, delay);
      |r.waits| <= retries
      && r.result == fn(k + |r.waits|)
      && (forall j :: k <= j < k + |r.waits| ==> fn(j).Threw? && IsRetryable(fn(j).error))
      && (r.waits != [] ==> r.waits[0] == delay)
      && (forall j :: 0 < j < |r.waits| ==> r.waits[j] == 2 * r.waits[j - 1])
      && (r.result.Threw? ==> !IsRetryable(r.result.error) || |r.waits| == retries)
    decreases retries
  {
    var r := RetryFrom(fn, k, retries, delay);
    if fn(k).Threw? && retries > 0 && IsRetryable(fn(k).error) {
      RetryShape(fn, k + 1, retries - 1, delay * 2);
      var rest := RetryFrom(fn, k + 1, retries - 1, delay * 2);
      assert r.waits == [delay] + rest.waits;
      assert forall j :: 0 < j < |r.waits| ==> r.waits[j] == rest.waits[j - 1];
      forall j | 0 < j < |r.waits| ensures r.waits[j] == 2 * r.waits[j - 1] {
        if j > 1 {
          assert r.waits[j - 1] == rest.waits[j - 2];
        }
      }
    }
  }

  /** With the defaults there are at most three calls, waiting 2000 ms and then 4000 ms; an error that is not retryable is rethrown after one call. */
  lemma DefaultRetries<T>(fn: nat -> Attempt<T>)
    ensures var r := WithRetry(fn);
      r.waits == [2000, 4000][..|r.waits|] && r.result == fn(|r.waits|)
    ensures fn(0).Threw? && !IsRetryable(fn(0).error) ==> WithRetry(fn) == Retried(fn(0), [])
  {
    RetryShape(fn, 0, 2, 2000);
  }

  // ---------------------------------------------------------------------
  // One model call
  // ---------------------------------------------------------------------

  /** What the oracle is asked: the provider, the model id, the key, the request, and which attempt of it this is. */
  datatype Call = Call(provider: Provider, model: string, key: string, request: Request, attempt: nat)

  /** `new Error(msg).toString()` for the key check of `callOpenAi`, in four pieces so that its characters can be checked piece by piece. */
  const KeyErrorA := "Error: Vui lòng nhập OpenAI "
  const KeyErrorB := "API Key hợp lệ. Hệ thống "
  const KeyErrorC := "không thể dùng Key mặc "
  const KeyErrorD := "định của Gemini cho OpenAI."
  const OpenAiKeyError := KeyErrorA + KeyErrorB + KeyErrorC + KeyErrorD

  /** `new Error("Thiếu API KEY.").toString()`. */
  const MissingKeyError := "Error: Thiếu API KEY."

  /**
   * One attempt of the chunk's call: Gemini with the mapped model id, or
   * `callOpenAi`, which first rejects an empty key and a Gemini-style key
   * (one starting with "AIza") and otherwise sends the model name as given.
   */
  function ProviderCall(oracle: Call -> Attempt<Reply>, provider: Provider, modelName: string, key: string,
                        req: Request, attempt: nat): Attempt<Reply>
  {
    match provider
    case Gemini => oracle(Call(Gemini, MapModelId(modelName), key, req, attempt))
    case OpenAi =>
      if key == "" || StartsWith(key, "AIza") then Threw(OpenAiKeyError)
      else oracle(Call(OpenAi, modelName, key, req, attempt))
  }

  /**
   * The call for one chunk under `withRetry`, then `JSON.parse` of its text,
   * with `"[]"` for an empty text; the parse, standing for `JSON.parse`, is
   * outside the retry, so a reply that is not a JSON array is not retried.
   */
  function ChunkCall(oracle: Call -> Attempt<Reply>, parse: string -> Payload, provider: Provider, modelName: string,
                     key: string, req: Request): Attempt<Response>
  {
    match WithRetry(n => ProviderCall(oracle, provider, modelName, key, req, n)).result
    case Threw(e) => Threw(e)
    case Returned(reply) => Returned(Response(parse(if reply.text == "" then "[]" else reply.text), reply.tokens))
  }

  /** The call the loop makes for each request. */
  function Caller(oracle: Call -> Attempt<Reply>, parse: string -> Payload, provider: Provider, modelName: string,
                  key: string): Request -> Attempt<Response>
  {
    req => ChunkCall(oracle, parse, provider, modelName, key, req)
  }

  /** The key error is not retryable: with a Gemini-style key every OpenAI chunk call throws it after a single attempt. */
  lemma GeminiKeyRejected(oracle: Call -> Attempt<Reply>, parse: string -> Payload, modelName: string, key: string, req: Request)
    requires StartsWith(key, "AIza")
    ensures WithRetry(n => ProviderCall(oracle, OpenAi, modelName, key, req, n)) == Retried(Threw(OpenAiKeyError), [])
    ensures ChunkCall(oracle, parse, OpenAi, modelName, key, req) == Threw(OpenAiKeyError)
  {
    var fn := n => ProviderCall(oracle, OpenAi, modelName, key, req, n);
    assert fn(0) == Threw(OpenAiKeyError);
    KeyErrorNotRetryable();
    DefaultRetries(fn);
  }

  /** A character that none of the words `withRetry` looks for can use. */
  predicate QuietChar(c: char)
  {
    c != '4' && c != '5' && c != 'q' && c != 'Q'
  }

  /** A text holding no '4', no '5' and no 'q' in either case. */
  predicate Quiet(s: string)
  {
    forall j :: 0 <= j < |s| ==> QuietChar(s[j])
  }

  lemma QuietAppend(a: string, b: string)
    requires Quiet(a) && Quiet(b)
    ensures Quiet(a + b)
  {
    assert forall j :: |a| <= j < |a + b| ==> (a + b)[j] == b[j - |a|];
  }

  /** An error with no '4', no '5' and no 'q' or 'Q' names none of 429, 500, 503 and quota, so it is not retried. */
  lemma QuietNotRetryable(e: string)
    requires Quiet(e)
    ensures !IsRetryable(e)
  {
    LacksChar(e, "429", '4');
    LacksChar(e, "500", '5');
    LacksChar(e, "503", '5');
    ToLowerLacks(e, 'q');
    LacksChar(ToLower(e), "quota", 'q');
  }

  lemma KeyErrorPiecesQuiet()
    ensures Quiet(KeyErrorA) && Quiet(KeyErrorB) && Quiet(KeyErrorC) && Quiet(KeyErrorD)
  {
    assert Quiet(KeyErrorA);
    assert Quiet(KeyErrorB);
    assert Quiet(KeyErrorC);
    assert Quiet(KeyErrorD);
  }

  /** The key error names no status code and no quota. */
  lemma KeyErrorNotRetryable()
    ensures !IsRetryable(OpenAiKeyError)
  {
    KeyErrorPiecesQuiet();
    QuietAppend(KeyErrorA, KeyErrorB);
    QuietAppend(KeyErrorA + KeyErrorB, KeyErrorC);
    QuietAppend(KeyErrorA + KeyErrorB + KeyErrorC, KeyErrorD);
    QuietNotRetryable(OpenAiKeyError);
  }

  /** An empty reply text is parsed as `"[]"`; any other text is parsed as it is, and the tokens are the reply's. */
  lemma ChunkCallParses(oracle: Call -> Attempt<Reply>, parse: string -> Payload, provider: Provider, modelName: string,
                        key: string, req: Request)
    ensures var r := WithRetry(n => ProviderCall(oracle, provider, modelName, key, req, n)).result;
      var c := ChunkCall(oracle, parse, provider, modelName, key, req);
      (r.Threw? <==> c.Threw?)
      && (r.Threw? ==> c.error == r.error)
      && (r.Returned? ==> c.value.tokens == r.value.tokens
                          && c.value.payload == parse(if r.value.text == "" then "[]" else r.value.text))
  {
  }

  /** Every Gemini call the loop makes uses the mapped model id; every OpenAI call uses the name as given and a key the check let through. */
  lemma CallsUseModel(oracle: Call -> Attempt<Reply>, provider: Provider, modelName: string, key: string, req: Request, n: nat)
    ensures provider == Gemini ==> ProviderCall(oracle, provider, modelName, key, req, n)
                                   == oracle(Call(Gemini, MapModelId(modelName), key, req, n))
    ensures provider == OpenAi && key != "" && !StartsWith(key, "AIza") ==>
              ProviderCall(oracle, provider, modelName, key, req, n) == oracle(Call(OpenAi, modelName, key, req, n))
  {
  }

  // ---------------------------------------------------------------------
  // translateSubtitles
  // ---------------------------------------------------------------------

  /** A key `!apiKey` lets through: present and not empty. */
  predicate Usable(key: Option<string>)
  {
    key.Some? && key.value != ""
  }

  /** `provider === 'openai' ? customKey : (customKey || process.env.API_KEY)`, and `None` where `!apiKey` throws. */
  function ApiKey(provider: Provider, customKey: Option<string>, envKey: Option<string>): (r: Option<string>)
    ensures r.Some? ==> r.value != ""
    ensures r.None? <==> !Usable(customKey) && (provider.OpenAi? || !Usable(envKey))
    ensures Usable(customKey) ==> r == customKey
    ensures provider.Gemini? && !Usable(customKey) ==> r == (if Usable(envKey) then envKey else None)
  {
    if Usable(customKey) then customKey
    else if provider.Gemini? && Usable(envKey) then envKey
    else None
  }

  /**
   * `translateSubtitles` over the shared blocks in `a`: without a key it
   * throws before any chunk and changes nothing; otherwise it runs the chunk
   * loop with chunks of 8, sending only the pending blocks of each chunk,
   * through the provider the model name selects.
   */
  method TranslateSubtitles(a: array<SubtitleBlock>, modelName: string, customKey: Option<string>, envKey: Option<string>,
                            oracle: Call -> Attempt<Reply>, parse: string -> Payload)
      returns (failure: Option<string>, events: seq<Progress>, sent: seq<Request>)
    modifies a
    ensures var key := ApiKey(GetProvider(modelName), customKey, envKey);
      key.None? ==> failure == Some(MissingKeyError) && events == [] && sent == [] && a[..] == old(a[..])
    ensures var key := ApiKey(GetProvider(modelName), customKey, envKey);
      key.Some? ==> RunFrom(8, true, Caller(oracle, parse, GetProvider(modelName), modelName, key.value), old(a[..]), 0)
                    == Run(a[..], events, sent, failure)
  {
    var provider := GetProvider(modelName);
    var key := ApiKey(provider, customKey, envKey);
    if key.None? {
      return Some(MissingKeyError), [], [];
    }
    failure, events, sent := TranslateChunks(a, 8, true, Caller(oracle, parse, provider, modelName, key.value));
  }

  /**
   * With an OpenAI model and a Gemini-style custom key, the loop stops at
   * the first chunk with a pending block, with the key error, having
   * changed no block and sent that one request.
   */
  lemma GeminiKeyStopsRun(oracle: Call -> Attempt<Reply>, parse: string -> Payload, modelName: string, key: string,
                          bs: seq<SubtitleBlock>, i: nat)
    requires StartsWith(key, "AIza")
    ensures var r := RunFrom(8, true, Caller(oracle, parse, OpenAi, modelName, key), bs, i);
      r.blocks == bs && (r.failure.Some? ==> r.failure == Some(OpenAiKeyError) && |r.requests| == 1)
    decreases |bs| - i
  {
    var call := Caller(oracle, parse, OpenAi, modelName, key);
    if i < |bs| {
      var chunk := ChunkAt(bs, i, 8);
      if |Pending(chunk)| != 0 {
        var req := Request(i, Prompt(Pending(chunk)));
        GeminiKeyRejected(oracle, parse, modelName, key, req);
        assert call(req) == Threw(OpenAiKeyError);
        assert ChunkStep(8, true, call, bs, i) == Stop(bs, [req], OpenAiKeyError);
      } else {
        GeminiKeyStopsRun(oracle, parse, modelName, key, bs, i + 8);
        assert ChunkStep(8, true, call, bs, i) == Continue(bs, Progress(Min(i + 8, |bs|), 0), []);
      }
    }
  }
}
