/**
 * The AI service's request flow: fetching the transcript, summarising it,
 * generating the quiz questions with a bounded number of attempts, and the
 * two endpoints that combine them. The language model, the transcript
 * library, `json.loads` and the cache files are parameters: each call to
 * them is given as the value it returns.
 */
module Service {
  import opened Wrappers
  import opened Json
  import opened Text
  import opened Mcq
  import VideoId

  /** What one call to the language model gives: the reply's text, or an exception. */
  datatype LlmReply = Reply(text: string) | Raised

  /** What one call to the transcript library gives. */
  datatype TranscriptFetch =
    | Entries(texts: seq<string>)   // the `text` of each transcript entry, in order
    | NoTranscript(reason: string)  // `NoTranscriptFound` or `TranscriptsDisabled`
    | FetchError(reason: string)    // any other exception

  /** A value, or the `HTTPException` raised instead of it. */
  datatype Outcome<T> = Done(value: T) | HttpError(status: nat, detail: string)

  const InvalidUrlDetail := "Invalid or unsupported YouTube URL format."
  const NoTranscriptPrefix := "Could not retrieve transcript: "
  const TranscriptionErrorPrefix := "An error occurred during transcription: "
  const IdentifierPrefix := "youtube_video_"

  // ---- transcription ----

  /**
   * `transcribe_audio_async`: the transcript and the cache identifier of the
   * video, and the transcript saved to the cache, if any. `cached` is the
   * transcript the cache holds for that video.
   */
  function Transcribe(url: string, cached: Option<string>, fetch: TranscriptFetch): (r: (Outcome<(string, string)>, Option<string>))
    ensures VideoId.GetVideoId(url).None? ==> r.0 == HttpError(400, InvalidUrlDetail) && r.1.None?
    ensures r.0.Done? ==> exists id :: VideoId.GetVideoId(url) == Some(id) && r.0.value.1 == IdentifierPrefix + id
    ensures r.0.Done? && cached.None? ==> IsClean(r.0.value.0) && r.1 == Some(r.0.value.0)
    ensures r.0.HttpError? ==> r.0.status in {400, 404, 500} && r.1.None?
    ensures VideoId.GetVideoId(url).Some? && cached.Some? ==> r.0.Done? && r.0.value.0 == cached.value && r.1.None?
    ensures VideoId.GetVideoId(url).Some? && cached.None? && fetch.Entries? ==> r.0.Done?
    ensures VideoId.GetVideoId(url).Some? && cached.None? && fetch.NoTranscript? ==>
              r.0 == HttpError(404, NoTranscriptPrefix + fetch.reason) && r.1.None?
    ensures VideoId.GetVideoId(url).Some? && cached.None? && fetch.FetchError? ==>
              r.0 == HttpError(500, TranscriptionErrorPrefix + fetch.reason) && r.1.None?
  {
    match VideoId.GetVideoId(url)
    case None => (HttpError(400, InvalidUrlDetail), None)
    case Some(id) =>
      var identifier := IdentifierPrefix + id;
      if cached.Some? then (Done((cached.value, identifier)), None)
      else match fetch
        case Entries(texts) =>
          var transcript := CleanTranscript(Join(texts, " "));
          CleanTranscriptIsClean(Join(texts, " "));
          (Done((transcript, identifier)), Some(transcript))
        case NoTranscript(reason) => (HttpError(404, NoTranscriptPrefix + reason), None)
        case FetchError(reason) => (HttpError(500, TranscriptionErrorPrefix + reason), None)
  }

  /** A freshly fetched transcript holds the entries' words, in order, and nothing else. */
  lemma FetchedTranscriptKeepsWords(url: string, texts: seq<string>)
    requires VideoId.GetVideoId(url).Some?
    ensures var r := Transcribe(url, None, Entries(texts));
            r.0.Done? && Words(r.0.value.0) == Words(Join(texts, " "))
  {
    CleanKeepsWords(Join(texts, " "));
  }

  // ---- summary ----

  /**
   * `summarize_transcript_api_async`: the summary and what is saved to the
   * cache. A cached summary is returned as it is; otherwise the model's reply,
   * stripped, is returned and saved; when the call raises, the first hundred
   * words of the transcript followed by "..." are returned and nothing is saved.
   */
  function Summarize(cached: Option<string>, reply: LlmReply, transcript: string): (r: (string, Option<string>))
    ensures cached.Some? ==> r == (cached.value, None)
    ensures cached.None? && reply.Reply? ==> r.1 == Some(r.0) && IsStripOf(reply.text, r.0)
    ensures cached.None? && reply.Raised? ==> r.1.None? && |r.0| >= 3 && r.0[|r.0| - 3..] == "..."
    ensures cached.None? && reply.Raised? ==>
              |r.0| >= 3 && IsClean(r.0[..|r.0| - 3]) && Words(r.0[..|r.0| - 3]) == Take(Words(transcript), 100)
  {
    match cached
    case Some(summary) => (summary, None)
    case None =>
      match reply
      case Reply(text) =>
        StripIsStrip(text);
        (Strip(text), Some(Strip(text)))
      case Raised =>
        SummaryFallbackShape(transcript);
        (SummaryFallback(transcript), None)
  }

  // ---- question generation ----

  /**
   * One attempt of the loop: the reply is stripped, its array is extracted and
   * decoded, and the decoded value is returned if it passes the format check.
   * `None` stands for any of the exceptions the loop catches.
   */
  function AttemptOutcome(reply: LlmReply, loads: string -> Option<Json>): (r: Option<Json>)
    ensures r.Some? ==> IsMcqList(r.value)
    ensures r.Some? <==>
              && reply.Reply? && ExtractJsonArray(reply.text).Success?
              && loads(ExtractJsonArray(reply.text).value).Some?
              && IsMcqList(loads(ExtractJsonArray(reply.text).value).value)
    ensures r.Some? ==> r == loads(ExtractJsonArray(reply.text).value)
  {
    match reply
    case Raised => None
    case Reply(text) =>
      match ExtractJsonArray(text)
      case Failure(_) => None
      case Success(found) =>
        match loads(found)
        case None => None
        case Some(questions) => if IsMcqList(questions) then Some(questions) else None
  }

  /** What each of the `MaxRetries` attempts would yield. */
  function Outcomes(llm: nat -> LlmReply, loads: string -> Option<Json>): (outs: seq<Option<Json>>)
    ensures |outs| == MaxRetries
    ensures forall k :: 0 <= k < MaxRetries ==> outs[k] == AttemptOutcome(llm(k), loads)
  {
    seq(MaxRetries, k requires 0 <= k => AttemptOutcome(llm(k), loads))
  }

  /** The first attempt at or after `from` that yields questions. */
  function FirstSome(outs: seq<Option<Json>>, from: nat): (r: Option<nat>)
    ensures r.Some? ==> from <= r.value < |outs| && outs[r.value].Some?
    ensures r.Some? ==> forall k :: from <= k < r.value ==> outs[k].None?
    ensures r.None? ==> forall k :: from <= k < |outs| ==> outs[k].None?
    decreases |outs| - from
  {
    if from >= |outs| then None
    else if outs[from].Some? then Some(from)
    else FirstSome(outs, from + 1)
  }

  /** The first of the `MaxRetries` attempts that yields valid questions, if any does. */
  function FirstSuccess(llm: nat -> LlmReply, loads: string -> Option<Json>): (r: Option<nat>)
    ensures r.Some? ==> r.value < MaxRetries && AttemptOutcome(llm(r.value), loads).Some?
    ensures r.Some? ==> forall k :: 0 <= k < r.value ==> AttemptOutcome(llm(k), loads).None?
    ensures r.None? ==> forall k :: 0 <= k < MaxRetries ==> AttemptOutcome(llm(k), loads).None?
  {
    FirstSome(Outcomes(llm, loads), 0)
  }

  /**
   * The questions a run of the loop returns when the cache is not used: those
   * of the first successful attempt, or the placeholder when every attempt
   * fails. Either way they pass the format check.
   */
  function FreshQuestions(llm: nat -> LlmReply, loads: string -> Option<Json>): (r: Json)
    ensures IsMcqList(r)
    ensures FirstSuccess(llm, loads).None? ==> r == Placeholder()
    ensures FirstSuccess(llm, loads).Some? ==> Some(r) == AttemptOutcome(llm(FirstSuccess(llm, loads).value), loads)
  {
    match FirstSuccess(llm, loads)
    case Some(k) => AttemptOutcome(llm(k), loads).value
    case None => Placeholder()
  }

  /** How many times the model is called when the cache is not used. */
  function AttemptsMade(llm: nat -> LlmReply, loads: string -> Option<Json>): (n: nat)
    ensures 1 <= n <= MaxRetries
    ensures FirstSuccess(llm, loads).Some? ==> n == FirstSuccess(llm, loads).value + 1
    ensures FirstSuccess(llm, loads).None? ==> n == MaxRetries
  {
    match FirstSuccess(llm, loads)
    case Some(k) => k + 1
    case None => MaxRetries
  }

  /** The loop stops at attempt `k` when it is the first to yield questions. */
  lemma FoundAt(llm: nat -> LlmReply, loads: string -> Option<Json>, k: nat)
    requires k < MaxRetries && FirstSome(Outcomes(llm, loads), 0) == FirstSome(Outcomes(llm, loads), k)
    requires AttemptOutcome(llm(k), loads).Some?
    ensures FirstSuccess(llm, loads) == Some(k)
    ensures FreshQuestions(llm, loads) == AttemptOutcome(llm(k), loads).value
    ensures AttemptsMade(llm, loads) == k + 1
  {
    assert Outcomes(llm, loads)[k].Some?;
  }

  /** When the last attempt fails too, no attempt succeeded. */
  lemma NoneFound(llm: nat -> LlmReply, loads: string -> Option<Json>)
    requires FirstSome(Outcomes(llm, loads), 0) == FirstSome(Outcomes(llm, loads), MaxRetries - 1)
    requires AttemptOutcome(llm(MaxRetries - 1), loads).None?
    ensures FirstSuccess(llm, loads).None?
    ensures FreshQuestions(llm, loads) == Placeholder()
    ensures AttemptsMade(llm, loads) == MaxRetries
  {
    var outs := Outcomes(llm, loads);
    assert outs[MaxRetries - 1].None?;
    assert FirstSome(outs, MaxRetries) == None;
  }

  /**
   * `generate_mcq_questions_api_async`. `cached` is what the question cache
   * holds for this video; `llm(k)` is the reply to the `k`-th call to the
   * model and `loads` is `json.loads`. Besides the questions it reports
   * whether the cache was read, how many calls were made and what was saved.
   */
  method GenerateMcqQuestions(forceRefresh: bool, cached: Option<Json>, llm: nat -> LlmReply, loads: string -> Option<Json>)
    returns (questions: Json, cacheRead: bool, attempts: nat, saved: Option<Json>)
    ensures cacheRead <==> !forceRefresh
    ensures cacheRead && cached.Some? ==> questions == cached.value && attempts == 0 && saved.None?
    ensures !(cacheRead && cached.Some?) ==> questions == FreshQuestions(llm, loads) && attempts == AttemptsMade(llm, loads)
    ensures !(cacheRead && cached.Some?) ==> (saved.Some? <==> FirstSuccess(llm, loads).Some?)
    ensures saved.Some? ==> saved.value == questions && IsMcqList(questions)
  {
    cacheRead := false;
    saved := None;
    attempts := 0;
    if !forceRefresh {
      cacheRead := true;
      if cached.Some? {
        return cached.value, cacheRead, attempts, saved;
      }
    }
    ghost var outs := Outcomes(llm, loads);
    var attempt: nat := 0;
    while attempt < MaxRetries
      invariant attempt <= MaxRetries
      invariant FirstSome(outs, 0) == FirstSome(outs, attempt)
      invariant attempts == attempt && saved.None?
    {
      var outcome := AttemptOutcome(llm(attempt), loads);
      attempts := attempt + 1;
      if outcome.Some? {
        FoundAt(llm, loads, attempt);
        saved := outcome;
        return outcome.value, cacheRead, attempts, saved;
      }
      if attempt >= MaxRetries - 1 {
        NoneFound(llm, loads);
        return Placeholder(), cacheRead, attempts, saved;
      }
      attempt := attempt + 1;
    }
    // not reached: the last attempt returns
    questions := Placeholder();
  }

  // ---- endpoints ----

  /** The body of a successful `/process_video` response, without the timing and the echoed URL. */
  datatype Processed = Processed(transcript: string, summary: string, questions: Json)

  /** What the caches hold for the requested video. */
  datatype Cached = Cached(transcript: Option<string>, summary: Option<string>, questions: Option<Json>)

  /**
   * `/process_video`: the transcript, then its summary and its questions
   * (the question cache is read). A transcription error is the response.
   */
  method ProcessVideo(url: string, cache: Cached, fetch: TranscriptFetch, summaryReply: LlmReply,
                      llm: nat -> LlmReply, loads: string -> Option<Json>)
    returns (r: Outcome<Processed>)
    ensures Transcribe(url, cache.transcript, fetch).0.HttpError? ==>
              r.HttpError? && r.status == Transcribe(url, cache.transcript, fetch).0.status && r.detail == Transcribe(url, cache.transcript, fetch).0.detail
    ensures Transcribe(url, cache.transcript, fetch).0.Done? ==> r.Done? && r.value.transcript == Transcribe(url, cache.transcript, fetch).0.value.0
    ensures r.Done? ==> r.value.summary == Summarize(cache.summary, summaryReply, r.value.transcript).0
    ensures r.Done? ==> r.value.questions == (if cache.questions.Some? then cache.questions.value else FreshQuestions(llm, loads))
  {
    var t := Transcribe(url, cache.transcript, fetch).0;
    match t {
      case HttpError(status, detail) =>
        return HttpError(status, detail);
      case Done((transcript, identifier)) =>
        var summary := Summarize(cache.summary, summaryReply, transcript).0;
        var questions, _, _, _ := GenerateMcqQuestions(false, cache.questions, llm, loads);
        return Done(Processed(transcript, summary, questions));
    }
  }

  /**
   * `/refresh_questions`: the transcript (cached when possible), then new
   * questions without reading the question cache. The result does not depend
   * on what that cache holds, and it passes the format check.
   */
  method RefreshQuestions(url: string, cache: Cached, fetch: TranscriptFetch, llm: nat -> LlmReply, loads: string -> Option<Json>)
    returns (r: Outcome<Json>)
    ensures Transcribe(url, cache.transcript, fetch).0.HttpError? ==>
              r.HttpError? && r.status == Transcribe(url, cache.transcript, fetch).0.status && r.detail == Transcribe(url, cache.transcript, fetch).0.detail
    ensures Transcribe(url, cache.transcript, fetch).0.Done? ==> r == Done(FreshQuestions(llm, loads))
    ensures r.Done? ==> IsMcqList(r.value)
  {
    var t := Transcribe(url, cache.transcript, fetch).0;
    match t {
      case HttpError(status, detail) =>
        return HttpError(status, detail);
      case Done(_) =>
        var questions, cacheRead, _, _ := GenerateMcqQuestions(true, cache.questions, llm, loads);
        assert !cacheRead;
        return Done(questions);
    }
  }
}
