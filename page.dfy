/**
 * The page-level state of the app: the URL typed in, the last processing
 * result (`data`), the two loading flags and the error line, with the two
 * handlers that drive them, `handleProcessVideo` and `handleRefreshQuestions`.
 * Each request's outcome is a parameter; each handler is split at its `await`
 * into the part that runs before the request and the part that runs after it.
 */
module Page {
  import opened Wrappers
  import opened Quiz

  /** What the page shows once a video is processed: transcript, summary and questions. */
  datatype PageData = PageData(transcript: string, summary: string, questions: seq<Question>)

  /** The body of a non-2xx response, as `response.json()` reads it. */
  datatype ErrorBody =
    | Unparseable          // `response.json()` rejected: the handler falls back to `{ detail: statusText }`
    | NoDetail             // a JSON body without a `detail` field
    | Detail(text: string) // a JSON body with a `detail` string

  /** The outcome of one `fetch` to the AI service. */
  datatype Reply<T> =
    | Ok(payload: T)                              // a 2xx response whose body parsed
    | NotOk(body: ErrorBody, statusText: string)  // a non-2xx response
    | Thrown(message: string)                     // the network failed or the success body did not parse

  const UnknownError := "An unknown error occurred."
  const EmptyUrlError := "Please enter a YouTube video URL."
  const RefreshWithoutUrlError := "Cannot refresh without a video URL."
  const ProcessFailedPrefix := "Failed to process video: "
  const RefreshFailedPrefix := "Failed to refresh questions: "

  /**
   * The `message` of the error the handler catches: for a non-2xx response
   * `errorData.detail || "An unknown error occurred."`, where `errorData` is
   * `{ detail: statusText }` when the body does not parse.
   */
  function FailureMessage<T>(reply: Reply<T>): (m: string)
    requires !reply.Ok?
    ensures reply.NotOk? ==> m != []
    ensures reply.NotOk? && reply.body.Detail? && reply.body.text != [] ==> m == reply.body.text
    ensures reply.NotOk? && reply.body.NoDetail? ==> m == UnknownError
    ensures reply.NotOk? && reply.body.Detail? && reply.body.text == [] ==> m == UnknownError
    ensures reply.NotOk? && reply.body.Unparseable? ==>
              m == (if reply.statusText != [] then reply.statusText else UnknownError)
    ensures reply.Thrown? ==> m == reply.message
  {
    match reply
    case NotOk(body, statusText) =>
      var detail := match body
                    case Unparseable => statusText
                    case NoDetail => []
                    case Detail(text) => text;
      if detail != [] then detail else UnknownError
    case Thrown(message) => message
  }

  /** `setData(prevData => ({ ...prevData, questions }))`: only the questions change. */
  function WithQuestions(prev: Option<PageData>, questions: seq<Question>): (d: PageData)
    ensures d.questions == questions
    ensures prev.Some? ==> d.transcript == prev.value.transcript && d.summary == prev.value.summary
  {
    match prev
    case Some(p) => p.(questions := questions)
    // spreading `null` leaves transcript and summary undefined, which render as nothing
    case None => PageData([], [], questions)
  }

  /**
   * The state the `App` component owns. The quiz of the `TranscriptSummary`
   * it renders is `quiz`; it is shown while `data` is present and always holds
   * `data`'s questions then.
   */
  class PageController {
    var url: string
    var data: Option<PageData>
    var loading: bool
    var refreshing: bool
    var error: Option<string>
    const quiz: QuizSession

    ghost predicate Valid()
      reads this, quiz
    {
      quiz.Valid() && (data.Some? ==> quiz.questions == data.value.questions)
    }

    constructor ()
      ensures Valid() && fresh(quiz)
      ensures url == [] && data.None? && !loading && !refreshing && error.None?
    {
      url := [];
      data := None;
      loading := false;
      refreshing := false;
      error := None;
      quiz := new QuizSession([]);
    }

    /** The URL input's `onChange`. */
    method SetUrl(newUrl: string)
      requires Valid()
      modifies this
      ensures Valid()
      ensures url == newUrl
      ensures data == old(data) && loading == old(loading) && refreshing == old(refreshing) && error == old(error)
    {
      url := newUrl;
    }

    /**
     * `handleProcessVideo` up to its request: an empty URL only sets the
     * validation error; otherwise the error is cleared, `loading` is set, the
     * previous result is cleared, and the request is sent.
     */
    method BeginProcessVideo() returns (sent: bool)
      requires Valid()
      modifies this
      ensures Valid()
      ensures sent <==> old(url) != []
      ensures url == old(url) && refreshing == old(refreshing)
      ensures !sent ==> error == Some(EmptyUrlError) && loading == old(loading) && data == old(data)
      ensures sent ==> error.None? && loading && data.None?
    {
      if url == [] {
        error := Some(EmptyUrlError);
        return false;
      }
      error := None;
      loading := true;
      data := None;
      sent := true;
    }

    /**
     * `handleProcessVideo` after its request: a success stores the result and
     * the quiz starts afresh on its questions; a failure sets the error line;
     * `loading` is cleared on both paths.
     */
    method FinishProcessVideo(reply: Reply<PageData>)
      requires Valid()
      modifies this, quiz
      ensures Valid()
      ensures !loading
      ensures url == old(url) && refreshing == old(refreshing)
      ensures reply.Ok? ==> data == Some(reply.payload) && error == old(error)
      ensures reply.Ok? ==> quiz.userAnswers == FreshAnswers(|reply.payload.questions|) && !quiz.showResults && quiz.score == 0
      ensures !reply.Ok? ==> data == old(data) && error == Some(ProcessFailedPrefix + FailureMessage(reply))
    {
      match reply {
        case Ok(result) =>
          data := Some(result);
          quiz.ReplaceQuestions(result.questions);
        case NotOk(_, _) =>
          error := Some(ProcessFailedPrefix + FailureMessage(reply));
        case Thrown(_) =>
          error := Some(ProcessFailedPrefix + FailureMessage(reply));
      }
      loading := false;
    }

    /**
     * The whole of `handleProcessVideo` with the request's outcome given: no
     * request for an empty URL; otherwise the earlier result is gone, and the
     * new one or an error is there, and `loading` is back to false.
     */
    method ProcessVideo(reply: Reply<PageData>) returns (sent: bool)
      requires Valid()
      modifies this, quiz
      ensures Valid()
      ensures sent <==> old(url) != []
      ensures url == old(url) && refreshing == old(refreshing)
      ensures !sent ==> error == Some(EmptyUrlError) && loading == old(loading) && data == old(data)
      ensures sent ==> !loading
      ensures sent && reply.Ok? ==> data == Some(reply.payload) && error.None?
      ensures sent && !reply.Ok? ==> data.None? && error == Some(ProcessFailedPrefix + FailureMessage(reply))
      ensures sent && reply.Ok? ==> quiz.userAnswers == FreshAnswers(|reply.payload.questions|) && !quiz.showResults && quiz.score == 0
      ensures !sent ==> unchanged(quiz)
    {
      sent := BeginProcessVideo();
      if sent {
        FinishProcessVideo(reply);
      }
    }

    /**
     * `handleRefreshQuestions` up to its request: an empty URL only sets the
     * error; otherwise the error is cleared and `refreshing` is set.
     */
    method BeginRefresh() returns (sent: bool)
      requires Valid()
      modifies this
      ensures Valid()
      ensures sent <==> old(url) != []
      ensures url == old(url) && loading == old(loading) && data == old(data)
      ensures !sent ==> error == Some(RefreshWithoutUrlError) && refreshing == old(refreshing)
      ensures sent ==> error.None? && refreshing
    {
      if url == [] {
        error := Some(RefreshWithoutUrlError);
        return false;
      }
      error := None;
      refreshing := true;
      sent := true;
    }

    /**
     * `handleRefreshQuestions` after its request: a success replaces the
     * questions only, and the quiz starts afresh on them; a failure sets the
     * error line and leaves the result and the quiz alone; `refreshing` is
     * cleared on both paths.
     */
    method FinishRefresh(reply: Reply<seq<Question>>)
      requires Valid()
      modifies this, quiz
      ensures Valid()
      ensures !refreshing
      ensures url == old(url) && loading == old(loading)
      ensures reply.Ok? ==> data == Some(WithQuestions(old(data), reply.payload)) && error == old(error)
      ensures reply.Ok? ==> quiz.userAnswers == FreshAnswers(|reply.payload|) && !quiz.showResults && quiz.score == 0
      ensures !reply.Ok? ==> data == old(data) && error == Some(RefreshFailedPrefix + FailureMessage(reply))
      ensures !reply.Ok? ==> quiz.questions == old(quiz.questions) && quiz.userAnswers == old(quiz.userAnswers)
                             && quiz.showResults == old(quiz.showResults) && quiz.score == old(quiz.score)
    {
      match reply {
        case Ok(questions) =>
          data := Some(WithQuestions(data, questions));
          quiz.ReplaceQuestions(questions);
        case NotOk(_, _) =>
          error := Some(RefreshFailedPrefix + FailureMessage(reply));
        case Thrown(_) =>
          error := Some(RefreshFailedPrefix + FailureMessage(reply));
      }
      refreshing := false;
    }

    /** The whole of `handleRefreshQuestions` with the request's outcome given. */
    method RefreshQuestions(reply: Reply<seq<Question>>) returns (sent: bool)
      requires Valid()
      modifies this, quiz
      ensures Valid()
      ensures sent <==> old(url) != []
      ensures url == old(url) && loading == old(loading)
      ensures !sent ==> error == Some(RefreshWithoutUrlError) && refreshing == old(refreshing) && data == old(data)
      ensures sent ==> !refreshing
      ensures sent && reply.Ok? ==> data == Some(WithQuestions(old(data), reply.payload)) && error.None?
      ensures sent && !reply.Ok? ==> data == old(data) && error == Some(RefreshFailedPrefix + FailureMessage(reply))
      ensures sent && reply.Ok? ==> quiz.userAnswers == FreshAnswers(|reply.payload|) && !quiz.showResults && quiz.score == 0
      ensures sent && !reply.Ok? ==> quiz.questions == old(quiz.questions) && quiz.userAnswers == old(quiz.userAnswers)
                                     && quiz.showResults == old(quiz.showResults) && quiz.score == old(quiz.score)
      ensures !sent ==> unchanged(quiz)
    {
      sent := BeginRefresh();
      if sent {
        FinishRefresh(reply);
      }
    }
  }

  /** Submitting an empty URL, then a request that fails with HTTP 500 and detail "bad url". */
  method RequestScenarios()
  {
    var page := new PageController();
    var sent := page.ProcessVideo(Ok(PageData("t", "s", [])));
    assert !sent && !page.loading && page.data.None? && page.error == Some(EmptyUrlError);
    page.SetUrl("https://youtu.be/x");
    sent := page.ProcessVideo(NotOk(Detail("bad url"), "Internal Server Error"));
    assert sent && !page.loading && page.data.None?;
    assert page.error == Some(ProcessFailedPrefix + "bad url");
  }
}
