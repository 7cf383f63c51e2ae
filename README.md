# EduVision AI: quiz state, page requests and the AI service's text handling

EduVision takes a YouTube URL and shows the video's transcript, a summary and
a multiple-choice quiz. This project models its two pieces of logic and
proves properties about them.

- **The page** (`eduvision-frontend/src/App.jsx`):
  - `Quiz.QuizSession` is the quiz held by `TranscriptSummary`: the answer
    slots, reset, option selection, submission with grading by `indexOf`, the
    submit button's guard, and the score colour.
  - `Page.PageController` is the page state of `App`: the URL, the result, the
    two loading flags and the error line. It is driven by `handleProcessVideo`
    and `handleRefreshQuestions`; the HTTP outcome of each handler is a
    parameter.
- **The AI service** (`ai-service/app.py`):
  - `Text`: `clean_transcript`, `str.split`/`" ".join` and the summary fallback.
  - `Mcq`: the search for the JSON array in the model's reply, and the format
    check of the questions.
  - `VideoId`: the matcher behind `get_youtube_video_id`.
  - `Service`: transcription, summarising, the bounded question-generation
    loop with its placeholder result, and the two endpoints. The language
    model, the transcript library, `json.loads` and the cache files are
    parameters.
- **`GradingContract`** relates the service's format check to the page's
  grading. **`Json`** models decoded JSON values, with Python's `==` and
  JavaScript's `===` on them.

Submission is not guarded by `submitQuiz` itself:

- `submitQuiz` (eduvision-frontend/src/App.jsx:147-159) does not check
  `allAnswered`; only the button's `disabled={!allAnswered}` (App.jsx:251)
  does. So `Quiz.QuizSession.Submit` grades whatever is selected, and
  `Quiz.QuizSession.ClickSubmit` models the guarded button.

## Model

| member | source | states |
|---|---|---|
| Json.StrictImpliesPyEquals | eduvision-frontend/src/App.jsx:151 | two decoded values that JavaScript's `===` equates are equal under Python's `==` too |
| Json.StringEqualitiesAgree | ai-service/app.py:214 | on a string, `==` and `===` both mean "the same string", so the service's `in` and the page's `indexOf` agree on string answers |
| Quiz.FreshAnswers | eduvision-frontend/src/App.jsx:162 | one unanswered, ungraded entry per question |
| Quiz.IndexOf | eduvision-frontend/src/App.jsx:151 | `indexOf` is the first position of an option `===` to the answer, and -1 exactly when no option is |
| Quiz.CorrectIndex | eduvision-frontend/src/App.jsx:151 | the correct index is the first option `===` to the answer, or -1 exactly when no option is |
| Quiz.IsCorrect | eduvision-frontend/src/App.jsx:152 | a selection is correct when it is present and equals the correct index; a missing answer is never correct (`Quiz.AnswerMissingNeverCorrect`), and only the first of duplicated answers is (`Quiz.FirstMatchWins`) |
| Quiz.Graded | eduvision-frontend/src/App.jsx:154 | grading keeps the selection and the answered flag and records a grade, true exactly when the selection is the correct index |
| Quiz.CountCorrect | eduvision-frontend/src/App.jsx:148-153 | the count of correctly graded questions never exceeds the number of questions |
| Quiz.AnsweredCount | eduvision-frontend/src/App.jsx:255 | the answered-count on the submit button never exceeds the number of entries |
| Quiz.AllAnswered | eduvision-frontend/src/App.jsx:174 | `every(isAnswered)`; `Quiz.AllAnsweredIffCountFull` proves it holds exactly when the button's counter reaches the number of entries |
| Quiz.SelectAt | eduvision-frontend/src/App.jsx:142-143 | the copied list has the same length; entry `q` gets the option and is marked answered with its grade untouched; every other entry is unchanged |
| Quiz.Grade | eduvision-frontend/src/App.jsx:148-155 | the grading loop keeps every entry, records each one's grade against its own question, and counts exactly the correct ones |
| Quiz.FullScoreIffAllCorrect | eduvision-frontend/src/App.jsx:148-157 | the score equals the number of questions if and only if every question is graded correct |
| Quiz.ZeroScoreIffNoneCorrect | eduvision-frontend/src/App.jsx:148-157 | the score is 0 if and only if no question is graded correct |
| Quiz.CountCorrectSeesSelectionsOnly | eduvision-frontend/src/App.jsx:149-154 | two answer lists with the same selections get the same score, whatever grades they already hold |
| Quiz.AllAnsweredIffCountFull | eduvision-frontend/src/App.jsx:174 | `allAnswered` holds exactly when the button's counter reaches the number of entries |
| Quiz.AnswerMissingNeverCorrect | eduvision-frontend/src/App.jsx:151-152 | when no option is `===` to the answer, `indexOf` gives -1 and no selection is graded correct |
| Quiz.FirstMatchWins | eduvision-frontend/src/App.jsx:151-152 | with duplicate options, choosing a copy of the answer is correct only when it is the first copy |
| Quiz.SelectIdempotent | eduvision-frontend/src/App.jsx:140-145 | selecting the same option twice leaves the answers as after once |
| Quiz.SelectOverwrites | eduvision-frontend/src/App.jsx:140-145 | a second selection on a question replaces the first; only the last choice is kept |
| Quiz.PercentageAtLeast | eduvision-frontend/src/App.jsx:168 | comparing the percentage with a bound is the same as the integer comparison `score*100 >= bound*n` |
| Quiz.Percentage | eduvision-frontend/src/App.jsx:168 | `(score / questions.length) * 100` in exact arithmetic, for a non-empty quiz; `Quiz.PercentageAtLeast` and `Quiz.ColorMatchesPercentage` relate it to the integer colour bands |
| Quiz.ColorFor | eduvision-frontend/src/App.jsx:167-172 | with questions, green exactly when the score is at least 4/5 of them and red exactly below 3/5; with no questions and no score, red; `Quiz.ColorMatchesPercentage` ties it to the exact percentage |
| Quiz.ColorMatchesPercentage | eduvision-frontend/src/App.jsx:167-172 | green exactly at 80 % and above, yellow exactly from 60 % to below 80 %, red exactly below 60 % |
| Quiz.ColorMonotone | eduvision-frontend/src/App.jsx:167-172 | a higher score never gets a worse colour |
| Quiz.QuizSession.constructor | eduvision-frontend/src/App.jsx:129-131 | the initial state is valid: fresh answers for every question, results hidden, score 0 |
| Quiz.QuizSession.Reset | eduvision-frontend/src/App.jsx:161-165 | reset gives fresh answers for every question, hides the results and zeroes the score, keeping the questions |
| Quiz.QuizSession.ReplaceQuestions | eduvision-frontend/src/App.jsx:136-138 | a new question list resets the quiz on it, keeping the session invariant |
| Quiz.QuizSession.SelectOption | eduvision-frontend/src/App.jsx:140-145 | after grading, selection changes nothing; before it, only the chosen entry changes, to that option, answered and ungraded |
| Quiz.QuizSession.Submit | eduvision-frontend/src/App.jsx:147-159 | every entry keeps its selection and records its grade, the score counts the correct entries, and the results are shown |
| Quiz.QuizSession.ClickSubmit | eduvision-frontend/src/App.jsx:248-256 | the button submits exactly when the results are hidden and every question is answered; a submission grades every entry from its old selection, sets the score to the count of correct entries and shows the results; otherwise nothing changes |
| Page.FailureMessage | eduvision-frontend/src/App.jsx:32-42 | a failed response's message is its non-empty `detail`; for an unparseable body the status text, or the unknown-error text when that is empty; for a missing or empty `detail` the unknown-error text; never empty; a thrown error keeps its own message |
| Page.WithQuestions | eduvision-frontend/src/App.jsx:73 | a refresh replaces only the questions and keeps the transcript and summary |
| Page.PageController.constructor | eduvision-frontend/src/App.jsx:6-10 | empty URL, no result, neither flag set, no error |
| Page.PageController.SetUrl | eduvision-frontend/src/App.jsx:94 | typing changes the URL and nothing else, and keeps the page invariant |
| Page.PageController.BeginProcessVideo | eduvision-frontend/src/App.jsx:15-23 | an empty URL sets the validation error and sends nothing; otherwise the error is cleared, `loading` set and the old result cleared |
| Page.PageController.FinishProcessVideo | eduvision-frontend/src/App.jsx:25-45 | success stores the result and resets the quiz on its questions; failure sets the prefixed error; `loading` ends false on both paths |
| Page.PageController.ProcessVideo | eduvision-frontend/src/App.jsx:15-46 | a request is sent exactly for a non-empty URL, after which the earlier result is gone, the new result or the prefixed error is there, the quiz starts afresh on success, and `loading` is false; without a request the quiz is untouched |
| Page.PageController.BeginRefresh | eduvision-frontend/src/App.jsx:51-57 | an empty URL sets its error and sends nothing; otherwise the error is cleared and `refreshing` set |
| Page.PageController.FinishRefresh | eduvision-frontend/src/App.jsx:59-80 | success replaces only the questions and resets the quiz; failure keeps result and quiz and sets the prefixed error; `refreshing` ends false |
| Page.PageController.RefreshQuestions | eduvision-frontend/src/App.jsx:51-81 | a request is sent exactly for a non-empty URL; on success only the questions change and the quiz starts afresh; on failure the result and the quiz stay as they were and the prefixed error is set; without a request the quiz is untouched |
| Text.IsSpace | ai-service/app.py:116-117 | the characters Python's `str.isspace()` accepts, which `\s`, `strip()` and `split()` treat as whitespace; `Text.CleanTranscriptIsClean` proves none but the plain space survives cleaning |
| Text.DropSpaces | ai-service/app.py:117 | left stripping removes a leading run of whitespace only, and what remains starts with a non-space |
| Text.DropSpacesIsSuffix | ai-service/app.py:117 | what left stripping leaves is a suffix of the input |
| Text.StripRight | ai-service/app.py:117 | right stripping removes a trailing run of whitespace only, and what remains ends with a non-space |
| Text.Strip | ai-service/app.py:117 | `str.strip()`; `Text.StripIsStrip` proves it cuts exactly the whitespace at both ends |
| Text.StripIsStrip | ai-service/app.py:117 | the stripped text is a slice of the input with only whitespace cut off on either side and no whitespace at either end |
| Text.Collapse | ai-service/app.py:116 | `re.sub(r'\s+', ' ', s)`; `Text.CollapseShape` proves it gives the words joined by single spaces, with one space where the input had outer whitespace |
| Text.CleanTranscript | ai-service/app.py:115-117 | `clean_transcript`; `Text.CleanIsJoinOfWords`, `Text.CleanTranscriptIsClean`, `Text.CleanKeepsWords` and `Text.CleanIdempotent` carry its properties |
| Text.TakeWord | ai-service/app.py:160 | the first word is the longest whitespace-free prefix |
| Text.Words | ai-service/app.py:160 | `split()` yields only non-empty, whitespace-free words |
| Text.Take | ai-service/app.py:160 | `ws[:n]` is a prefix of the list: the whole list when it has at most `n` elements, and exactly its first `n` otherwise |
| Text.Join | ai-service/app.py:160 | `" ".join(ws)`; `Text.WordsOfJoin` proves splitting it gives the words back and `Text.JoinIsClean` that it is clean |
| Text.SummaryFallback | ai-service/app.py:160 | the fallback summary; `Text.SummaryFallbackShape` proves it is at most 100 leading words, clean, then "..." |
| Text.WordsOfSpace | ai-service/app.py:160 | leading whitespace does not change the words |
| Text.WordsOfWordThen | ai-service/app.py:160 | a word followed by whitespace or the end is split off as the first word |
| Text.WordsOfJoin | ai-service/app.py:160 | splitting a space-joined list of words gives the list back |
| Text.JoinIsClean | ai-service/app.py:160 | joining words with single spaces gives text without outer whitespace, whitespace pairs or other whitespace |
| Text.CollapseWordThen | ai-service/app.py:116 | whitespace collapsing passes a word through unchanged |
| Text.CollapseShape | ai-service/app.py:116 | collapsing gives the words joined by single spaces, plus one space where the input had leading or trailing whitespace |
| Text.CollapseShapeFromSpace | ai-service/app.py:116 | the same shape for an input that starts with whitespace |
| Text.CollapseShapeFromWord | ai-service/app.py:116 | the same shape for an input that starts with a word |
| Text.StripSurrounded | ai-service/app.py:117 | stripping removes exactly one optional space on each side of a clean text |
| Text.CleanIsJoinOfWords | ai-service/app.py:115-117 | `clean_transcript(t)` equals `" ".join(t.split())` |
| Text.CleanTranscriptIsClean | ai-service/app.py:115-117 | the cleaned transcript has no outer whitespace, no two whitespace characters in a row, and no whitespace but spaces |
| Text.CleanKeepsWords | ai-service/app.py:115-117 | cleaning keeps the transcript's words, in order |
| Text.CleanIdempotent | ai-service/app.py:115-117 | cleaning a cleaned transcript changes nothing |
| Text.SummaryFallbackShape | ai-service/app.py:160 | the fallback summary is at most 100 of the transcript's first words, space-joined and clean, then "..."; for a short transcript it is the cleaned transcript |
| Mcq.McqObjectPasses | ai-service/app.py:211-216 | four string options with the answer among them pass the format check |
| Mcq.Placeholder | ai-service/app.py:225 | the placeholder is one question with options A to D and answer A, and it passes the format check |
| Mcq.IsMcq | ai-service/app.py:212-215 | the per-question check: a dict with the three keys, four options and the answer `in` them; `Mcq.McqObjectPasses` exhibits passing objects |
| Mcq.IsMcqList | ai-service/app.py:211-216 | a list all of whose elements pass; `Mcq.McqListSplit` proves it splits over halves |
| Mcq.McqListSplit | ai-service/app.py:211-216 | a list passes the check exactly when both of its halves pass |
| Mcq.FirstIndex | ai-service/app.py:199 | the position of the first occurrence of a character, or none when it is absent |
| Mcq.LastIndex | ai-service/app.py:199 | the position of the last occurrence of a character, or none when it is absent |
| Mcq.ArraySpan | ai-service/app.py:199 | the greedy `\[.*\]` search finds the leftmost match and, from it, the longest; it finds none exactly when no `[` comes before a `]` |
| Mcq.SearchArray | ai-service/app.py:199 | the matched text starts with `[` and ends with `]`, and there is one exactly when some `[` precedes some `]` |
| Mcq.FenceBody | ai-service/app.py:203 | `s[7:-3]` is the text between the fence markers when the string is longer than 10, and empty otherwise |
| Mcq.StartsWith | ai-service/app.py:202 | `str.startswith`: the string's first characters are the prefix; `Mcq.FenceFallbackIsDead` uses it for the "```json" test |
| Mcq.FenceRetryText | ai-service/app.py:202-204 | the text searched a second time: the stripped fence body when the text starts with "```json", the text itself otherwise; `Mcq.FenceFallbackIsDead` proves the second search finds nothing the first missed |
| Mcq.ExtractJsonArray | ai-service/app.py:197-208 | when extraction fails, the error is "No JSON array found in the response." |
| Mcq.FenceFallbackIsDead | ai-service/app.py:200-206 | the "```json" fallback never finds an array the first search missed, so extraction is the first search alone |
| Mcq.SearchOutcome | ai-service/app.py:199-208 | for any text, the search yields the text from its first `[` to its last `]`, and the error exactly when no `[` precedes a `]` |
| Mcq.ExtractFailsIffNoSpan | ai-service/app.py:197-208 | extraction fails exactly when the stripped reply has no `[` before a `]` |
| Mcq.ExtractedArrayIsFirstToLast | ai-service/app.py:197-208 | the extracted text runs from the stripped reply's first `[` to its last `]` |
| VideoId.SegmentEnd | ai-service/app.py:109 | `[^/\n\s]+` stops at the first `/` or whitespace |
| VideoId.RunEnd | ai-service/app.py:109 | `\S+` stops at the first whitespace |
| VideoId.LastSlashBeforeId | ai-service/app.py:109 | `\S+/` backtracks to the last `/` in the run that is followed by an ID |
| VideoId.PathForm | ai-service/app.py:109 | the `segment/…/ID` form captures an ID right after a `/` |
| VideoId.ShortForm | ai-service/app.py:109 | the `v/`, `embed/` and `e/` forms capture the ID right after them |
| VideoId.QueryForm | ai-service/app.py:109 | the lazy `\S*?[?&]v=` form captures the ID after the first `?v=` or `&v=` with an ID before any whitespace: none earlier and no whitespace in between, and no result exactly when the whitespace-free run holds no such hit |
| VideoId.CoreAt | ai-service/app.py:109 | a match at a position starts with `y` and captures an ID after that position |
| VideoId.FirstCore | ai-service/app.py:110 | the search stops at the first position where the pattern matches |
| VideoId.GetVideoId | ai-service/app.py:105-113 | whatever is returned is a well-formed ID: eleven `[A-Za-z0-9_-]` characters |
| VideoId.GetVideoIdIsFirstMatch | ai-service/app.py:109-113 | the returned ID is the eleven characters of the URL captured at the first position where the pattern matches; there is none exactly when the pattern matches nowhere |
| VideoId.WatchUrlRoundTrip | ai-service/app.py:109-113 | `https://www.youtube.com/watch?v=<id>` gives back `<id>` |
| VideoId.ShortLinkRoundTrip | ai-service/app.py:109-113 | `https://youtu.be/<id>` gives back `<id>` |
| VideoId.EmbedUrlRoundTrip | ai-service/app.py:109-113 | `https://www.youtube.com/embed/<id>` gives back `<id>` |
| Service.Transcribe | ai-service/app.py:120-142 | an unrecognised URL is a 400 error; a cached transcript is returned as it is and nothing is saved; a fetched transcript is clean and saved; a missing or disabled transcript is a 404 and any other fetch failure a 500, each with its prefixed reason and nothing saved; the identifier is `youtube_video_` plus the video ID |
| Service.FetchedTranscriptKeepsWords | ai-service/app.py:133-136 | a fetched transcript holds exactly the words of the joined entries, in order |
| Service.Summarize | ai-service/app.py:145-160 | a cached summary is returned unsaved; a reply is stripped (a slice of the reply with exactly its outer whitespace cut) and saved; a failed call gives the first 100 words, clean and space-joined, then "...", and saves nothing |
| Service.AttemptOutcome | ai-service/app.py:195-221 | an attempt yields questions exactly when the reply came, its array was found and decoded, and the decoded value passes the format check, and then it yields that decoded value |
| Service.Outcomes | ai-service/app.py:194 | one outcome per attempt, `MAX_RETRIES` of them |
| Service.FirstSome | ai-service/app.py:194-219 | the first attempt that yields questions, all earlier ones having failed |
| Service.FirstSuccess | ai-service/app.py:194-219 | the first of the `MAX_RETRIES` attempts that yields valid questions, or none when all fail |
| Service.FreshQuestions | ai-service/app.py:194-226 | the generated questions always pass the format check: the first success's, or the placeholder when every attempt fails |
| Service.AttemptsMade | ai-service/app.py:194-226 | between 1 and `MAX_RETRIES` calls are made: one more than the index of the first success, or all `MAX_RETRIES` when none succeeds |
| Service.GenerateMcqQuestions | ai-service/app.py:164-226 | the cache is read exactly when not forcing a refresh; a cache hit is returned without calls; otherwise the fresh questions after at most `MAX_RETRIES` calls, saved only when an attempt succeeded |
| Service.ProcessVideo | ai-service/app.py:229-256 | a transcription error is the response; otherwise the transcript, its summary, and the cached or freshly generated questions |
| Service.RefreshQuestions | ai-service/app.py:259-283 | questions are regenerated whatever the question cache holds, and always pass the format check; transcription errors pass through |
| GradingContract.ToQuestion | ai-service/app.py:211-216 | a checked question object becomes the page's question with its four options |
| GradingContract.ToQuestions | ai-service/app.py:211-216 | a checked list becomes the page's question list, element by element |
| GradingContract.StringAnswerIsGradable | ai-service/app.py:214 | a checked question with a string answer is graded correct exactly when the first option equal to the answer is chosen |
| GradingContract.StringAnswersAreGradable | ai-service/app.py:211-216 | every question of a checked list with string answers has a correct option on the page |
| GradingContract.PlaceholderIsGradable | ai-service/app.py:225 | on the page, option A of the placeholder question is the correct one |
| GradingContract.BoolAnswerPassesButNeverGrades | ai-service/app.py:214 | an answer `true` among options containing `1` passes the check, but no selection is ever graded correct |
| GradingContract.ListAnswerPassesButNeverGrades | ai-service/app.py:214 | a list answer equal to a list option passes the check, but no selection is ever graded correct |

## Left out

- HTTP: the `fetch` calls, the FastAPI endpoints, CORS and the Go proxy. Each response is a parameter: a payload, a non-2xx status with its body, or a thrown error.
- The language model, `YouTubeTranscriptApi` and `json.loads`. They are foreign libraries; their results are parameters (`llm(k)` is the reply to the `k`-th call).
- The cache files, `hashlib.sha256` and the `os` calls. The cache content for the requested video is a parameter, and what would be written is a result. The model assumes each cache file holds what `save_to_cache` wrote: a dict with one key, which is always truthy.
- `asyncio.gather`, `asyncio.to_thread`, `asyncio.sleep(1)` between attempts, and `time.time` with the reported `processing_time`. These are concurrency and timing.
- The prompts and the generation settings. They only shape what the model replies, which is a parameter.
- `NaN` and `Infinity`, which `json.loads` accepts. Numbers are exact reals.
- Floating point and `Math.round` in the score display. The colour bands are integer comparisons, shown equal to the exact percentage comparisons.
- React rendering and remounting. `TranscriptSummary` is declared inside `App`, so React remounts it on every `App` render, which also starts the quiz afresh. The model keeps one quiz and resets it only where a new question list arrives.
- Page.PageController: between a request's start and its completion, other handlers may run. The model splits each handler at its `await` but does not interleave two requests.
- Quiz.QuizSession.SelectOption: requires a valid question index. The page only calls it from the option buttons of existing questions; an out-of-range index, which would grow the JavaScript array, is not modelled.
- JSX markup, CSS class strings, the hero, how-it-works and features sections, and `tailwind.config.js`.
- `ai-service/download_audio.py` (a yt_dlp and filesystem wrapper), and the commented-out `TranscriptSummary.jsx` and `VideoInput.jsx` components.
- Service.GenerateMcqQuestions: the source returns `None` if the loop ever ends without returning. With `MAX_RETRIES = 2` the last attempt always returns, so that path is unreachable and the model returns the placeholder there.
- VideoId.GetVideoId: the optional `https?://` and `www.` prefix is not matched explicitly. The captured ID does not depend on it, because neither `youtube.com/` nor `youtu.be/` can start inside it.
