/**
 * The AI service's handling of the language model's reply to the
 * question prompt: the search for the JSON array in the reply text, and the
 * check that the decoded value is a list of well-formed multiple-choice
 * questions.
 */
module Mcq {
  import opened Wrappers
  import opened Json
  import opened Text

  /** How many times the question prompt is sent before giving up. */
  const MaxRetries: nat := 2

  const NoArrayError := "No JSON array found in the response."
  const FormatError := "Parsed JSON doesn't match expected MCQ format."

  // ---- the format check ----

  /**
   * One element passes the check: a dict with the keys `question`, `options`
   * and `answer`, whose `options` is a list of exactly four values and whose
   * `answer` is `in` that list (Python's `==`, so `True` is found among `[1, ...]`).
   */
  predicate IsMcq(q: Json)
  {
    && q.JObj?
    && "question" in q.fields && "options" in q.fields && "answer" in q.fields
    && q.fields["options"].JArr?
    && |q.fields["options"].items| == 4
    && PyIn(q.fields["answer"], q.fields["options"].items)
  }

  /** The whole check: a list, every element of which passes (an empty list passes). */
  predicate IsMcqList(v: Json)
  {
    v.JArr? && forall i :: 0 <= i < |v.items| ==> IsMcq(v.items[i])
  }

  /** A question object with the given text, options and answer. */
  function McqObject(text: string, options: seq<string>, answer: string): Json
  {
    JObj(map["question" := JStr(text), "options" := JArr(Strings(options)), "answer" := JStr(answer)])
  }

  function Strings(ss: seq<string>): (r: seq<Json>)
    ensures |r| == |ss| && forall i :: 0 <= i < |ss| ==> r[i] == JStr(ss[i])
  {
    if ss == [] then [] else [JStr(ss[0])] + Strings(ss[1..])
  }

  /** A question built from four strings, the answer being one of them, passes the check. */
  lemma McqObjectPasses(text: string, options: seq<string>, k: nat)
    requires |options| == 4 && k < 4
    ensures IsMcq(McqObject(text, options, options[k]))
  {
    var q := McqObject(text, options, options[k]);
    assert PyEquals(q.fields["answer"], q.fields["options"].items[k]);
  }

  /** The list returned once every attempt has failed: one question whose options are A to D and whose answer is A. */
  function Placeholder(): (r: Json)
    ensures IsMcqList(r) && |r.items| == 1
    ensures r.items[0].fields["options"] == JArr([JStr("A"), JStr("B"), JStr("C"), JStr("D")])
    ensures r.items[0].fields["answer"] == JStr("A")
  {
    McqObjectPasses("Could not generate questions.", ["A", "B", "C", "D"], 0);
    JArr([McqObject("Could not generate questions.", ["A", "B", "C", "D"], "A")])
  }

  /** The check looks at each element on its own: a list passes exactly when both of its halves do. */
  lemma McqListSplit(a: seq<Json>, b: seq<Json>)
    ensures IsMcqList(JArr(a + b)) <==> IsMcqList(JArr(a)) && IsMcqList(JArr(b))
  {
    if IsMcqList(JArr(a)) && IsMcqList(JArr(b)) {
      forall i | 0 <= i < |a + b|
        ensures IsMcq((a + b)[i])
      {
        if i >= |a| {
          assert (a + b)[i] == b[i - |a|];
        }
      }
    }
    if IsMcqList(JArr(a + b)) {
      forall i | 0 <= i < |a|
        ensures IsMcq(a[i])
      {
        assert (a + b)[i] == a[i];
      }
      forall i | 0 <= i < |b|
        ensures IsMcq(b[i])
      {
        assert (a + b)[|a| + i] == b[i];
      }
    }
  }

  // ---- finding the array in the reply ----

  /** `s[i..j+1]` is a match of `\[.*\]` under `re.DOTALL`: a `[`, then anything, then a `]`. */
  predicate SpansArray(s: string, i: int, j: int)
  {
    0 <= i < j < |s| && s[i] == '[' && s[j] == ']'
  }

  /** The position of the first `c` in `s`. */
  function FirstIndex(s: string, c: char): (r: Option<nat>)
    ensures r.Some? ==> r.value < |s| && s[r.value] == c
    ensures r.Some? ==> forall k :: 0 <= k < r.value ==> s[k] != c
    ensures r.None? ==> forall k :: 0 <= k < |s| ==> s[k] != c
  {
    if s == [] then None
    else if s[0] == c then Some(0)
    else match FirstIndex(s[1..], c)
      case None => None
      case Some(k) => Some(k + 1)
  }

  /** The position of the last `c` in `s`. */
  function LastIndex(s: string, c: char): (r: Option<nat>)
    ensures r.Some? ==> r.value < |s| && s[r.value] == c
    ensures r.Some? ==> forall k :: r.value < k < |s| ==> s[k] != c
    ensures r.None? ==> forall k :: 0 <= k < |s| ==> s[k] != c
  {
    if s == [] then None
    else if s[|s| - 1] == c then Some(|s| - 1)
    else LastIndex(s[..|s| - 1], c)
  }

  /**
   * Where `re.search(r'\[.*\]', s, re.DOTALL)` matches: from the first `[` to
   * the last `]`, when that `]` comes after that `[`. The search takes the
   * leftmost start and, from it, the longest match; the result starts no later
   * and ends no earlier than any match, and there is none when it finds none.
   */
  function ArraySpan(s: string): (r: Option<(nat, nat)>)
    ensures r.Some? ==> SpansArray(s, r.value.0, r.value.1)
    ensures r.Some? ==> forall i, j :: SpansArray(s, i, j) ==> r.value.0 <= i && j <= r.value.1
    ensures r.None? ==> forall i, j :: !SpansArray(s, i, j)
  {
    match (FirstIndex(s, '['), LastIndex(s, ']'))
    case (Some(i), Some(j)) => if i < j then Some((i, j)) else None
    case _ => None
  }

  /** `json_match.group(0)` when there is a match. */
  function SearchArray(s: string): (r: Option<string>)
    ensures r.Some? ==> |r.value| >= 2 && r.value[0] == '[' && r.value[|r.value| - 1] == ']'
    ensures r.Some? <==> exists i, j :: SpansArray(s, i, j)
  {
    match ArraySpan(s)
    case Some((i, j)) => Some(s[i..j + 1])
    case None => None
  }

  predicate StartsWith(s: string, prefix: string)
  {
    |prefix| <= |s| && s[..|prefix|] == prefix
  }

  /** Python's `s[7:-3]` on a string that starts with "```json" (and so has at least 7 characters). */
  function FenceBody(s: string): (r: string)
    requires |s| >= 7
    ensures |s| > 10 ==> r == s[7..|s| - 3]
    ensures |s| <= 10 ==> r == []
  {
    if |s| - 3 > 7 then s[7..|s| - 3] else []
  }

  /**
   * The array text the service decodes from the reply text `raw`, or the error
   * it raises: the reply is stripped and searched; when that finds nothing and
   * the text starts with "```json", the text between the fence markers is
   * stripped and searched again.
   */
  function ExtractJsonArray(raw: string): (r: Result<string>)
    ensures r.Failure? ==> r.error == NoArrayError
  {
    var text := Strip(raw);
    match SearchArray(text)
    case Some(a) => Success(a)
    case None =>
      match SearchArray(FenceRetryText(text))
      case Some(a) => Success(a)
      case None => Failure(NoArrayError)
  }

  /** The text searched a second time: inside the "```json" fence when there is one, stripped. */
  function FenceRetryText(text: string): string
  {
    if StartsWith(text, "```json") then Strip(FenceBody(text)) else text
  }

  /** A slice of a string without a `[ ... ]` span has none either. */
  lemma NoSpanInSlice(s: string, a: nat, b: nat)
    requires a <= b <= |s|
    requires forall i, j :: !SpansArray(s, i, j)
    ensures forall i, j :: !SpansArray(s[a..b], i, j)
  {
    forall i, j
      ensures !SpansArray(s[a..b], i, j)
    {
      assert !SpansArray(s, a + i, a + j);
      if 0 <= i < j < b - a {
        assert s[a..b][i] == s[a + i] && s[a..b][j] == s[a + j];
      }
    }
  }

  /**
   * The "```json" fallback never finds anything: the text it searches is a
   * slice of the text the first search already found no array in. Extraction
   * is the first search alone.
   */
  lemma {:induction false} FenceFallbackIsDead(raw: string)
    ensures ExtractJsonArray(raw) == match SearchArray(Strip(raw))
                                     case Some(a) => Success(a)
                                     case None => Failure(NoArrayError)
  {
    var text := Strip(raw);
    if SearchArray(text).None? && StartsWith(text, "```json") {
      assert FenceRetryText(text) == Strip(FenceBody(text));
      var body := FenceBody(text);
      StripIsStrip(body);
      var a, b :| StripCut(body, Strip(body), a, b);
      if body == [] {
        assert Strip(body) == [];
      } else {
        NoSpanInSlice(text, 7, |text| - 3);
        assert body == text[7..|text| - 3];
        NoSpanInSlice(body, a, b);
      }
    }
  }

  /** Extraction fails exactly when the stripped reply has no `[` before a `]`. */
  lemma ExtractFailsIffNoSpan(raw: string)
    ensures ExtractJsonArray(raw).Failure? <==> forall i, j :: !SpansArray(Strip(raw), i, j)
  {
    FenceFallbackIsDead(raw);
    SearchOutcome(Strip(raw), ExtractJsonArray(raw));
  }

  /** What extraction yields is the stripped reply from its first `[` to its last `]`. */
  lemma ExtractedArrayIsFirstToLast(raw: string)
    ensures ExtractJsonArray(raw).Success? ==>
              exists i, j :: SpansArray(Strip(raw), i, j)
                && ExtractJsonArray(raw).value == Strip(raw)[i..j + 1]
                && (forall k :: 0 <= k < i ==> Strip(raw)[k] != '[')
                && (forall k :: j < k < |Strip(raw)| ==> Strip(raw)[k] != ']')
  {
    FenceFallbackIsDead(raw);
    SearchOutcome(Strip(raw), ExtractJsonArray(raw));
  }

  /** What the first search yields, for any text: the first `[` to the last `]`, or the error exactly when there is no span. */
  lemma SearchOutcome(text: string, r: Result<string>)
    requires r == match SearchArray(text)
                  case Some(a) => Success(a)
                  case None => Failure(NoArrayError)
    ensures r.Failure? <==> forall i, j :: !SpansArray(text, i, j)
    ensures r.Success? ==>
              exists i, j :: SpansArray(text, i, j)
                && r.value == text[i..j + 1]
                && (forall k :: 0 <= k < i ==> text[k] != '[')
                && (forall k :: j < k < |text| ==> text[k] != ']')
  {
    match ArraySpan(text) {
      case Some((i, j)) =>
        FirstIsFirst(text, i, j);
        assert r == Success(text[i..j + 1]);
        assert SpansArray(text, i, j);
      case None =>
    }
  }

  /** No `[` comes before the span's start and no `]` after its end. */
  lemma FirstIsFirst(s: string, i: nat, j: nat)
    requires ArraySpan(s) == Some((i, j))
    ensures forall k :: 0 <= k < i ==> s[k] != '['
    ensures forall k :: j < k < |s| ==> s[k] != ']'
  {
    forall k | 0 <= k < i
      ensures s[k] != '['
    {
      if s[k] == '[' {
        assert SpansArray(s, k, j);
      }
    }
    forall k | j < k < |s|
      ensures s[k] != ']'
    {
      if s[k] == ']' {
        assert SpansArray(s, i, k);
      }
    }
  }
}
