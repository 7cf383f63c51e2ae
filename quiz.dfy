/**
 * The quiz held by the `TranscriptSummary` component of the page: the
 * question list, one answer slot per question (`userAnswers`), whether the
 * results are shown, and the score. Grading finds the correct option with
 * `options.indexOf(answer)`.
 */
module Quiz {
  import opened Wrappers
  import opened Json

  /** One multiple-choice question as the page receives it. */
  datatype Question = Question(text: Json, options: seq<Json>, answer: Json)

  /**
   * One entry of `userAnswers`: the chosen option index (`null` until one is
   * chosen), whether the question has been answered, and the grade (`null`
   * until the quiz is submitted).
   */
  datatype AnswerState = AnswerState(selectedOption: Option<nat>, isAnswered: bool, isCorrect: Option<bool>)

  /** `{ selectedOption: null, isAnswered: false, isCorrect: null }` */
  const Unanswered: AnswerState := AnswerState(None, false, None)

  /** The answer list `resetQuiz` builds: one unanswered entry per question. */
  function FreshAnswers(n: nat): (r: seq<AnswerState>)
    ensures |r| == n && forall i :: 0 <= i < n ==> r[i] == Unanswered
  {
    seq(n, _ => Unanswered)
  }

  /** `options.indexOf(x)`: the first index whose element is `===` to `x`, or -1. */
  function IndexOf(options: seq<Json>, x: Json): (r: int)
    ensures -1 <= r < |options|
    ensures r == -1 <==> forall i :: 0 <= i < |options| ==> !StrictEquals(options[i], x)
    ensures 0 <= r ==> StrictEquals(options[r], x)
    ensures 0 <= r ==> forall i :: 0 <= i < r ==> !StrictEquals(options[i], x)
  {
    if |options| == 0 then -1
    else if StrictEquals(options[0], x) then 0
    else
      var k := IndexOf(options[1..], x);
      if k == -1 then -1 else k + 1
  }

  /** The index grading treats as correct: `question.options.indexOf(question.answer)`. */
  function CorrectIndex(q: Question): (k: int)
    ensures -1 <= k < |q.options|
    ensures k >= 0 ==> StrictEquals(q.options[k], q.answer)
    ensures k >= 0 ==> forall i :: 0 <= i < k ==> !StrictEquals(q.options[i], q.answer)
    ensures k == -1 <==> forall i :: 0 <= i < |q.options| ==> !StrictEquals(q.options[i], q.answer)
  {
    IndexOf(q.options, q.answer)
  }

  /** `answer.selectedOption === correctIndex` (`null` never equals a number). */
  predicate IsCorrect(q: Question, a: AnswerState)
  {
    a.selectedOption.Some? && a.selectedOption.value as int == CorrectIndex(q)
  }

  /** The number of questions graded correct, counted over a prefix as `submitQuiz` counts them. */
  function CountCorrect(questions: seq<Question>, answers: seq<AnswerState>): (c: nat)
    requires |answers| == |questions|
    ensures c <= |questions|
  {
    if |questions| == 0 then 0
    else
      var n := |questions| - 1;
      CountCorrect(questions[..n], answers[..n]) + (if IsCorrect(questions[n], answers[n]) then 1 else 0)
  }

  /** `userAnswers.every(answer => answer.isAnswered)` */
  predicate AllAnswered(answers: seq<AnswerState>)
  {
    forall i :: 0 <= i < |answers| ==> answers[i].isAnswered
  }

  /** `userAnswers.filter(a => a.isAnswered).length`, shown on the submit button. */
  function AnsweredCount(answers: seq<AnswerState>): (c: nat)
    ensures c <= |answers|
  {
    if |answers| == 0 then 0
    else AnsweredCount(answers[..|answers| - 1]) + (if answers[|answers| - 1].isAnswered then 1 else 0)
  }

  /** The copy `handleOptionSelect` makes: entry `q` gets the option and is marked answered. */
  function SelectAt(answers: seq<AnswerState>, q: nat, o: nat): (r: seq<AnswerState>)
    requires q < |answers|
    ensures |r| == |answers|
    ensures r[q].selectedOption == Some(o) && r[q].isAnswered && r[q].isCorrect == answers[q].isCorrect
    ensures forall i :: 0 <= i < |r| && i != q ==> r[i] == answers[i]
  {
    answers[q := answers[q].(selectedOption := Some(o), isAnswered := true)]
  }

  /** The entry `submitQuiz` writes back: the old entry with its grade recorded. */
  function Graded(q: Question, a: AnswerState): (g: AnswerState)
    ensures g.selectedOption == a.selectedOption && g.isAnswered == a.isAnswered
    ensures g.isCorrect == Some(true) <==> a.selectedOption.Some? && a.selectedOption.value as int == CorrectIndex(q)
    ensures g.isCorrect.Some?
  {
    a.(isCorrect := Some(IsCorrect(q, a)))
  }

  /**
   * The grading pass of `submitQuiz`: map over the answers, grade each one
   * against its question and count the correct ones.
   */
  method Grade(questions: seq<Question>, answers: seq<AnswerState>) returns (updated: seq<AnswerState>, correctCount: nat)
    requires |answers| == |questions|
    ensures |updated| == |answers|
    ensures forall i :: 0 <= i < |answers| ==> updated[i] == Graded(questions[i], answers[i])
    ensures correctCount == CountCorrect(questions, answers)
    ensures correctCount <= |questions|
  {
    updated := [];
    correctCount := 0;
    var index := 0;
    while index < |answers|
      invariant 0 <= index <= |answers|
      invariant |updated| == index
      invariant forall i :: 0 <= i < index ==> updated[i] == Graded(questions[i], answers[i])
      invariant correctCount == CountCorrect(questions[..index], answers[..index])
    {
      var isCorrect := IsCorrect(questions[index], answers[index]);
      if isCorrect {
        correctCount := correctCount + 1;
      }
      updated := updated + [answers[index].(isCorrect := Some(isCorrect))];
      assert questions[..index + 1][..index] == questions[..index];
      assert answers[..index + 1][..index] == answers[..index];
      index := index + 1;
    }
    assert questions[..index] == questions;
    assert answers[..index] == answers;
  }

  /** The full score means every question was graded correct, and conversely. */
  lemma {:induction false} FullScoreIffAllCorrect(questions: seq<Question>, answers: seq<AnswerState>)
    requires |answers| == |questions|
    ensures CountCorrect(questions, answers) == |questions| <==>
            forall i :: 0 <= i < |questions| ==> IsCorrect(questions[i], answers[i])
  {
    if |questions| > 0 {
      var n := |questions| - 1;
      FullScoreIffAllCorrect(questions[..n], answers[..n]);
      assert forall i :: 0 <= i < n ==> questions[..n][i] == questions[i] && answers[..n][i] == answers[i];
    }
  }

  /** A zero score means no question was graded correct, and conversely. */
  lemma {:induction false} ZeroScoreIffNoneCorrect(questions: seq<Question>, answers: seq<AnswerState>)
    requires |answers| == |questions|
    ensures CountCorrect(questions, answers) == 0 <==>
            forall i :: 0 <= i < |questions| ==> !IsCorrect(questions[i], answers[i])
  {
    if |questions| > 0 {
      var n := |questions| - 1;
      ZeroScoreIffNoneCorrect(questions[..n], answers[..n]);
      assert forall i :: 0 <= i < n ==> questions[..n][i] == questions[i] && answers[..n][i] == answers[i];
    }
  }

  /** The score depends on the selected options only, not on the grades already recorded. */
  lemma {:induction false} CountCorrectSeesSelectionsOnly(questions: seq<Question>, a: seq<AnswerState>, b: seq<AnswerState>)
    requires |a| == |questions| && |b| == |questions|
    requires forall i :: 0 <= i < |questions| ==> a[i].selectedOption == b[i].selectedOption
    ensures CountCorrect(questions, a) == CountCorrect(questions, b)
  {
    if |questions| > 0 {
      var n := |questions| - 1;
      CountCorrectSeesSelectionsOnly(questions[..n], a[..n], b[..n]);
    }
  }

  /** The submit button's counter reaches the number of questions exactly when every question is answered. */
  lemma {:induction false} AllAnsweredIffCountFull(answers: seq<AnswerState>)
    ensures AllAnswered(answers) <==> AnsweredCount(answers) == |answers|
  {
    if |answers| > 0 {
      var n := |answers| - 1;
      AllAnsweredIffCountFull(answers[..n]);
      assert forall i :: 0 <= i < n ==> answers[..n][i] == answers[i];
    }
  }

  /** A question whose answer is not among its options is graded incorrect whatever was selected. */
  lemma AnswerMissingNeverCorrect(q: Question, a: AnswerState)
    requires forall i :: 0 <= i < |q.options| ==> !StrictEquals(q.options[i], q.answer)
    ensures CorrectIndex(q) == -1
    ensures !IsCorrect(q, a)
  {
  }

  /**
   * Selecting an option equal to the answer is graded correct only when no
   * earlier option equals the answer too: with duplicated options the first
   * copy wins.
   */
  lemma FirstMatchWins(q: Question, a: AnswerState, k: nat)
    requires k < |q.options| && StrictEquals(q.options[k], q.answer)
    requires a.selectedOption == Some(k)
    ensures IsCorrect(q, a) <==> forall j :: 0 <= j < k ==> !StrictEquals(q.options[j], q.answer)
  {
  }

  /** Selecting again with the same arguments changes nothing more. */
  lemma SelectIdempotent(answers: seq<AnswerState>, q: nat, o: nat)
    requires q < |answers|
    ensures SelectAt(SelectAt(answers, q, o), q, o) == SelectAt(answers, q, o)
  {
  }

  /** A later selection on the same question overwrites the earlier one: one choice is retained. */
  lemma SelectOverwrites(answers: seq<AnswerState>, q: nat, o1: nat, o2: nat)
    requires q < |answers|
    ensures SelectAt(SelectAt(answers, q, o1), q, o2) == SelectAt(answers, q, o2)
  {
  }

  /** The colour `getScoreColor` gives the score line. */
  datatype ScoreColor = Green | Yellow | Red

  /**
   * `getScoreColor`: green from 80 %, yellow from 60 %, red below, with the
   * percentage compared in integers. With no questions the percentage is
   * `0 / 0`, which is NaN and fails both comparisons, so the colour is red.
   */
  function ColorFor(score: nat, total: nat): (c: ScoreColor)
    ensures total == 0 && score == 0 ==> c == Red
    ensures total > 0 ==> (c == Green <==> 5 * score >= 4 * total)
    ensures total > 0 ==> (c == Red <==> 5 * score < 3 * total)
  {
    if total == 0 && score == 0 then Red
    else if score * 100 >= 80 * total then Green
    else if score * 100 >= 60 * total then Yellow
    else Red
  }

  /** The percentage `(score / questions.length) * 100`, in exact arithmetic. */
  function Percentage(score: nat, total: nat): real
    requires total > 0
  {
    (score as real / total as real) * 100.0
  }

  lemma PercentageAtLeast(score: nat, total: nat, bound: real)
    requires total > 0
    ensures Percentage(score, total) >= bound <==> score as real * 100.0 >= bound * total as real
  {
    var t := total as real;
    var p := Percentage(score, total);
    assert p * t == score as real * 100.0;
  }

  /** The integer banding agrees with comparing the exact percentage against 80 and 60. */
  lemma {:induction false} ColorMatchesPercentage(score: nat, total: nat)
    requires total > 0
    ensures ColorFor(score, total) == Green <==> Percentage(score, total) >= 80.0
    ensures ColorFor(score, total) == Yellow <==> 60.0 <= Percentage(score, total) < 80.0
    ensures ColorFor(score, total) == Red <==> Percentage(score, total) < 60.0
  {
    PercentageAtLeast(score, total, 80.0);
    PercentageAtLeast(score, total, 60.0);
  }

  function Rank(c: ScoreColor): nat
  {
    match c
    case Red => 0
    case Yellow => 1
    case Green => 2
  }

  /** A higher score never gets a worse colour. */
  lemma ColorMonotone(s1: nat, s2: nat, total: nat)
    requires s1 <= s2
    ensures Rank(ColorFor(s1, total)) <= Rank(ColorFor(s2, total))
  {
  }

  /**
   * The quiz state of one `TranscriptSummary`. The answer list is replaced as
   * a whole on every change, as the component's state setters replace it.
   */
  class QuizSession {
    var questions: seq<Question>
    var userAnswers: seq<AnswerState>
    var showResults: bool
    var score: nat

    /**
     * One answer per question; an entry is answered exactly when it has a
     * selection; before the results are shown nothing is graded and the score
     * is 0; once they are shown every entry holds its grade and the score
     * counts the correct ones.
     */
    ghost predicate Valid()
      reads this
    {
      && |userAnswers| == |questions|
      && (forall i :: 0 <= i < |userAnswers| ==> (userAnswers[i].isAnswered <==> userAnswers[i].selectedOption.Some?))
      && (!showResults ==> score == 0 && forall i :: 0 <= i < |userAnswers| ==> userAnswers[i].isCorrect.None?)
      && (showResults ==>
            && score == CountCorrect(questions, userAnswers)
            && forall i :: 0 <= i < |userAnswers| ==> userAnswers[i].isCorrect == Some(IsCorrect(questions[i], userAnswers[i])))
    }

    /** The component's initial state (the `useState` initialisers). */
    constructor (questions: seq<Question>)
      ensures Valid()
      ensures this.questions == questions && userAnswers == FreshAnswers(|questions|)
      ensures !showResults && score == 0
    {
      this.questions := questions;
      userAnswers := FreshAnswers(|questions|);
      showResults := false;
      score := 0;
    }

    /** `resetQuiz` ("Try Again"): a fresh answer per question, results hidden, score 0. */
    method Reset()
      modifies this
      ensures Valid()
      ensures questions == old(questions) && userAnswers == FreshAnswers(|questions|)
      ensures !showResults && score == 0
    {
      userAnswers := FreshAnswers(|questions|);
      showResults := false;
      score := 0;
    }

    /**
     * A new question list arrives (the effect on `[questions]`): the list is
     * replaced and the quiz is reset, even when the new list equals the old one.
     */
    method ReplaceQuestions(newQuestions: seq<Question>)
      requires Valid()
      modifies this
      ensures Valid()
      ensures questions == newQuestions && userAnswers == FreshAnswers(|newQuestions|)
      ensures !showResults && score == 0
    {
      questions := newQuestions;
      Reset();
    }

    /**
     * `handleOptionSelect`: ignored once the results are shown; otherwise only
     * entry `questionIndex` changes, to the chosen option, answered.
     */
    method SelectOption(questionIndex: nat, optionIndex: nat)
      requires Valid()
      requires questionIndex < |questions|
      modifies this
      ensures Valid()
      ensures questions == old(questions) && showResults == old(showResults) && score == old(score)
      ensures old(showResults) ==> userAnswers == old(userAnswers)
      ensures !old(showResults) ==> userAnswers == SelectAt(old(userAnswers), questionIndex, optionIndex)
      ensures !old(showResults) ==>
                && userAnswers[questionIndex] == AnswerState(Some(optionIndex), true, None)
                && forall i :: 0 <= i < |userAnswers| && i != questionIndex ==> userAnswers[i] == old(userAnswers[i])
    {
      if showResults {
        return;
      }
      userAnswers := SelectAt(userAnswers, questionIndex, optionIndex);
    }

    /**
     * `submitQuiz`: every entry keeps its selection and records its grade, the
     * score is the number of correct entries, and the results are shown.
     */
    method Submit()
      requires Valid()
      modifies this
      ensures Valid()
      ensures questions == old(questions) && showResults
      ensures |userAnswers| == |old(userAnswers)|
      ensures forall i :: 0 <= i < |userAnswers| ==> userAnswers[i] == Graded(questions[i], old(userAnswers[i]))
      ensures score == CountCorrect(questions, old(userAnswers)) && score <= |questions|
    {
      var updated, correctCount := Grade(questions, userAnswers);
      CountCorrectSeesSelectionsOnly(questions, userAnswers, updated);
      userAnswers := updated;
      score := correctCount;
      showResults := true;
    }

    /**
     * A click on the submit button, which is shown only while the results are
     * hidden and is enabled only when every question is answered.
     */
    method ClickSubmit() returns (submitted: bool)
      requires Valid()
      modifies this
      ensures Valid()
      ensures submitted == (!old(showResults) && AllAnswered(old(userAnswers)))
      ensures !submitted ==> questions == old(questions) && userAnswers == old(userAnswers)
                             && showResults == old(showResults) && score == old(score)
      ensures submitted ==> questions == old(questions) && showResults
      ensures submitted ==> score == CountCorrect(old(questions), old(userAnswers))
      ensures submitted ==> |userAnswers| == |old(userAnswers)|
      ensures submitted ==> forall i :: 0 <= i < |userAnswers| ==> userAnswers[i] == Graded(questions[i], old(userAnswers[i]))
      ensures submitted ==> forall i :: 0 <= i < |userAnswers| ==> userAnswers[i].isAnswered && userAnswers[i].isCorrect.Some?
    {
      submitted := !showResults && AllAnswered(userAnswers);
      if submitted {
        Submit();
      }
    }
  }

  /** The two grading scenarios of the quiz: one question "2+2?" with options "3", "4", "5". */
  method GradingScenarios()
  {
    var q := Question(JStr("2+2?"), [JStr("3"), JStr("4"), JStr("5")], JStr("4"));
    assert CorrectIndex(q) == 1;
    var quiz := new QuizSession([q]);
    quiz.SelectOption(0, 1);
    assert quiz.userAnswers[0] == AnswerState(Some(1), true, None);
    quiz.Submit();
    assert quiz.score == 1 && quiz.showResults && quiz.userAnswers[0].isCorrect == Some(true);
    quiz.Reset();
    quiz.SelectOption(0, 0);
    quiz.Submit();
    assert quiz.score == 0 && quiz.userAnswers[0].isCorrect == Some(false);
    quiz.SelectOption(0, 1);
    assert quiz.userAnswers[0].selectedOption == Some(0);
  }
}
