/**
 * The agreement between the two halves: the service only returns questions
 * that pass its format check, and the page grades a question by looking its
 * answer up among its options with `indexOf`. The check compares with
 * Python's `==`, the page with JavaScript's `===`; on string answers the two
 * agree, on other answers they need not.
 */
module GradingContract {
  import opened Wrappers
  import opened Json
  import opened Mcq
  import opened Quiz

  /** The question the page holds for a checked question object. */
  function ToQuestion(q: Json): (r: Question)
    requires IsMcq(q)
    ensures |r.options| == 4
    ensures r.text == q.fields["question"] && r.options == q.fields["options"].items && r.answer == q.fields["answer"]
  {
    Question(q.fields["question"], q.fields["options"].items, q.fields["answer"])
  }

  /** The page's question list for a checked list. */
  function ToQuestions(v: Json): (r: seq<Question>)
    requires IsMcqList(v)
    ensures |r| == |v.items| && forall i :: 0 <= i < |r| ==> r[i] == ToQuestion(v.items[i])
  {
    seq(|v.items|, i requires 0 <= i < |v.items| => ToQuestion(v.items[i]))
  }

  /** The answer of the question is one of its options as far as the page is concerned. */
  predicate Gradable(q: Question)
  {
    0 <= CorrectIndex(q)
  }

  /**
   * A checked question whose answer is a string is gradable: the page finds
   * the answer among the options, at the first option equal to it, so
   * choosing that option is graded correct and choosing any other is not.
   */
  lemma StringAnswerIsGradable(q: Json)
    requires IsMcq(q) && q.fields["answer"].JStr?
    ensures Gradable(ToQuestion(q)) && CorrectIndex(ToQuestion(q)) < 4
    ensures var k := CorrectIndex(ToQuestion(q));
            ToQuestion(q).options[k] == q.fields["answer"]
            && forall o: nat :: IsCorrect(ToQuestion(q), AnswerState(Some(o), true, None)) <==> o == k
  {
    var question := ToQuestion(q);
    var answer := q.fields["answer"];
    var j :| 0 <= j < 4 && PyEquals(answer, question.options[j]);
    StringEqualitiesAgree(answer.text, question.options[j]);
    assert StrictEquals(question.options[j], answer);
    var k := CorrectIndex(question);
    assert 0 <= k;
    StringEqualitiesAgree(answer.text, question.options[k]);
  }

  /** Every question of a checked list whose answers are all strings is gradable. */
  lemma StringAnswersAreGradable(v: Json)
    requires IsMcqList(v)
    requires forall i :: 0 <= i < |v.items| ==> v.items[i].fields["answer"].JStr?
    ensures forall i :: 0 <= i < |ToQuestions(v)| ==> Gradable(ToQuestions(v)[i])
  {
    forall i | 0 <= i < |v.items|
      ensures Gradable(ToQuestions(v)[i])
    {
      StringAnswerIsGradable(v.items[i]);
    }
  }

  /** The placeholder question is gradable, option "A" being the correct one. */
  lemma PlaceholderIsGradable()
    ensures |ToQuestions(Placeholder())| == 1
    ensures CorrectIndex(ToQuestions(Placeholder())[0]) == 0
  {
    var q := Placeholder().items[0];
    assert IsMcq(q);
    assert ToQuestion(q).options[0] == JStr("A");
    assert StrictEquals(ToQuestion(q).options[0], ToQuestion(q).answer);
  }

  /**
   * A question whose answer is `true` and whose options include `1` passes the
   * check (`True in [1, ...]` holds in Python) but no option is `=== true` on
   * the page, so whatever is chosen is graded wrong.
   */
  lemma BoolAnswerPassesButNeverGrades()
    ensures var q := JObj(map["question" := JStr("q"),
                               "options" := JArr([JNum(1.0), JStr("b"), JStr("c"), JStr("d")]),
                               "answer" := JBool(true)]);
            IsMcq(q) && CorrectIndex(ToQuestion(q)) == -1
            && forall a: AnswerState :: !IsCorrect(ToQuestion(q), a)
  {
    var q := JObj(map["question" := JStr("q"),
                      "options" := JArr([JNum(1.0), JStr("b"), JStr("c"), JStr("d")]),
                      "answer" := JBool(true)]);
    assert PyEquals(q.fields["answer"], q.fields["options"].items[0]);
    assert IsMcq(q);
  }

  /**
   * A question whose answer is a list equal to one of its options passes the
   * check, but two separately decoded lists are never `===`, so it is graded
   * wrong whatever is chosen.
   */
  lemma ListAnswerPassesButNeverGrades()
    ensures var q := JObj(map["question" := JStr("q"),
                               "options" := JArr([JArr([JStr("x")]), JStr("b"), JStr("c"), JStr("d")]),
                               "answer" := JArr([JStr("x")])]);
            IsMcq(q) && CorrectIndex(ToQuestion(q)) == -1
            && forall a: AnswerState :: !IsCorrect(ToQuestion(q), a)
  {
    var q := JObj(map["question" := JStr("q"),
                      "options" := JArr([JArr([JStr("x")]), JStr("b"), JStr("c"), JStr("d")]),
                      "answer" := JArr([JStr("x")])]);
    var x := JArr([JStr("x")]);
    assert PyEquals(JStr("x"), JStr("x"));
    assert PyEquals(x, x);
    assert PyEquals(q.fields["answer"], q.fields["options"].items[0]);
    assert IsMcq(q);
  }
}
