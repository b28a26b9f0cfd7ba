/** The Interactive Quiz section (app.py lines 63-77): two fixed questions,
    one selected option per question, and a score counting the questions
    whose selection equals the recorded answer. The score is never stored. */
module Quiz {
  import opened Store

  datatype Question = Question(question: string, options: seq<string>, answer: string)

  /** The fixed question set of the section. */
  const QuizQuestions: seq<Question> := [
    Question("What is a growth mindset?",
             ["Fixed abilities", "Continuous learning", "Avoiding challenges"],
             "Continuous learning"),
    Question("How should you view criticism?",
             ["Ignore it", "Use it to grow", "Take it personally"],
             "Use it to grow")
  ]

  /** Number of questions, among the first `|qs|`, answered correctly; the
      selection for question `i` is `selected[i]`. */
  function CountCorrect(qs: seq<Question>, selected: seq<string>): (n: nat)
    requires |selected| == |qs|
    ensures n <= |qs|
    decreases |qs|
  {
    if |qs| == 0 then 0
    else
      var last := |qs| - 1;
      CountCorrect(qs[..last], selected[..last]) + (if selected[last] == qs[last].answer then 1 else 0)
  }

  /** The indices of the correctly answered questions. */
  function CorrectIndices(qs: seq<Question>, selected: seq<string>): set<nat>
    requires |selected| == |qs|
  {
    set i: nat | i < |qs| && selected[i] == qs[i].answer
  }

  /** The count is exactly the number of questions whose selection equals
      that question's answer. */
  lemma {:induction false} CountIsCorrectAnswers(qs: seq<Question>, selected: seq<string>)
    requires |selected| == |qs|
    ensures CountCorrect(qs, selected) == |CorrectIndices(qs, selected)|
    decreases |qs|
  {
    if |qs| > 0 {
      var last := |qs| - 1;
      var qs', sel' := qs[..last], selected[..last];
      CountIsCorrectAnswers(qs', sel');
      var before := CorrectIndices(qs', sel');
      assert before == set i: nat | i < last && selected[i] == qs[i].answer by {
        forall i: nat | i < last ensures qs'[i] == qs[i] && sel'[i] == selected[i] { }
      }
      if selected[last] == qs[last].answer {
        assert CorrectIndices(qs, selected) == before + {last};
      } else {
        assert CorrectIndices(qs, selected) == before;
      }
    }
  }

  /** The quiz loop: `score += 1` for each question whose selected option
      equals its answer. */
  method Score(qs: seq<Question>, selected: seq<string>) returns (score: nat)
    requires |selected| == |qs|
    ensures score == CountCorrect(qs, selected)
    ensures score <= |qs|
  {
    score := 0;
    var i := 0;
    while i < |qs|
      invariant 0 <= i <= |qs|
      invariant score == CountCorrect(qs[..i], selected[..i])
    {
      assert qs[..i + 1][..i] == qs[..i];
      assert selected[..i + 1][..i] == selected[..i];
      if selected[i] == qs[i].answer {
        score := score + 1;
      }
      i := i + 1;
    }
    assert qs[..i] == qs;
    assert selected[..i] == selected;
  }

  /** Selecting every answer scores the full total. */
  lemma {:induction false} AllCorrectScoresTotal(qs: seq<Question>, selected: seq<string>)
    requires |selected| == |qs|
    requires forall i :: 0 <= i < |qs| ==> selected[i] == qs[i].answer
    ensures CountCorrect(qs, selected) == |qs|
    decreases |qs|
  {
    if |qs| > 0 {
      var last := |qs| - 1;
      AllCorrectScoresTotal(qs[..last], selected[..last]);
    }
  }

  /** Selecting no answer scores zero. */
  lemma {:induction false} NoneCorrectScoresZero(qs: seq<Question>, selected: seq<string>)
    requires |selected| == |qs|
    requires forall i :: 0 <= i < |qs| ==> selected[i] != qs[i].answer
    ensures CountCorrect(qs, selected) == 0
    decreases |qs|
  {
    if |qs| > 0 {
      var last := |qs| - 1;
      NoneCorrectScoresZero(qs[..last], selected[..last]);
    }
  }

  /** The two worked examples of the fixed quiz: both right scores 2 of 2,
      the wrong first options score 0 of 2. */
  lemma QuizExamples()
    ensures CountCorrect(QuizQuestions, ["Continuous learning", "Use it to grow"]) == 2
    ensures CountCorrect(QuizQuestions, ["Fixed abilities", "Ignore it"]) == 0
  {
  }

  /** One run of the quiz page: the score is computed from the selections and
      shown as `score/total` only when "Submit Quiz" was pressed. */
  method QuizPage(selected: seq<string>, pressed: bool) returns (shown: Option<(nat, nat)>)
    requires |selected| == |QuizQuestions|
    ensures shown.Some? <==> pressed
    ensures shown.Some? ==> shown.value.1 == 2 && shown.value.0 <= 2
    ensures shown.Some? ==> shown.value.0 == |CorrectIndices(QuizQuestions, selected)|
  {
    var score := Score(QuizQuestions, selected);
    CountIsCorrectAnswers(QuizQuestions, selected);
    if pressed {
      shown := Some((score, |QuizQuestions|));
    } else {
      shown := None;
    }
  }
}
