/** The quiz component: its questions, the weighted percentage it reports,
    and the session state its buttons drive. */
module Quiz {
  import opened Wrappers
  import opened Percent

  datatype QuestionType = MultipleChoice | TrueFalse

  /** A question weight; the component only ever divides by a sum of them. */
  type Weight = w: int | w > 0 witness 1

  datatype Question = Question(
    id: string,
    topic: string,
    kind: QuestionType,
    content: string,
    options: seq<string>,
    correctAnswer: string,
    weight: Weight)

  /** The selected option per question id (a JavaScript record, without its
      prototype chain: a key with no own entry is treated as `undefined`). */
  type Answers = map<string, string>

  /** `selectedAnswers[question.id] === question.correctAnswer`: a key with
      no own entry never equals a string. */
  predicate IsCorrect(q: Question, answers: Answers)
    ensures IsCorrect(q, answers) <==> answers[q.id := q.correctAnswer] == answers
  {
    q.id in answers && answers[q.id] == q.correctAnswer
  }

  /** The denominator fold: the sum of all weights. */
  function TotalWeight(qs: seq<Question>): (t: int)
    ensures t >= |qs|
  {
    if qs == [] then 0 else TotalWeight(qs[..|qs| - 1]) + qs[|qs| - 1].weight
  }

  /** The numerator fold: the sum of the weights of correctly answered questions. */
  function CorrectWeight(qs: seq<Question>, answers: Answers): (w: int)
    ensures 0 <= w <= TotalWeight(qs)
  {
    if qs == [] then 0
    else
      var last := qs[|qs| - 1];
      CorrectWeight(qs[..|qs| - 1], answers) + (if IsCorrect(last, answers) then last.weight else 0)
  }

  /** The sum of the weights of the questions that have any recorded answer. */
  function AnsweredWeight(qs: seq<Question>, answers: Answers): int
  {
    if qs == [] then 0
    else
      var last := qs[|qs| - 1];
      AnsweredWeight(qs[..|qs| - 1], answers) + (if last.id in answers then last.weight else 0)
  }

  /** The percentage `calculateScore` stores and reports: the correct share
      of the total weight, as the nearest integer percentage (halves up). */
  function Score(qs: seq<Question>, answers: Answers): (r: int)
    requires |qs| > 0
    ensures 0 <= r <= 100
    ensures 2 * TotalWeight(qs) * r <= 200 * CorrectWeight(qs, answers) + TotalWeight(qs) < 2 * TotalWeight(qs) * (r + 1)
  {
    RoundedPercentBounds(CorrectWeight(qs, answers), TotalWeight(qs));
    RoundedPercent(CorrectWeight(qs, answers), TotalWeight(qs))
  }

  /** An unanswered question never contributes: only answered weight can be correct. */
  lemma {:induction false} UnansweredCountsAsIncorrect(qs: seq<Question>, answers: Answers)
    ensures CorrectWeight(qs, answers) <= AnsweredWeight(qs, answers)
  {
    if qs != [] {
      UnansweredCountsAsIncorrect(qs[..|qs| - 1], answers);
    }
  }

  /** With nothing answered yet the score is 0. */
  lemma NoAnswersScoresZero(qs: seq<Question>)
    requires |qs| > 0
    ensures Score(qs, map[]) == 0
  {
    NothingAnsweredWeighsNothing(qs);
    UnansweredCountsAsIncorrect(qs, map[]);
    RoundedPercentEnds(TotalWeight(qs));
  }

  lemma {:induction false} NothingAnsweredWeighsNothing(qs: seq<Question>)
    ensures AnsweredWeight(qs, map[]) == 0
  {
    if qs != [] {
      NothingAnsweredWeighsNothing(qs[..|qs| - 1]);
    }
  }

  /** Every question answered correctly: the correct weight is the total weight. */
  lemma {:induction false} AllCorrectWeighsTotal(qs: seq<Question>, answers: Answers)
    requires forall i :: 0 <= i < |qs| ==> IsCorrect(qs[i], answers)
    ensures CorrectWeight(qs, answers) == TotalWeight(qs)
  {
    if qs != [] {
      AllCorrectWeighsTotal(qs[..|qs| - 1], answers);
    }
  }

  /** No question answered correctly: the correct weight is 0. */
  lemma {:induction false} NoneCorrectWeighsNothing(qs: seq<Question>, answers: Answers)
    requires forall i :: 0 <= i < |qs| ==> !IsCorrect(qs[i], answers)
    ensures CorrectWeight(qs, answers) == 0
  {
    if qs != [] {
      NoneCorrectWeighsNothing(qs[..|qs| - 1], answers);
    }
  }

  lemma AllCorrectScores100(qs: seq<Question>, answers: Answers)
    requires |qs| > 0
    requires forall i :: 0 <= i < |qs| ==> IsCorrect(qs[i], answers)
    ensures Score(qs, answers) == 100
  {
    AllCorrectWeighsTotal(qs, answers);
    RoundedPercentEnds(TotalWeight(qs));
  }

  lemma NoneCorrectScores0(qs: seq<Question>, answers: Answers)
    requires |qs| > 0
    requires forall i :: 0 <= i < |qs| ==> !IsCorrect(qs[i], answers)
    ensures Score(qs, answers) == 0
  {
    NoneCorrectWeighsNothing(qs, answers);
    RoundedPercentEnds(TotalWeight(qs));
  }

  /** Two answer maps that agree on the ids of the quiz's questions give the
      same correct weight: entries for other ids are never read. */
  lemma {:induction false} CorrectWeightReadsOnlyQuizIds(qs: seq<Question>, a: Answers, b: Answers)
    requires forall i :: 0 <= i < |qs| ==> (qs[i].id in a <==> qs[i].id in b)
    requires forall i :: 0 <= i < |qs| && qs[i].id in a ==> a[qs[i].id] == b[qs[i].id]
    ensures CorrectWeight(qs, a) == CorrectWeight(qs, b)
  {
    if qs != [] {
      CorrectWeightReadsOnlyQuizIds(qs[..|qs| - 1], a, b);
    }
  }

  /** Answers that agree on the questions' ids give the same score. */
  lemma ScoreReadsOnlyQuizIds(qs: seq<Question>, a: Answers, b: Answers)
    requires |qs| > 0
    requires forall i :: 0 <= i < |qs| ==> (qs[i].id in a <==> qs[i].id in b)
    requires forall i :: 0 <= i < |qs| && qs[i].id in a ==> a[qs[i].id] == b[qs[i].id]
    ensures Score(qs, a) == Score(qs, b)
  {
    CorrectWeightReadsOnlyQuizIds(qs, a, b);
  }

  /** Answers recorded by a sequence of `handleSelectAnswer(id, option)` calls,
      each overwriting the entry it names. */
  function ApplySelections(a: Answers, sels: seq<(string, string)>): Answers
  {
    if sels == [] then a
    else
      var s := sels[|sels| - 1];
      ApplySelections(a, sels[..|sels| - 1])[s.0 := s.1]
  }

  /** The option of the last selection made for `id`, if any. */
  function LastSelection(sels: seq<(string, string)>, id: string): Option<string>
  {
    if sels == [] then None
    else if sels[|sels| - 1].0 == id then Some(sels[|sels| - 1].1)
    else LastSelection(sels[..|sels| - 1], id)
  }

  /** After a run of selections, each id holds its last selected option, or
      its earlier entry if it was never selected. */
  lemma {:induction false} ApplySelectionsKeepsLast(a: Answers, sels: seq<(string, string)>, id: string)
    ensures id in ApplySelections(a, sels) <==> LastSelection(sels, id).Some? || id in a
    ensures id in ApplySelections(a, sels) ==>
      ApplySelections(a, sels)[id] ==
        (if LastSelection(sels, id).Some? then LastSelection(sels, id).value else a[id])
  {
    if sels != [] {
      ApplySelectionsKeepsLast(a, sels[..|sels| - 1], id);
    }
  }

  /** Only the last selection per question matters: two runs of selections
      with the same last choice for every id (reordered across different
      ids, or overwritten any number of times) record the same answers and so
      give the same score. */
  lemma SameLastSelectionsSameScore(qs: seq<Question>, a: Answers, s1: seq<(string, string)>, s2: seq<(string, string)>)
    requires |qs| > 0
    requires forall id :: LastSelection(s1, id) == LastSelection(s2, id)
    ensures ApplySelections(a, s1) == ApplySelections(a, s2)
    ensures Score(qs, ApplySelections(a, s1)) == Score(qs, ApplySelections(a, s2))
  {
    var m1, m2 := ApplySelections(a, s1), ApplySelections(a, s2);
    forall id
      ensures id in m1 <==> id in m2
      ensures id in m1 ==> m1[id] == m2[id]
    {
      ApplySelectionsKeepsLast(a, s1, id);
      ApplySelectionsKeepsLast(a, s2, id);
    }
  }

  /** The state of one `QuizInterface`: the four `useState` slots the
      handlers write, the fixed question list, and the values passed to the
      `onComplete` callback so far. */
  class QuizSession {
    const questions: seq<Question>
    var currentIndex: nat
    var selectedAnswers: Answers
    var showResults: bool
    var quizScore: int
    var reported: seq<int>

    /** The index stays on a question; once results show, the session sits
        on the last question, and the stored score is the one last reported
        and the score of the recorded answers. */
    ghost predicate Valid()
      reads this
    {
      |questions| > 0 && currentIndex < |questions| &&
      (showResults ==>
         currentIndex == |questions| - 1 &&
         quizScore == Score(questions, selectedAnswers) &&
         |reported| > 0 && reported[|reported| - 1] == quizScore) &&
      (!showResults ==> quizScore == 0 && reported == [])
    }

    /** Every recorded answer is an option of a question with that id. */
    ghost predicate AnswersAreOptions()
      reads this
    {
      forall id :: id in selectedAnswers ==>
        exists i :: 0 <= i < |questions| && questions[i].id == id && selectedAnswers[id] in questions[i].options
    }

    /** `isLastQuestion`: no question follows the current one. */
    predicate IsLastQuestion()
      reads this
      ensures IsLastQuestion() <==> currentIndex < |questions| && questions[currentIndex + 1..] == []
    {
      currentIndex == |questions| - 1
    }

    /** The Previous button's `disabled` attribute. */
    predicate PreviousDisabled()
      reads this
      ensures PreviousDisabled() <==> showResults || (if currentIndex == 0 then 0 else currentIndex - 1) == currentIndex
    {
      currentIndex == 0 || showResults
    }

    /** The Next button's `disabled` attribute: `!selectedAnswers[id] &&
        !showResults`, where a key with no own entry and the empty string
        are both falsy. */
    predicate NextDisabled()
      reads this
      requires currentIndex < |questions|
      ensures showResults ==> !NextDisabled()
      ensures NextDisabled() && questions[currentIndex].correctAnswer != "" ==>
        !IsCorrect(questions[currentIndex], selectedAnswers)
    {
      var id := questions[currentIndex].id;
      !(id in selectedAnswers && selectedAnswers[id] != "") && !showResults
    }

    /** Mounting the component (an empty list crashes on `currentQuestion`). */
    constructor (qs: seq<Question>)
      requires |qs| > 0
      ensures Valid() && AnswersAreOptions()
      ensures questions == qs && currentIndex == 0 && selectedAnswers == map[]
      ensures !showResults && quizScore == 0 && reported == []
    {
      questions := qs;
      currentIndex := 0;
      selectedAnswers := map[];
      showResults := false;
      quizScore := 0;
      reported := [];
    }

    /** `handleSelectAnswer`: records or overwrites exactly one entry. Its
        only caller is an option of the current question, rendered only
        while results are hidden. */
    method SelectAnswer(questionId: string, answer: string)
      requires Valid() && !showResults
      modifies this`selectedAnswers
      ensures Valid()
      ensures selectedAnswers == old(selectedAnswers)[questionId := answer]
      ensures forall id :: id in old(selectedAnswers) && id != questionId ==>
        id in selectedAnswers && selectedAnswers[id] == old(selectedAnswers)[id]
    {
      selectedAnswers := selectedAnswers[questionId := answer];
    }

    /** `handleNextQuestion`: on the last question it computes the score,
        stores it, reports it to `onComplete` and shows the results; before
        that it moves to the next question. Pressing "View Roadmap" re-runs
        it on the last question and reports the same score again. */
    method NextQuestion()
      requires Valid()
      modifies this`currentIndex, this`showResults, this`quizScore, this`reported
      ensures Valid()
      ensures old(IsLastQuestion()) ==>
        currentIndex == old(currentIndex) && showResults &&
        quizScore == Score(questions, selectedAnswers) &&
        reported == old(reported) + [quizScore]
      ensures old(showResults) ==> quizScore == old(quizScore)
      ensures !old(IsLastQuestion()) ==>
        currentIndex == old(currentIndex) + 1 && showResults == old(showResults) &&
        quizScore == old(quizScore) && reported == old(reported)
    {
      if currentIndex == |questions| - 1 {
        var percentage := Score(questions, selectedAnswers);
        quizScore := percentage;
        reported := reported + [percentage];
        showResults := true;
      } else {
        currentIndex := currentIndex + 1;
      }
    }

    /** The Previous button's handler: `Math.max(0, index - 1)`. The button
        is disabled while results show, so it never runs then. */
    method Previous()
      requires Valid() && !showResults
      modifies this`currentIndex
      ensures Valid()
      ensures currentIndex == if old(currentIndex) == 0 then 0 else old(currentIndex) - 1
    {
      currentIndex := if currentIndex == 0 then 0 else currentIndex - 1;
    }

    /** Clicking option `k` of the current question records it under the
        current question's id; nothing else changes. */
    method ClickOption(k: nat)
      requires Valid() && !showResults
      requires k < |questions[currentIndex].options|
      modifies this`selectedAnswers
      ensures Valid()
      ensures selectedAnswers ==
        old(selectedAnswers)[questions[currentIndex].id := questions[currentIndex].options[k]]
      ensures old(AnswersAreOptions()) ==> AnswersAreOptions()
    {
      ghost var before := selectedAnswers;
      var q := questions[currentIndex];
      SelectAnswer(q.id, q.options[k]);
      if old(AnswersAreOptions()) {
        forall id | id in selectedAnswers
          ensures exists i :: 0 <= i < |questions| && questions[i].id == id && selectedAnswers[id] in questions[i].options
        {
          if id == q.id {
            assert questions[currentIndex].id == id && selectedAnswers[id] in questions[currentIndex].options;
          } else {
            assert id in before;
            var i :| 0 <= i < |questions| && questions[i].id == id && before[id] in questions[i].options;
            assert selectedAnswers[id] == before[id];
          }
        }
      }
    }

    /** Clicking Previous: nothing happens while it is disabled. */
    method ClickPrevious()
      requires Valid()
      modifies this`currentIndex
      ensures Valid()
      ensures old(PreviousDisabled()) ==> currentIndex == old(currentIndex)
      ensures !old(PreviousDisabled()) ==> currentIndex == old(currentIndex) - 1
    {
      if !PreviousDisabled() {
        Previous();
      }
    }

    /** Clicking Next / Finish Quiz / View Roadmap: it acts only when the
        current question has a (non-empty) answer or results already show. */
    method ClickNext()
      requires Valid()
      modifies this`currentIndex, this`showResults, this`quizScore, this`reported
      ensures Valid()
      ensures old(NextDisabled()) ==>
        currentIndex == old(currentIndex) && showResults == old(showResults) &&
        quizScore == old(quizScore) && reported == old(reported)
      ensures showResults && !old(showResults) ==>
        var id := questions[currentIndex].id;
        id in selectedAnswers && selectedAnswers[id] != ""
      ensures currentIndex != old(currentIndex) ==>
        var id := questions[old(currentIndex)].id;
        id in selectedAnswers && selectedAnswers[id] != ""
      ensures !old(NextDisabled()) && old(IsLastQuestion()) ==>
        currentIndex == old(currentIndex) && showResults &&
        quizScore == Score(questions, selectedAnswers) &&
        reported == old(reported) + [quizScore]
      ensures !old(NextDisabled()) && !old(IsLastQuestion()) ==>
        currentIndex == old(currentIndex) + 1 && showResults == old(showResults) &&
        quizScore == old(quizScore) && reported == old(reported)
    {
      if !NextDisabled() {
        NextQuestion();
      }
    }
  }
}
