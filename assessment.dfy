/** The course assessment page's fixed question list, as handed to the quiz
    component, and what it guarantees about the quiz it drives. */
module CourseAssessment {
  import opened Quiz

  /** The five questions, in display order (difficulty values omitted). */
  function Questions(): (qs: seq<Question>)
    ensures |qs| == 5
  {
    [Q1, Q2, Q3, Q4, Q5]
  }

  const Q1: Question :=
    Question("q1", "Basic Concepts", MultipleChoice,
             "Which of the following is a correct variable declaration in JavaScript?",
             ["var 123 = 'number';", "variable name = 'John';", "let name = 'John';", "const 1name = 'John';"],
             "let name = 'John';", 1)

  const Q2: Question :=
    Question("q2", "Data Structures", MultipleChoice,
             "What is the time complexity of searching for an element in a sorted array using binary search?",
             ["O(1)", "O(log n)", "O(n)", "O(n log n)"],
             "O(log n)", 1)

  const Q3: Question :=
    Question("q3", "Algorithms", MultipleChoice,
             "Which algorithm is best suited for finding the shortest path in a weighted graph?",
             ["Depth-First Search", "Breadth-First Search", "Dijkstra's Algorithm", "Bubble Sort"],
             "Dijkstra's Algorithm", 1)

  const Q4: Question :=
    Question("q4", "Programming Paradigms", TrueFalse,
             "Functional programming avoids changing state and mutable data.",
             ["True", "False"],
             "True", 1)

  const Q5: Question :=
    Question("q5", "System Architecture", MultipleChoice,
             "Which of the following is NOT a principle of microservices architecture?",
             ["Services are independently deployable",
              "Services are organized around business capabilities",
              "Services share a centralized database",
              "Services communicate over a network"],
             "Services share a centralized database", 1)

  /** The ids are q1 to q5 in order, hence pairwise distinct. */
  lemma QuestionIds()
    ensures forall i :: 0 <= i < 5 ==> Questions()[i].id == ['q', "12345"[i]]
    ensures forall i, j :: 0 <= i < j < 5 ==> Questions()[i].id != Questions()[j].id
  {
  }

  /** Every question's correct answer is one of its options. */
  lemma CorrectAnswerIsAnOption()
    ensures forall i :: 0 <= i < 5 ==> Questions()[i].correctAnswer in Questions()[i].options
  {
  }

  /** No option is listed twice. */
  predicate Distinct(options: seq<string>) {
    forall j, k :: 0 <= j < k < |options| ==> options[j] != options[k]
  }

  /** Within each question the options are pairwise distinct. */
  lemma OptionsDistinct()
    ensures forall i :: 0 <= i < 5 ==> Distinct(Questions()[i].options)
  {
  }

  /** The fourth question is the only true/false one, and it offers exactly
      "True" and "False". */
  lemma TrueFalseOptions()
    ensures forall i :: 0 <= i < 5 && Questions()[i].kind == TrueFalse ==>
      i == 3 && Questions()[i].options == ["True", "False"]
    ensures Questions()[3].kind == TrueFalse
  {
  }

  /** The number of questions answered correctly. */
  function CorrectCount(qs: seq<Question>, answers: Answers): (c: nat)
    ensures c <= |qs|
  {
    if qs == [] then 0
    else CorrectCount(qs[..|qs| - 1], answers) + (if IsCorrect(qs[|qs| - 1], answers) then 1 else 0)
  }

  /** With unit weights the weighted sums are plain counts. */
  lemma {:induction false} UnitWeightsCount(qs: seq<Question>, answers: Answers)
    requires forall i :: 0 <= i < |qs| ==> qs[i].weight == 1
    ensures TotalWeight(qs) == |qs|
    ensures CorrectWeight(qs, answers) == CorrectCount(qs, answers)
  {
    if qs != [] {
      UnitWeightsCount(qs[..|qs| - 1], answers);
    }
  }

  /** Every weight is 1, so the quiz is worth 5 and each correct answer is
      worth exactly 20 percent. */
  lemma ScoreIsTwentyPerCorrect(answers: Answers)
    ensures TotalWeight(Questions()) == 5
    ensures Score(Questions(), answers) == 20 * CorrectCount(Questions(), answers)
  {
    var qs := Questions();
    UnitWeightsCount(qs, answers);
    var c := CorrectCount(qs, answers);
    assert 200 * c + 5 == 10 * (20 * c) + 5;
  }

  /** The quiz page's session: mounting the quiz on these questions. */
  method StartQuiz() returns (session: QuizSession)
    ensures fresh(session) && session.Valid() && session.AnswersAreOptions()
    ensures session.questions == Questions() && session.currentIndex == 0
    ensures session.selectedAnswers == map[] && !session.showResults
  {
    session := new QuizSession(Questions());
  }
}
