# Learning-platform front end: quiz session, roadmap graph and dashboard helpers

This project models the logic inside a React learning-platform front end whose
data is all in-memory mock data. What it models:

- **The quiz session** (`QuizInterface`). A class `Quiz.QuizSession` holds the
  component's four state slots: current question index, selected answers
  keyed by question id, results flag and stored score. It also holds the
  fixed question list and a trace of the values passed to the `onComplete`
  callback. Each event handler is one method, and each button is one method
  that applies its `disabled` guard. The weighted percentage score is a pure
  function over the question sequence. The two `reduce` folds are
  `TotalWeight` and `CorrectWeight`. `Math.round` is exact integer arithmetic,
  shared in module `Percent`.
- **The assessment page's five questions** (`CourseAssessment`), as a
  concrete well-formed input for the quiz.
- **The course roadmap** (`CourseRoadmap`). The fixture graph is datatypes:
  typed nodes with a status, and prerequisite edges. Well-formedness is
  stated as predicates: unique ids, edges between existing nodes, no cycle,
  and reachability. The node-detail panel, including the status dispatch for
  assessments, is a pure function. A class `Roadmap.RoadmapView` holds the
  opened node. Its node and edge lists are `const`, because the component
  never writes them.
- **The dashboard route guard** (`DashboardLayout`). The stored role is a
  parameter, and the navigation is returned as a value.
- **The dashboard header** (`DashboardHeader`). This covers the role's
  display name, the avatar initials built by `split(" ")`/`map`/`join`, and
  the theme toggle.
- **The course card's activity rate** (`CourseManagementCard`).

Integers are unbounded. Weights are positive integers (`Quiz.Weight`), and
student counts are naturals.

## Model

| member | source | states |
|---|---|---|
| `Percent.RoundedPercent` | src/components/quiz/QuizInterface.tsx:64 | `Math.round(100*n/d)` for d > 0 is the integer r with 2dr <= 200n + d < 2d(r+1): the nearest integer, with halves rounded up |
| `Quiz.TotalWeight` | src/components/quiz/QuizInterface.tsx:64 | the sum of all weights is at least the number of questions, so a non-empty quiz never divides by zero |
| `Quiz.IsCorrect` | src/components/quiz/QuizInterface.tsx:60 | a question counts as correct exactly when its entry already holds the correct answer, i.e. recording the correct answer would leave the map unchanged; a missing entry never counts |
| `Quiz.CorrectWeight` | src/components/quiz/QuizInterface.tsx:59-62 | the weight of the correctly answered questions lies between 0 and the total weight |
| `Quiz.Score` | src/components/quiz/QuizInterface.tsx:58-64 | the stored and reported score is between 0 and 100, and is the correct weight's share of the total rounded to the nearest percent |
| `Quiz.UnansweredCountsAsIncorrect` | src/components/quiz/QuizInterface.tsx:60 | a question with no recorded answer never adds to the score: the correct weight is at most the answered weight |
| `Quiz.NothingAnsweredWeighsNothing` | src/components/quiz/QuizInterface.tsx:60 | with an empty answer map, no question counts as answered |
| `Quiz.NoAnswersScoresZero` | src/components/quiz/QuizInterface.tsx:58-64 | finishing with nothing answered scores 0 |
| `Quiz.AllCorrectWeighsTotal` | src/components/quiz/QuizInterface.tsx:59-62 | if every question is answered correctly, the correct weight equals the total weight |
| `Quiz.NoneCorrectWeighsNothing` | src/components/quiz/QuizInterface.tsx:59-62 | if no question is answered correctly, the correct weight is 0 |
| `Quiz.AllCorrectScores100` | src/components/quiz/QuizInterface.tsx:58-64 | every answer correct scores 100 |
| `Quiz.NoneCorrectScores0` | src/components/quiz/QuizInterface.tsx:58-64 | no answer correct scores 0 |
| `Quiz.CorrectWeightReadsOnlyQuizIds` | src/components/quiz/QuizInterface.tsx:59-62 | answer maps that agree on the quiz's question ids give the same correct weight |
| `Quiz.ScoreReadsOnlyQuizIds` | src/components/quiz/QuizInterface.tsx:58-64 | answer maps that agree on the quiz's question ids give the same score |
| `Quiz.ApplySelectionsKeepsLast` | src/components/quiz/QuizInterface.tsx:42-47 | after a run of selections, each id holds its last selected option, or its earlier entry if it was never selected |
| `Quiz.SameLastSelectionsSameScore` | src/components/quiz/QuizInterface.tsx:42-64 | two runs of selections with the same last choice per id give the same answers and the same score. This covers reordering across different questions and any number of overwrites |
| `Quiz.QuizSession.constructor` | src/components/quiz/QuizInterface.tsx:32-35 | a mounted quiz starts at question 0 with no answers, results hidden, score 0 and nothing reported |
| `Quiz.QuizSession.IsLastQuestion` | src/components/quiz/QuizInterface.tsx:40 | the current question is the last one exactly when it is in range and no question follows it |
| `Quiz.QuizSession.PreviousDisabled` | src/components/quiz/QuizInterface.tsx:147 | Previous is disabled exactly when results show or `Math.max(0, i-1)` would leave the index where it is |
| `Quiz.QuizSession.NextDisabled` | src/components/quiz/QuizInterface.tsx:155 | Next is never disabled while results show; while it is disabled, the current question does not count as correct (unless its correct answer is the empty string) |
| `Quiz.QuizSession.SelectAnswer` | src/components/quiz/QuizInterface.tsx:42-47 | sets or overwrites exactly the entry for the given id. Every other entry, the index, the results flag and the score are unchanged |
| `Quiz.QuizSession.NextQuestion` | src/components/quiz/QuizInterface.tsx:49-56 | on a non-last question, the index goes up by exactly 1 and nothing else changes. On the last question, the index stays put, results show, and the stored score is the answers' score and is appended to the `onComplete` trace. Re-running it after results ("View Roadmap") reports the same score again. The index always stays below the number of questions |
| `Quiz.QuizSession.Previous` | src/components/quiz/QuizInterface.tsx:146 | the index becomes max(0, i-1), and answers are never cleared |
| `Quiz.QuizSession.ClickOption` | src/components/quiz/QuizInterface.tsx:98-104 | clicking an option records that option of the current question under the current question's id, and keeps every recorded answer an option of its question |
| `Quiz.QuizSession.ClickPrevious` | src/components/quiz/QuizInterface.tsx:144-150 | Previous does nothing at index 0 or once results show; otherwise it steps back one question |
| `Quiz.QuizSession.ClickNext` | src/components/quiz/QuizInterface.tsx:152-157 | while disabled, Next changes nothing. Otherwise it behaves as `NextQuestion`: on the last question the index stays, results show and the score is stored and reported; before that the index goes up by 1 and the results flag, score and trace are unchanged. Results appear, or the index moves, only after a non-empty answer to the current question |
| `CourseAssessment.Questions` | src/pages/student/CourseAssessment.tsx:15-89 | the page hands the quiz exactly five questions |
| `CourseAssessment.QuestionIds` | src/pages/student/CourseAssessment.tsx:15-89 | the ids are q1 to q5 in order, pairwise distinct |
| `CourseAssessment.CorrectAnswerIsAnOption` | src/pages/student/CourseAssessment.tsx:22-86 | each question's correct answer is one of its options |
| `CourseAssessment.OptionsDistinct` | src/pages/student/CourseAssessment.tsx:22-85 | within each question the options are pairwise distinct |
| `CourseAssessment.TrueFalseOptions` | src/pages/student/CourseAssessment.tsx:61-73 | the fourth question is true/false, it is the only one, and its options are exactly "True" and "False" |
| `CourseAssessment.UnitWeightsCount` | src/pages/student/CourseAssessment.tsx:29-87 | with unit weights, the total weight is the question count and the correct weight is the correct count |
| `CourseAssessment.ScoreIsTwentyPerCorrect` | src/pages/student/CourseAssessment.tsx:15-89 | the total weight is 5, and the score is exactly 20 times the number of correct answers |
| `CourseAssessment.StartQuiz` | src/pages/student/CourseAssessment.tsx:144-148 | the quiz mounts on these questions in a valid initial state |
| `Roadmap.PathMovesForward` | src/components/roadmap/CourseRoadmap.tsx:129-186 | if every edge points further down the node list, then along any walk the position strictly increases |
| `Roadmap.ForwardEdgesAcyclic` | src/components/roadmap/CourseRoadmap.tsx:129-186 | a node order in which all edges point forward makes the edges well-formed and acyclic |
| `Roadmap.InitialNodes` | src/components/roadmap/CourseRoadmap.tsx:38-127 | the roadmap has seven nodes |
| `Roadmap.InitialEdges` | src/components/roadmap/CourseRoadmap.tsx:129-186 | the roadmap has seven prerequisite edges |
| `Roadmap.InitialNodeIds` | src/components/roadmap/CourseRoadmap.tsx:38-127 | the node ids, in list order |
| `Roadmap.InitialIdsUnique` | src/components/roadmap/CourseRoadmap.tsx:38-127 | node ids are pairwise distinct |
| `Roadmap.InitialEdgesForward` | src/components/roadmap/CourseRoadmap.tsx:129-186 | every edge goes from an earlier listed node to a later one |
| `Roadmap.InitialGraphWellFormed` | src/components/roadmap/CourseRoadmap.tsx:38-186 | the fixture has unique ids, every edge endpoint is a node, and there is no cycle |
| `Roadmap.OnlyStartIsRoot` | src/components/roadmap/CourseRoadmap.tsx:129-186 | `start` is the only node with no incoming edge |
| `Roadmap.ReachableFromStart` | src/components/roadmap/CourseRoadmap.tsx:129-186 | each node of the fixture is reachable from `start` |
| `Roadmap.AllReachableFromStart` | src/components/roadmap/CourseRoadmap.tsx:129-186 | every node is reachable from `start` |
| `Roadmap.InitialNodeData` | src/components/roadmap/CourseRoadmap.tsx:38-127 | an assessment carries a score exactly when it is completed, and the completed one's score is 85. The completed topic's progress is 100 and the available topic's progress is 0 |
| `Roadmap.AssessmentSectionFor` | src/components/roadmap/CourseRoadmap.tsx:298-324 | the assessment panel shows the score exactly when the status is `completed` and the Start button exactly when it is `available`. It shows the locked message exactly for `locked` and `in_progress` |
| `Roadmap.PanelFor` | src/components/roadmap/CourseRoadmap.tsx:245-326 | the detail card shows the node's title and description. It shows a resources list exactly for topics, and a type section for topics and assessments only |
| `Roadmap.InitialAssessmentPanels` | src/components/roadmap/CourseRoadmap.tsx:298-324 | on the fixture, `assessment1` shows 85, `assessment2` offers Start and `assessment3` is locked. A score bar appears exactly for the scored assessments |
| `Roadmap.RoadmapView.constructor` | src/components/roadmap/CourseRoadmap.tsx:188-190 | the view starts with the fixture's nodes and edges and no node open |
| `Roadmap.RoadmapView.OnNodeClick` | src/components/roadmap/CourseRoadmap.tsx:192-194 | clicking a node opens exactly that node. Nodes and edges are constants, so they are untouched |
| `Roadmap.RoadmapView.Close` | src/components/roadmap/CourseRoadmap.tsx:257 | Close leaves no node open |
| `Roadmap.RoadmapView.Panel` | src/components/roadmap/CourseRoadmap.tsx:245-328 | a card is shown exactly when a node is open, and it is that node's panel |
| `DashboardLayout.DashboardPath` | src/components/layout/DashboardLayout.tsx:20 | a role's dashboard path starts with "/" and is 11 characters longer than the role |
| `DashboardLayout.Guard` | src/components/layout/DashboardLayout.tsx:15-22 | no stored role, or an empty one, goes to "/". The page's own role stays. Any other stored role goes to that role's dashboard |
| `DashboardLayout.DashboardPathInjective` | src/components/layout/DashboardLayout.tsx:20 | different roles have different dashboard paths |
| `DashboardLayout.GuardOutcomes` | src/components/layout/DashboardLayout.tsx:17-21 | exactly one of the three outcomes holds, each if and only if its condition does. A dashboard redirect goes only to the stored role's dashboard, never the page's and never a third role's |
| `DashboardLayout.RedirectSettles` | src/components/layout/DashboardLayout.tsx:19-20 | after a redirect to the stored role's dashboard, that page's guard lets the user stay |
| `DashboardHeader.Split` | src/components/layout/DashboardHeader.tsx:40-41 | `split(" ")` yields at least one piece, and no piece contains a space |
| `DashboardHeader.Join` | src/components/layout/DashboardHeader.tsx:41 | the inverse of `split(" ")` (`join(" ")`): the result starts with the first piece and is at least as long as the number of separators (one fewer than the pieces) |
| `DashboardHeader.JoinSplit` | src/components/layout/DashboardHeader.tsx:40-41 | joining the pieces with single spaces gives back the original string |
| `DashboardHeader.FirstLetters` | src/components/layout/DashboardHeader.tsx:42-43 | there are never more initials than pieces, because empty pieces contribute nothing |
| `DashboardHeader.FirstLettersSplit` | src/components/layout/DashboardHeader.tsx:40-43 | the first letters of the pieces are exactly the characters that start a word |
| `DashboardHeader.Initials` | src/components/layout/DashboardHeader.tsx:40-43 | `userInitials` is the first character of each space-separated word, in order, and there are at most as many as pieces |
| `DashboardHeader.SplitWord` | src/components/layout/DashboardHeader.tsx:41 | a space-free word followed by a space splits off as one piece |
| `DashboardHeader.TwoWordInitials` | src/components/layout/DashboardHeader.tsx:40-43 | two words joined by a space split into those two words and give their two first letters |
| `DashboardHeader.ThreeWordInitials` | src/components/layout/DashboardHeader.tsx:40-43 | three words joined by single spaces give their three first letters |
| `DashboardHeader.UserName` | src/components/layout/DashboardHeader.tsx:28 | the name is "Alex Johnson" exactly for the `student` role, and "Dr. Sarah Miller" for every other role |
| `DashboardHeader.StudentInitials` | src/components/layout/DashboardHeader.tsx:28-43 | the student's name "Alex Johnson" gives the initials "AJ" |
| `DashboardHeader.OtherInitials` | src/components/layout/DashboardHeader.tsx:28-43 | every other role is shown as "Dr. Sarah Miller", with initials "DSM" |
| `DashboardHeader.EmptyNameInitials` | src/components/layout/DashboardHeader.tsx:40-43 | an empty name, before the user name is set, has empty initials |
| `DashboardHeader.ToggleTheme` | src/components/layout/DashboardHeader.tsx:36-38 | the toggle yields `light` exactly from `dark`, and `dark` from any other value |
| `DashboardHeader.ToggleTwice` | src/components/layout/DashboardHeader.tsx:36-38 | toggling twice returns `light` or `dark` to itself. Any other starting value ends at `light` |
| `CourseManagementCard.ActivityRate` | src/components/professor/CourseManagementCard.tsx:27 | the rate is the nearest integer to 100 × active / total, with halves rounded up |
| `CourseManagementCard.ActivityRateRange` | src/components/professor/CourseManagementCard.tsx:27 | with 0 <= active <= total and total > 0, the rate is in [0,100]. Everyone active gives 100 and nobody active gives 0 |
| `CourseManagementCard.ActivityRateMonotone` | src/components/professor/CourseManagementCard.tsx:27 | for a fixed total, the rate never decreases as active grows |
| `CourseManagementCard.DashboardRates` | src/pages/professor/ProfessorDashboard.tsx:19-37 | the dashboard's courses (40/45, 28/32, 20/25) show 89, 88 and 80 |

## Left out

- Floating point. The model computes `Math.round(100 * n / d)` on exact
  rationals. JavaScript evaluates `n / d * 100` in binary floating point,
  which can land just below an exact half and round down (e.g. 29/200
  becomes 14.4999… and so 14). The model says 15 there.
- Question `difficulty` values are fractions that nothing reads. They are not
  part of the `Question` datatype. Weights are modelled as positive integers
  instead of JavaScript numbers.
- Degenerate inputs the component does not handle are preconditions:
  - an empty question list, which crashes on `currentQuestion`;
  - a zero total weight, which gives NaN and is excluded by positive weights;
  - `totalStudents == 0`, which gives NaN or Infinity.
- `Quiz.QuizSession.SelectAnswer` and `Quiz.QuizSession.Previous` require
  that results are hidden. Their only triggers are the option list and the
  Previous button, and neither can fire while results show: the options are
  not rendered and the button is disabled. The click methods model the
  buttons themselves.
- The `onComplete` callback is a recorded trace of reported scores. The
  caller's 3-second `setTimeout` navigation to the roadmap is not modelled.
  It is a timer plus a router call.
- The quiz `timeLimit`/`timeRemaining` state is declared but never read, so
  there is no timer to model. The quiz also receives `courseId` and never
  uses it. Of the modelled components, only `CourseRoadmap` displays the
  course id (`CourseRoadmap.tsx:219`).
- React's asynchronous state batching is not modelled. Each handler runs to
  completion and then the next event sees the new state, which is how the
  sequential UI behaves.
- `localStorage` reads and writes, and router navigation. The stored role is
  a parameter (`None` for a missing key), and the navigation target is a
  returned value. Logout (clearing the role and going to "/") is not
  modelled.
- Characters. JavaScript strings are sequences of UTF-16 code units, so
  `name[0]` of a word that starts outside the Basic Multilingual Plane
  (an emoji, say) is half of a surrogate pair. A Dafny `string` is a
  sequence of Unicode scalar values, so `DashboardHeader.FirstLetters`,
  `DashboardHeader.Initials` and `DashboardHeader.FirstLettersSplit` take
  the whole character there. The two fixed user names contain only ASCII
  letters, so the modelled initials are the same.
- Quiz.QuizSession.NextDisabled: the answers are a map without a prototype
  chain. In the source, `selectedAnswers` is a JavaScript object, so a
  question id naming an inherited `Object.prototype` member (`constructor`,
  `toString`, `valueOf`, `__proto__`) reads a truthy value with nothing
  recorded, and Next is enabled before any answer. The model keeps Next
  disabled for such an id. The fixture ids `q1`–`q5` never hit this case.
- Quiz.QuizSession.ClickNext: for the same inherited-member ids the source
  moves on, or finishes the quiz, with no answer recorded; the model does
  nothing, and its promise that results appear or the index moves only
  after a non-empty answer holds only for ids that are not inherited
  `Object.prototype` members. `Quiz.IsCorrect` is unaffected, because an
  inherited function never `===` a string.
- The theme is a plain string. The theme context that stores it is not part
  of this model.
- A roadmap status-derivation or unlocking engine. None exists: every status
  is a literal in the fixture, so no derived-status property is stated. The
  fixture would not satisfy one anyway, because `assessment2` is `available`
  while its prerequisite `topic1` is `in_progress`.
- Rendering: JSX, animations, icons, graph layout (positions, edge styles
  and `animated` flags), MiniMap/Controls, the per-type node renderers and
  CSS classes. The panel model records which sections appear, not how they
  look.
- The pages' simulated API calls (`setTimeout` with mock data) and the
  routing, login and list-card files.
