/** The quiz page: questions loaded from the backend, a session controller whose fields are the
    page's React state, and the scoring shown on the completed screen. */
module Quiz {
  import opened Common

  datatype QuizQuestion = QuizQuestion(
    id: string,
    question: string,
    options: seq<string>,
    correctAnswer: int,
    explanation: string,
    difficulty: Difficulty,
    category: string)

  datatype QuizResult = QuizResult(questionId: string, selectedAnswer: int, isCorrect: bool, timeSpent: int)

  /** The declared lifecycle. `Feedback` is part of the type but no handler ever assigns it:
      the feedback phase is `Active` with `showFeedback` set. */
  datatype QuizState = Setup | Active | Feedback | Completed

  /** One question as the quiz endpoint returns it. */
  datatype BackendQuestion = BackendQuestion(question: string, options: seq<string>, correctIndex: int)

  // ---------------------------------------------------------------------------------------------
  // Loading

  function MapQuestion(q: BackendQuestion, idx: nat): QuizQuestion {
    QuizQuestion(NatToString(idx + 1), q.question, q.options, q.correctIndex, "", Medium, "General")
  }

  /** The loader's mapping: position i becomes id "i+1"; text, options and answer index are copied;
      explanation, difficulty and category get fixed defaults. */
  function MapQuestions(qs: seq<BackendQuestion>): (r: seq<QuizQuestion>)
    ensures |r| == |qs|
    ensures forall i :: 0 <= i < |qs| ==>
      && r[i].question == qs[i].question
      && r[i].options == qs[i].options
      && r[i].correctAnswer == qs[i].correctIndex
      && r[i].explanation == ""
      && r[i].difficulty == Medium
      && r[i].category == "General"
      && AllDigits(r[i].id) && ParseNat(r[i].id) == i + 1
      && (|r[i].id| > 1 ==> r[i].id[0] != '0')
  {
    var r := seq(|qs|, i requires 0 <= i < |qs| => MapQuestion(qs[i], i));
    forall i | 0 <= i < |qs| ensures ParseNat(r[i].id) == i + 1 {
      ParseNatToString(i + 1);
    }
    r
  }

  predicate DistinctIds(qs: seq<QuizQuestion>) {
    forall j, k :: 0 <= j < k < |qs| ==> qs[j].id != qs[k].id
  }

  lemma MappedQuestionIdsDistinct(qs: seq<BackendQuestion>)
    ensures DistinctIds(MapQuestions(qs))
  {
    var r := MapQuestions(qs);
    forall j, k | 0 <= j < k < |r| ensures r[j].id != r[k].id {
      NatToStringInjective(j + 1, k + 1);
    }
  }

  // ---------------------------------------------------------------------------------------------
  // Scoring

  /** `results.filter((r) => r.isCorrect)`. */
  function CorrectResults(results: seq<QuizResult>): (c: seq<QuizResult>)
    ensures |c| <= |results|
    ensures forall r :: r in c ==> r in results && r.isCorrect
    ensures forall r :: r in results && r.isCorrect ==> r in c
  {
    if results == [] then []
    else
      var last := results[|results| - 1];
      CorrectResults(results[..|results| - 1]) + (if last.isCorrect then [last] else [])
  }

  /** The number of correct answers. */
  function Score(results: seq<QuizResult>): (n: nat)
    ensures n <= |results|
  {
    |CorrectResults(results)|
  }

  lemma ScoreAppend(results: seq<QuizResult>, r: QuizResult)
    ensures Score(results + [r]) == Score(results) + (if r.isCorrect then 1 else 0)
  {
    assert (results + [r])[..|results|] == results;
  }

  lemma {:induction false} ScoreAllCorrect(results: seq<QuizResult>)
    ensures Score(results) == |results| <==> forall k :: 0 <= k < |results| ==> results[k].isCorrect
  {
    if results != [] {
      var init := results[..|results| - 1];
      ScoreAllCorrect(init);
      assert results == init + [results[|results| - 1]];
      ScoreAppend(init, results[|results| - 1]);
      if forall k :: 0 <= k < |results| ==> results[k].isCorrect {
        assert forall k :: 0 <= k < |init| ==> init[k].isCorrect by {
          forall k | 0 <= k < |init| ensures init[k].isCorrect {
            assert init[k] == results[k];
          }
        }
      }
    }
  }

  /** How many of the thresholds the percentage reaches; every threshold is an inclusive lower bound. */
  function ThresholdsReached(p: int, ts: seq<int>): (n: nat)
    ensures n <= |ts|
  {
    if ts == [] then 0 else (if p >= ts[0] then 1 else 0) + ThresholdsReached(p, ts[1..])
  }

  lemma {:induction false} ThresholdsReachedMonotone(p: int, q: int, ts: seq<int>)
    requires p <= q
    ensures ThresholdsReached(p, ts) <= ThresholdsReached(q, ts)
  {
    if ts != [] {
      ThresholdsReachedMonotone(p, q, ts[1..]);
    }
  }

  const MessageThresholds: seq<int> := [60, 70, 80, 90]

  lemma MessageTier(p: int)
    ensures ThresholdsReached(p, MessageThresholds) ==
            (if p >= 60 then 1 else 0) + (if p >= 70 then 1 else 0) + (if p >= 80 then 1 else 0) +
            (if p >= 90 then 1 else 0)
  {
    var ts := MessageThresholds;
    assert ts[1..][1..][1..][1..] == [];
    assert ThresholdsReached(p, ts[1..][1..][1..]) == if p >= 90 then 1 else 0;
    assert ThresholdsReached(p, ts[1..][1..]) == (if p >= 80 then 1 else 0) + (if p >= 90 then 1 else 0);
  }

  lemma ColorTier(p: int)
    ensures ThresholdsReached(p, ColorThresholds) == (if p >= 60 then 1 else 0) + (if p >= 80 then 1 else 0)
  {
    var ts := ColorThresholds;
    assert ts[1..] == [80] && ts[1..][1..] == [];
  }

  /** The messages, lowest tier first. */
  const ScoreMessages: seq<string> := [
    "Keep studying! Practice makes perfect.",
    "Not bad! Review the material and try again.",
    "Good work! Keep practicing to improve.",
    "Great job! You have a solid understanding.",
    "Excellent! Outstanding performance!"]

  const ColorThresholds: seq<int> := [60, 80]

  /** The colour classes, lowest tier first. */
  const ScoreColors: seq<string> := ["text-red-600", "text-yellow-600", "text-green-600"]

  /** getScoreMessage: the message of the highest tier the percentage reaches. */
  function ScoreMessage(percentage: int): (msg: string)
    ensures msg == ScoreMessages[ThresholdsReached(percentage, MessageThresholds)]
  {
    MessageTier(percentage);
    if percentage >= 90 then "Excellent! Outstanding performance!"
    else if percentage >= 80 then "Great job! You have a solid understanding."
    else if percentage >= 70 then "Good work! Keep practicing to improve."
    else if percentage >= 60 then "Not bad! Review the material and try again."
    else "Keep studying! Practice makes perfect."
  }

  /** getScoreColor: the colour of the highest tier the percentage reaches. */
  function ScoreColor(percentage: int): (color: string)
    ensures color == ScoreColors[ThresholdsReached(percentage, ColorThresholds)]
  {
    ColorTier(percentage);
    if percentage >= 80 then "text-green-600"
    else if percentage >= 60 then "text-yellow-600"
    else "text-red-600"
  }

  /** Two percentages get the same message exactly when they reach the same tier. */
  lemma ScoreMessageDistinguishesTiers(p: int, q: int)
    ensures ScoreMessage(p) == ScoreMessage(q) <==>
            ThresholdsReached(p, MessageThresholds) == ThresholdsReached(q, MessageThresholds)
  {
    var i, j := ThresholdsReached(p, MessageThresholds), ThresholdsReached(q, MessageThresholds);
    if i != j {
      assert ScoreMessages[i][3] != ScoreMessages[j][3] by {
        MessageTier(p);
        MessageTier(q);
      }
    }
  }

  /** The colour tiers are every other message tier: green for "Excellent"/"Great",
      yellow for "Good"/"Not bad", red for "Keep studying". */
  lemma ColorFollowsMessage(p: int)
    ensures ThresholdsReached(p, ColorThresholds) == (ThresholdsReached(p, MessageThresholds) + 1) / 2
  {
    MessageTier(p);
    ColorTier(p);
  }

  /** Four correct answers out of five show 80%, the lowest percentage of the "Great job" tier. */
  lemma FourOfFiveExample()
    ensures Percentage(4, 5) == 80
    ensures ScoreMessage(Percentage(4, 5)) == "Great job! You have a solid understanding."
    ensures ScoreMessage(Percentage(4, 5) - 1) == "Good work! Keep practicing to improve."
  {
    assert RoundDiv(400, 5) == 80;
  }

  // ---------------------------------------------------------------------------------------------
  // Review on the completed screen

  /** The index `results.find((r) => r.questionId === id)` stops at, or -1 when no result matches. */
  function FindIndex(results: seq<QuizResult>, id: string): (k: int)
    ensures -1 <= k < |results|
    ensures k == -1 <==> forall j :: 0 <= j < |results| ==> results[j].questionId != id
    ensures k >= 0 ==> results[k].questionId == id && forall j :: 0 <= j < k ==> results[j].questionId != id
  {
    if results == [] then -1
    else if results[0].questionId == id then 0
    else
      var k := FindIndex(results[1..], id);
      if k < 0 then -1 else k + 1
  }

  /** A match at position i with none before it is where the search stops. */
  lemma {:induction false} FindIndexFirst(results: seq<QuizResult>, id: string, i: nat)
    requires i < |results| && results[i].questionId == id
    requires forall j :: 0 <= j < i ==> results[j].questionId != id
    ensures FindIndex(results, id) == i
  {
    if i > 0 {
      FindIndexFirst(results[1..], id, i - 1);
    }
  }

  /** `results.find((r) => r.questionId === id)`: the first result recorded for the question. */
  function FindResult(results: seq<QuizResult>, id: string): (r: Option<QuizResult>)
    ensures r.None? <==> forall k :: 0 <= k < |results| ==> results[k].questionId != id
    ensures r.Some? ==> r.value == results[FindIndex(results, id)] && r.value.questionId == id
  {
    var k := FindIndex(results, id);
    if k < 0 then None else Some(results[k])
  }

  /** `result?.isCorrect || false`: whether the review marks the question as answered correctly. */
  function ReviewCorrect(results: seq<QuizResult>, id: string): (ok: bool)
    ensures ok <==> FindResult(results, id).Some? && FindResult(results, id).value.isCorrect
    ensures ok ==> exists k :: 0 <= k < |results| && results[k].questionId == id && results[k].isCorrect
  {
    match FindResult(results, id)
    case Some(r) => r.isCorrect
    case None => false
  }

  /** When results[k] answers questions[k] and question ids are distinct, the review of question i
      finds exactly the result recorded for it. */
  lemma ReviewFindsOwnResult(questions: seq<QuizQuestion>, results: seq<QuizResult>, i: nat)
    requires forall j, k :: 0 <= j < k < |questions| ==> questions[j].id != questions[k].id
    requires |results| <= |questions| && i < |results|
    requires forall k :: 0 <= k < |results| ==> results[k].questionId == questions[k].id
    ensures FindIndex(results, questions[i].id) == i
    ensures FindResult(results, questions[i].id) == Some(results[i])
  {
    FindIndexFirst(results, questions[i].id, i);
  }

  /** `questions.find((q) => q.id === id)`. */
  function FindQuestion(questions: seq<QuizQuestion>, id: string): (q: Option<QuizQuestion>)
    ensures q.Some? ==> q.value in questions && q.value.id == id
    ensures q.None? <==> forall k :: 0 <= k < |questions| ==> questions[k].id != id
    ensures q.Some? ==> exists k :: 0 <= k < |questions| && questions[k] == q.value &&
                                    forall j :: 0 <= j < k ==> questions[j].id != id
  {
    if questions == [] then None
    else if questions[0].id == id then Some(questions[0])
    else
      var q := FindQuestion(questions[1..], id);
      if q.Some? then FirstMatchShift(questions, id, q.value); q else q
  }

  /** A first match in the tail, behind a non-matching head, is the first match of the list. */
  lemma FirstMatchShift(questions: seq<QuizQuestion>, id: string, v: QuizQuestion)
    requires |questions| > 0 && questions[0].id != id
    requires exists k :: 0 <= k < |questions| - 1 && questions[1..][k] == v &&
                         forall j :: 0 <= j < k ==> questions[1..][j].id != id
    ensures exists k :: 0 <= k < |questions| && questions[k] == v &&
                        forall j :: 0 <= j < k ==> questions[j].id != id
  {
    var k :| 0 <= k < |questions| - 1 && questions[1..][k] == v &&
             forall j :: 0 <= j < k ==> questions[1..][j].id != id;
    assert questions[k + 1] == v;
    forall j | 0 <= j < k + 1 ensures questions[j].id != id {
      if j > 0 {
        assert questions[j] == questions[1..][j - 1];
      }
    }
  }

  predicate CorrectOnHard(questions: seq<QuizQuestion>, r: QuizResult) {
    var q := FindQuestion(questions, r.questionId);
    r.isCorrect && q.Some? && q.value.difficulty == Hard
  }

  /** The "Hard Questions Correct" tile: correct results whose question is marked hard. */
  function HardCorrect(questions: seq<QuizQuestion>, results: seq<QuizResult>): (n: nat)
    ensures n <= Score(results)
  {
    if results == [] then 0
    else
      var last := results[|results| - 1];
      var init := results[..|results| - 1];
      assert results == init + [last];
      ScoreAppend(init, last);
      HardCorrect(questions, init) + (if CorrectOnHard(questions, last) then 1 else 0)
  }

  /** The loader marks every question "medium", so the tile always reads 0 for loaded questions. */
  lemma {:induction false} HardCorrectOfLoaded(loaded: seq<BackendQuestion>, results: seq<QuizResult>)
    ensures HardCorrect(MapQuestions(loaded), results) == 0
  {
    if results != [] {
      HardCorrectOfLoaded(loaded, results[..|results| - 1]);
    }
  }

  // ---------------------------------------------------------------------------------------------
  // The session controller

  /** The outcome submitAnswer records for a selection on a question. */
  function Grade(q: QuizQuestion, selected: int, elapsed: int): (r: QuizResult)
    ensures r.questionId == q.id && r.selectedAnswer == selected && r.timeSpent == elapsed
    ensures r.isCorrect <==> selected == q.correctAnswer
  {
    QuizResult(q.id, selected, selected == q.correctAnswer, elapsed)
  }

  class QuizSession {
    var quizState: QuizState
    var questions: seq<QuizQuestion>
    var currentQuestionIndex: int
    var selectedAnswer: Option<int>
    var results: seq<QuizResult>
    var startTime: int
    var questionStartTime: int
    var showFeedback: bool

    /** The index names a question whenever there is one, and is 0 otherwise. */
    ghost predicate Valid()
      reads this
    {
      0 <= currentQuestionIndex && (currentQuestionIndex < |questions| || currentQuestionIndex == 0)
    }

    // What the page renders, and so which handlers a user can reach.

    /** The setup screen with its "Start Quiz" button. */
    predicate StartShown()
      reads this
      ensures StartShown() ==> !RestartShown()
      ensures StartShown() && Consistent() ==> results == []
    {
      |questions| > 0 && quizState == Setup
    }

    /** The question screen: shown for any state other than setup and completed. */
    predicate ActiveView()
      reads this
      ensures |questions| > 0 ==> StartShown() || ActiveView() || RestartShown()
      ensures ActiveView() ==> !StartShown() && !RestartShown()
      ensures ActiveView() && Valid() ==> currentQuestionIndex < |questions|
    {
      |questions| > 0 && quizState != Setup && quizState != Completed
    }

    /** The radio group accepts a choice while no feedback is shown. */
    predicate OptionsEnabled()
      reads this
      ensures OptionsEnabled() ==> ActiveView()
      ensures OptionsEnabled() && Consistent() ==> quizState == Active && |results| == currentQuestionIndex
    {
      ActiveView() && !showFeedback
    }

    /** "Submit Answer" is rendered while no feedback is shown and enabled once an option is chosen. */
    predicate SubmitEnabled()
      reads this
      ensures SubmitEnabled() ==> selectedAnswer.Some? && OptionsEnabled()
      ensures SubmitEnabled() && Valid() ==> currentQuestionIndex < |questions|
    {
      OptionsEnabled() && selectedAnswer.Some?
    }

    /** "Next Question" / "View Results" replaces the submit button once feedback is shown. */
    predicate NextShown()
      reads this
      ensures NextShown() ==> ActiveView() && !OptionsEnabled() && !SubmitEnabled()
      ensures NextShown() && Consistent() ==>
        && |results| == currentQuestionIndex + 1
        && results[currentQuestionIndex].questionId == questions[currentQuestionIndex].id
    {
      ActiveView() && showFeedback
    }

    /** The completed screen with its "Retake Quiz" button. */
    predicate RestartShown()
      reads this
      ensures RestartShown() && Consistent() ==> |results| == |questions|
    {
      |questions| > 0 && quizState == Completed
    }

    /** What any sequence of clicks on rendered, enabled controls keeps true: the state is never
        `Feedback`; results[k] answers questions[k]; one result per question answered so far, so the
        running score `score / (index + (showFeedback ? 1 : 0))` is out of the answered questions. */
    ghost predicate Consistent()
      reads this
      ensures Consistent() ==> Score(results) <= |results| <= |questions|
      ensures Consistent() && quizState == Active ==>
        Score(results) <= currentQuestionIndex + (if showFeedback then 1 else 0) <= |questions|
    {
      && Valid()
      && quizState != Feedback
      && |results| <= |questions|
      && (forall k :: 0 <= k < |results| ==> results[k].questionId == questions[k].id)
      && (quizState == Setup ==> results == [])
      && (quizState == Active ==> |results| == currentQuestionIndex + (if showFeedback then 1 else 0))
      && (quizState == Completed ==> |results| == |questions|)
    }

    /** The page after mount and a successful load of the given questions. */
    constructor (loaded: seq<BackendQuestion>)
      ensures questions == MapQuestions(loaded)
      ensures quizState == Setup && currentQuestionIndex == 0 && selectedAnswer == None
      ensures results == [] && startTime == 0 && questionStartTime == 0 && !showFeedback
      ensures Consistent() && DistinctIds(questions)
    {
      quizState := Setup;
      questions := MapQuestions(loaded);
      MappedQuestionIdsDistinct(loaded);
      currentQuestionIndex := 0;
      selectedAnswer := None;
      results := [];
      startTime := 0;
      questionStartTime := 0;
      showFeedback := false;
    }

    /** The effect that stamps the question start time when the quiz is active and none is set. */
    method SyncQuestionClock(now: int)
      modifies this`questionStartTime
      ensures questionStartTime ==
              if old(quizState) == Active && old(questionStartTime) == 0 then now else old(questionStartTime)
    {
      if quizState == Active && questionStartTime == 0 {
        questionStartTime := now;
      }
    }

    /** startQuiz: alerts and changes nothing without questions; otherwise starts from question 0. */
    method StartQuiz(now: int) returns (alerted: bool)
      modifies this`quizState, this`currentQuestionIndex, this`selectedAnswer, this`results,
               this`startTime, this`questionStartTime, this`showFeedback
      ensures alerted <==> |questions| == 0
      ensures alerted ==> unchanged(this)
      ensures !alerted ==>
        && quizState == Active && currentQuestionIndex == 0 && selectedAnswer == None && results == []
        && startTime == now && questionStartTime == now && !showFeedback
        && Consistent() && OptionsEnabled()
      ensures old(Consistent()) ==> Consistent()
    {
      if |questions| == 0 {
        alerted := true;
        return;
      }
      alerted := false;
      quizState := Active;
      currentQuestionIndex := 0;
      selectedAnswer := None;
      results := [];
      startTime := now;
      questionStartTime := now;
      showFeedback := false;
    }

    /** The radio group's change handler: `Number.parseInt` of the chosen option's index string. */
    method SelectAnswer(value: string)
      requires |value| > 0 && AllDigits(value)
      modifies this`selectedAnswer
      ensures selectedAnswer == Some(ParseNat(value))
      ensures old(Consistent()) ==> Consistent()
    {
      selectedAnswer := Some(ParseNat(value));
    }

    /** submitAnswer: without a selection nothing happens; otherwise exactly one graded result is
        appended and feedback is shown, while the lifecycle state stays as it was. */
    method SubmitAnswer(now: int)
      requires Valid() && |questions| > 0
      modifies this`results, this`showFeedback
      ensures selectedAnswer.None? ==> unchanged(this)
      ensures selectedAnswer.Some? ==>
        && results == old(results) + [Grade(questions[currentQuestionIndex], selectedAnswer.value,
                                            now - questionStartTime)]
        && showFeedback
      ensures old(Consistent()) && old(SubmitEnabled()) ==> Consistent() && NextShown() && !SubmitEnabled()
    {
      if selectedAnswer == None {
        return;
      }
      var currentQuestion := questions[currentQuestionIndex];
      var result := Grade(currentQuestion, selectedAnswer.value, now - questionStartTime);
      results := results + [result];
      showFeedback := true;
    }

    /** nextQuestion: moves to the next question, or completes the quiz on the last one. */
    method NextQuestion(now: int)
      requires Valid()
      modifies this`quizState, this`currentQuestionIndex, this`selectedAnswer, this`showFeedback,
               this`questionStartTime
      ensures old(currentQuestionIndex) < |questions| - 1 ==>
        && currentQuestionIndex == old(currentQuestionIndex) + 1 && quizState == old(quizState)
        && selectedAnswer == None && !showFeedback && questionStartTime == now
      ensures old(currentQuestionIndex) >= |questions| - 1 ==>
        && quizState == Completed && currentQuestionIndex == old(currentQuestionIndex)
        && selectedAnswer == old(selectedAnswer) && showFeedback == old(showFeedback)
        && questionStartTime == old(questionStartTime)
      ensures Valid()
      ensures old(Consistent()) && old(NextShown()) ==> Consistent()
    {
      if currentQuestionIndex < |questions| - 1 {
        currentQuestionIndex := currentQuestionIndex + 1;
        selectedAnswer := None;
        showFeedback := false;
        questionStartTime := now;
      } else {
        quizState := Completed;
      }
    }

    /** restartQuiz: back to setup from any state; the session start time is kept. */
    method RestartQuiz()
      modifies this`quizState, this`currentQuestionIndex, this`selectedAnswer, this`results,
               this`showFeedback
      ensures quizState == Setup && currentQuestionIndex == 0 && selectedAnswer == None
      ensures results == [] && !showFeedback
      ensures Consistent()
    {
      quizState := Setup;
      currentQuestionIndex := 0;
      selectedAnswer := None;
      results := [];
      showFeedback := false;
    }

    /** The percentage on the completed screen, for a session reached through the rendered controls. */
    function CompletedPercentage(): (p: int)
      reads this
      requires quizState == Completed && |questions| > 0 && |results| == |questions|
      ensures 0 <= p <= 100
      ensures (forall k :: 0 <= k < |results| ==> results[k].isCorrect) ==> p == 100
    {
      ScoreAllCorrect(results);
      var s := Score(results);
      Percentage(s, |questions|)
    }

    /** On the completed screen of a consistent session, the review marks question i as correct
        exactly when the answer recorded for it was correct. Distinct ids hold for the whole
        session: the constructor establishes them and no handler may modify `questions`. */
    lemma CompletedReview(i: nat)
      requires Consistent() && DistinctIds(questions) && RestartShown() && i < |questions|
      ensures ReviewCorrect(results, questions[i].id) == results[i].isCorrect
    {
      ReviewFindsOwnResult(questions, results, i);
    }
  }
}
