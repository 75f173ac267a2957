/**
 * The exam in progress (`currentExam` of the application) and the functions
 * that drive it: `startExam`, `loadQuestion` and the navigation buttons,
 * answer recording, and `submitExam` with `evaluateDescriptiveAnswers`.
 * Timers, rendering and storage are left to the page.
 */
module Exam {
  import opened Wrappers
  import opened Scoring
  import opened QuestionBank
  import opened Grading
  import opened Utilities
  import Evaluator
  import Accounts

  /** `answers[i]`: an index without an answer reads as `undefined`. */
  function AnswerAt(answers: map<int, string>, i: int): Option<string> {
    if i in answers then Some(answers[i]) else None
  }

  /** The MCQ questions whose stored answer is strictly equal to the key.
      A question with no key that was never answered counts as correct,
      because `undefined === undefined`. */
  function CorrectCount(qs: seq<Question>, answers: map<int, string>): nat
    decreases |qs|
  {
    if qs == [] then 0
    else
      var i := |qs| - 1;
      CorrectCount(qs[..i], answers) + (if qs[i].qtype == MCQ && AnswerAt(answers, i) == qs[i].answer then 1 else 0)
  }

  /** The score never exceeds the number of MCQ questions. */
  lemma {:induction false} CorrectAtMostMCQ(qs: seq<Question>, answers: map<int, string>)
    ensures CorrectCount(qs, answers) <= CountOf(qs, MCQ)
    decreases |qs|
  {
    if qs != [] {
      CorrectAtMostMCQ(qs[..|qs| - 1], answers);
    }
  }

  /** Answering every MCQ question with its key gives the full score. */
  lemma {:induction false} AllKeysGiveFullScore(qs: seq<Question>, answers: map<int, string>)
    requires forall i :: 0 <= i < |qs| && qs[i].qtype == MCQ ==> AnswerAt(answers, i) == qs[i].answer
    ensures CorrectCount(qs, answers) == CountOf(qs, MCQ)
    decreases |qs|
  {
    if qs != [] {
      var init := qs[..|qs| - 1];
      assert forall i :: 0 <= i < |init| ==> init[i] == qs[i];
      AllKeysGiveFullScore(init, answers);
    }
  }

  /** An unanswered MCQ question that has no key is scored as correct. */
  lemma KeylessQuestionScores()
    ensures CorrectCount([Question(MCQ, "q", ["x", "y"], None)], map[]) == 1
    ensures CorrectCount([Question(MCQ, "q", ["x", "y"], Some("x"))], map[]) == 0
  {
    var q1 := [Question(MCQ, "q", ["x", "y"], None)];
    var q2 := [Question(MCQ, "q", ["x", "y"], Some("x"))];
    assert q1[..0] == [] && q2[..0] == [];
  }

  /** One descriptive answer handed to the evaluator. */
  datatype DescriptiveAnswer = DescriptiveAnswer(
    questionIndex: nat,
    studentAnswer: string,
    modelAnswer: Option<string>,
    maxMarks: real,
    question: string,
    stream: string)

  /** Whether question `i` is descriptive and has a non-empty stored answer. */
  predicate Answered(qs: seq<Question>, answers: map<int, string>, i: int) {
    0 <= i < |qs| && qs[i].qtype == Descriptive && i in answers && answers[i] != ""
  }

  /** The entry collected for answered question `i`. */
  function Entry(qs: seq<Question>, answers: map<int, string>, stream: string, i: int): DescriptiveAnswer
    requires Answered(qs, answers, i)
  {
    DescriptiveAnswer(i, answers[i], qs[i].answer, 10.0, qs[i].text, stream)
  }

  /** The answers `evaluateDescriptiveAnswers` collects, in question order. */
  function Collected(qs: seq<Question>, answers: map<int, string>, stream: string): seq<DescriptiveAnswer>
    decreases |qs|
  {
    if qs == [] then []
    else
      var i := |qs| - 1;
      Collected(qs[..i], answers, stream)
        + if Answered(qs, answers, i) then [Entry(qs, answers, stream, i)] else []
  }

  /** The collection is no longer than the exam. */
  lemma {:induction false} CollectedLength(qs: seq<Question>, answers: map<int, string>, stream: string)
    ensures |Collected(qs, answers, stream)| <= |qs|
    decreases |qs|
  {
    if qs != [] {
      CollectedLength(qs[..|qs| - 1], answers, stream);
    }
  }

  /** Each collected entry is an answered descriptive question, with its
      answer, its model answer and ten marks. */
  lemma {:induction false} CollectedSound(qs: seq<Question>, answers: map<int, string>, stream: string)
    ensures forall k :: 0 <= k < |Collected(qs, answers, stream)| ==>
      Answered(qs, answers, Collected(qs, answers, stream)[k].questionIndex)
    ensures forall k :: 0 <= k < |Collected(qs, answers, stream)| ==>
      Collected(qs, answers, stream)[k] == Entry(qs, answers, stream, Collected(qs, answers, stream)[k].questionIndex)
    decreases |qs|
  {
    if qs != [] {
      var i := |qs| - 1;
      var init := qs[..i];
      CollectedSound(init, answers, stream);
      var c0 := Collected(init, answers, stream);
      var c := Collected(qs, answers, stream);
      forall k | 0 <= k < |c|
        ensures Answered(qs, answers, c[k].questionIndex)
        ensures c[k] == Entry(qs, answers, stream, c[k].questionIndex)
      {
        if k < |c0| {
          assert c[k] == c0[k];
          var j := c0[k].questionIndex;
          assert Answered(init, answers, j);
          assert init[j] == qs[j];
        }
      }
    }
  }

  /** The entries follow question order. */
  lemma {:induction false} CollectedOrdered(qs: seq<Question>, answers: map<int, string>, stream: string)
    ensures forall k, l :: 0 <= k < l < |Collected(qs, answers, stream)| ==>
      Collected(qs, answers, stream)[k].questionIndex < Collected(qs, answers, stream)[l].questionIndex
    decreases |qs|
  {
    if qs != [] {
      var i := |qs| - 1;
      var init := qs[..i];
      CollectedOrdered(init, answers, stream);
      CollectedSound(init, answers, stream);
      var c0 := Collected(init, answers, stream);
      var c := Collected(qs, answers, stream);
      forall k, l | 0 <= k < l < |c|
        ensures c[k].questionIndex < c[l].questionIndex
      {
        assert c[k] == c0[k];
        assert Answered(init, answers, c0[k].questionIndex);
        if l < |c0| {
          assert c[l] == c0[l];
        } else {
          assert c[l].questionIndex == i;
        }
      }
    }
  }

  /** Every answered descriptive question is collected. */
  lemma {:induction false} CollectedComplete(qs: seq<Question>, answers: map<int, string>, stream: string, j: int)
    requires Answered(qs, answers, j)
    ensures exists k :: 0 <= k < |Collected(qs, answers, stream)| && Collected(qs, answers, stream)[k].questionIndex == j
    decreases |qs|
  {
    var i := |qs| - 1;
    var init := qs[..i];
    var c0 := Collected(init, answers, stream);
    var c := Collected(qs, answers, stream);
    assert c == c0 + if Answered(qs, answers, i) then [Entry(qs, answers, stream, i)] else [];
    if j < i {
      assert init[j] == qs[j];
      CollectedComplete(init, answers, stream, j);
      var k :| 0 <= k < |c0| && c0[k].questionIndex == j;
      assert c[k] == c0[k];
    } else {
      assert c[|c0|].questionIndex == j;
    }
  }

  /** The evaluator's view of a collected answer. */
  function PairOf(d: DescriptiveAnswer): Evaluator.AnswerPair {
    Evaluator.AnswerPair(Some(d.studentAnswer), d.modelAnswer, Some(d.maxMarks), Some(d.question))
  }

  /** The records made up for every collected answer when evaluation fails. */
  function Fallback(c: seq<DescriptiveAnswer>): (es: seq<Evaluation>)
    ensures |es| == |c|
    ensures forall k :: 0 <= k < |c| ==> es[k].questionIndex == c[k].questionIndex && es[k].result == FallbackResult
    ensures forall e :: e in es ==> Bounded(e) && !e.autoEvaluated
  {
    seq(|c|, k requires 0 <= k < |c| => Evaluation(FallbackResult, c[k].question, c[k].questionIndex, false))
  }

  /** What `evaluateDescriptiveAnswers` yields for the collected answers `c`:
      nothing when there are none; the fallback records when the evaluator is
      missing; otherwise the evaluator's result for each collected answer,
      under that answer's question index, `draws[k]` being the random draw
      of answer `k`. */
  predicate EvaluatedAs(evaluations: Option<seq<Evaluation>>, c: seq<DescriptiveAnswer>,
                        evaluator: Evaluator.SBERTEvaluator?, similarity: Evaluator.Similarity, draws: seq<real>)
    requires forall k :: 0 <= k < |draws| ==> 0.0 <= draws[k] < 1.0
    reads evaluator
  {
    && (evaluations.None? <==> c == [])
    && (c != [] && evaluator == null ==> evaluations == Some(Fallback(c)))
    && (c != [] && evaluator != null ==>
          && evaluations.Some? && |evaluations.value| == |c| && |c| <= |draws|
          && forall k :: 0 <= k < |c| ==>
               evaluations.value[k] == Evaluation(evaluator.EvaluateAnswerPair(PairOf(c[k]), similarity, draws[k]),
                                                  c[k].question, c[k].questionIndex, false))
  }

  /** What `loadQuestion` puts on the page: the question number, the question
      when it is of a type the page can show, the stored answer (or ""), and
      whether the two navigation buttons are disabled. */
  datatype QuestionView = QuestionView(number: int, question: Option<Question>, userAnswer: string, previousDisabled: bool, nextDisabled: bool)

  /** The view of question `index`. */
  function ViewOf(qs: seq<Question>, answers: map<int, string>, index: nat): QuestionView
    requires index < |qs|
  {
    QuestionView(index + 1,
                 if qs[index].qtype == MCQ || qs[index].qtype == Descriptive then Some(qs[index]) else None,
                 AnswerAt(answers, index).GetOr(""),
                 index == 0, index == |qs| - 1)
  }

  datatype StartOutcome = SubjectNotAvailable | InsufficientQuestions | Started

  /** Evaluations of collected answers, each at most ten marks, are within bounds. */
  lemma EvaluatedBounded(e: Evaluator.SBERTEvaluator, c: seq<DescriptiveAnswer>, similarity: Evaluator.Similarity, draws: seq<real>, es: seq<Evaluation>)
    requires |c| == |draws| == |es|
    requires forall k :: 0 <= k < |draws| ==> 0.0 <= draws[k] < 1.0
    requires forall k :: 0 <= k < |c| ==> c[k].maxMarks == 10.0
    requires forall k :: 0 <= k < |c| ==> es[k].result == e.EvaluateAnswerPair(PairOf(c[k]), similarity, draws[k])
    ensures forall x :: x in es ==> Bounded(x)
  {
    forall x | x in es
      ensures Bounded(x)
    {
      var k :| 0 <= k < |es| && es[k] == x;
      Evaluator.EvaluationWithinMax(e, PairOf(c[k]), similarity, draws[k]);
    }
  }

  /** A submitted exam, as `submitExam` records it. */
  datatype ExamResult = ExamResult(
    userId: Accounts.Id,
    userName: string,
    stream: string,
    subjectName: string,
    mcqScore: nat,
    mcqTotal: nat,
    descriptiveScore: real,
    descriptiveTotal: real,
    totalScore: real,
    totalPossible: real,
    percentage: int,
    grade: Grade,
    timeSpent: int,
    questions: seq<Question>,
    answers: map<int, string>,
    descriptiveEvaluations: Option<seq<Evaluation>>,
    aiEvaluated: bool,
    manualEvaluated: bool,
    totalDescriptiveQuestions: nat)

  datatype SubmitOutcome = Submitted(result: ExamResult) | SubmissionError

  /** The record `submitExam` builds once the MCQ score, the descriptive
      evaluations and their sums are known. */
  function ResultFor(user: Accounts.User, stream: string, subjectName: string, questions: seq<Question>,
                     answers: map<int, string>, mcqScore: nat, mcqTotal: nat, evaluations: Option<seq<Evaluation>>,
                     descriptiveScore: real, descriptiveTotal: real, timeSpent: int): (r: ExamResult)
    ensures r.userId == user.id && r.userName == user.name && r.stream == stream && r.subjectName == subjectName
    ensures r.questions == questions && r.answers == answers && r.descriptiveEvaluations == evaluations
    ensures r.mcqScore == mcqScore && r.mcqTotal == mcqTotal && r.timeSpent == timeSpent
    ensures r.descriptiveScore == RoundTenth(descriptiveScore) && r.descriptiveTotal == descriptiveTotal
    ensures r.totalScore == RoundTenth(mcqScore as real + descriptiveScore)
    ensures r.totalPossible == mcqTotal as real + descriptiveTotal
    ensures r.percentage == Percentage(mcqScore as real + descriptiveScore, r.totalPossible)
    ensures mcqScore <= mcqTotal && 0.0 <= descriptiveScore <= descriptiveTotal ==> 0 <= r.percentage <= 100
    ensures r.grade == GradeFor(r.percentage)
    ensures r.aiEvaluated <==> evaluations.Some? && exists e :: e in evaluations.value && e.autoEvaluated
    ensures r.totalDescriptiveQuestions == if evaluations.Some? then |evaluations.value| else 0
  {
    var totalScore := mcqScore as real + descriptiveScore;
    var totalPossible := mcqTotal as real + descriptiveTotal;
    var percentage := Percentage(totalScore, totalPossible);
    assert mcqScore <= mcqTotal && 0.0 <= descriptiveScore <= descriptiveTotal ==> 0 <= percentage <= 100 by {
      if mcqScore <= mcqTotal && 0.0 <= descriptiveScore <= descriptiveTotal {
        PercentageBounds(totalScore, totalPossible);
      }
    }
    ExamResult(
      user.id, user.name, stream, subjectName,
      mcqScore, mcqTotal,
      RoundTenth(descriptiveScore), descriptiveTotal,
      RoundTenth(totalScore), totalPossible,
      percentage, GradeFor(percentage), timeSpent,
      questions, answers, evaluations,
      evaluations.Some? && exists e :: e in evaluations.value && e.autoEvaluated,
      evaluations.Some? && exists e :: e in evaluations.value && !e.autoEvaluated,
      if evaluations.Some? then |evaluations.value| else 0)
  }

  /** A prefix of a shuffled filter holds only questions of that type, drawn from the filter. */
  lemma ShuffledPrefix(qs: seq<Question>, s: seq<Question>, t: QuestionType, k: nat)
    requires multiset(s) == multiset(OfType(qs, t)) && k <= |s|
    ensures forall q :: q in s[..k] ==> q.qtype == t
    ensures multiset(s[..k]) <= multiset(OfType(qs, t))
  {
    OfTypeSpec(qs, t);
    assert s == s[..k] + s[k..];
    forall q | q in s[..k] ensures q.qtype == t {
      assert q in multiset(s);
      assert q in OfType(qs, t);
    }
  }

  /** Counting the two kinds in the MCQ part followed by the descriptive part. */
  lemma ConcatCounts(a: seq<Question>, b: seq<Question>)
    requires forall q :: q in a ==> q.qtype == MCQ
    requires forall q :: q in b ==> q.qtype == Descriptive
    ensures CountOf(a + b, MCQ) == |a| && CountOf(a + b, Descriptive) == |b|
  {
    CountOfUniform(a, MCQ, Descriptive);
    CountOfUniform(b, Descriptive, MCQ);
    OfTypeConcat(a, b, MCQ);
    OfTypeConcat(a, b, Descriptive);
  }

  /** How the three shuffles of `startExam` compose the exam: the first
      `m` of the shuffled MCQ questions and the first `d` of the shuffled
      descriptive ones, shuffled together. */
  lemma Composition(qs: seq<Question>, sm: seq<Question>, sd: seq<Question>, m: nat, d: nat, picked: seq<Question>)
    requires multiset(sm) == multiset(OfType(qs, MCQ)) && multiset(sd) == multiset(OfType(qs, Descriptive))
    requires m <= |sm| && d <= |sd|
    requires multiset(picked) == multiset(sm[..m] + sd[..d])
    ensures |picked| == m + d
    ensures CountOf(picked, MCQ) == m && CountOf(picked, Descriptive) == d
    ensures multiset(picked) <= multiset(qs)
  {
    var a := sm[..m];
    var b := sd[..d];
    ShuffledPrefix(qs, sm, MCQ, m);
    ShuffledPrefix(qs, sd, Descriptive, d);
    ConcatCounts(a, b);
    CountOfMultiset(picked, a + b, MCQ);
    CountOfMultiset(picked, a + b, Descriptive);
    assert |picked| == |multiset(picked)| == |a + b|;
    MCQAndDescriptiveWithinBank(qs);
  }

  class ExamSession {
    var stream: string
    var subjectName: string
    var questions: seq<Question>
    var currentQuestionIndex: int
    var answers: map<int, string>
    var timeRemaining: int
    /** The duration the exam was started with. */
    var duration: int

    /** The current question is one of the exam's, or 0 on an empty exam. */
    ghost predicate Valid()
      reads this
    {
      0 <= currentQuestionIndex && (currentQuestionIndex < |questions| || currentQuestionIndex == 0)
    }

    /** The exam before any has been started. */
    constructor()
      ensures stream == "" && subjectName == "" && questions == [] && answers == map[]
      ensures currentQuestionIndex == 0 && timeRemaining == 1800 && duration == 1800
      ensures Valid()
    {
      stream := "";
      subjectName := "";
      questions := [];
      currentQuestionIndex := 0;
      answers := map[];
      timeRemaining := 1800;
      duration := 1800;
    }

    /**
     * `startExam(stream, subject)`. `d1`, `d2` and `d3` are the random draws
     * of the three shuffles: of the MCQ questions, of the descriptive ones,
     * and of the selected questions together.
     */
    method StartExam(bank: Bank, streamName: string, subject: string, config: Config, d1: seq<real>, d2: seq<real>, d3: seq<real>)
      returns (outcome: StartOutcome)
      requires forall k :: 0 <= k < |d1| ==> 0.0 <= d1[k] < 1.0
      requires forall k :: 0 <= k < |d2| ==> 0.0 <= d2[k] < 1.0
      requires forall k :: 0 <= k < |d3| ==> 0.0 <= d3[k] < 1.0
      requires Lookup(bank, streamName, subject).Some? ==>
        var n := |Lookup(bank, streamName, subject).value|; |d1| >= n && |d2| >= n && |d3| >= n
      modifies this
      ensures outcome == SubjectNotAvailable <==> Lookup(bank, streamName, subject).None?
      ensures outcome == InsufficientQuestions <==>
        Lookup(bank, streamName, subject).Some? && Insufficient(Lookup(bank, streamName, subject).value, config)
      ensures outcome != Started ==> unchanged(this)
      ensures outcome == Started ==>
        && stream == streamName && subjectName == subject
        && currentQuestionIndex == 0 && answers == map[]
        && timeRemaining == ExamDuration(config) && duration == ExamDuration(config)
      ensures outcome == Started ==>
        var qs := Lookup(bank, streamName, subject).value;
        var m := SliceEnd(CountOf(qs, MCQ), McqCount(config));
        var d := SliceEnd(CountOf(qs, Descriptive), DescriptiveCount(config));
        && |questions| == m + d && CountOf(questions, MCQ) == m && CountOf(questions, Descriptive) == d
        && multiset(questions) <= multiset(qs)
      ensures outcome == Started && McqCount(config) > 0 ==> CountOf(questions, MCQ) == McqCount(config)
      ensures outcome == Started && DescriptiveCount(config) > 0 ==> CountOf(questions, Descriptive) == DescriptiveCount(config)
      ensures old(Valid()) ==> Valid()
      ensures outcome == Started ==> Valid()
    {
      var found := Lookup(bank, streamName, subject);
      if found.None? {
        return SubjectNotAvailable;
      }
      var qs := found.value;
      var mcqs := OfType(qs, MCQ);
      var descs := OfType(qs, Descriptive);
      var mcqCount := McqCount(config);
      var descriptiveCount := DescriptiveCount(config);
      if |mcqs| < mcqCount || |descs| < descriptiveCount {
        return InsufficientQuestions;
      }
      MCQAndDescriptiveWithinBank(qs);
      var sm := Shuffle(mcqs, d1);
      var sd := Shuffle(descs, d2);
      var m := SliceEnd(|sm|, mcqCount);
      var d := SliceEnd(|sd|, descriptiveCount);
      var picked := Shuffle(sm[..m] + sd[..d], d3);
      Composition(qs, sm, sd, m, d, picked);
      stream := streamName;
      subjectName := subject;
      questions := picked;
      currentQuestionIndex := 0;
      answers := map[];
      timeRemaining := ExamDuration(config);
      duration := timeRemaining;
      outcome := Started;
    }

    /** `loadQuestion(index)`: an index outside the exam is ignored; otherwise
        it becomes the current question and its view is returned. */
    method LoadQuestion(index: int) returns (view: Option<QuestionView>)
      modifies this
      ensures !(0 <= index < |questions|) ==> view.None? && unchanged(this)
      ensures 0 <= index < |questions| ==>
        currentQuestionIndex == index && view == Some(ViewOf(questions, answers, index))
      ensures questions == old(questions) && answers == old(answers)
      ensures stream == old(stream) && subjectName == old(subjectName)
      ensures timeRemaining == old(timeRemaining) && duration == old(duration)
      ensures old(Valid()) ==> Valid()
    {
      if index < 0 || index >= |questions| {
        return None;
      }
      currentQuestionIndex := index;
      view := Some(ViewOf(questions, answers, index));
    }

    /** `selectOption`: the option is stored and the question shown again. */
    method SelectOption(questionIndex: int, option: string) returns (view: Option<QuestionView>)
      modifies this
      ensures answers == old(answers)[questionIndex := option]
      ensures questions == old(questions)
      ensures currentQuestionIndex == if 0 <= questionIndex < |questions| then questionIndex else old(currentQuestionIndex)
      ensures view.Some? <==> 0 <= questionIndex < |questions|
      ensures view.Some? ==> view.value.userAnswer == option
      ensures stream == old(stream) && subjectName == old(subjectName)
      ensures timeRemaining == old(timeRemaining) && duration == old(duration)
      ensures old(Valid()) ==> Valid()
    {
      answers := answers[questionIndex := option];
      view := LoadQuestion(questionIndex);
    }

    /** `saveDescriptiveAnswer`: the text is stored under the question's index. */
    method SaveDescriptiveAnswer(questionIndex: int, value: string)
      modifies this
      ensures answers == old(answers)[questionIndex := value]
      ensures questions == old(questions) && currentQuestionIndex == old(currentQuestionIndex)
      ensures stream == old(stream) && subjectName == old(subjectName)
      ensures timeRemaining == old(timeRemaining) && duration == old(duration)
      ensures old(Valid()) ==> Valid()
    {
      answers := answers[questionIndex := value];
    }

    /** `navigateToPrevious`: one question back, unless at the first. */
    method NavigateToPrevious() returns (view: Option<QuestionView>)
      modifies this
      ensures questions == old(questions) && answers == old(answers)
      ensures currentQuestionIndex ==
        if 0 < old(currentQuestionIndex) <= |questions| then old(currentQuestionIndex) - 1 else old(currentQuestionIndex)
      ensures stream == old(stream) && subjectName == old(subjectName)
      ensures timeRemaining == old(timeRemaining) && duration == old(duration)
      ensures old(Valid()) ==> Valid()
    {
      view := None;
      if currentQuestionIndex > 0 {
        view := LoadQuestion(currentQuestionIndex - 1);
      }
    }

    /** `navigateToNext`: one question on, unless at the last. */
    method NavigateToNext() returns (view: Option<QuestionView>)
      modifies this
      ensures questions == old(questions) && answers == old(answers)
      ensures currentQuestionIndex ==
        if -1 <= old(currentQuestionIndex) < |questions| - 1 then old(currentQuestionIndex) + 1 else old(currentQuestionIndex)
      ensures stream == old(stream) && subjectName == old(subjectName)
      ensures timeRemaining == old(timeRemaining) && duration == old(duration)
      ensures old(Valid()) ==> Valid()
    {
      view := None;
      if currentQuestionIndex < |questions| - 1 {
        view := LoadQuestion(currentQuestionIndex + 1);
      }
    }

    /** The MCQ loop of `submitExam`. */
    method ScoreMcq() returns (score: nat, total: nat)
      ensures total == CountOf(questions, MCQ)
      ensures score == CorrectCount(questions, answers)
      ensures score <= total
    {
      score, total := 0, 0;
      var i := 0;
      while i < |questions|
        invariant 0 <= i <= |questions|
        invariant total == CountOf(questions[..i], MCQ)
        invariant score == CorrectCount(questions[..i], answers)
        invariant score <= total
      {
        assert questions[..i + 1][..i] == questions[..i];
        if questions[i].qtype == MCQ {
          total := total + 1;
          if AnswerAt(answers, i) == questions[i].answer {
            score := score + 1;
          }
        }
        i := i + 1;
      }
      assert questions[..i] == questions;
    }

    /** The collecting loop of `evaluateDescriptiveAnswers`. */
    method CollectDescriptive() returns (collected: seq<DescriptiveAnswer>)
      ensures collected == Collected(questions, answers, stream)
    {
      collected := [];
      var i := 0;
      while i < |questions|
        invariant 0 <= i <= |questions|
        invariant collected == Collected(questions[..i], answers, stream)
      {
        assert questions[..i + 1][..i] == questions[..i];
        if questions[i].qtype == Descriptive && i in answers && answers[i] != "" {
          collected := collected + [DescriptiveAnswer(i, answers[i], questions[i].answer, 10.0, questions[i].text, stream)];
        }
        i := i + 1;
      }
      assert questions[..i] == questions;
    }

    /**
     * `evaluateDescriptiveAnswers`: `None` when no descriptive question was
     * answered; the fallback records when the evaluator is missing; otherwise
     * the evaluator's batch result for each collected answer, under that
     * answer's question index. `draws[k]` is the random draw of answer `k`.
     */
    method EvaluateDescriptiveAnswers(evaluator: Evaluator.SBERTEvaluator?, similarity: Evaluator.Similarity, draws: seq<real>)
      returns (evaluations: Option<seq<Evaluation>>)
      requires |draws| >= |questions|
      requires forall k :: 0 <= k < |draws| ==> 0.0 <= draws[k] < 1.0
      ensures EvaluatedAs(evaluations, Collected(questions, answers, stream), evaluator, similarity, draws)
      ensures evaluations.Some? ==> forall e :: e in evaluations.value ==> Bounded(e) && !e.autoEvaluated
    {
      var c := CollectDescriptive();
      CollectedLength(questions, answers, stream);
      CollectedSound(questions, answers, stream);
      if |c| == 0 {
        return None;
      }
      if evaluator == null {
        return Some(Fallback(c));
      }
      var pairs := seq(|c|, k requires 0 <= k < |c| => Some(PairOf(c[k])));
      var ds := draws[..|c|];
      var results := evaluator.EvaluateAnswersBatch(Some(pairs), similarity, ds);
      assert Evaluator.FailStart(pairs) == |pairs|;
      var es := seq(|c|, k requires 0 <= k < |c| => Evaluation(results[k], c[k].question, c[k].questionIndex, false));
      EvaluatedBounded(evaluator, c, similarity, ds, es);
      evaluations := Some(es);
    }

    /** The summing loop of `submitExam` over the evaluations. */
    static method SumEvaluations(evaluations: Option<seq<Evaluation>>) returns (score: real, total: real)
      ensures evaluations.None? ==> score == 0.0 && total == 0.0
      ensures evaluations.Some? ==> score == SumMarks(evaluations.value) && total == SumMax(evaluations.value)
      ensures score == DescriptiveScore(evaluations) && total == DescriptiveTotal(evaluations)
    {
      score, total := 0.0, 0.0;
      if evaluations.None? {
        return;
      }
      var es := evaluations.value;
      var i := 0;
      while i < |es|
        invariant 0 <= i <= |es|
        invariant score == SumMarks(es[..i]) && total == SumMax(es[..i])
      {
        assert es[..i + 1][..i] == es[..i];
        score := score + es[i].result.marks;
        total := total + MaxOr10(es[i].result.maxMarks);
        i := i + 1;
      }
      assert es[..i] == es;
    }

    /**
     * `submitExam` for the signed-in `user` (`None` when nobody is signed in,
     * which makes building the record fail). The time spent is measured
     * against the duration the exam started with.
     */
    method SubmitExam(user: Option<Accounts.User>, evaluator: Evaluator.SBERTEvaluator?, similarity: Evaluator.Similarity, draws: seq<real>)
      returns (outcome: SubmitOutcome)
      requires |draws| >= |questions|
      requires forall k :: 0 <= k < |draws| ==> 0.0 <= draws[k] < 1.0
      ensures outcome.Submitted? <==> user.Some?
      ensures outcome.Submitted? ==> var r := outcome.result;
        && r == ResultFor(user.value, stream, subjectName, questions, answers,
                          CorrectCount(questions, answers), CountOf(questions, MCQ), r.descriptiveEvaluations,
                          DescriptiveScore(r.descriptiveEvaluations), DescriptiveTotal(r.descriptiveEvaluations),
                          TimeSpent(duration, timeRemaining))
        && EvaluatedAs(r.descriptiveEvaluations, Collected(questions, answers, stream), evaluator, similarity, draws)
        && r.mcqScore <= r.mcqTotal && 0 <= r.percentage <= 100
        && r.totalDescriptiveQuestions == |Collected(questions, answers, stream)|
        && GetEvaluationType(r.descriptiveEvaluations) == Manual
        && !r.aiEvaluated
    {
      var mcqScore, mcqTotal := ScoreMcq();
      var evaluations := EvaluateDescriptiveAnswers(evaluator, similarity, draws);
      var descriptiveScore, descriptiveTotal := SumEvaluations(evaluations);
      if user.None? {
        return SubmissionError;
      }
      if evaluations.Some? {
        SumsBounded(evaluations.value);
      }
      UnmarkedIsManual(evaluations);
      var result := ResultFor(user.value, stream, subjectName, questions, answers, mcqScore, mcqTotal,
                              evaluations, descriptiveScore, descriptiveTotal, TimeSpent(duration, timeRemaining));
      outcome := Submitted(result);
    }
  }
}
