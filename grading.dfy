/**
 * The arithmetic of `submitExam` and the labels of the results pages: the
 * descriptive totals, the percentage, the letter-grade ladder, the time
 * spent, and `getEvaluationType`.
 */
module Grading {
  import opened Wrappers
  import opened Scoring

  /** One entry of a result's `descriptiveEvaluations`: the evaluator's record
      plus the question it belongs to. `autoEvaluated` is false where the
      record does not set it. */
  datatype Evaluation = Evaluation(result: EvalResult, question: string, questionIndex: nat, autoEvaluated: bool)

  /** The fixed record given to each collected answer when the evaluator cannot be reached. */
  const FallbackResult: EvalResult :=
    EvalResult(0.5, 50, ManualReviewRequired, C, 5.0, 10.0, Some(ManualFallback), None)

  /** `evaluation.maxMarks || 10`. */
  function MaxOr10(m: real): (r: real)
    ensures m != 0.0 ==> r == m
    ensures m == 0.0 ==> r == 10.0
  {
    if m == 0.0 then 10.0 else m
  }

  /** The marks of an evaluation lie between zero and what it counts as possible. */
  predicate Bounded(e: Evaluation) {
    0.0 <= e.result.marks <= MaxOr10(e.result.maxMarks)
  }

  /** `descriptiveScore`: the marks summed in order (`marks || 0` adds a zero as zero). */
  function SumMarks(es: seq<Evaluation>): real
    decreases |es|
  {
    if es == [] then 0.0 else SumMarks(es[..|es| - 1]) + es[|es| - 1].result.marks
  }

  /** `descriptiveTotal`: the possible marks summed in order. */
  function SumMax(es: seq<Evaluation>): real
    decreases |es|
  {
    if es == [] then 0.0 else SumMax(es[..|es| - 1]) + MaxOr10(es[|es| - 1].result.maxMarks)
  }

  /** `descriptiveScore` before rounding: nothing when there are no evaluations. */
  function DescriptiveScore(evaluations: Option<seq<Evaluation>>): real {
    if evaluations.None? then 0.0 else SumMarks(evaluations.value)
  }

  /** `descriptiveTotal`: nothing when there are no evaluations. */
  function DescriptiveTotal(evaluations: Option<seq<Evaluation>>): real {
    if evaluations.None? then 0.0 else SumMax(evaluations.value)
  }

  /** When every evaluation is within its own bounds, so are the totals. */
  lemma {:induction false} SumsBounded(es: seq<Evaluation>)
    requires forall e :: e in es ==> Bounded(e)
    ensures 0.0 <= SumMarks(es) <= SumMax(es)
    decreases |es|
  {
    if es != [] {
      var init := es[..|es| - 1];
      assert forall e :: e in init ==> e in es;
      SumsBounded(init);
      assert Bounded(es[|es| - 1]);
    }
  }

  /** The fallback entry is within bounds. */
  lemma FallbackBounded(question: string, index: nat)
    ensures Bounded(Evaluation(FallbackResult, question, index, false))
  {
  }

  /** `totalPossible > 0 ? Math.round(totalScore / totalPossible * 100) : 0`. */
  function Percentage(total: real, possible: real): int {
    if possible > 0.0 then RoundHalfUp(total / possible * 100.0) else 0
  }

  /** A score between zero and the possible total gives a percentage between 0 and 100. */
  lemma PercentageBounds(total: real, possible: real)
    requires 0.0 <= total <= possible
    ensures 0 <= Percentage(total, possible) <= 100
  {
    if possible > 0.0 {
      RatioBounds(total, possible);
      assert 0.0 <= total / possible * 100.0 <= 100.0;
    }
  }

  lemma RatioBounds(total: real, possible: real)
    requires 0.0 <= total <= possible && possible > 0.0
    ensures 0.0 <= total / possible <= 1.0
  {
  }

  /** A full score is 100 percent and no score is 0 percent. */
  lemma PercentageEnds(possible: real)
    requires possible > 0.0
    ensures Percentage(possible, possible) == 100
    ensures Percentage(0.0, possible) == 0
  {
    assert possible / possible == 1.0;
  }

  /** The letter-grade ladder of `submitExam`. */
  function GradeFor(percentage: int): (g: Grade)
    ensures g == APlus <==> percentage >= 90
    ensures g == A <==> 80 <= percentage < 90
    ensures g == BPlus <==> 70 <= percentage < 80
    ensures g == B <==> 60 <= percentage < 70
    ensures g == C <==> 50 <= percentage < 60
    ensures g == D <==> 40 <= percentage < 50
    ensures g == F <==> percentage < 40
  {
    if percentage >= 90 then APlus
    else if percentage >= 80 then A
    else if percentage >= 70 then BPlus
    else if percentage >= 60 then B
    else if percentage >= 50 then C
    else if percentage >= 40 then D
    else F
  }

  /** Position on the ladder, from F up to A+. */
  function GradeRank(g: Grade): nat {
    match g
    case APlus => 6
    case A => 5
    case BPlus => 4
    case B => 3
    case C => 2
    case D => 1
    case F => 0
  }

  /** A higher percentage never earns a lower grade. */
  lemma GradeMonotone(p1: int, p2: int)
    requires p1 <= p2
    ensures GradeRank(GradeFor(p1)) <= GradeRank(GradeFor(p2))
  {
  }

  /** `timeSpent` as written: the remaining time subtracted from 1800 seconds,
      whatever the configured duration was. */
  function TimeSpentAsWritten(timeRemaining: int): int {
    1800 - timeRemaining
  }

  /** The time spent, measured against the duration the exam started with. */
  function TimeSpent(duration: int, timeRemaining: int): (r: int)
    ensures 0 <= timeRemaining <= duration ==> 0 <= r <= duration
    ensures r + timeRemaining == duration
  {
    duration - timeRemaining
  }

  /** The two agree on the default duration and only there. */
  lemma TimeSpentAgreesOnDefault(duration: int, timeRemaining: int)
    ensures TimeSpentAsWritten(timeRemaining) == TimeSpent(duration, timeRemaining) <==> duration == 1800
  {
  }

  /** A one-hour exam submitted after 100 seconds reports -1700 seconds as written. */
  lemma TimeSpentAsWrittenNegative()
    ensures TimeSpentAsWritten(3500) == -1700
    ensures TimeSpent(3600, 3500) == 100
  {
  }

  datatype EvaluationType = Mixed | AI | Manual

  /** `getEvaluationType` on a result's `descriptiveEvaluations`. */
  function GetEvaluationType(evaluations: Option<seq<Evaluation>>): (r: EvaluationType)
    ensures r == Mixed <==> (evaluations.Some?
                             && (exists e :: e in evaluations.value && e.autoEvaluated)
                             && (exists e :: e in evaluations.value && !e.autoEvaluated))
    ensures r == AI <==> (evaluations.Some? && evaluations.value != []
                          && forall e :: e in evaluations.value ==> e.autoEvaluated)
  {
    if evaluations.None? then Manual
    else
      assert evaluations.value != [] ==> evaluations.value[0] in evaluations.value;
      var hasAI := exists e :: e in evaluations.value && e.autoEvaluated;
      var hasManual := exists e :: e in evaluations.value && !e.autoEvaluated;
      if hasAI && hasManual then Mixed
      else if hasAI then AI
      else Manual
  }

  /** Results without evaluations, or whose evaluations are all unmarked, are labelled manual. */
  lemma UnmarkedIsManual(evaluations: Option<seq<Evaluation>>)
    requires evaluations.Some? ==> forall e :: e in evaluations.value ==> !e.autoEvaluated
    ensures GetEvaluationType(evaluations) == Manual
  {
  }
}
