/**
 * `SBERTEvaluator.convertSimilarityToMarks` and the records it produces: the
 * similarity bands with their classification, letter grade and share of the
 * marks, a small random jitter, clamping to `[0, maxMarks]`, and rounding to
 * one decimal. JavaScript numbers are modelled as exact reals.
 */
module Scoring {
  import opened Wrappers

  /** The five similarity cut-offs; `fail` is kept but never consulted. */
  datatype Thresholds = Thresholds(excellent: real, good: real, average: real, poor: real, fail: real)

  const DefaultThresholds: Thresholds := Thresholds(0.85, 0.75, 0.60, 0.45, 0.00)

  /** The cut-offs are decreasing, as the defaults are; nothing enforces it. */
  predicate Ordered(t: Thresholds) {
    t.excellent >= t.good >= t.average >= t.poor
  }

  datatype Classification =
    | Excellent | Good | Average | Poor | Inadequate
    | NoAnswer | EvaluationError | BatchError | ManualReviewRequired

  datatype Grade = APlus | A | BPlus | B | C | D | F

  /** The `error` field of a result; `None` on a successful evaluation.
      `ManualFallback` marks the entries the application makes up when the
      evaluator cannot be reached. */
  datatype ErrorKind = MissingAnswerData | ModelNotLoaded | EmbeddingFailed | BatchProcessingFailed | ManualFallback

  /** The question and the two answers a successful evaluation echoes back. */
  datatype Echo = Echo(question: string, studentAnswer: string, modelAnswer: string)

  /** One evaluation, as `evaluateAnswerPair` and `evaluateAnswersBatch` return it. */
  datatype EvalResult = EvalResult(
    similarity: real,
    percentage: int,
    classification: Classification,
    grade: Grade,
    marks: real,
    maxMarks: real,
    error: Option<ErrorKind>,
    echo: Option<Echo>)

  /** A similarity band: its classification, grade and share of the marks. */
  datatype Band = Band(classification: Classification, grade: Grade, multiplier: real)

  /** The first band, from the top, whose cut-off the similarity reaches. */
  function BandFor(t: Thresholds, similarity: real): (b: Band)
    ensures b.classification == Excellent <==> similarity >= t.excellent
    ensures b.classification == Good <==> t.good <= similarity < t.excellent
    ensures b.classification == Average <==> t.average <= similarity < t.good && similarity < t.excellent
    ensures b.classification == Poor <==> t.poor <= similarity < t.average && similarity < t.good && similarity < t.excellent
    ensures b.classification == Inadequate <==> similarity < t.poor && similarity < t.average && similarity < t.good && similarity < t.excellent
    ensures b.classification == Excellent ==> b.grade == APlus && b.multiplier == 0.95
    ensures b.classification == Good ==> b.grade == A && b.multiplier == 0.82
    ensures b.classification == Average ==> b.grade == B && b.multiplier == 0.67
    ensures b.classification == Poor ==> b.grade == C && b.multiplier == 0.52
    ensures b.classification == Inadequate ==> b.grade == F && b.multiplier == 0.25
  {
    if similarity >= t.excellent then Band(Excellent, APlus, 0.95)
    else if similarity >= t.good then Band(Good, A, 0.82)
    else if similarity >= t.average then Band(Average, B, 0.67)
    else if similarity >= t.poor then Band(Poor, C, 0.52)
    else Band(Inadequate, F, 0.25)
  }

  /** Position of a graded classification, from `Inadequate` up to `Excellent`. */
  function Rank(c: Classification): nat {
    match c
    case Excellent => 4
    case Good => 3
    case Average => 2
    case Poor => 1
    case _ => 0
  }

  /** `Math.round`: halves go up, towards positive infinity. */
  function RoundHalfUp(x: real): (r: int)
    ensures x - 0.5 < r as real <= x + 0.5
  {
    (x + 0.5).Floor
  }

  /** `Math.round(x * 10) / 10`. */
  function RoundTenth(x: real): (r: real)
    ensures x - 0.05 < r <= x + 0.05
    ensures IsTenths(r)
  {
    var n := RoundHalfUp(x * 10.0);
    assert (n as real / 10.0) * 10.0 == n as real;
    n as real / 10.0
  }

  /** A count of tenths, such as any whole number of marks. */
  predicate IsTenths(m: real) {
    (m * 10.0).Floor as real == m * 10.0
  }

  function Min(a: real, b: real): real {
    if a <= b then a else b
  }

  function Max(a: real, b: real): real {
    if a >= b then a else b
  }

  /** The marks before rounding: the band's share plus a jitter of up to
      2.5% of `maxMarks` either way, clamped to `[0, maxMarks]`. */
  function RawMarks(multiplier: real, maxMarks: real, draw: real): real {
    var base := maxMarks * multiplier;
    var variation := maxMarks * 0.05;
    Max(0.0, Min(maxMarks, base + (draw - 0.5) * variation))
  }

  /** `convertSimilarityToMarks(similarity, maxMarks)`; `draw` is the value of
      `Math.random()`. */
  function ConvertSimilarityToMarks(t: Thresholds, similarity: real, maxMarks: real, draw: real): (r: EvalResult)
    requires 0.0 <= draw < 1.0
    ensures r.similarity == similarity && r.maxMarks == maxMarks
    ensures r.error == None && r.echo == None
    ensures r.classification == BandFor(t, similarity).classification
    ensures r.grade == BandFor(t, similarity).grade
    ensures r.marks == RoundTenth(RawMarks(BandFor(t, similarity).multiplier, maxMarks, draw))
    ensures Rank(r.classification) == 4 <==> r.grade == APlus
    ensures similarity * 100.0 - 0.5 < r.percentage as real <= similarity * 100.0 + 0.5
  {
    var band := BandFor(t, similarity);
    EvalResult(similarity, RoundHalfUp(similarity * 100.0), band.classification, band.grade,
               RoundTenth(RawMarks(band.multiplier, maxMarks, draw)), maxMarks, None, None)
  }

  /** Rounding never goes below zero for a non-negative value. */
  lemma RoundTenthNonNegative(x: real)
    requires x >= 0.0
    ensures RoundTenth(x) >= 0.0
  {
    assert RoundHalfUp(x * 10.0) >= 0;
  }

  /** Rounding a value no larger than a count of tenths stays no larger. */
  lemma RoundTenthAtMost(x: real, m: real)
    requires x <= m && IsTenths(m)
    ensures RoundTenth(x) <= m
  {
    var n := (m * 10.0).Floor;
    assert x * 10.0 <= m * 10.0;
    assert RoundHalfUp(x * 10.0) <= n;
  }

  /** The awarded marks are never negative. */
  lemma MarksNonNegative(t: Thresholds, similarity: real, maxMarks: real, draw: real)
    requires 0.0 <= draw < 1.0
    ensures ConvertSimilarityToMarks(t, similarity, maxMarks, draw).marks >= 0.0
  {
    RoundTenthNonNegative(RawMarks(BandFor(t, similarity).multiplier, maxMarks, draw));
  }

  /** The awarded marks never exceed `maxMarks` when that is a count of tenths. */
  lemma MarksAtMostMax(t: Thresholds, similarity: real, maxMarks: real, draw: real)
    requires 0.0 <= draw < 1.0 && maxMarks >= 0.0 && IsTenths(maxMarks)
    ensures ConvertSimilarityToMarks(t, similarity, maxMarks, draw).marks <= maxMarks
  {
    RoundTenthAtMost(RawMarks(BandFor(t, similarity).multiplier, maxMarks, draw), maxMarks);
  }

  /** Before rounding, the jitter moves the marks at most 2.5% of `maxMarks` from the band's share. */
  lemma RawMarksNearBase(multiplier: real, maxMarks: real, draw: real)
    requires 0.0 <= draw < 1.0 && maxMarks >= 0.0 && 0.0 <= multiplier <= 1.0
    ensures var raw := RawMarks(multiplier, maxMarks, draw);
      -maxMarks * 0.025 <= raw - maxMarks * multiplier <= maxMarks * 0.025
  {
    var base := maxMarks * multiplier;
    var variation := maxMarks * 0.05;
    var jitter := (draw - 0.5) * variation;
    JitterBound(draw - 0.5, variation);
    assert 0.5 * variation == maxMarks * 0.025;
    assert 0.0 <= base <= maxMarks by {
      assert maxMarks * multiplier <= maxMarks * 1.0;
    }
    var raw := RawMarks(multiplier, maxMarks, draw);
    if base + jitter > maxMarks {
      assert raw == maxMarks;
    } else if base + jitter < 0.0 {
      assert raw == 0.0;
    } else {
      assert raw == base + jitter;
    }
  }

  lemma JitterBound(d: real, v: real)
    requires -0.5 <= d <= 0.5 && v >= 0.0
    ensures -0.5 * v <= d * v <= 0.5 * v
  {
  }

  /** The awarded marks lie within 2.5% of `maxMarks`, plus the rounding, of the band's share. */
  lemma MarksNearBand(t: Thresholds, similarity: real, maxMarks: real, draw: real)
    requires 0.0 <= draw < 1.0 && maxMarks >= 0.0
    ensures var r := ConvertSimilarityToMarks(t, similarity, maxMarks, draw);
      var share := maxMarks * BandFor(t, similarity).multiplier;
      share - maxMarks * 0.025 - 0.05 <= r.marks <= share + maxMarks * 0.025 + 0.05
  {
    RawMarksNearBase(BandFor(t, similarity).multiplier, maxMarks, draw);
  }

  /** A non-positive `maxMarks` is clamped to zero marks. */
  lemma NonPositiveMaxGivesZero(t: Thresholds, similarity: real, maxMarks: real, draw: real)
    requires 0.0 <= draw < 1.0 && maxMarks <= 0.0
    ensures ConvertSimilarityToMarks(t, similarity, maxMarks, draw).marks == 0.0
  {
    assert RawMarks(BandFor(t, similarity).multiplier, maxMarks, draw) == 0.0;
    assert RoundHalfUp(0.0) == 0;
  }

  /** A higher similarity never lands in a lower band, whatever the cut-offs. */
  lemma BandMonotone(t: Thresholds, s1: real, s2: real)
    requires s1 <= s2
    ensures Rank(BandFor(t, s1).classification) <= Rank(BandFor(t, s2).classification)
  {
  }

  /** The default cut-offs are ordered, and their boundaries fall where `convertSimilarityToMarks` puts them. */
  lemma DefaultBands()
    ensures Ordered(DefaultThresholds)
    ensures BandFor(DefaultThresholds, 0.85).classification == Excellent
    ensures BandFor(DefaultThresholds, 0.8499).classification == Good
    ensures BandFor(DefaultThresholds, 0.60).classification == Average
    ensures BandFor(DefaultThresholds, 0.45).classification == Poor
    ensures BandFor(DefaultThresholds, 0.4499).classification == Inadequate
  {
  }
}
