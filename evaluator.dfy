/**
 * `SBERTEvaluator`: the object that holds the sentence-encoder model and the
 * similarity cut-offs, and evaluates a student's answer against a model answer
 * one pair at a time or in batches of four.
 *
 * The encoder itself (loading the library, embedding two texts and taking
 * their cosine similarity) is outside the model: loading is described by a
 * `Library` value, and embedding plus cosine similarity by a `Similarity`
 * function that receives the two preprocessed texts and yields the similarity,
 * or `None` when embedding throws.
 */
module Evaluator {
  import opened Wrappers
  import opened Scoring
  import Normalizer

  /** The loaded Universal Sentence Encoder. */
  datatype ModelHandle = UniversalSentenceEncoder

  /** What `use.load()` does: the global `use` is missing, loading rejects, or it yields a model. */
  datatype Library = LibraryMissing | LoadFails | Loads(handle: ModelHandle)

  /** Embedding of the two preprocessed texts followed by cosine similarity. */
  type Similarity = (string, string) -> Option<real>

  /** One element of the array given to `evaluateAnswersBatch`; `None` fields are absent keys. */
  datatype AnswerPair = AnswerPair(
    studentAnswer: Option<string>,
    modelAnswer: Option<string>,
    maxMarks: Option<real>,
    question: Option<string>)

  /** The argument of `updateThresholds`; `None` fields are keys the object does not have. */
  datatype ThresholdPatch = ThresholdPatch(
    excellent: Option<real>, good: Option<real>, average: Option<real>, poor: Option<real>, fail: Option<real>)

  /** What `getStatus` reports. */
  datatype Status = Status(isModelLoaded: bool, model: Option<string>, thresholds: Thresholds, memoryUsage: string)

  /** JavaScript falsiness of an optional string: absent or empty. */
  predicate Falsy(s: Option<string>) {
    s.None? || s.value == ""
  }

  /** `{...t, ...p}`: every key present in the patch overrides the cut-off. */
  function Merge(t: Thresholds, p: ThresholdPatch): (r: Thresholds)
    ensures p.excellent.Some? ==> r.excellent == p.excellent.value
    ensures p.excellent.None? ==> r.excellent == t.excellent
    ensures p.good.Some? ==> r.good == p.good.value
    ensures p.good.None? ==> r.good == t.good
    ensures p.average.Some? ==> r.average == p.average.value
    ensures p.average.None? ==> r.average == t.average
    ensures p.poor.Some? ==> r.poor == p.poor.value
    ensures p.poor.None? ==> r.poor == t.poor
    ensures p.fail.Some? ==> r.fail == p.fail.value
    ensures p.fail.None? ==> r.fail == t.fail
  {
    Thresholds(p.excellent.GetOr(t.excellent), p.good.GetOr(t.good), p.average.GetOr(t.average),
               p.poor.GetOr(t.poor), p.fail.GetOr(t.fail))
  }

  /** An empty patch changes nothing. */
  lemma MergeEmpty(t: Thresholds)
    ensures Merge(t, ThresholdPatch(None, None, None, None, None)) == t
  {
  }

  /** Applying the same patch twice is applying it once. */
  lemma MergeIdempotent(t: Thresholds, p: ThresholdPatch)
    ensures Merge(Merge(t, p), p) == Merge(t, p)
  {
  }

  /** A later patch wins over an earlier one on every key it has. */
  lemma MergeLaterWins(t: Thresholds, p: ThresholdPatch, q: ThresholdPatch)
    requires q.excellent.Some? && q.good.Some? && q.average.Some? && q.poor.Some? && q.fail.Some?
    ensures Merge(Merge(t, p), q) == Merge(t, q)
  {
  }

  /** The `maxMarks || 10` of the batch error path: absent or zero becomes ten. */
  function OrTen(m: Option<real>): (r: real)
    ensures r != 0.0
    ensures m.None? || m.value == 0.0 ==> r == 10.0
    ensures m.Some? && m.value != 0.0 ==> r == m.value
  {
    if m.None? || m.value == 0.0 then 10.0 else m.value
  }

  /** A result that carries no marks, with the given classification and error. */
  function Failed(c: Classification, maxMarks: real, e: ErrorKind): (r: EvalResult)
    ensures r.classification == c && r.grade == F && r.error == Some(e) && r.echo == None
    ensures r.similarity == 0.0 && r.percentage == 0 && r.marks == 0.0 && r.maxMarks == maxMarks
  {
    EvalResult(0.0, 0, c, F, 0.0, maxMarks, Some(e), None)
  }

  /** The entry the batch error path fills in for one pair. */
  function BatchErrorFor(p: Option<AnswerPair>): (r: EvalResult)
    ensures r.classification == BatchError && r.grade == F && r.error == Some(BatchProcessingFailed)
    ensures r.similarity == 0.0 && r.percentage == 0 && r.marks == 0.0 && r.maxMarks != 0.0
    ensures r.maxMarks == if p.Some? then OrTen(p.value.maxMarks) else 10.0
  {
    Failed(BatchError, if p.Some? then OrTen(p.value.maxMarks) else 10.0, BatchProcessingFailed)
  }

  /** Index of the first `null` element, or the length when there is none. */
  function FirstNull(ps: seq<Option<AnswerPair>>): (n: nat)
    ensures n <= |ps|
    ensures forall k :: 0 <= k < n ==> ps[k].Some?
    ensures n < |ps| ==> ps[n].None?
  {
    if ps == [] || ps[0].None? then 0 else 1 + FirstNull(ps[1..])
  }

  /** Start of the batch of four whose `Promise.all` rejects, or the length when none does. */
  function FailStart(ps: seq<Option<AnswerPair>>): (n: nat)
    ensures n <= |ps|
    ensures n == |ps| <==> forall k :: 0 <= k < |ps| ==> ps[k].Some?
    ensures n < |ps| ==> n % 4 == 0 && n <= FirstNull(ps) < n + 4
    ensures forall k :: 0 <= k < n ==> ps[k].Some?
  {
    var f := FirstNull(ps);
    if f == |ps| then |ps| else f - f % 4
  }

  /** Where the batch loop stops at a batch starting at `i`, that batch starts the failure. */
  lemma FailStartAt(ps: seq<Option<AnswerPair>>, i: nat)
    requires i % 4 == 0 && i < |ps|
    requires forall k :: 0 <= k < i ==> ps[k].Some?
    requires exists k :: i <= k < i + 4 && k < |ps| && ps[k].None?
    ensures FailStart(ps) == i
  {
    var f := FirstNull(ps);
    var k :| i <= k < i + 4 && k < |ps| && ps[k].None?;
    assert i <= f <= k;
    assert f - f % 4 == i by {
      assert f == i + (f - i) && 0 <= f - i < 4;
    }
  }

  /**
   * The `catch` block of `evaluateAnswersBatch` as written: from the first
   * pair without a result onward it reads `answerPairs[i].maxMarks`, which
   * throws a `TypeError` (`Err`) on a `null` element.
   */
  function CatchFillAsWritten(ps: seq<Option<AnswerPair>>, from: nat): (r: Result<seq<EvalResult>, string>)
    requires from <= |ps|
    decreases |ps| - from
  {
    if from == |ps| then Ok([])
    else if ps[from].None? then Err("TypeError")
    else match CatchFillAsWritten(ps, from + 1)
      case Ok(rest) => Ok([BatchErrorFor(ps[from])] + rest)
      case Err(e) => Err(e)
  }

  lemma {:induction false} CatchFillAsWrittenThrowsFrom(ps: seq<Option<AnswerPair>>, from: nat, k: nat)
    requires from <= k < |ps| && ps[k].None?
    ensures CatchFillAsWritten(ps, from).Err?
    decreases k - from
  {
    if ps[from].Some? {
      CatchFillAsWrittenThrowsFrom(ps, from + 1, k);
    }
  }

  /** Whenever the batch loop fails, the `catch` block as written throws in turn,
      so no `Batch Error` entry is ever returned. */
  lemma CatchFillAsWrittenAlwaysThrows(ps: seq<Option<AnswerPair>>)
    requires FailStart(ps) < |ps|
    ensures CatchFillAsWritten(ps, FailStart(ps)).Err?
  {
    CatchFillAsWrittenThrowsFrom(ps, FailStart(ps), FirstNull(ps));
  }

  /** The smallest input that shows it: a single `null` pair. */
  lemma NullPairRejectsAsWritten()
    ensures FailStart([None]) == 0
    ensures CatchFillAsWritten([None], 0) == Err("TypeError")
    ensures BatchErrorFor(None).maxMarks == 10.0
  {
  }

  class SBERTEvaluator {
    var model: Option<ModelHandle>
    var isModelLoaded: bool
    var loadingProgress: int
    var similarityThresholds: Thresholds

    /** The flag and the model are set and cleared together. */
    ghost predicate Valid()
      reads this
    {
      isModelLoaded <==> model.Some?
    }

    /** The guard of `generateEmbeddings`. */
    predicate Loaded()
      reads this
    {
      isModelLoaded && model.Some?
    }

    constructor()
      ensures model == None && !isModelLoaded && loadingProgress == 0
      ensures similarityThresholds == DefaultThresholds
      ensures Valid()
    {
      model := None;
      isModelLoaded := false;
      loadingProgress := 0;
      similarityThresholds := DefaultThresholds;
    }

    /** `loadModel`: a loaded evaluator returns at once; otherwise the library decides. */
    method LoadModel(library: Library) returns (ok: bool)
      modifies this
      ensures old(Loaded()) ==> ok && unchanged(this)
      ensures !old(Loaded()) && library.Loads? ==> ok && model == Some(library.handle) && isModelLoaded
      ensures !old(Loaded()) && !library.Loads? ==> !ok && model == old(model) && !isModelLoaded
      ensures similarityThresholds == old(similarityThresholds) && loadingProgress == old(loadingProgress)
      ensures old(Valid()) ==> Valid() && (ok <==> Loaded())
    {
      if isModelLoaded && model.Some? {
        return true;
      }
      match library
      case LibraryMissing =>
        isModelLoaded := false;
        ok := false;
      case LoadFails =>
        isModelLoaded := false;
        ok := false;
      case Loads(handle) =>
        model := Some(handle);
        isModelLoaded := true;
        ok := true;
    }

    /**
     * `evaluateAnswerPair` on a pair that is not `null`. `draw` is the value
     * `convertSimilarityToMarks` takes from `Math.random()`.
     */
    function EvaluateAnswerPair(pair: AnswerPair, similarity: Similarity, draw: real): (r: EvalResult)
      requires 0.0 <= draw < 1.0
      reads this
      ensures r.maxMarks == pair.maxMarks.GetOr(10.0)
      ensures r.classification == NoAnswer <==> Falsy(pair.studentAnswer) || Falsy(pair.modelAnswer)
      ensures r.error.None? <==>
        && !Falsy(pair.studentAnswer) && !Falsy(pair.modelAnswer) && Loaded()
        && similarity(Normalizer.PreprocessText(pair.studentAnswer), Normalizer.PreprocessText(pair.modelAnswer)).Some?
      ensures Falsy(pair.studentAnswer) || Falsy(pair.modelAnswer) ==>
        r.error == Some(MissingAnswerData) && r.grade == F && r.marks == 0.0 && r.similarity == 0.0 && r.percentage == 0
      ensures !Falsy(pair.studentAnswer) && !Falsy(pair.modelAnswer) && !Loaded() ==> r.error == Some(ModelNotLoaded)
      ensures r.error.Some? && r.classification != NoAnswer ==>
        r.classification == EvaluationError && r.grade == F && r.marks == 0.0 && r.similarity == 0.0 && r.percentage == 0
      ensures r.error.None? ==> r.echo == Some(Echo(pair.question.GetOr(""), pair.studentAnswer.value, pair.modelAnswer.value))
      ensures r.marks >= 0.0
    {
      var maxMarks := pair.maxMarks.GetOr(10.0);
      if Falsy(pair.studentAnswer) || Falsy(pair.modelAnswer) then
        Failed(NoAnswer, maxMarks, MissingAnswerData)
      else if !Loaded() then
        Failed(EvaluationError, maxMarks, ModelNotLoaded)
      else
        var student := pair.studentAnswer.value;
        var reference := pair.modelAnswer.value;
        match similarity(Normalizer.PreprocessText(Some(student)), Normalizer.PreprocessText(Some(reference)))
        case None => Failed(EvaluationError, maxMarks, EmbeddingFailed)
        case Some(s) =>
          MarksNonNegative(similarityThresholds, s, maxMarks, draw);
          ConvertSimilarityToMarks(similarityThresholds, s, maxMarks, draw)
            .(echo := Some(Echo(pair.question.GetOr(""), student, reference)))
    }

    /** A successful evaluation is `convertSimilarityToMarks` of the similarity
        of the two preprocessed answers, with the question and answers echoed. */
    lemma EvaluateAnswerPairSucceeds(pair: AnswerPair, similarity: Similarity, draw: real)
      requires 0.0 <= draw < 1.0
      ensures var r := EvaluateAnswerPair(pair, similarity, draw);
        r.error.None? ==>
          r.(echo := None) == ConvertSimilarityToMarks(similarityThresholds,
            similarity(Normalizer.PreprocessText(pair.studentAnswer), Normalizer.PreprocessText(pair.modelAnswer)).value,
            pair.maxMarks.GetOr(10.0), draw)
    {
    }

    /** Every pair in `ps[lo..hi]` is present. */
    static predicate NoNullIn(ps: seq<Option<AnswerPair>>, lo: nat, hi: nat)
      requires lo <= hi <= |ps|
    {
      forall k :: lo <= k < hi ==> ps[k].Some?
    }

    /** The first `n` results are the evaluations of the first `n` pairs. */
    ghost predicate EvaluatedUpTo(results: seq<EvalResult>, ps: seq<Option<AnswerPair>>, similarity: Similarity, draws: seq<real>, n: nat)
      requires n <= |results| && n <= |ps| && n <= |draws|
      requires forall k :: 0 <= k < |draws| ==> 0.0 <= draws[k] < 1.0
      reads this
    {
      forall k :: 0 <= k < n ==> ps[k].Some? && results[k] == EvaluateAnswerPair(ps[k].value, similarity, draws[k])
    }

    /** One batch of `evaluateAnswersBatch`: the pairs `ps[lo..hi]`, none of them `null`, mapped through `evaluateAnswerPair`. */
    function EvaluateRange(ps: seq<Option<AnswerPair>>, lo: nat, hi: nat, similarity: Similarity, draws: seq<real>): (rs: seq<EvalResult>)
      requires lo <= hi <= |ps| && |draws| == |ps| && NoNullIn(ps, lo, hi)
      requires forall k :: 0 <= k < |draws| ==> 0.0 <= draws[k] < 1.0
      reads this
      ensures |rs| == hi - lo
      ensures forall k :: 0 <= k < hi - lo ==> rs[k] == EvaluateAnswerPair(ps[lo + k].value, similarity, draws[lo + k])
    {
      seq(hi - lo, k requires 0 <= k < hi - lo reads this => EvaluateAnswerPair(ps[lo + k].value, similarity, draws[lo + k]))
    }

    /** Appending a batch's evaluations extends the evaluated prefix. */
    lemma EvaluatedExtend(results: seq<EvalResult>, ps: seq<Option<AnswerPair>>, similarity: Similarity, draws: seq<real>, end: nat)
      requires |results| <= end <= |ps| && |draws| == |ps| && NoNullIn(ps, |results|, end)
      requires forall k :: 0 <= k < |draws| ==> 0.0 <= draws[k] < 1.0
      requires EvaluatedUpTo(results, ps, similarity, draws, |results|)
      ensures var rs := results + EvaluateRange(ps, |results|, end, similarity, draws);
        |rs| == end && EvaluatedUpTo(rs, ps, similarity, draws, end)
    {
      var rs := results + EvaluateRange(ps, |results|, end, similarity, draws);
      forall k | 0 <= k < end
        ensures ps[k].Some? && rs[k] == EvaluateAnswerPair(ps[k].value, similarity, draws[k])
      {
        if k >= |results| {
          assert rs[k] == EvaluateRange(ps, |results|, end, similarity, draws)[k - |results|];
        }
      }
    }

    /**
     * `evaluateAnswersBatch`, with the `catch` block filling in `Batch Error`
     * entries for the remaining pairs, `null` ones included (ten marks each).
     * `draws[i]` is the random draw of pair `i`.
     */
    method EvaluateAnswersBatch(pairs: Option<seq<Option<AnswerPair>>>, similarity: Similarity, draws: seq<real>)
      returns (results: seq<EvalResult>)
      requires pairs.Some? ==> |draws| == |pairs.value|
      requires forall k :: 0 <= k < |draws| ==> 0.0 <= draws[k] < 1.0
      ensures pairs.None? ==> results == []
      ensures pairs.Some? ==> |results| == |pairs.value|
      ensures pairs.Some? ==> forall i :: 0 <= i < FailStart(pairs.value) ==>
        results[i] == EvaluateAnswerPair(pairs.value[i].value, similarity, draws[i])
      ensures pairs.Some? ==> forall i :: FailStart(pairs.value) <= i < |pairs.value| ==>
        results[i] == BatchErrorFor(pairs.value[i])
    {
      if pairs.None? || |pairs.value| == 0 {
        return [];
      }
      var ps := pairs.value;
      results := [];
      var failed := false;
      var i := 0;
      while i < |ps| && !failed
        invariant i % 4 == 0 && |results| <= |ps|
        invariant EvaluatedUpTo(results, ps, similarity, draws, |results|)
        invariant !failed ==> |results| == (if i < |ps| then i else |ps|)
        invariant failed ==> i < |ps| && |results| == i == FailStart(ps)
        decreases |ps| - i, if failed then 0 else 1
      {
        var end := if i + 4 < |ps| then i + 4 else |ps|;
        if !NoNullIn(ps, i, end) {
          FailStartAt(ps, i);
          failed := true;
        } else {
          EvaluatedExtend(results, ps, similarity, draws, end);
          results := results + EvaluateRange(ps, i, end, similarity, draws);
          i := i + 4;
        }
      }
      if !failed {
        assert FailStart(ps) == |ps|;
        return;
      }
      var j := |results|;
      while j < |ps|
        invariant FailStart(ps) <= j <= |ps| && |results| == j
        invariant EvaluatedUpTo(results, ps, similarity, draws, FailStart(ps))
        invariant forall k :: FailStart(ps) <= k < j ==> results[k] == BatchErrorFor(ps[k])
      {
        results := results + [BatchErrorFor(ps[j])];
        j := j + 1;
      }
    }

    /** `updateThresholds`: a missing or non-object argument is ignored. */
    method UpdateThresholds(patch: Option<ThresholdPatch>)
      modifies this
      ensures patch.None? ==> similarityThresholds == old(similarityThresholds)
      ensures patch.Some? ==> similarityThresholds == Merge(old(similarityThresholds), patch.value)
      ensures model == old(model) && isModelLoaded == old(isModelLoaded) && loadingProgress == old(loadingProgress)
    {
      if patch.Some? {
        similarityThresholds := Merge(similarityThresholds, patch.value);
      }
    }

    /** `getStatus`. */
    function GetStatus(): (s: Status)
      reads this
      ensures s.isModelLoaded == isModelLoaded && s.thresholds == similarityThresholds
      ensures s.model == if model.Some? then Some("Universal Sentence Encoder") else None
      ensures s.memoryUsage == "Active" <==> model.Some?
    {
      Status(isModelLoaded, if model.Some? then Some("Universal Sentence Encoder") else None,
             similarityThresholds, if model.Some? then "Active" else "None")
    }

    /** `dispose`: the model is dropped and the evaluator reports itself unloaded. */
    method Dispose()
      modifies this
      ensures model == None && !isModelLoaded && Valid()
      ensures similarityThresholds == old(similarityThresholds) && loadingProgress == old(loadingProgress)
      ensures GetStatus() == Status(false, None, old(similarityThresholds), "None")
    {
      if model.Some? {
        model := None;
      }
      isModelLoaded := false;
    }
  }

  /** Marks never exceed `maxMarks` when that is a non-negative count of tenths. */
  lemma EvaluationWithinMax(e: SBERTEvaluator, pair: AnswerPair, similarity: Similarity, draw: real)
    requires 0.0 <= draw < 1.0
    requires pair.maxMarks.GetOr(10.0) >= 0.0 && IsTenths(pair.maxMarks.GetOr(10.0))
    ensures e.EvaluateAnswerPair(pair, similarity, draw).marks <= pair.maxMarks.GetOr(10.0)
  {
    var maxMarks := pair.maxMarks.GetOr(10.0);
    if !Falsy(pair.studentAnswer) && !Falsy(pair.modelAnswer) && e.Loaded() {
      var sim := similarity(Normalizer.PreprocessText(Some(pair.studentAnswer.value)),
                            Normalizer.PreprocessText(Some(pair.modelAnswer.value)));
      if sim.Some? {
        MarksAtMostMax(e.similarityThresholds, sim.value, maxMarks, draw);
      }
    }
  }

  /** Two answers with the same preprocessed text get the same similarity,
      classification and marks: only the canonical form reaches the encoder. */
  lemma EvaluationSeesOnlyPreprocessedText(e: SBERTEvaluator, p1: AnswerPair, p2: AnswerPair, similarity: Similarity, draw: real)
    requires 0.0 <= draw < 1.0
    requires !Falsy(p1.studentAnswer) && !Falsy(p2.studentAnswer)
    requires p1.modelAnswer == p2.modelAnswer && p1.maxMarks == p2.maxMarks
    requires Normalizer.PreprocessText(p1.studentAnswer) == Normalizer.PreprocessText(p2.studentAnswer)
    ensures var r1 := e.EvaluateAnswerPair(p1, similarity, draw);
      var r2 := e.EvaluateAnswerPair(p2, similarity, draw);
      r1.similarity == r2.similarity && r1.classification == r2.classification
      && r1.grade == r2.grade && r1.marks == r2.marks && r1.error == r2.error
  {
    var r1 := e.EvaluateAnswerPair(p1, similarity, draw);
    var r2 := e.EvaluateAnswerPair(p2, similarity, draw);
    if !Falsy(p1.modelAnswer) && e.Loaded() {
      var sim := similarity(Normalizer.PreprocessText(p1.studentAnswer), Normalizer.PreprocessText(p1.modelAnswer));
      if sim.Some? {
        e.EvaluateAnswerPairSucceeds(p1, similarity, draw);
        e.EvaluateAnswerPairSucceeds(p2, similarity, draw);
        assert r1.(echo := None) == r2.(echo := None);
      }
    }
  }
}
