/**
 * Questions as the exam application reads them from a stream's question
 * bank: filtering by type, the eligibility rule that decides which subjects
 * are offered, and the parts of `startExam` that do not touch the exam
 * state (the bank lookup, the configured counts, and `slice`).
 */
module QuestionBank {
  import opened Wrappers

  datatype QuestionType = MCQ | Descriptive | OtherType(name: string)

  /** One bank entry. `answer` is the MCQ key or the model answer, and may be absent. */
  datatype Question = Question(qtype: QuestionType, text: string, options: seq<string>, answer: Option<string>)

  /** `questions.filter(q => q.type === t)`. */
  function OfType(qs: seq<Question>, t: QuestionType): seq<Question>
    decreases |qs|
  {
    if qs == [] then []
    else OfType(qs[..|qs| - 1], t) + (if qs[|qs| - 1].qtype == t then [qs[|qs| - 1]] else [])
  }

  /** The number of questions of type `t`. */
  function CountOf(qs: seq<Question>, t: QuestionType): nat {
    |OfType(qs, t)|
  }

  /** The filter keeps exactly the questions of type `t`, each as often as it occurs. */
  lemma {:induction false} OfTypeSpec(qs: seq<Question>, t: QuestionType)
    ensures |OfType(qs, t)| <= |qs|
    ensures forall q :: q in OfType(qs, t) ==> q.qtype == t
    ensures forall q: Question :: q.qtype == t ==> multiset(OfType(qs, t))[q] == multiset(qs)[q]
    ensures forall q: Question :: q.qtype != t ==> multiset(OfType(qs, t))[q] == 0
    decreases |qs|
  {
    if qs != [] {
      var init := qs[..|qs| - 1];
      OfTypeSpec(init, t);
      assert qs == init + [qs[|qs| - 1]];
    }
  }

  /** Filtering distributes over concatenation. */
  lemma {:induction false} OfTypeConcat(a: seq<Question>, b: seq<Question>, t: QuestionType)
    ensures OfType(a + b, t) == OfType(a, t) + OfType(b, t)
    decreases |b|
  {
    if b != [] {
      var init := b[..|b| - 1];
      assert (a + b)[..|a + b| - 1] == a + init;
      OfTypeConcat(a, init, t);
    } else {
      assert a + b == a;
    }
  }

  /** The count of a type depends only on the multiset of questions. */
  lemma CountOfMultiset(a: seq<Question>, b: seq<Question>, t: QuestionType)
    requires multiset(a) == multiset(b)
    ensures CountOf(a, t) == CountOf(b, t)
  {
    OfTypeSpec(a, t);
    OfTypeSpec(b, t);
    assert multiset(OfType(a, t)) == multiset(OfType(b, t)) by {
      forall q ensures multiset(OfType(a, t))[q] == multiset(OfType(b, t))[q] {
      }
    }
    assert |multiset(OfType(a, t))| == |OfType(a, t)|;
    assert |multiset(OfType(b, t))| == |OfType(b, t)|;
  }

  /** A sequence whose questions all have type `t` counts each of them for `t` and none for another type. */
  lemma {:induction false} CountOfUniform(s: seq<Question>, t: QuestionType, u: QuestionType)
    requires forall q :: q in s ==> q.qtype == t
    ensures CountOf(s, t) == |s|
    ensures u != t ==> CountOf(s, u) == 0
    decreases |s|
  {
    if s != [] {
      var init := s[..|s| - 1];
      assert forall q :: q in init ==> q in s;
      CountOfUniform(init, t, u);
    }
  }

  /** The MCQ and the descriptive questions of a bank are disjoint parts of it. */
  lemma MCQAndDescriptiveWithinBank(qs: seq<Question>)
    ensures multiset(OfType(qs, MCQ)) + multiset(OfType(qs, Descriptive)) <= multiset(qs)
    ensures CountOf(qs, MCQ) + CountOf(qs, Descriptive) <= |qs|
  {
    OfTypeSpec(qs, MCQ);
    OfTypeSpec(qs, Descriptive);
    var both := multiset(OfType(qs, MCQ)) + multiset(OfType(qs, Descriptive));
    forall q ensures both[q] <= multiset(qs)[q] {
    }
    assert |both| == CountOf(qs, MCQ) + CountOf(qs, Descriptive);
    MultisetSizeMonotone(both, multiset(qs));
  }

  lemma MultisetSizeMonotone<T>(a: multiset<T>, b: multiset<T>)
    requires a <= b
    ensures |a| <= |b|
  {
    assert b == a + (b - a);
  }

  /** The rule of `showStreamSubjects`: at least ten questions, of which at
      least eight are MCQ and at least two descriptive. */
  predicate Eligible(qs: seq<Question>) {
    |qs| >= 10 && CountOf(qs, MCQ) >= 8 && CountOf(qs, Descriptive) >= 2
  }

  /** Subject name to its questions. */
  type Subjects = map<string, seq<Question>>

  /** Stream name to its subjects; absent until the banks are loaded. */
  type Bank = Option<map<string, Subjects>>

  /** `showStreamSubjects(stream)`: `None` when the bank or the stream is
      missing, otherwise the names of the subjects offered. */
  function ListedSubjects(bank: Bank, stream: string): (r: Option<set<string>>)
    ensures r.None? <==> bank.None? || stream !in bank.value
    ensures r.Some? ==> forall name :: name in r.value <==> name in bank.value[stream] && Eligible(bank.value[stream][name])
  {
    if bank.None? || stream !in bank.value then None
    else Some(set name | name in bank.value[stream] && Eligible(bank.value[stream][name]))
  }

  /** The bank lookup `startExam` begins with. */
  function Lookup(bank: Bank, stream: string, subject: string): (r: Option<seq<Question>>)
    ensures r.Some? <==> bank.Some? && stream in bank.value && subject in bank.value[stream]
    ensures r.Some? ==> r.value == bank.value[stream][subject]
  {
    if bank.Some? && stream in bank.value && subject in bank.value[stream] then Some(bank.value[stream][subject])
    else None
  }

  /** The stored system configuration; each field may be missing. */
  datatype Config = Config(mcqCount: Option<int>, descriptiveCount: Option<int>, examDuration: Option<int>)

  /** `value || fallback` on a number that may be missing: zero counts as missing. */
  function OrDefault(value: Option<int>, fallback: int): (r: int)
    ensures value.None? || value == Some(0) ==> r == fallback
    ensures value.Some? && value.value != 0 ==> r == value.value
  {
    if value.None? || value.value == 0 then fallback else value.value
  }

  function McqCount(c: Config): int { OrDefault(c.mcqCount, 8) }
  function DescriptiveCount(c: Config): int { OrDefault(c.descriptiveCount, 2) }
  function ExamDuration(c: Config): int { OrDefault(c.examDuration, 1800) }

  /** The length of `s.slice(0, end)` for a sequence of length `len`: a
      negative `end` counts from the back, and both ends are clamped. */
  function SliceEnd(len: nat, end: int): (r: nat)
    ensures r <= len
    ensures 0 <= end <= len ==> r == end
    ensures end > len ==> r == len
    ensures end < 0 ==> r == if len + end < 0 then 0 else len + end
  {
    if end < 0 then (if len + end < 0 then 0 else len + end)
    else if end > len then len
    else end
  }

  /** The refusal of `startExam`: fewer MCQ or fewer descriptive questions than configured. */
  predicate Insufficient(qs: seq<Question>, c: Config) {
    CountOf(qs, MCQ) < McqCount(c) || CountOf(qs, Descriptive) < DescriptiveCount(c)
  }

  /** With the default configuration, every subject that is offered can be started. */
  lemma OfferedSubjectsStart(qs: seq<Question>)
    requires Eligible(qs)
    ensures !Insufficient(qs, Config(None, None, None))
  {
  }
}
