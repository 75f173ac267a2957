# Exam portal core in Dafny

This project models the core of a browser exam portal in Dafny.

Students sign in and pick a subject from the question bank of their
engineering stream. They then take an exam of shuffled multiple-choice (MCQ)
and descriptive questions. On submission, the MCQ answers are scored against
their keys. The descriptive answers go to a semantic evaluator. It compares
each answer with the model answer through sentence embeddings and turns the
similarity into a band, a grade and marks. Administrators can delete users
and results.

The model has two parts.

- **The evaluator shell (`SBERTEvaluator`, sbert-evaluator.js):**
  - the text normaliser `preprocessText` (modules `JsText` and `Normalizer`);
  - the band mapper `convertSimilarityToMarks` (module `Scoring`);
  - the per-pair and batch evaluators;
  - the loaded/disposed state and `updateThresholds` (module `Evaluator`, class `SBERTEvaluator`).

  The embedding model and the cosine similarity are one oracle. It is a
  function from the two preprocessed texts to a similarity, or to a failure.
- **The exam logic of app.js, without its HTML:**
  - `formatTime` and `shuffleArray` (module `Utilities`);
  - the built-in users, login and registration (module `Accounts`);
  - question filtering, subject eligibility and the configured counts (module `QuestionBank`);
  - the totals, percentage, grade ladder, time spent and `getEvaluationType` (module `Grading`);
  - the exam in progress, with `startExam`, navigation, `submitExam` and
    `evaluateDescriptiveAnswers` (module `Exam`, class `ExamSession`);
  - the stored user and result lists, with registration, `saveExamResult`,
    `deleteResult` and `deleteUser` (module `Records`, class `Store`).

Modelling choices:

- JavaScript numbers are exact reals or integers.
- `Math.round` rounds halves up.
- `%` keeps the sign of the dividend.
- `||` defaults treat 0 and the empty string as missing.
- `===` on ids tells the number `2` from the text `"2"`.
- Every call to `Math.random` is a parameter, a real in `[0, 1)`.
- The `async` batch is run one pair after another. This gives the same
  results in the same order as `Promise.all`.
- Objects keyed by question index hold their entries in ascending index
  order. This is the order `Object.values` returns them in. The model
  therefore keeps them as sequences in that order.

## Model

| member | source | states |
|---|---|---|
| JsText.ToLower | sbert-evaluator.js:49 | `toLowerCase` keeps the length and lowers each character; lowering A–Z leaves no upper-case letter |
| JsText.ToLowerHasNoUpper | sbert-evaluator.js:49 | the lowered text has no upper-case letter |
| JsText.TrimStart | sbert-evaluator.js:51 | removes exactly the leading whitespace, leaving a suffix that does not start with whitespace |
| JsText.TrimEnd | sbert-evaluator.js:51 | removes exactly the trailing whitespace, leaving a prefix that does not end in whitespace |
| JsText.Trim | app.js:320-321 | the trimmed text is a slice of the input with no whitespace at either end, and everything cut before and after it is whitespace |
| JsText.TrimFixesTrimmed | app.js:354-356 | trimming text without whitespace at its ends changes nothing |
| JsText.NatToString | app.js:74 | the decimal digits of a number: at least one digit, one digit below 10 and at most two below 100 |
| JsText.ParseNatToString | app.js:74 | reading the decimal digits back gives the number |
| JsText.PadStart | app.js:74 | `padStart(width, fill)`: fill characters in front of the text up to the width, and never shorter than the text |
| JsText.ParseNatPadStart | app.js:74 | padding with zeros keeps the value the digits denote |
| Normalizer.Collapse | sbert-evaluator.js:51 | `replace(/class+/g, rep)`: no longer than the input, empty only for empty input, and a run at the start becomes the replacement |
| Normalizer.Strip | sbert-evaluator.js:51 | the characters outside a class, in order: none of them is in the class |
| Normalizer.CollapseKeepsOthers | sbert-evaluator.js:51 | collapsing keeps every character outside the class, in order, and adds none: both texts strip to the same text |
| Normalizer.CollapseIsCollapsed | sbert-evaluator.js:75-76 | after collapsing, every class character is the replacement and no two replacements are adjacent |
| Normalizer.CollapseFixesCollapsed | sbert-evaluator.js:75-76 | collapsing an already collapsed text changes nothing |
| Normalizer.CollapseKeepsCollapsed | sbert-evaluator.js:75-76 | collapsing one class keeps a text collapsed for the other classes |
| Normalizer.ReplaceRemovesKey | sbert-evaluator.js:72 | after a global replace of a contraction, the contraction does not occur |
| Normalizer.ReplaceFixesKeyFree | sbert-evaluator.js:72 | a global replace changes nothing in text that does not contain the key |
| Normalizer.ContractionsFit | sbert-evaluator.js:53-69 | the fifteen table entries are lower-case words with an apostrophe, expanding to spaced lower-case words |
| Normalizer.ExpandFromIs | sbert-evaluator.js:71-73 | the replacement loop from entry `i` on is the table's expansion from entry `i` on |
| Normalizer.ExpandRemovesKeys | sbert-evaluator.js:71-73 | after the loop over the table, none of its contractions occurs, including ones an earlier replacement could create |
| Normalizer.ExpandFixesKeyFree | sbert-evaluator.js:71-73 | the loop changes nothing in text that contains no contraction |
| Normalizer.ExpandKeepsCollapsed | sbert-evaluator.js:71-73 | the expansions keep a single-spaced text single-spaced and a punctuation-collapsed text collapsed |
| Normalizer.ExpandKeepsNoUpper | sbert-evaluator.js:71-73 | the expansions introduce no upper-case letter |
| Normalizer.ExpandKeepsEnds | sbert-evaluator.js:71-73 | the expansions keep a trimmed text trimmed |
| Normalizer.Truncate | sbert-evaluator.js:78-80 | `substring(0, 1000)` when longer: a prefix of the text, exactly 1000 characters long for a longer text, and the text itself when short enough |
| Normalizer.PreprocessText | sbert-evaluator.js:44-47 | a missing or empty input gives `""`, and no output is longer than 1000 characters |
| Normalizer.CanonicalizeIsCanonical | sbert-evaluator.js:49-82 | the pipeline's output is in normal form: no upper case, single spaces, no leading space, collapsed punctuation, no contraction |
| Normalizer.PreprocessTextIsCanonical | sbert-evaluator.js:44-83 | every output is in normal form, and ends in a space only when the cut at 1000 characters produced it |
| Normalizer.CanonicalSpelledOut | sbert-evaluator.js:49-80 | in normal form: length at most 1000, no upper case, only `' '` as whitespace, no `!?;:`, no doubled space, `.` or `,`, no leading space |
| Normalizer.CollapsedNoDoubles | sbert-evaluator.js:75-76 | a collapsed text never has the replacement character twice in a row |
| Normalizer.CanonicalizeFixesNormalForm | sbert-evaluator.js:49-82 | the pipeline leaves a normal-form text without a trailing space unchanged |
| Normalizer.CanonicalizeDropsTrailingSpace | sbert-evaluator.js:51 | on a normal-form text ending in a space, the pipeline only trims that space |
| Normalizer.PreprocessFixesNormalForm | sbert-evaluator.js:44-83 | a normal-form text without a trailing space is a fixed point |
| Normalizer.PreprocessDropsTrailingSpace | sbert-evaluator.js:51 | a normal-form text ending in a space loses exactly that space |
| Normalizer.PreprocessTextIdempotent | sbert-evaluator.js:44-83 | preprocessing an output again changes nothing when it does not end in a space |
| Normalizer.PreprocessTextTrailingSpace | sbert-evaluator.js:51-80 | an output ending in a space is 1000 characters long, and a second pass removes only that space |
| Normalizer.PreprocessTextSettles | sbert-evaluator.js:44-83 | two passes always reach a fixed point |
| Scoring.BandFor | sbert-evaluator.js:134-154 | the first cut-off reached, from excellent down to poor, decides the band, else Inadequate; each band carries its grade and share: Excellent A+ 0.95, Good A 0.82, Average B 0.67, Poor C 0.52, Inadequate F 0.25 |
| Scoring.RoundHalfUp | sbert-evaluator.js:128 | `Math.round` is within half a unit of its argument, rounding halves up |
| Scoring.RoundTenth | sbert-evaluator.js:166 | rounding to one decimal gives a whole number of tenths and moves a value by at most 0.05 |
| Scoring.ConvertSimilarityToMarks | sbert-evaluator.js:127-169 | echoes similarity and maxMarks, takes the classification and the grade of the band, awards the band's share of maxMarks with the jitter, clamped and rounded to tenths, and a percentage that is the rounded similarity times 100 |
| Scoring.MarksNonNegative | sbert-evaluator.js:158-166 | the awarded marks are never negative |
| Scoring.MarksAtMostMax | sbert-evaluator.js:158-166 | the marks never exceed a maxMarks that is a whole number of tenths |
| Scoring.RawMarksNearBase | sbert-evaluator.js:156-159 | before rounding, the jitter keeps the marks within 2.5% of maxMarks of the band's share |
| Scoring.MarksNearBand | sbert-evaluator.js:156-166 | the awarded marks lie within 2.5% of maxMarks plus 0.05 of the band's share |
| Scoring.NonPositiveMaxGivesZero | sbert-evaluator.js:158-159 | a maxMarks of zero or less yields zero marks |
| Scoring.BandMonotone | sbert-evaluator.js:134-154 | a higher similarity never falls into a lower band |
| Scoring.DefaultBands | sbert-evaluator.js:7-13 | the default cut-offs 0.85/0.75/0.60/0.45 are ordered, and the band boundaries fall on them |
| Evaluator.Merge | sbert-evaluator.js:269-272 | the spread merge takes each supplied key from the patch and every other key from the current table |
| Evaluator.MergeEmpty | sbert-evaluator.js:269-272 | an empty patch changes nothing |
| Evaluator.MergeIdempotent | sbert-evaluator.js:269-272 | applying the same patch twice is applying it once |
| Evaluator.MergeLaterWins | sbert-evaluator.js:269-272 | a patch that supplies every key overrides whatever an earlier patch set |
| Evaluator.OrTen | sbert-evaluator.js:257 | `maxMarks \|\| 10`: 10 for a missing or zero value, any other supplied value kept |
| Evaluator.BatchErrorFor | sbert-evaluator.js:251-259 | the batch-error record: Batch Error, grade F, similarity, percentage and marks 0, the failure message, and the pair's maxMarks defaulting to 10 |
| Evaluator.FirstNull | sbert-evaluator.js:236-237 | the position of the first missing pair, with every pair before it present |
| Evaluator.FailStart | sbert-evaluator.js:233-239 | the batch loop completes exactly when every pair is present; otherwise it stops at the start of the group of four holding the first missing pair |
| Evaluator.CatchFillAsWrittenThrowsFrom | sbert-evaluator.js:250-257 | the catch loop as written throws whenever a missing pair lies at or after where it starts filling |
| Evaluator.CatchFillAsWrittenAlwaysThrows | sbert-evaluator.js:247-260 | whenever the loop stopped early, the catch block as written throws again |
| Evaluator.NullPairRejectsAsWritten | sbert-evaluator.js:223-260 | on `[null]` the loop stops at 0 and the catch block throws, while the corrected fill gives a 10-mark batch error |
| Evaluator.SBERTEvaluator.constructor | sbert-evaluator.js:3-13 | no model, not loaded, progress 0, and the default cut-offs |
| Evaluator.SBERTEvaluator.LoadModel | sbert-evaluator.js:18-41 | when already loaded it returns true and changes nothing; otherwise the library's model is stored, or a failure leaves it not loaded and returns false |
| Evaluator.SBERTEvaluator.EvaluateAnswerPair | sbert-evaluator.js:172-221 | maxMarks defaults to 10; No Answer, grade F and nothing scored exactly when an answer is missing or empty; every other failure, among them an unloaded model, is Evaluation Error with grade F and nothing scored; no error exactly when loaded and the oracle succeeds; a success echoes the question and answers; marks never negative |
| Evaluator.SBERTEvaluator.EvaluateAnswerPairSucceeds | sbert-evaluator.js:188-206 | a successful evaluation is `convertSimilarityToMarks` of the oracle's similarity for the two preprocessed answers |
| Evaluator.SBERTEvaluator.EvaluateRange | sbert-evaluator.js:233-239 | the results of a run of present pairs, one per pair, in order |
| Evaluator.SBERTEvaluator.EvaluateAnswersBatch | sbert-evaluator.js:223-264 | `[]` for a missing array; otherwise one result per pair in input order: the pair's own evaluation up to where the loop stopped, a batch error after it |
| Evaluator.SBERTEvaluator.UpdateThresholds | sbert-evaluator.js:267-276 | a missing argument changes nothing; otherwise the table becomes the merge with the patch, and nothing else changes |
| Evaluator.SBERTEvaluator.GetStatus | sbert-evaluator.js:279-286 | reports the loaded flag and the table, the name "Universal Sentence Encoder" when a model is held and none otherwise, and "Active" memory exactly then |
| Evaluator.SBERTEvaluator.Dispose | sbert-evaluator.js:289-297 | afterwards no model and not loaded, the table kept, and the status reports "None" |
| Evaluator.EvaluationWithinMax | sbert-evaluator.js:156-185 | for a non-negative maxMarks in tenths, every pair's marks are at most its maxMarks |
| Evaluator.EvaluationSeesOnlyPreprocessedText | sbert-evaluator.js:188-195 | two pairs whose student answers preprocess to the same text get the same similarity, classification, grade, marks and error |
| Utilities.FloorDiv | app.js:72 | `Math.floor(seconds / 60)` is the largest multiple not above the dividend |
| Utilities.JsRem | app.js:73 | `%` has the sign of the dividend and magnitude below the divisor |
| Utilities.FormatTimeClock | app.js:71-75 | for 0 ≤ s < 6000 the clock is five characters `MM:SS`, all digits around the colon, reading `s div 60` and `s mod 60` |
| Utilities.FormatTimeRoundTrip | app.js:71-75 | reading the two fields back gives the seconds it was made from |
| Utilities.FormatTimeNegative | app.js:71-75 | negative counts show signed fields, e.g. -5 gives "-1:-5" |
| Utilities.SwapIndex | app.js:85 | `Math.floor(random * (i + 1))` is an index at or below `i` |
| Utilities.Shuffle | app.js:82-89 | the result is a permutation of the input: same length and same multiset; the input is a value and is not changed |
| Accounts.FindByCredentials | app.js:330 | the first user whose email and password both equal the input, or none when no user matches |
| Accounts.FindByEmail | app.js:365 | the first user with that email, or none when no user has it |
| Accounts.Login | app.js:318-350 | an empty trimmed field is refused; otherwise login succeeds exactly when some user matches both trimmed fields, and signs in a matching user |
| Accounts.Register | app.js:352-385 | an empty trimmed field is refused; a present email is refused; otherwise exactly one student with the trimmed fields is appended |
| Accounts.DefaultUsersUnique | app.js:39-64 | the built-in accounts have distinct emails |
| Accounts.RegisterKeepsUnique | app.js:365-379 | registration keeps emails unique |
| Accounts.RegisteredCanLogin | app.js:330-379 | a student who has just registered signs in with what they typed |
| Accounts.FindAppended | app.js:330 | a user appended after users with other emails is the one the lookup finds |
| Accounts.DefaultLogin | app.js:318-350 | a built-in student signs in with their password, a wrong password fails, and a blank email is refused |
| QuestionBank.OfTypeSpec | app.js:1089-1090 | the type filter keeps exactly the questions of that type, each as often as in the bank |
| QuestionBank.OfTypeConcat | app.js:1104 | filtering distributes over concatenation |
| QuestionBank.CountOfMultiset | app.js:1102-1104 | the count of a type depends only on the multiset of questions, so shuffling keeps it |
| QuestionBank.CountOfUniform | app.js:1102-1103 | a sequence of one type counts fully for it and zero for any other |
| QuestionBank.MCQAndDescriptiveWithinBank | app.js:1089-1090 | the MCQ and descriptive filters are disjoint parts of the bank |
| QuestionBank.ListedSubjects | app.js:1017-1036 | no listing when the bank or stream is missing; otherwise exactly the subjects with ≥ 10 questions, ≥ 8 MCQ and ≥ 2 descriptive |
| QuestionBank.Lookup | app.js:1083-1088 | the subject's questions exactly when bank, stream and subject are all present |
| QuestionBank.OrDefault | app.js:1093-1094 | `config.x \|\| d`: a missing or zero setting gives the default, any other value is kept |
| QuestionBank.SliceEnd | app.js:1102-1103 | the length `slice(0, end)` keeps: `end` when in range, the whole when larger, counted from the back when negative |
| QuestionBank.OfferedSubjectsStart | app.js:1031-1099 | every subject that is listed can be started with the default configuration |
| Grading.MaxOr10 | app.js:1274 | `maxMarks \|\| 10` keeps a non-zero value and turns zero into 10 |
| Grading.SumsBounded | app.js:1268-1276 | when each evaluation is within its bounds, the descriptive score lies between 0 and the descriptive total |
| Grading.FallbackBounded | app.js:1380-1393 | the fallback record, 5 of 10 marks, is within bounds |
| Grading.PercentageBounds | app.js:1278-1280 | a score between 0 and the possible total gives a percentage between 0 and 100 |
| Grading.PercentageEnds | app.js:1280 | a full score is 100% and no score is 0% |
| Grading.GradeFor | app.js:1284-1290 | the ladder: A+ ≥ 90, A ≥ 80, B+ ≥ 70, B ≥ 60, C ≥ 50, D ≥ 40, else F, each as an if-and-only-if |
| Grading.GradeMonotone | app.js:1284-1290 | a higher percentage never earns a lower grade |
| Grading.TimeSpent | app.js:1281 | the time spent and the time remaining add up to the duration, and it lies in [0, duration] while the timer is in range |
| Grading.TimeSpentAgreesOnDefault | app.js:1281 | the expression as written agrees with the time spent exactly when the duration is the default 1800 |
| Grading.TimeSpentAsWrittenNegative | app.js:1281 | a one-hour exam submitted after 100 seconds reports -1700 seconds as written |
| Grading.GetEvaluationType | app.js:629-640 | Mixed exactly when some evaluations are automatic and some are not; AI exactly when there are evaluations and all are automatic; Manual otherwise |
| Grading.UnmarkedIsManual | app.js:629-640 | results without evaluations, or whose evaluations are all unmarked, are labelled Manual |
| Exam.CorrectAtMostMCQ | app.js:1252-1262 | the MCQ score never exceeds the number of MCQ questions |
| Exam.AllKeysGiveFullScore | app.js:1255-1262 | answering every MCQ with its key gives the full score |
| Exam.KeylessQuestionScores | app.js:1258 | an unanswered MCQ with no key scores, because `undefined === undefined` |
| Exam.CollectedLength | app.js:1339-1350 | no more answers are collected than there are questions |
| Exam.CollectedSound | app.js:1339-1350 | every collected entry is a descriptive question with a non-empty answer, carrying that answer, its model answer, its text and 10 marks |
| Exam.CollectedOrdered | app.js:1339-1350 | entries follow question order |
| Exam.CollectedComplete | app.js:1339-1350 | every answered descriptive question is collected |
| Exam.Fallback | app.js:1377-1394 | one fallback record per collected answer, under its question index, within bounds and not automatic |
| Exam.EvaluatedBounded | app.js:1358-1369 | the evaluations of collected answers, each worth 10 marks, are within bounds |
| Exam.ShuffledPrefix | app.js:1102-1103 | a prefix of a shuffled type filter holds only that type, drawn from the bank |
| Exam.ConcatCounts | app.js:1104 | the MCQ part followed by the descriptive part counts each kind exactly |
| Exam.Composition | app.js:1102-1104 | the three shuffles compose an exam of exactly the selected MCQ and descriptive counts, drawn from the bank |
| Exam.ExamSession.constructor | app.js:1107-1117 | no exam: no questions, no answers, index 0 and the default duration |
| Exam.ExamSession.StartExam | app.js:1082-1117 | unknown subject and too few questions are refused without change; otherwise the exam has the configured counts of each kind drawn from the bank, starts at 0 with no answers, and has the configured duration |
| Exam.ExamSession.LoadQuestion | app.js:1169-1210 | an index outside the exam changes nothing; otherwise it becomes current and its view shows number, question, stored answer and which buttons are disabled |
| Exam.ExamSession.SelectOption | app.js:1212-1215 | the option is stored under the index, and the question is shown again when it exists; the questions, stream, subject, remaining time and duration are unchanged |
| Exam.ExamSession.SaveDescriptiveAnswer | app.js:1217-1219 | the text is stored under the index; the questions, current index, stream, subject, remaining time and duration are unchanged |
| Exam.ExamSession.NavigateToPrevious | app.js:1221-1225 | the index moves back by exactly one unless already at the first question; questions, answers, stream, subject, remaining time and duration are unchanged |
| Exam.ExamSession.NavigateToNext | app.js:1227-1231 | the index moves on by exactly one unless already at the last question; questions, answers, stream, subject, remaining time and duration are unchanged |
| Exam.ExamSession.ScoreMcq | app.js:1252-1262 | the total is the number of MCQ questions, the score counts exact matches, and the score is at most the total |
| Exam.ExamSession.CollectDescriptive | app.js:1338-1350 | the collected answers are exactly `Collected` of the exam |
| Exam.ExamSession.EvaluateDescriptiveAnswers | app.js:1335-1398 | none when nothing was answered; otherwise one record per collected answer under its question index, either the evaluator's result for that answer or the fixed fallback, all within bounds and none automatic |
| Exam.ExamSession.SumEvaluations | app.js:1268-1276 | the descriptive score and total are the sums of marks and of `maxMarks \|\| 10`, or 0 without evaluations |
| Exam.ResultFor | app.js:1268-1315 | the submitted record: descriptive score and total score rounded to tenths, descriptive total as given, total possible the MCQ total plus the descriptive total, percentage the rounded share of it (0 when nothing is possible) and in [0, 100] for in-range scores, the grade of the ladder, AI-evaluated exactly when some evaluation is automatic, and one count per evaluation |
| Exam.ExamSession.SubmitExam | app.js:1233-1333 | a record exactly when someone is signed in: the record built from the MCQ score and total, the evaluations of the collected answers and their summed marks and maxMarks, and the time spent against the exam's duration; the MCQ score at most the MCQ total, a percentage in [0, 100], one count per collected answer, and type Manual |
| Records.Filter | app.js:1529 | `filter` keeps no more elements than it was given |
| Records.FilterMembers | app.js:1529 | `filter` keeps exactly the elements its test accepts |
| Records.FilterKeepsAll | app.js:1529 | a filter that accepts everything changes nothing |
| Records.FilterRemovesOne | app.js:1529 | a filter that rejects one position removes that element and keeps the rest in order |
| Records.WithoutResult | app.js:1529 | the results kept are exactly those with another id |
| Records.DeleteResultRemovesOne | app.js:1526-1540 | with unique ids, deleting a result removes that one result and keeps the others in order |
| Records.DeleteMissingResult | app.js:1529 | deleting an id no result has changes nothing |
| Records.UserDeletionAsWritten | app.js:1542-1553 | as written: self-deletion is refused only when the text id is strictly equal to the current id, and the users kept are those whose id is not that text |
| Records.DeleteDefaultUserAsWritten | app.js:1552-1553 | as written, deleting built-in student 2 from its button removes neither the account nor its results |
| Records.UserDeletion | app.js:1542-1563 | one's own account is refused; unconfirmed changes nothing; otherwise exactly the users with that id and the results with that user id are removed |
| Records.DeleteUserRemovesOne | app.js:1552 | with unique ids, deleting user `i` removes that user and keeps the others in order |
| Records.DeleteDefaultUser | app.js:1552 | deleting built-in student 2 from its button removes that account |
| Records.Store.constructor | app.js:116 | the user list starts as the built-in accounts and the result list empty |
| Records.Store.Register | app.js:352-385 | the list becomes the registration outcome's list on success and is unchanged otherwise, keeping emails unique |
| Records.Store.SaveExamResult | app.js:163-170 | the result is appended under the new id, which is returned, keeping ids unique when the new id is fresh |
| Records.Store.DeleteResult | app.js:1526-1540 | once confirmed, the list becomes `WithoutResult`; unconfirmed, nothing changes |
| Records.Store.DeleteUser | app.js:1542-1563 | both lists become the outcome of `UserDeletion` when it deletes, and are unchanged otherwise |

## Left out

- HTML rendering, modals, tabs, fullscreen, alerts and event wiring: presentation only.
- `localStorage` and JSON: the lists and the configuration are in-memory values.
  - The start states of `initializeStorage` and `loadFromStorage` are reduced to the built-in users and an empty result list.
  - `saveSystemSettings` is not modelled.
- Fetching the question banks: network I/O. The bank is a parameter that may be absent.
- The Universal Sentence Encoder, the `tf` tensor maths and tensor disposal: foreign code and floating point. They are one oracle on the two preprocessed texts that yields a similarity or a failure.
- `generateEmbeddings` rejecting an empty list: it is only ever called with two texts.
- The `use` global: it is a parameter of `LoadModel` that either yields a model or fails.
- `Math.random`: each draw is a parameter.
- `Date`, timestamps and `generateId`: new ids are parameters.
- Timers (`setInterval`, `setTimeout`), the pause between batches and the exam's automatic submission on time-out: time is not modelled.
- The `async` scheduling of `Promise.all`: the four pairs of a group are evaluated one after another, which gives the same results in the same order.
- CSV export, `viewDetailedResult`, `retakeExam` and the statistics pages: presentation.
- The calls to `sbertEvaluator.initialize()` and the reads of `isLoaded` and `evaluationMode`: these members do not exist on the class. The class is modelled as written.
- Evaluator.SBERTEvaluator.EvaluateAnswerPair: `evaluationTimestamp` is not echoed, and `error` is a kind rather than the exception's message.
- `toLowerCase` is modelled for A–Z only: Unicode case mapping is left out.
- Whitespace for `\s` and `trim` is the ECMAScript white-space and line-terminator set.
- Strings are sequences of Unicode scalar values, whereas JavaScript strings are sequences of UTF-16 code units. A character outside the Basic Multilingual Plane, such as an emoji, is one element here and two code units in JavaScript. Lone surrogates cannot be represented.
- Normalizer.Truncate: counts the 1000 characters in scalar values, not UTF-16 code units. On text with characters outside the Basic Multilingual Plane it keeps more than `substring(0, 1000)` does. It also never splits a surrogate pair, which JavaScript can do.
- Inputs of the wrong JavaScript type are folded into `None`. Examples: a non-string `text`, a non-array batch, a non-object threshold patch.
- Evaluator.Merge: a patch key that is present with the value `undefined` or `null` is folded into `None`, so the old cut-off is kept. In JavaScript, `{...t, ...newThresholds}` copies that value over the cut-off.
- `NaN` and infinite similarities are not modelled: similarities are reals.
- Exam.ExamSession.EvaluateDescriptiveAnswers: the page's evaluator is a global that always exists, and the batch never throws on the pairs it is handed. The fallback branch is therefore modelled as the evaluator being absent.
- Exam.ExamSession.SubmitExam: the record is returned, not stored. Storing it is `Records.Store.SaveExamResult`.
- Exam.ExamSession.SubmitExam: the rendering of the results page is left out.
- Exam.ExamSession.SubmitExam: the `catch` branch is entered only when nobody is signed in.
- Exam.ExamSession.SubmitExam: `submittedAt` and the `evaluationType` text of fallback records are not modelled.
- Exam.ExamSession.StartExam: `subjectId` and `startTime` are not modelled (clock and random ids).
- Exam.ExamSession.LoadQuestion: the options' HTML and the placeholder text are not modelled; the view records which question is shown.
- Exam.ExamSession.StartExam: `questions.filter` on something that is not an array is not modelled; a bank entry is always a list of questions.
- The refusal to delete one's own account compares against the signed-in user. The page already hides the delete button for that user.

## Findings

| source | as written | input that shows it | evidently intended | confidence | as-written member | corrected member |
|---|---|---|---|---|---|---|
| sbert-evaluator.js:247-260 | the catch block fills the missing results reading `answerPairs[i].maxMarks`, including at the null pair that made the batch fail, so it throws a `TypeError` out of `evaluateAnswersBatch` | `evaluateAnswersBatch([null])` | every pair left without a result gets a Batch Error record, with 10 marks for a missing pair | not executed | Evaluator.NullPairRejectsAsWritten | Evaluator.SBERTEvaluator.EvaluateAnswersBatch |
| app.js:1552-1553 | the delete button (line 749 of app.js) passes the id as text, and `u.id !== userId` and `r.userId !== userId` compare it strictly with the stored ids, which are numbers for the built-in accounts | `deleteUser('2')` on the built-in users | the account with id 2 and its results are removed | not executed | Records.DeleteDefaultUserAsWritten | Records.UserDeletion |
| app.js:1281 | `timeSpent = 1800 - timeRemaining`, whatever duration the exam started with | an exam configured for 3600 seconds, submitted with 3500 left | the time spent is the configured duration minus the time left, here 100 seconds | not executed | Grading.TimeSpentAsWrittenNegative | Grading.TimeSpent |
