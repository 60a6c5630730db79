/**
 The answer scorer: looks a question up in the test tree, decides whether a
 submitted answer is correct, and folds the submission into one
 participant's running result (answer trace, counters, time accounting,
 accuracy and performance trend). Time is integer milliseconds; the clock
 reading the source takes with `new Date()` is the parameter `now`.
 */
module AnswerValidation {
  import opened Wrappers
  import opened Collections
  import opened Text
  import opened TestContent
  import Nested

  datatype QuestionResult = QuestionResult(answer: string, isCorrect: bool, timestamp: int, timeSpent: int)

  datatype Trend = Trend(questionIds: seq<string>, correctness: seq<bool>)

  datatype Metrics = Metrics(
    accuracy: real,
    averageTimePerQuestion: real,
    performanceTrend: Trend,
    totalTimeSpent: int,
    incorrectAnswersCount: nat)

  /** One participant's result; `metrics` is absent until the first scored answer. */
  datatype ParticipantResult = ParticipantResult(
    participantId: string,
    sections: Nested.Trace<QuestionResult>,
    correctAnswersCount: nat,
    totalQuestions: nat,
    startedAt: int,
    lastInteractionAt: Option<int>,
    metrics: Option<Metrics>)

  /** The metrics the scorer starts from when none exist yet. */
  const InitialMetrics := Metrics(0.0, 0.0, Trend([], []), 0, 0)

  function MetricsOf(pr: ParticipantResult): Metrics {
    pr.metrics.GetOr(InitialMetrics)
  }

  /** Looks up `sections[sid].tasks[tid].questions[qid]`, each level by its first match. */
  function FindQuestion(test: Test, sid: string, tid: string, qid: string): (r: Option<Question>)
    ensures r.Some? ==> r.value.id == qid && InTree(test, sid, tid, r.value)
    ensures (forall i :: 0 <= i < |test.sections| ==> test.sections[i].id != sid) ==> r.None?
  {
    match FirstIndex(test.sections, SectionId, sid)
    case None => None
    case Some(i) =>
      match FirstIndex(test.sections[i].tasks, TaskId, tid)
      case None => None
      case Some(j) =>
        match FirstIndex(test.sections[i].tasks[j].questions, QuestionId, qid)
        case None => None
        case Some(k) => Some(test.sections[i].tasks[j].questions[k])
  }

  /** When sibling ids are unique, the lookup finds every question that is in the tree. */
  lemma FindQuestionComplete(test: Test, sid: string, tid: string, q: Question)
    requires UniqueIds(test) && InTree(test, sid, tid, q)
    ensures FindQuestion(test, sid, tid, q.id) == Some(q)
  {
    var i, j, k :|
      && 0 <= i < |test.sections| && test.sections[i].id == sid
      && 0 <= j < |test.sections[i].tasks| && test.sections[i].tasks[j].id == tid
      && 0 <= k < |test.sections[i].tasks[j].questions|
      && test.sections[i].tasks[j].questions[k] == q;
    var s := test.sections[i];
    var t := s.tasks[j];
    FirstIndexOfUnique(test.sections, SectionId, i);
    assert UniqueTaskIds(s);
    FirstIndexOfUnique(s.tasks, TaskId, j);
    assert UniqueQuestionIds(t);
    FirstIndexOfUnique(t.questions, QuestionId, k);
  }

  /** True when some candidate normalises to `key`. */
  function AnyMatches(candidates: seq<string>, key: string): (r: bool)
    ensures r <==> exists i :: 0 <= i < |candidates| && Normalize(candidates[i]) == key
  {
    if candidates == [] then false
    else Normalize(candidates[0]) == key || AnyMatches(candidates[1..], key)
  }

  /**
   An answer is correct when its trimmed, lower-cased form equals that of
   some entry of `answers`; only when `answers` is empty is
   `acceptableAnswers` consulted instead.
   */
  function ValidateAnswer(q: Question, answer: string): (r: bool)
    ensures |q.answers| > 0 ==>
      (r <==> exists i :: 0 <= i < |q.answers| && Normalize(q.answers[i]) == Normalize(answer))
    ensures |q.answers| == 0 ==>
      (r <==> exists i :: 0 <= i < |q.acceptableAnswers| && Normalize(q.acceptableAnswers[i]) == Normalize(answer))
  {
    if |q.answers| > 0 then AnyMatches(q.answers, Normalize(answer))
    else if |q.acceptableAnswers| > 0 then AnyMatches(q.acceptableAnswers, Normalize(answer))
    else false
  }

  /** With an empty answer key nothing is correct. */
  lemma EmptyKeyRejects(q: Question, answer: string)
    requires q.answers == [] && q.acceptableAnswers == []
    ensures !ValidateAnswer(q, answer)
  {
  }

  /** A non-empty `answers` list shadows `acceptableAnswers` entirely. */
  lemma AnswersShadowAcceptable(q: Question, answer: string, extra: seq<string>)
    requires |q.answers| > 0
    ensures ValidateAnswer(q.(acceptableAnswers := extra), answer) == ValidateAnswer(q, answer)
  {
  }

  predicate IsLetter(c: char) { 'a' <= c <= 'z' || 'A' <= c <= 'Z' }

  lemma LetterNotSpace(c: char)
    requires IsLetter(c)
    ensures !IsSpace(c)
  {
    assert 65 <= c as int <= 122;
  }

  lemma TrimSpellings()
    ensures Trim("Paris") == "Paris" && Trim("paris") == "paris" && Trim("PARIS") == "PARIS"
    ensures Trim("parise") == "parise"
  {
    TrimWord("Paris");
    TrimWord("paris");
    TrimWord("PARIS");
    TrimWord("parise");
  }

  lemma TrimWord(w: string)
    requires w in {"Paris", "paris", "PARIS", "parise"}
    ensures Trim(w) == w
  {
    LetterNotSpace(w[0]);
    LetterNotSpace(w[|w| - 1]);
    TrimUnpadded(w);
  }

  lemma TrimPadded()
    ensures Trim("  Paris ") == "Paris"
  {
    PaddedWord("Paris", "  ", " ");
    assert "  " + "Paris" + " " == "  Paris ";
  }

  /** A word of letters padded with spaces trims back to the word. */
  lemma PaddedWord(w: string, pre: string, post: string)
    requires w != [] && IsLetter(w[0]) && IsLetter(w[|w| - 1])
    requires forall k :: 0 <= k < |pre| ==> pre[k] == ' '
    requires forall k :: 0 <= k < |post| ==> post[k] == ' '
    ensures Trim(pre + w + post) == w
  {
    LetterNotSpace(w[0]);
    LetterNotSpace(w[|w| - 1]);
    TrimIgnoresPadding(pre, w, post);
  }

  lemma LowerSpellings()
    ensures Lower("Paris") == "paris" && Lower("paris") == "paris" && Lower("PARIS") == "paris"
    ensures Lower("parise") == "parise"
  {
  }

  lemma ParisSpellings()
    ensures Normalize("Paris") == "paris"
    ensures Normalize("paris") == "paris"
    ensures Normalize("PARIS") == "paris"
    ensures Normalize("  Paris ") == "paris"
    ensures Normalize("parise") == "parise"
  {
    TrimSpellings();
    TrimPadded();
    LowerSpellings();
  }

  /** With a single accepted answer, a submission is correct exactly when the two normalise alike. */
  lemma SingleAnswer(q: Question, answer: string)
    requires |q.answers| == 1
    ensures ValidateAnswer(q, answer) <==> Normalize(q.answers[0]) == Normalize(answer)
  {
  }

  /** Case and surrounding white space do not matter; other differences do. */
  lemma ParisExample(q: Question)
    requires q.answers == ["Paris"]
    ensures ValidateAnswer(q, "paris")
    ensures ValidateAnswer(q, "  Paris ")
    ensures ValidateAnswer(q, "PARIS")
    ensures !ValidateAnswer(q, "parise")
  {
    ParisSpellings();
    SingleAnswer(q, "paris");
    SingleAnswer(q, "  Paris ");
    SingleAnswer(q, "PARIS");
    SingleAnswer(q, "parise");
  }

  /** `correct / total * 100`, or 0 when there are no questions. */
  function CalculatePercentage(correct: int, total: int): (r: real)
    ensures total == 0 ==> r == 0.0
    ensures total != 0 ==> r * total as real == correct as real * 100.0
    ensures 0 <= correct <= total ==> 0.0 <= r <= 100.0
  {
    if total == 0 then 0.0 else correct as real / total as real * 100.0
  }

  /** Time since the previous scored answer, or since the participant started. */
  function TimeSpent(pr: ParticipantResult, now: int): int {
    now - pr.lastInteractionAt.GetOr(pr.startedAt)
  }

  /**
   Records one scored submission whose verdict is `ok`: the entry at
   (sid, tid, qid) is overwritten, and every counter moves by exactly one
   submission, whether or not the question was answered before.
   */
  function Record(pr: ParticipantResult, sid: string, tid: string, qid: string,
                  answer: string, ok: bool, now: int): (r: ParticipantResult)
    ensures
      var spent := now - pr.lastInteractionAt.GetOr(pr.startedAt);
      var m := MetricsOf(pr);
      var m' := MetricsOf(r);
      // the answer trace: overwrite at the key, nothing else changes
      && Nested.Get(r.sections, sid, tid, qid) == Some(QuestionResult(answer, ok, now, spent))
      && (forall s, t, k :: (s, t, k) != (sid, tid, qid) ==>
            Nested.Get(r.sections, s, t, k) == Nested.Get(pr.sections, s, t, k))
      // counters
      && r.totalQuestions == pr.totalQuestions + 1
      && r.correctAnswersCount == pr.correctAnswersCount + (if ok then 1 else 0)
      && m'.incorrectAnswersCount == m.incorrectAnswersCount + (if ok then 0 else 1)
      // trend
      && m'.performanceTrend.questionIds == m.performanceTrend.questionIds + [qid]
      && m'.performanceTrend.correctness == m.performanceTrend.correctness + [ok]
      // time
      && m'.totalTimeSpent == m.totalTimeSpent + spent
      && m'.averageTimePerQuestion * r.totalQuestions as real == m'.totalTimeSpent as real
      && r.lastInteractionAt == Some(now)
      && r.startedAt == pr.startedAt
      && r.participantId == pr.participantId
      // accuracy
      && m'.accuracy * r.totalQuestions as real == r.correctAnswersCount as real * 100.0
  {
    var spent := TimeSpent(pr, now);
    var sections := Nested.Put(pr.sections, sid, tid, qid, QuestionResult(answer, ok, now, spent));
    var m := MetricsOf(pr);
    var correct := pr.correctAnswersCount + (if ok then 1 else 0);
    var total := pr.totalQuestions + 1;
    var totalTime := m.totalTimeSpent + spent;
    var metrics := Metrics(
      accuracy := correct as real / total as real * 100.0,
      averageTimePerQuestion := totalTime as real / total as real,
      performanceTrend := Trend(m.performanceTrend.questionIds + [qid], m.performanceTrend.correctness + [ok]),
      totalTimeSpent := totalTime,
      incorrectAnswersCount := m.incorrectAnswersCount + (if ok then 0 else 1));
    pr.(sections := sections, correctAnswersCount := correct, totalQuestions := total,
        lastInteractionAt := Some(now), metrics := Some(metrics))
  }

  /**
   Scores one submission. A missing section, task or question fails with
   'Question not found' and leaves the result untouched; otherwise the
   submission is recorded with the verdict of the question found.
   */
  function ProcessAnswer(test: Test, pr: ParticipantResult, sid: string, tid: string, qid: string,
                         answer: string, now: int): (r: Result<ParticipantResult>)
    ensures FindQuestion(test, sid, tid, qid).None? <==> r.Failure?
    ensures r.Failure? ==> r.error == Plain("Question not found")
    ensures r.Success? ==>
      var q := FindQuestion(test, sid, tid, qid).value;
      && q.id == qid && InTree(test, sid, tid, q)
      && Nested.Get(r.value.sections, sid, tid, qid).Some?
      && Nested.Get(r.value.sections, sid, tid, qid).value.isCorrect == ValidateAnswer(q, answer)
      && r.value.totalQuestions == pr.totalQuestions + 1
    ensures r.Success? ==>
      r.value == Record(pr, sid, tid, qid, answer, ValidateAnswer(FindQuestion(test, sid, tid, qid).value, answer), now)
  {
    match FindQuestion(test, sid, tid, qid)
    case None => Failure(Plain("Question not found"))
    case Some(q) => Success(Record(pr, sid, tid, qid, answer, ValidateAnswer(q, answer), now))
  }

  function IsTrue(b: bool): bool { b }

  /**
   The counters agree with each other and with the trend: every scored
   submission is counted once as correct or incorrect, the trend lists are
   parallel and as long as the submission count, and the correct entries of
   the trend are the correct answers.
   */
  ghost predicate CountersConsistent(pr: ParticipantResult) {
    var m := MetricsOf(pr);
    && pr.correctAnswersCount + m.incorrectAnswersCount == pr.totalQuestions
    && |m.performanceTrend.questionIds| == pr.totalQuestions
    && |m.performanceTrend.correctness| == pr.totalQuestions
    && Count(m.performanceTrend.correctness, IsTrue) == pr.correctAnswersCount
  }

  /** Recording a submission keeps the counters consistent, and accuracy within [0, 100]. */
  lemma RecordKeepsCounters(pr: ParticipantResult, sid: string, tid: string, qid: string,
                            answer: string, ok: bool, now: int)
    requires CountersConsistent(pr)
    ensures CountersConsistent(Record(pr, sid, tid, qid, answer, ok, now))
    ensures 0.0 <= MetricsOf(Record(pr, sid, tid, qid, answer, ok, now)).accuracy <= 100.0
  {
    var r := Record(pr, sid, tid, qid, answer, ok, now);
    var m := MetricsOf(pr);
    CountAppend(m.performanceTrend.correctness, [ok], IsTrue);
    assert Count([ok], IsTrue) == (if ok then 1 else 0);
    assert MetricsOf(r).accuracy == CalculatePercentage(r.correctAnswersCount, r.totalQuestions);
  }

  /** Scoring keeps the counters consistent, so accuracy stays within [0, 100]. */
  lemma ProcessAnswerKeepsCounters(test: Test, pr: ParticipantResult, sid: string, tid: string, qid: string,
                                   answer: string, now: int)
    requires CountersConsistent(pr)
    requires ProcessAnswer(test, pr, sid, tid, qid, answer, now).Success?
    ensures CountersConsistent(ProcessAnswer(test, pr, sid, tid, qid, answer, now).value)
    ensures 0.0 <= MetricsOf(ProcessAnswer(test, pr, sid, tid, qid, answer, now).value).accuracy <= 100.0
  {
    var q := FindQuestion(test, sid, tid, qid).value;
    RecordKeepsCounters(pr, sid, tid, qid, answer, ValidateAnswer(q, answer), now);
  }

  // ----- Re-submission and the question count -----

  /** The entries of the trace that are marked correct. */
  function CorrectEntries(m: Nested.Trace<QuestionResult>): set<(string, string, string)> {
    set s, t, q | s in m && t in m[s] && q in m[s][t] && m[s][t][q].isCorrect :: (s, t, q)
  }

  /** The counters describe the trace: one question per entry, one correct answer per correct entry. */
  ghost predicate CountsMatchTrace(pr: ParticipantResult) {
    && pr.totalQuestions == |Nested.Entries(pr.sections)|
    && pr.correctAnswersCount == |CorrectEntries(pr.sections)|
  }

  /** Recording a first answer to a question adds one entry, and keeps the counters describing the trace. */
  lemma RecordFirstAnswer(pr: ParticipantResult, sid: string, tid: string, qid: string,
                          answer: string, ok: bool, now: int)
    requires CountsMatchTrace(pr) && Nested.Get(pr.sections, sid, tid, qid).None?
    ensures CountsMatchTrace(Record(pr, sid, tid, qid, answer, ok, now))
  {
    var v := QuestionResult(answer, ok, now, TimeSpent(pr, now));
    assert Record(pr, sid, tid, qid, answer, ok, now).sections == Nested.Put(pr.sections, sid, tid, qid, v);
    PutSizes(pr.sections, sid, tid, qid, v);
  }

  /** Recording an answer to a question already in the trace leaves the entries as they were. */
  lemma RecordAgainKeepsEntries(pr: ParticipantResult, sid: string, tid: string, qid: string,
                                answer: string, ok: bool, now: int)
    requires Nested.Get(pr.sections, sid, tid, qid).Some?
    ensures Nested.Entries(Record(pr, sid, tid, qid, answer, ok, now).sections) == Nested.Entries(pr.sections)
  {
    var v := QuestionResult(answer, ok, now, TimeSpent(pr, now));
    assert Record(pr, sid, tid, qid, answer, ok, now).sections == Nested.Put(pr.sections, sid, tid, qid, v);
    Nested.PutEntries(pr.sections, sid, tid, qid, v);
    Nested.EntriesMeansGet(pr.sections, sid, tid, qid);
  }

  /**
   Re-submitting an answered question counts it twice: the first answer to a
   question keeps the counters describing the trace, but scoring the same
   question again adds a submission without adding an entry, so afterwards
   `totalQuestions` exceeds the number of answered questions and accuracy
   is computed over submissions rather than questions.
   */
  lemma ResubmissionInflatesTotal(test: Test, pr: ParticipantResult, sid: string, tid: string, qid: string,
                                  first: string, second: string, t1: int, t2: int)
    requires CountsMatchTrace(pr)
    requires FindQuestion(test, sid, tid, qid).Some?
    requires Nested.Get(pr.sections, sid, tid, qid).None?
    ensures
      var r1 := ProcessAnswer(test, pr, sid, tid, qid, first, t1).value;
      var r2 := ProcessAnswer(test, r1, sid, tid, qid, second, t2).value;
      && CountsMatchTrace(r1)
      && r2.totalQuestions == |Nested.Entries(r2.sections)| + 1
      && !CountsMatchTrace(r2)
  {
    var q := FindQuestion(test, sid, tid, qid).value;
    var r1 := Record(pr, sid, tid, qid, first, ValidateAnswer(q, first), t1);
    RecordFirstAnswer(pr, sid, tid, qid, first, ValidateAnswer(q, first), t1);
    RecordAgainKeepsEntries(r1, sid, tid, qid, second, ValidateAnswer(q, second), t2);
  }

  function Decrement(n: nat): nat {
    if n > 0 then n - 1 else 0
  }

  /**
   Records a submission with one count per distinct question: a
   re-submission overwrites the entry and moves the correct/incorrect
   counters from the old verdict to the new one, without counting the
   question again.
   */
  function RecordOnce(pr: ParticipantResult, sid: string, tid: string, qid: string,
                      answer: string, ok: bool, now: int): (r: ParticipantResult)
    ensures Nested.Get(r.sections, sid, tid, qid) == Some(QuestionResult(answer, ok, now, TimeSpent(pr, now)))
    ensures forall s, t, k :: (s, t, k) != (sid, tid, qid) ==>
              Nested.Get(r.sections, s, t, k) == Nested.Get(pr.sections, s, t, k)
    ensures r.totalQuestions == pr.totalQuestions + (if Nested.Get(pr.sections, sid, tid, qid).None? then 1 else 0)
    ensures r.lastInteractionAt == Some(now)
  {
    var spent := TimeSpent(pr, now);
    var previous := Nested.Get(pr.sections, sid, tid, qid);
    var sections := Nested.Put(pr.sections, sid, tid, qid, QuestionResult(answer, ok, now, spent));
    var m := MetricsOf(pr);
    var wasCorrect := previous.Some? && previous.value.isCorrect;
    var wasIncorrect := previous.Some? && !previous.value.isCorrect;
    var correct := (if wasCorrect then Decrement(pr.correctAnswersCount) else pr.correctAnswersCount)
                   + (if ok then 1 else 0);
    var incorrect := (if wasIncorrect then Decrement(m.incorrectAnswersCount) else m.incorrectAnswersCount)
                     + (if ok then 0 else 1);
    var total := pr.totalQuestions + (if previous.None? then 1 else 0);
    var totalTime := m.totalTimeSpent + spent;
    var metrics := Metrics(
      accuracy := CalculatePercentage(correct, total),
      averageTimePerQuestion := if total == 0 then 0.0 else totalTime as real / total as real,
      performanceTrend := Trend(m.performanceTrend.questionIds + [qid], m.performanceTrend.correctness + [ok]),
      totalTimeSpent := totalTime,
      incorrectAnswersCount := incorrect);
    pr.(sections := sections, correctAnswersCount := correct, totalQuestions := total,
        lastInteractionAt := Some(now), metrics := Some(metrics))
  }

  /** Scoring with one count per distinct question. */
  function ProcessAnswerOnce(test: Test, pr: ParticipantResult, sid: string, tid: string, qid: string,
                             answer: string, now: int): (r: Result<ParticipantResult>)
    ensures FindQuestion(test, sid, tid, qid).None? <==> r.Failure?
    ensures r.Failure? ==> r.error == Plain("Question not found")
    ensures r.Success? ==>
      && Nested.Get(r.value.sections, sid, tid, qid).Some?
      && Nested.Get(r.value.sections, sid, tid, qid).value.isCorrect
         == ValidateAnswer(FindQuestion(test, sid, tid, qid).value, answer)
    ensures r.Success? ==>
      r.value == RecordOnce(pr, sid, tid, qid, answer, ValidateAnswer(FindQuestion(test, sid, tid, qid).value, answer), now)
  {
    match FindQuestion(test, sid, tid, qid)
    case None => Failure(Plain("Question not found"))
    case Some(q) => Success(RecordOnce(pr, sid, tid, qid, answer, ValidateAnswer(q, answer), now))
  }

  lemma PutCorrectEntries(m: Nested.Trace<QuestionResult>, s: string, t: string, q: string, v: QuestionResult)
    ensures CorrectEntries(Nested.Put(m, s, t, q, v))
         == (CorrectEntries(m) - {(s, t, q)}) + (if v.isCorrect then {(s, t, q)} else {})
  {
    var r := Nested.Put(m, s, t, q, v);
    forall k | k in CorrectEntries(r)
      ensures k in (CorrectEntries(m) - {(s, t, q)}) + (if v.isCorrect then {(s, t, q)} else {})
    {
      assert Nested.Get(r, k.0, k.1, k.2).Some?;
      if k != (s, t, q) {
        assert Nested.Get(r, k.0, k.1, k.2) == Nested.Get(m, k.0, k.1, k.2);
      }
    }
    forall k | k in (CorrectEntries(m) - {(s, t, q)}) + (if v.isCorrect then {(s, t, q)} else {})
      ensures k in CorrectEntries(r)
    {
      if k != (s, t, q) {
        assert Nested.Get(m, k.0, k.1, k.2).Some?;
        assert Nested.Get(r, k.0, k.1, k.2) == Nested.Get(m, k.0, k.1, k.2);
      } else {
        assert Nested.Get(r, s, t, q) == Some(v);
      }
    }
  }

  /** How writing one entry changes the number of entries and of correct entries. */
  lemma PutSizes(m: Nested.Trace<QuestionResult>, s: string, t: string, q: string, v: QuestionResult)
    ensures |Nested.Entries(Nested.Put(m, s, t, q, v))|
         == |Nested.Entries(m)| + (if Nested.Get(m, s, t, q).None? then 1 else 0)
    ensures |CorrectEntries(Nested.Put(m, s, t, q, v))|
         == |CorrectEntries(m)| - (if Nested.Get(m, s, t, q).Some? && Nested.Get(m, s, t, q).value.isCorrect then 1 else 0)
            + (if v.isCorrect then 1 else 0)
  {
    var key := (s, t, q);
    Nested.PutEntries(m, s, t, q, v);
    PutCorrectEntries(m, s, t, q, v);
    Nested.EntriesMeansGet(m, s, t, q);
    var ce := CorrectEntries(m);
    if Nested.Get(m, s, t, q).Some? && Nested.Get(m, s, t, q).value.isCorrect {
      assert key in ce;
    } else {
      assert key !in ce;
      assert ce - {key} == ce;
    }
  }

  /** With one count per distinct question, the counters keep describing the trace. */
  lemma RecordOnceCountsMatchTrace(pr: ParticipantResult, sid: string, tid: string, qid: string,
                                   answer: string, ok: bool, now: int)
    requires CountsMatchTrace(pr)
    ensures CountsMatchTrace(RecordOnce(pr, sid, tid, qid, answer, ok, now))
  {
    var v := QuestionResult(answer, ok, now, TimeSpent(pr, now));
    var r := RecordOnce(pr, sid, tid, qid, answer, ok, now);
    var previous := Nested.Get(pr.sections, sid, tid, qid);
    assert r.sections == Nested.Put(pr.sections, sid, tid, qid, v);
    PutSizes(pr.sections, sid, tid, qid, v);
    if previous.Some? && previous.value.isCorrect {
      Nested.EntriesMeansGet(pr.sections, sid, tid, qid);
      assert (sid, tid, qid) in CorrectEntries(pr.sections);
      assert r.correctAnswersCount == pr.correctAnswersCount - 1 + (if ok then 1 else 0);
    } else {
      assert r.correctAnswersCount == pr.correctAnswersCount + (if ok then 1 else 0);
    }
  }

  /** The corrected scorer keeps the counters describing the trace. */
  lemma ProcessAnswerOnceCountsMatchTrace(test: Test, pr: ParticipantResult, sid: string, tid: string,
                                          qid: string, answer: string, now: int)
    requires CountsMatchTrace(pr)
    requires ProcessAnswerOnce(test, pr, sid, tid, qid, answer, now).Success?
    ensures CountsMatchTrace(ProcessAnswerOnce(test, pr, sid, tid, qid, answer, now).value)
  {
    var q := FindQuestion(test, sid, tid, qid).value;
    RecordOnceCountsMatchTrace(pr, sid, tid, qid, answer, ValidateAnswer(q, answer), now);
  }
}
