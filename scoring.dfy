/** One player's run through a quiz (server.js, the session records kept in
    `activeSessions` and the way the question, answer, timeout and result
    handlers read and advance them). Times are integer milliseconds; the
    source keeps seconds as floating-point numbers, which agree with these
    values divided by 1000. */
module Scoring {
  import opened Wrappers
  import opened Js
  import opened QuestionsLoader
  import opened Shuffle

  /** `QUESTION_TIME_LIMIT`: ten seconds per question. */
  const TimeLimitMs := 10000
  /** A session asks at most this many questions. */
  const QuestionsPerSession := 12
  /** One base point and a time bonus of at most three per question. */
  const MaxPointsPerQuestion := 4

  /** An entry of `session.answers`. `timeout` is only set by the timeout
      handler; an answer's record has no such field, written false here. */
  datatype AnswerRecord = AnswerRecord(
    questionId: int,
    answerIndex: int,
    correct: bool,
    timeSpentMs: int,
    timeBonus: int,
    wasInTime: bool,
    points: int,
    timeout: bool)

  /** A session record: `questions` are the selected questions in play
      order, `index` is `currentQuestionIndex`, `shuffled` is
      `currentShuffledQuestion` (None for `null`). */
  datatype Session = Session(
    category: string,
    questions: seq<Question>,
    index: nat,
    shuffled: Option<ShuffledQuestion>,
    score: int,
    answers: seq<AnswerRecord>,
    startTime: int,
    questionStartTime: Option<int>,
    totalTimeMs: int,
    timeBonus: int)

  function Min(a: int, b: int): int {
    if a <= b then a else b
  }

  /** How many questions a session over a category of n questions takes. */
  function SessionLength(n: nat): (k: nat)
    ensures k <= n && k <= QuestionsPerSession
    ensures k == n || k == QuestionsPerSession
  {
    if n < QuestionsPerSession then n else QuestionsPerSession
  }

  /** A fresh session: nothing answered, no question served yet. */
  function NewSession(category: string, questions: seq<Question>, now: int): (s: Session)
    ensures SessionInv(s)
    ensures s.index == 0 && s.score == 0 && s.answers == [] && s.totalTimeMs == 0 && s.timeBonus == 0
    ensures s.shuffled == None && s.questionStartTime == None
    ensures s.category == category && s.questions == questions && s.startTime == now
  {
    Session(category, questions, 0, None, 0, [], now, None, 0, 0)
  }

  // ---------------------------------------------------------------------------
  // Grading an answer

  /** The time bonus from the time left, `max(0, limit - elapsed)`: 3 above
      seven seconds left, 2 above four, 1 above none. Read off the elapsed
      time instead: 3 under three seconds, 2 under six, 1 under ten. */
  function TimeBonus(elapsedMs: int): (b: int)
    ensures b == if elapsedMs < 3000 then 3 else if elapsedMs < 6000 then 2 else if elapsedMs < TimeLimitMs then 1 else 0
  {
    var timeLeft := if TimeLimitMs - elapsedMs > 0 then TimeLimitMs - elapsedMs else 0;
    if timeLeft > 7000 then 3 else if timeLeft > 4000 then 2 else if timeLeft > 0 then 1 else 0
  }

  datatype Grade = Grade(correct: bool, inTime: bool, points: int, bonus: int)

  /** The verdict on one answer: correct when the index is the shuffled
      question's `correct`, in time when at most ten seconds passed; only an
      answer that is both earns the point and the bonus. */
  function GradeAnswer(answerIndex: int, question: ShuffledQuestion, elapsedMs: int): (g: Grade)
    ensures g.correct <==> answerIndex == question.correct
    ensures g.inTime <==> elapsedMs <= TimeLimitMs
    ensures g.correct && g.inTime ==> g.points == 1 && g.bonus == TimeBonus(elapsedMs)
    ensures g.correct && g.inTime ==> 0 <= g.bonus <= 3 && (g.bonus == 0 <==> elapsedMs == TimeLimitMs)
    ensures !(g.correct && g.inTime) ==> g.points == 0 && g.bonus == 0
  {
    var correct := answerIndex == question.correct;
    var inTime := elapsedMs <= TimeLimitMs;
    if correct && inTime then Grade(correct, inTime, 1, TimeBonus(elapsedMs))
    else Grade(correct, inTime, 0, 0)
  }

  // ---------------------------------------------------------------------------
  // Transitions

  /** The session after a question was served: the snapshot and its start
      time are stored, nothing else changes. */
  function Served(s: Session, question: ShuffledQuestion, now: int): (r: Session)
    ensures r.shuffled == Some(question) && r.questionStartTime == Some(now)
    ensures r.(shuffled := s.shuffled, questionStartTime := s.questionStartTime) == s
  {
    s.(shuffled := Some(question), questionStartTime := Some(now))
  }

  /** Milliseconds since the current question was served; a `null` start
      time counts as 0, as `Date.now() - null` does. */
  function Elapsed(s: Session, now: int): int {
    now - s.questionStartTime.GetOr(0)
  }

  /** Once a question is served, the elapsed time is the time since serving. */
  lemma ElapsedSinceServed(s: Session, question: ShuffledQuestion, served: int, now: int)
    ensures Elapsed(Served(s, question, served), now) == now - served
  { }

  /** The session after an answer (the source needs a served snapshot, or
      it throws before changing anything). The answer is judged against the
      stored snapshot and timer, which stay as they are. */
  function Answered(s: Session, answerIndex: int, now: int): (r: Session)
    requires s.index < |s.questions| && s.shuffled.Some?
    ensures r.index == s.index + 1 && |r.answers| == |s.answers| + 1 && r.answers[..|s.answers|] == s.answers
    ensures var a := r.answers[|s.answers|];
      && a.questionId == s.questions[s.index].id && a.answerIndex == answerIndex
      && (a.correct <==> answerIndex == s.shuffled.value.correct)
      && a.timeSpentMs == Elapsed(s, now) && (a.wasInTime <==> Elapsed(s, now) <= TimeLimitMs)
      && !a.timeout
      && r.score == s.score + a.points && r.timeBonus == s.timeBonus + a.timeBonus
      && a.timeBonus == (if a.correct && a.wasInTime then TimeBonus(Elapsed(s, now)) else 0)
      && a.points == (if a.correct && a.wasInTime then 1 + a.timeBonus else 0)
    ensures r.totalTimeMs == s.totalTimeMs + Min(Elapsed(s, now), TimeLimitMs)
    ensures r.shuffled == s.shuffled && r.questionStartTime == s.questionStartTime
    ensures r.category == s.category && r.questions == s.questions && r.startTime == s.startTime
  {
    var elapsed := Elapsed(s, now);
    var g := GradeAnswer(answerIndex, s.shuffled.value, elapsed);
    var record := AnswerRecord(s.questions[s.index].id, answerIndex, g.correct, elapsed, g.bonus, g.inTime, g.points + g.bonus, false);
    assert (s.answers + [record])[..|s.answers|] == s.answers;
    s.(score := s.score + g.points + g.bonus,
       timeBonus := s.timeBonus + g.bonus,
       totalTimeMs := s.totalTimeMs + Min(elapsed, TimeLimitMs),
       answers := s.answers + [record],
       index := s.index + 1)
  }

  /** The session after a timeout: ten seconds charged, a zero-point record
      marked as timeout, the score and the bonus total untouched. */
  function TimedOut(s: Session, now: int): (r: Session)
    requires s.index < |s.questions|
    ensures r.index == s.index + 1 && |r.answers| == |s.answers| + 1 && r.answers[..|s.answers|] == s.answers
    ensures r.answers[|s.answers|] == AnswerRecord(s.questions[s.index].id, -1, false, Elapsed(s, now), 0, false, 0, true)
    ensures r.score == s.score && r.timeBonus == s.timeBonus
    ensures r.totalTimeMs == s.totalTimeMs + TimeLimitMs
    ensures r.shuffled == s.shuffled && r.questionStartTime == s.questionStartTime
    ensures r.category == s.category && r.questions == s.questions && r.startTime == s.startTime
  {
    var record := AnswerRecord(s.questions[s.index].id, -1, false, Elapsed(s, now), 0, false, 0, true);
    assert (s.answers + [record])[..|s.answers|] == s.answers;
    s.(totalTimeMs := s.totalTimeMs + TimeLimitMs,
       answers := s.answers + [record],
       index := s.index + 1)
  }

  /** `isLastQuestion`: every question has been answered or timed out. */
  predicate Finished(s: Session) {
    s.index >= |s.questions|
  }

  // ---------------------------------------------------------------------------
  // The session invariant

  /** What every record written by the handlers satisfies. */
  predicate RecordOk(a: AnswerRecord) {
    && 0 <= a.timeBonus <= 3
    && (if a.correct && a.wasInTime then a.points == 1 + a.timeBonus else a.points == 0 && a.timeBonus == 0)
    && (a.wasInTime ==> a.timeSpentMs <= TimeLimitMs)
    && (a.timeout ==> !a.correct && !a.wasInTime && a.answerIndex == -1)
  }

  function SumPoints(answers: seq<AnswerRecord>): int {
    if |answers| == 0 then 0 else SumPoints(answers[..|answers| - 1]) + answers[|answers| - 1].points
  }

  function SumBonus(answers: seq<AnswerRecord>): int {
    if |answers| == 0 then 0 else SumBonus(answers[..|answers| - 1]) + answers[|answers| - 1].timeBonus
  }

  /** `correctAnswers`: the records marked correct, in time or not. */
  function CountCorrect(answers: seq<AnswerRecord>): (c: nat)
    ensures c <= |answers|
  {
    if |answers| == 0 then 0
    else CountCorrect(answers[..|answers| - 1]) + (if answers[|answers| - 1].correct then 1 else 0)
  }

  /** One record per question asked so far, for the questions in order;
      the score and the bonus total are the sums over the records; the
      snapshot and its timer are set together; at most ten seconds are
      charged per question. */
  predicate SessionInv(s: Session) {
    && |s.answers| == s.index <= |s.questions|
    && (forall k :: 0 <= k < |s.answers| ==> RecordOk(s.answers[k]))
    && (forall k :: 0 <= k < |s.answers| ==> s.answers[k].questionId == s.questions[k].id)
    && s.score == SumPoints(s.answers)
    && s.timeBonus == SumBonus(s.answers)
    && s.totalTimeMs <= TimeLimitMs * s.index
    && (s.shuffled.Some? <==> s.questionStartTime.Some?)
  }

  lemma ServedKeepsInv(s: Session, question: ShuffledQuestion, now: int)
    requires SessionInv(s)
    ensures SessionInv(Served(s, question, now))
  {
  }

  lemma AnsweredKeepsInv(s: Session, answerIndex: int, now: int)
    requires SessionInv(s) && s.index < |s.questions| && s.shuffled.Some?
    ensures SessionInv(Answered(s, answerIndex, now))
  {
    var r := Answered(s, answerIndex, now);
    assert r.answers[..|r.answers| - 1] == s.answers;
    forall k | 0 <= k < |r.answers| ensures RecordOk(r.answers[k]) && r.answers[k].questionId == r.questions[k].id {
      if k < |s.answers| {
        assert r.answers[k] == s.answers[k];
      }
    }
  }

  lemma TimedOutKeepsInv(s: Session, now: int)
    requires SessionInv(s) && s.index < |s.questions|
    ensures SessionInv(TimedOut(s, now))
  {
    var r := TimedOut(s, now);
    assert r.answers[..|r.answers| - 1] == s.answers;
    forall k | 0 <= k < |r.answers| ensures RecordOk(r.answers[k]) && r.answers[k].questionId == r.questions[k].id {
      if k < |s.answers| {
        assert r.answers[k] == s.answers[k];
      }
    }
  }

  lemma {:induction false} SumsBounded(answers: seq<AnswerRecord>)
    requires forall k :: 0 <= k < |answers| ==> RecordOk(answers[k])
    ensures 0 <= SumBonus(answers) <= SumPoints(answers) <= MaxPointsPerQuestion * |answers|
    ensures SumBonus(answers) <= 3 * |answers|
    decreases |answers|
  {
    if |answers| > 0 {
      var prefix := answers[..|answers| - 1];
      assert forall k :: 0 <= k < |prefix| ==> prefix[k] == answers[k];
      SumsBounded(prefix);
      assert RecordOk(answers[|answers| - 1]);
    }
  }

  /** The score is at most four points per question asked, and the bonus
      total is part of it. */
  lemma ScoreBounded(s: Session)
    requires SessionInv(s)
    ensures 0 <= s.timeBonus <= s.score <= MaxPointsPerQuestion * s.index
    ensures s.timeBonus <= 3 * s.index
  {
    SumsBounded(s.answers);
  }

  /** A scoring record is a correct one, so the number of correct answers
      is at least the number of records that earned points. */
  function CountScoring(answers: seq<AnswerRecord>): nat {
    if |answers| == 0 then 0
    else CountScoring(answers[..|answers| - 1]) + (if answers[|answers| - 1].points > 0 then 1 else 0)
  }

  lemma {:induction false} ScoringRecordsAreCorrect(answers: seq<AnswerRecord>)
    requires forall k :: 0 <= k < |answers| ==> RecordOk(answers[k])
    ensures CountScoring(answers) <= CountCorrect(answers)
    ensures SumPoints(answers) <= MaxPointsPerQuestion * CountCorrect(answers)
    decreases |answers|
  {
    if |answers| > 0 {
      var prefix := answers[..|answers| - 1];
      assert forall k :: 0 <= k < |prefix| ==> prefix[k] == answers[k];
      ScoringRecordsAreCorrect(prefix);
      assert RecordOk(answers[|answers| - 1]);
    }
  }

  /** `isLastQuestion` holds after a step exactly when that step was on the
      last question, whatever the answer. */
  lemma LastStepFinishes(s: Session, now: int)
    requires SessionInv(s) && s.index < |s.questions|
    ensures Finished(TimedOut(s, now)) <==> s.index == |s.questions| - 1
    ensures s.shuffled.Some? ==>
      forall answerIndex :: Finished(Answered(s, answerIndex, now)) <==> s.index == |s.questions| - 1
  {
  }

  // ---------------------------------------------------------------------------
  // The result

  /** The result record. The ratios are None where the source divides by a
      question count of zero and gets `NaN` (sent as `null`). Times are in
      whole seconds and tenths of a second. */
  datatype Summary = Summary(
    score: int,
    correctAnswers: nat,
    totalQuestions: nat,
    percentage: Option<int>,
    scorePercentage: Option<int>,
    category: string,
    answers: seq<AnswerRecord>,
    totalTimeSeconds: int,
    avgTimeTenths: Option<int>,
    timeBonus: int,
    totalPossibleScore: int)

  /** `percentage` rounds 100·correct/N, `scorePercentage` rounds
      100·score/(4N), `totalTimeSpent` rounds the seconds, and
      `avgTimePerQuestion` rounds the seconds per question to one decimal. */
  function Summarize(s: Session, categoryName: string): (r: Summary)
    ensures r.totalQuestions == |s.questions| && r.totalPossibleScore == MaxPointsPerQuestion * |s.questions|
    ensures r.correctAnswers == CountCorrect(s.answers) && r.answers == s.answers
    ensures r.score == s.score && r.timeBonus == s.timeBonus && r.category == categoryName
    ensures var n := |s.questions|;
      && (n == 0 <==> r.percentage.None?)
      && (n == 0 <==> r.scorePercentage.None?)
      && (n == 0 <==> r.avgTimeTenths.None?)
      && (n > 0 ==> 2 * n * r.percentage.value <= 200 * r.correctAnswers + n < 2 * n * (r.percentage.value + 1))
      && (n > 0 ==> 8 * n * r.scorePercentage.value <= 200 * s.score + 4 * n < 8 * n * (r.scorePercentage.value + 1))
      && (n > 0 ==> 200 * n * r.avgTimeTenths.value <= 2 * s.totalTimeMs + 100 * n < 200 * n * (r.avgTimeTenths.value + 1))
    ensures 2000 * r.totalTimeSeconds <= 2 * s.totalTimeMs + 1000 < 2000 * (r.totalTimeSeconds + 1)
  {
    var n := |s.questions|;
    var correct := CountCorrect(s.answers);
    Summary(
      s.score, correct, n,
      if n == 0 then None else Some(RoundDiv(100 * correct, n)),
      if n == 0 then None else Some(RoundDiv(100 * s.score, MaxPointsPerQuestion * n)),
      categoryName, s.answers,
      RoundDiv(s.totalTimeMs, 1000),
      if n == 0 then None else Some(RoundDiv(s.totalTimeMs, 100 * n)),
      s.timeBonus, MaxPointsPerQuestion * n)
  }

  /** For a session that keeps its invariant, both percentages lie in
      0..100. */
  lemma PercentagesInRange(s: Session, categoryName: string)
    requires SessionInv(s) && |s.questions| > 0
    ensures 0 <= Summarize(s, categoryName).percentage.value <= 100
    ensures 0 <= Summarize(s, categoryName).scorePercentage.value <= 100
  {
    var n := |s.questions|;
    ScoreBounded(s);
    RoundDivPercent(CountCorrect(s.answers), n);
    ScaleMonotone(MaxPointsPerQuestion, s.index, n);
    RoundDivPercent(s.score, MaxPointsPerQuestion * n);
  }

  /** The answer and timeout response. */
  datatype Verdict = Verdict(
    correct: bool,
    correctAnswer: int,
    score: int,
    timeSpentMs: int,
    timeBonus: int,
    wasInTime: bool,
    points: int,
    timeout: bool,
    isLastQuestion: bool)

  /** The response after a step: the new record, the shuffled question's
      correct index, the new score, and whether the quiz is over. */
  function Report(after: Session, correctAnswer: int): (v: Verdict)
    requires |after.answers| > 0
    ensures var a := after.answers[|after.answers| - 1];
      && v.correct == a.correct && v.points == a.points && v.timeBonus == a.timeBonus
      && v.wasInTime == a.wasInTime && v.timeSpentMs == a.timeSpentMs && v.timeout == a.timeout
    ensures v.score == after.score && v.correctAnswer == correctAnswer
    ensures v.isLastQuestion <==> Finished(after)
  {
    var a := after.answers[|after.answers| - 1];
    Verdict(a.correct, correctAnswer, after.score, a.timeSpentMs, a.timeBonus, a.wasInTime, a.points, a.timeout, Finished(after))
  }
}
