/**
 * The quiz screen (`components/QuizSession.tsx`): it asks generated
 * questions one at a time, records each answer, shows feedback and moves on
 * after a pause, ends a word-count quiz after the chosen number of answers
 * and a timed quiz when five minutes have run out, and posts the answers of
 * a finished quiz to the shared statistics.
 */
module QuizSession {
  import opened Wrappers
  import opened JsArrays
  import opened JsText
  import opened Vocab
  import opened RandomSource
  import QuestionGen
  import Storage
  import ResultsSummary

  /** The length of a timed quiz: five minutes, in seconds. */
  const TimedQuizSeconds := 300

  /**
   * The auto-advance an answer schedules with `setTimeout`, with what its
   * closure captured: the answer count before the answer and the answers
   * after it.
   */
  datatype Pending = Pending(answeredBefore: nat, updatedAnswers: seq<Answer>)

  /** The answer `handleAnswer` records when option `optionId` is chosen for `q` at time `now`. */
  function AnswerTo(q: Question, optionId: nat, now: int): Answer {
    Answer(q.word.id, q.word.id, optionId, q.correctOptionId, optionId == q.correctOptionId, now)
  }

  /** What every recorded answer satisfies: it is about a catalogue word, and it is correct exactly when the correct option was chosen. */
  predicate RecordedAnswer(a: Answer, words: seq<Word>) {
    && a.questionId == a.wordId
    && a.correctOptionId == a.wordId
    && a.isCorrect == (a.selectedOptionId == a.correctOptionId)
    && a.wordId in WordIds(words)
  }

  /** What answering relies on in a generated question: it asks about a catalogue word, whose id marks the correct option. */
  predicate Askable(q: Question, words: seq<Word>) {
    q.word in words && q.correctOptionId == q.word.id
  }

  predicate AllRecorded(answers: seq<Answer>, words: seq<Word>) {
    forall i :: 0 <= i < |answers| ==> RecordedAnswer(answers[i], words)
  }

  /** `{ wordId, isCorrect }` for one answer. */
  function SubmissionOf(a: Answer): AnswerSubmission {
    AnswerSubmission(a.wordId, a.isCorrect)
  }

  /** The body `submitAnswersToBackend` posts for a list of answers. */
  function Submissions(answers: seq<Answer>): seq<AnswerSubmission> {
    Map(answers, SubmissionOf)
  }

  function SubmissionCorrect(s: AnswerSubmission): bool { s.isCorrect }

  /**
   * The submissions carry one entry per answer, in order, with its word and
   * outcome; the server therefore counts as many correct answers as the
   * results screen shows.
   */
  lemma {:induction false} SubmittedCorrect(answers: seq<Answer>, catalogue: seq<Word>)
    ensures |Submissions(answers)| == |answers|
    ensures forall i :: 0 <= i < |answers| ==>
      Submissions(answers)[i].wordId == answers[i].wordId && Submissions(answers)[i].isCorrect == answers[i].isCorrect
    ensures |Filter(Submissions(answers), SubmissionCorrect)| == ResultsSummary.SummaryOf(answers, catalogue).correctAnswers
  {
    if answers != [] {
      SubmittedCorrect(answers[1..], catalogue);
      assert Submissions(answers)[1..] == Submissions(answers[1..]);
    }
  }

  /** A catalogue word's id is among the catalogue ids. */
  lemma IdInWordIds(words: seq<Word>, w: Word)
    requires w in words
    ensures w.id in WordIds(words)
  {
    var j :| 0 <= j < |words| && words[j] == w;
    assert WordIds(words)[j] == w.id;
  }

  /**
   * On the results of a quiz, whose answers are all recorded for catalogue
   * words, the "Perfect Score!" panel shows exactly when no answer was wrong,
   * and the submitted correct answers are the summary's correct answers.
   */
  lemma RecordedSummary(answers: seq<Answer>, words: seq<Word>)
    requires forall i :: 0 <= i < |answers| ==> RecordedAnswer(answers[i], words)
    ensures var s := ResultsSummary.SummaryOf(answers, words);
      && (s.missedWords == [] <==> s.incorrectAnswers == 0)
      && |Filter(Submissions(answers), SubmissionCorrect)| == s.correctAnswers
  {
    forall i | 0 <= i < |answers|
      ensures exists j :: 0 <= j < |words| && words[j].id == answers[i].wordId
    {
      assert answers[i].wordId in WordIds(words);
      var j :| 0 <= j < |WordIds(words)| && WordIds(words)[j] == answers[i].wordId;
      assert words[j].id == answers[i].wordId;
    }
    ResultsSummary.PerfectScorePanel(answers, words);
    SubmittedCorrect(answers, words);
  }

  // ---------------------------------------------------------------------------
  // Time
  // ---------------------------------------------------------------------------

  /** `formatTime`: whole minutes, a colon, and the remaining seconds on two digits. */
  function FormatTime(seconds: nat): string {
    NatToString(seconds / 60) + ":" + PadStart2(NatToString(seconds % 60))
  }

  /** A digit after a leading zero reads as the digit. */
  lemma LeadingZero(d: char)
    requires IsDigit(d)
    ensures AllDigits(['0', d]) && DigitsValue(['0', d]) == DigitValue(d)
  {
    assert ['0', d][..1] == ['0'];
    assert ['0'][..0] == [];
  }

  /**
   * The clock reads back as the time left: the seconds always take two
   * digits, and the minute digits and second digits give `seconds` as
   * `60 × minutes + seconds`, with fewer than 60 seconds.
   */
  lemma FormatTimeReadsBack(seconds: nat)
    ensures var m, s := NatToString(seconds / 60), PadStart2(NatToString(seconds % 60));
      && FormatTime(seconds) == m + ":" + s
      && |s| == 2 && AllDigits(s)
      && 60 * DigitsValue(m) + DigitsValue(s) == seconds
      && DigitsValue(s) < 60
  {
    var d := NatToString(seconds % 60);
    NatToStringRoundTrip(seconds / 60);
    NatToStringRoundTrip(seconds % 60);
    if |d| == 1 {
      LeadingZero(d[0]);
      assert PadStart2(d) == ['0', d[0]];
      assert d[..0] == [];
    }
  }

  /**
   * `generator.generateQuestion(questionType)` as the screen calls it: the
   * question drawn from the wheel, which exists exactly for a non-empty
   * catalogue and is then well formed.
   */
  method NextQuestion(gen: QuestionGen.QuestionGenerator, guest: map<nat, Perf>, qtype: QuestionType, rng: Random)
    returns (q: Option<Question>)
    requires rng.Valid()
    modifies rng
    ensures q == QuestionGen.QuestionFrom(gen.words,
      old(QuestionGen.Weights(gen.words, gen.PerformanceUsed(guest), gen.globalStats)), qtype, rng.draw, old(rng.calls))
    ensures q.Some? <==> |gen.words| > 0
    ensures q.Some? ==> QuestionGen.Generated(q.value, gen.words, qtype) && Askable(q.value, gen.words)
  {
    ghost var k := rng.calls;
    q := gen.GenerateQuestion(qtype, guest, rng);
    QuestionGen.GeneratedOf(gen.words,
      QuestionGen.Weights(gen.words, gen.PerformanceUsed(guest), gen.globalStats), qtype, rng.draw, k, q);
  }

  // ---------------------------------------------------------------------------
  // The session
  // ---------------------------------------------------------------------------

  /**
   * One quiz screen. `questionCount` is the number chosen on the setup
   * screen (absent outside word-count mode); `generator` is the screen's
   * question generator over the catalogue; `submissions` lists the bodies
   * posted to the submit route, oldest first.
   */
  class Quiz {
    const mode: StudyMode
    const questionType: QuestionType
    const questionCount: Option<int>
    const generator: QuestionGen.QuestionGenerator
    var currentQuestion: Option<Question>
    var answers: seq<Answer>
    var timeRemaining: Option<int>
    var questionsAnswered: nat
    var isFinished: bool
    var selectedOption: Option<nat>
    var showFeedback: bool
    var pending: Option<Pending>
    var submissions: seq<seq<AnswerSubmission>>

    /**
     * `mode === WORD_COUNT && questionCount` (a number is truthy unless 0):
     * the quiz then ends after `questionCount` answers, or after the first
     * one when the count is negative.
     */
    function AnswerLimit(): Option<nat> {
      if mode == WordCount && questionCount.Some? && questionCount.value != 0
      then Some(if questionCount.value >= 1 then questionCount.value else 1)
      else None
    }

    ghost predicate Valid()
      reads this
    {
      && questionsAnswered == |answers|
      && (showFeedback <==> selectedOption.Some?)
      && (showFeedback ==> |answers| > 0 && selectedOption == Some(answers[|answers| - 1].selectedOptionId))
      && (pending.Some? ==> showFeedback && pending.value == Pending(|answers| - 1, answers))
      && AllRecorded(answers, generator.words)
      && (currentQuestion.Some? ==> Askable(currentQuestion.value, generator.words))
      && (mode == Timed <==> timeRemaining.Some?)
      && (timeRemaining.Some? ==> 0 <= timeRemaining.value <= TimedQuizSeconds)
      && (AnswerLimit().Some? ==>
            |answers| <= AnswerLimit().value && (|answers| == AnswerLimit().value ==> showFeedback))
      && (mode == WordCount && isFinished ==> AnswerLimit().Some? && |answers| == AnswerLimit().value)
      && (mode == Timed && isFinished ==> timeRemaining == Some(0))
      && (isFinished ==> |submissions| > 0 && submissions[|submissions| - 1] == Submissions(answers))
    }

    /** The screen as first rendered: no question yet, no answers, five minutes on a timed quiz. */
    constructor (mode: StudyMode, questionType: QuestionType, questionCount: Option<int>, generator: QuestionGen.QuestionGenerator)
      ensures Valid()
      ensures this.mode == mode && this.questionType == questionType
      ensures this.questionCount == questionCount && this.generator == generator
      ensures currentQuestion.None? && answers == [] && questionsAnswered == 0
      ensures timeRemaining == (if mode == Timed then Some(TimedQuizSeconds) else None)
      ensures !isFinished && selectedOption.None? && !showFeedback && pending.None? && submissions == []
    {
      this.mode := mode;
      this.questionType := questionType;
      this.questionCount := questionCount;
      this.generator := generator;
      currentQuestion := None;
      answers := [];
      timeRemaining := if mode == Timed then Some(TimedQuizSeconds) else None;
      questionsAnswered := 0;
      isFinished := false;
      selectedOption := None;
      showFeedback := false;
      pending := None;
      submissions := [];
    }

    /**
     * The data fetched on mount: the shared statistics when the request
     * succeeded, and the user's record when it is non-empty.
     */
    method LoadPerformanceData(globalStats: Option<map<nat, GlobalStat>>, userPerformance: map<nat, Perf>)
      requires Valid()
      modifies generator
      ensures Valid()
      ensures generator.globalStats == (if globalStats.Some? then globalStats.value else old(generator.globalStats))
      ensures generator.userPerformance ==
        (if |userPerformance.Keys| > 0 then Some(userPerformance) else old(generator.userPerformance))
    {
      if globalStats.Some? {
        generator.SetGlobalStats(globalStats.value);
      }
      if |userPerformance.Keys| > 0 {
        generator.SetUserPerformance(userPerformance);
      }
    }

    /**
     * The first question, once the statistics are loaded; the guest record
     * is read from browser storage. With an empty catalogue the generator
     * throws out of the effect (the error goes to React's error handling);
     * here the result is `None` and the screen's state is left unchanged.
     */
    method ShowFirstQuestion(store: Storage.BrowserStorage, rng: Random) returns (q: Option<Question>)
      requires Valid() && rng.Valid()
      modifies this, rng
      ensures Valid()
      ensures q == QuestionGen.QuestionFrom(generator.words,
        old(QuestionGen.Weights(generator.words, generator.PerformanceUsed(store.performance), generator.globalStats)),
        questionType, rng.draw, old(rng.calls))
      ensures q.Some? <==> |generator.words| > 0
      ensures currentQuestion == (if q.Some? then q else old(currentQuestion))
      ensures answers == old(answers) && showFeedback == old(showFeedback) && pending == old(pending)
      ensures isFinished == old(isFinished) && timeRemaining == old(timeRemaining) && submissions == old(submissions)
    {
      q := NextQuestion(generator, store.performance, questionType, rng);
      if q.Some? {
        SetCurrentQuestion(q.value);
      }
    }

    /**
     * `handleAnswer`: ignored without a question or while feedback shows;
     * otherwise the choice is recorded with its outcome, counted in the
     * browser's record for a guest, and the auto-advance is scheduled.
     * The question card, the only caller, is not rendered once the quiz is
     * finished.
     */
    method HandleAnswer(optionId: nat, now: int, store: Storage.BrowserStorage, signedIn: Option<Storage.User>)
      requires Valid() && !isFinished
      modifies this, store
      ensures Valid()
      ensures old(currentQuestion.None? || showFeedback) ==> unchanged(this) && unchanged(store)
      ensures old(currentQuestion.Some? && !showFeedback) ==>
        && answers == old(answers) + [AnswerTo(old(currentQuestion.value), optionId, now)]
        && (answers[|answers| - 1].isCorrect <==> optionId == old(currentQuestion.value.correctOptionId))
        && questionsAnswered == old(questionsAnswered) + 1
        && selectedOption == Some(optionId) && showFeedback
        && pending == Some(Pending(old(questionsAnswered), answers))
        && currentQuestion == old(currentQuestion) && isFinished == old(isFinished)
        && timeRemaining == old(timeRemaining) && submissions == old(submissions)
        && store.userCacheChecked && store.userCache == old(store.CurrentUser(signedIn))
        && store.storedUser == (if old(store.userCacheChecked) then old(store.storedUser) else store.userCache)
        && (old(store.CurrentUser(signedIn)).None? ==>
              store.performance == Storage.GuestUpdated(old(store.performance), old(currentQuestion.value.word.id),
                                                        optionId == old(currentQuestion.value.correctOptionId)))
        && (old(store.CurrentUser(signedIn)).Some? ==> store.performance == old(store.performance))
    {
      if currentQuestion.None? || showFeedback {
        return;
      }
      var q := currentQuestion.value;
      IdInWordIds(generator.words, q.word);
      selectedOption := Some(optionId);
      showFeedback := true;
      var isCorrect := optionId == q.correctOptionId;
      var answer := Answer(q.word.id, q.word.id, optionId, q.correctOptionId, isCorrect, now);
      var updatedAnswers := answers + [answer];
      answers := updatedAnswers;
      store.UpdateWordPerformance(q.word.id, isCorrect, signedIn);
      pending := Some(Pending(questionsAnswered, updatedAnswers));
      questionsAnswered := questionsAnswered + 1;
    }

    /**
     * The scheduled auto-advance: a word-count quiz whose count is reached
     * ends and posts the captured answers; otherwise the next question is
     * generated and the feedback cleared. When the generator throws (an
     * empty catalogue), the callback stops before any update.
     */
    method AutoAdvance(store: Storage.BrowserStorage, rng: Random) returns (q: Option<Question>)
      requires Valid() && pending.Some? && rng.Valid()
      modifies this, rng
      ensures Valid() && pending.None?
      ensures answers == old(answers) && timeRemaining == old(timeRemaining)
      ensures CountReached(old(pending.value)) ==>
        && isFinished && submissions == old(submissions) + [Submissions(old(pending.value.updatedAnswers))]
        && currentQuestion == old(currentQuestion) && showFeedback
      ensures !CountReached(old(pending.value)) ==>
        && q == QuestionGen.QuestionFrom(generator.words,
             old(QuestionGen.Weights(generator.words, generator.PerformanceUsed(store.performance), generator.globalStats)),
             questionType, rng.draw, old(rng.calls))
        && isFinished == old(isFinished) && submissions == old(submissions)
        && (q.Some? ==> currentQuestion == q && selectedOption.None? && !showFeedback)
        && (q.None? ==> currentQuestion == old(currentQuestion) && showFeedback)
    {
      if CountReached(pending.value) {
        FinishWordCount();
        q := None;
      } else {
        q := NextQuestion(generator, store.performance, questionType, rng);
        MoveOn(q);
      }
    }

    /** `mode === WORD_COUNT && questionCount && questionsAnswered + 1 >= questionCount`, on the captured count. */
    predicate CountReached(p: Pending) {
      mode == WordCount && questionCount.Some? && questionCount.value != 0 && p.answeredBefore + 1 >= questionCount.value
    }

    /** The end of the auto-advance callback when a word-count quiz has its answers: it ends and posts them. */
    method FinishWordCount()
      requires Valid() && pending.Some? && CountReached(pending.value)
      modifies this
      ensures Valid() && pending.None? && isFinished
      ensures submissions == old(submissions) + [Submissions(old(pending.value.updatedAnswers))]
      ensures answers == old(answers) && currentQuestion == old(currentQuestion)
      ensures timeRemaining == old(timeRemaining) && showFeedback
    {
      var p := pending.value;
      pending := None;
      isFinished := true;
      SubmitAnswersToBackend(p.updatedAnswers);
    }

    /** `setCurrentQuestion` with a question the generator produced. */
    method SetCurrentQuestion(q: Question)
      requires Valid() && Askable(q, generator.words)
      modifies this
      ensures Valid() && currentQuestion == Some(q)
      ensures answers == old(answers) && showFeedback == old(showFeedback) && pending == old(pending)
      ensures isFinished == old(isFinished) && timeRemaining == old(timeRemaining) && submissions == old(submissions)
    {
      currentQuestion := Some(q);
    }

    /**
     * The end of the auto-advance callback when the quiz goes on: the next
     * question with the feedback cleared, or, when the generator threw,
     * no update at all.
     */
    method MoveOn(next: Option<Question>)
      requires Valid() && pending.Some? && !CountReached(pending.value)
      requires next.Some? ==> Askable(next.value, generator.words)
      modifies this
      ensures Valid() && pending.None?
      ensures answers == old(answers) && isFinished == old(isFinished)
      ensures timeRemaining == old(timeRemaining) && submissions == old(submissions)
      ensures next.Some? ==> currentQuestion == next && selectedOption.None? && !showFeedback
      ensures next.None? ==> currentQuestion == old(currentQuestion) && showFeedback
    {
      pending := None;
      if next.Some? {
        currentQuestion := next;
        selectedOption := None;
        showFeedback := false;
      }
    }

    /** `submitAnswersToBackend`: one post of every answer's word and outcome. */
    method SubmitAnswersToBackend(answersList: seq<Answer>)
      modifies this
      ensures submissions == old(submissions) + [Submissions(answersList)]
      ensures currentQuestion == old(currentQuestion) && answers == old(answers)
      ensures timeRemaining == old(timeRemaining) && questionsAnswered == old(questionsAnswered)
      ensures isFinished == old(isFinished) && selectedOption == old(selectedOption)
      ensures showFeedback == old(showFeedback) && pending == old(pending)
    {
      submissions := submissions + [Submissions(answersList)];
    }

    /**
     * The timer effect of a timed quiz: with no time left the quiz ends and
     * posts every answer; with time left a one-second interval runs
     * (`ticking`); in any other mode, or once finished, nothing happens.
     */
    method TimerEffect() returns (ticking: bool)
      requires Valid()
      modifies this
      ensures Valid()
      ensures ticking <==> mode == Timed && !old(isFinished) && old(timeRemaining.value) > 0
      ensures old(mode == Timed && !isFinished && timeRemaining.value <= 0) ==>
        && isFinished && submissions == old(submissions) + [Submissions(answers)]
        && answers == old(answers) && currentQuestion == old(currentQuestion)
        && timeRemaining == old(timeRemaining) && pending == old(pending) && showFeedback == old(showFeedback)
      ensures !old(mode == Timed && !isFinished && timeRemaining.value <= 0) ==> unchanged(this)
    {
      if mode != Timed || isFinished || timeRemaining.None? {
        return false;
      }
      if timeRemaining.value <= 0 {
        isFinished := true;
        SubmitAnswersToBackend(answers);
        return false;
      }
      return true;
    }

    /** One tick of the interval, which runs only while a timed quiz has time left: one second less. */
    method Tick()
      requires Valid() && mode == Timed && !isFinished && timeRemaining.Some? && timeRemaining.value > 0
      modifies this
      ensures Valid()
      ensures timeRemaining == Some(old(timeRemaining.value) - 1)
      ensures answers == old(answers) && currentQuestion == old(currentQuestion) && isFinished == old(isFinished)
      ensures showFeedback == old(showFeedback) && pending == old(pending) && submissions == old(submissions)
    {
      timeRemaining := Some(timeRemaining.value - 1);
    }
  }


  /**
   * A finished word-count quiz holds exactly the chosen number of answers
   * (one when the number is negative), and its last post carries all of
   * them; its results show a perfect score exactly when none was wrong.
   */
  lemma FinishedWordCountQuiz(quiz: Quiz)
    requires quiz.Valid() && quiz.isFinished && quiz.mode == WordCount
    ensures quiz.questionCount.Some? && quiz.questionCount.value != 0
    ensures |quiz.answers| == (if quiz.questionCount.value >= 1 then quiz.questionCount.value else 1)
    ensures quiz.submissions[|quiz.submissions| - 1] == Submissions(quiz.answers)
    ensures var s := ResultsSummary.SummaryOf(quiz.answers, quiz.generator.words);
      s.totalQuestions == |quiz.answers| && (s.missedWords == [] <==> s.incorrectAnswers == 0)
  {
    RecordedSummary(quiz.answers, quiz.generator.words);
  }
}
