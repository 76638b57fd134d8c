/**
 * The end-of-quiz summary (`components/ResultsSummary.tsx`): the counts and
 * accuracy of a finished session, the catalogue words that were missed, the
 * duration as text, and the one encouragement shown for the accuracy.
 */
module ResultsSummary {
  import opened JsArrays
  import opened JsMath
  import opened JsText
  import opened Vocab

  datatype Summary = Summary(
    totalQuestions: nat,
    correctAnswers: nat,
    incorrectAnswers: int,
    accuracy: nat,
    missedWords: seq<Word>)

  /** The four encouragements, from the best accuracy band to the worst. */
  datatype Message = Excellent | GoodJob | RightTrack | KeepPracticing

  function WasCorrect(a: Answer): bool { a.isCorrect }

  function WasWrong(a: Answer): bool { !a.isCorrect }

  function AnswerWordId(a: Answer): nat { a.wordId }

  /** `answers.filter(a => !a.isCorrect).map(a => a.wordId)`. */
  function MissedWordIds(answers: seq<Answer>): seq<nat> {
    Map(Filter(answers, WasWrong), AnswerWordId)
  }

  /** `w => missedWordIds.includes(w.id)`. */
  function IsMissedIn(ids: seq<nat>): Word -> bool {
    (w: Word) => w.id in ids
  }

  /** The figures of the summary for the answers of a session and the catalogue. */
  function SummaryOf(answers: seq<Answer>, catalogue: seq<Word>): Summary {
    var totalQuestions := |answers|;
    var correctAnswers := |Filter(answers, WasCorrect)|;
    var incorrectAnswers := totalQuestions - correctAnswers;
    var accuracy := if totalQuestions > 0 then RoundPercent(correctAnswers, totalQuestions) else 0;
    Summary(totalQuestions, correctAnswers, incorrectAnswers, accuracy,
            Filter(catalogue, IsMissedIn(MissedWordIds(answers))))
  }

  /**
   * The counts: every answer is either correct or incorrect, the incorrect
   * count is the number of wrong answers, and the accuracy is the rounded
   * percentage of correct answers, 0 for a session without answers.
   */
  lemma SummaryCounts(answers: seq<Answer>, catalogue: seq<Word>)
    ensures var s := SummaryOf(answers, catalogue);
      && s.totalQuestions == |answers|
      && s.correctAnswers + s.incorrectAnswers == s.totalQuestions
      && s.incorrectAnswers == |Filter(answers, WasWrong)|
      && (s.totalQuestions == 0 ==> s.accuracy == 0)
      && (s.totalQuestions > 0 ==>
            s.accuracy == MathRound(s.correctAnswers as real / s.totalQuestions as real * 100.0))
      && s.accuracy <= 100
  {
    FilterSplitsLength(answers, WasCorrect, WasWrong);
    if |answers| > 0 {
      RoundPercentIsMathRound(|Filter(answers, WasCorrect)|, |answers|);
    }
  }

  /** Every answer is correct exactly when no answer is wrong. */
  lemma {:induction false} NoneWrong(answers: seq<Answer>)
    ensures Filter(answers, WasWrong) == [] <==> forall i :: 0 <= i < |answers| ==> answers[i].isCorrect
  {
    if answers != [] {
      NoneWrong(answers[1..]);
      assert forall i :: 1 <= i < |answers| ==> answers[i] == answers[1..][i - 1];
    }
  }

  /** An id is among the missed ids exactly when some answer for that word was wrong. */
  lemma MissedIdsMembers(answers: seq<Answer>, id: nat)
    ensures id in MissedWordIds(answers) <==> exists i :: 0 <= i < |answers| && !answers[i].isCorrect && answers[i].wordId == id
  {
    var wrong := Filter(answers, WasWrong);
    FilterMembers(answers, WasWrong);
    if id in MissedWordIds(answers) {
      var k :| 0 <= k < |wrong| && AnswerWordId(wrong[k]) == id;
      assert wrong[k] in answers && WasWrong(wrong[k]);
      var i :| 0 <= i < |answers| && answers[i] == wrong[k];
    }
    if exists i :: 0 <= i < |answers| && !answers[i].isCorrect && answers[i].wordId == id {
      var i :| 0 <= i < |answers| && !answers[i].isCorrect && answers[i].wordId == id;
      assert answers[i] in wrong;
      var k :| 0 <= k < |wrong| && wrong[k] == answers[i];
      assert MissedWordIds(answers)[k] == id;
    }
  }

  /**
   * The missed words are the catalogue words answered wrongly at least once:
   * each such word is listed and nothing else, in catalogue order (a
   * subsequence of the catalogue), and a word missed several times is listed
   * once when the catalogue lists it once.
   */
  lemma MissedWordsSpec(answers: seq<Answer>, catalogue: seq<Word>)
    ensures var m := SummaryOf(answers, catalogue).missedWords;
      && (forall w :: w in m <==> w in catalogue && exists i :: 0 <= i < |answers| && !answers[i].isCorrect && answers[i].wordId == w.id)
      && m == Filter(catalogue, IsMissedIn(MissedWordIds(answers)))
      && multiset(m) <= multiset(catalogue)
      && (Distinct(catalogue) ==> Distinct(m))
  {
    var ids := MissedWordIds(answers);
    var m := Filter(catalogue, IsMissedIn(ids));
    FilterMembers(catalogue, IsMissedIn(ids));
    FilterSubMultiset(catalogue, IsMissedIn(ids));
    if Distinct(catalogue) {
      SubMultisetOfDistinct(catalogue, m);
    }
    forall w ensures w in m <==> w in catalogue && exists i :: 0 <= i < |answers| && !answers[i].isCorrect && answers[i].wordId == w.id {
      MissedIdsMembers(answers, w.id);
      if w in m {
        var k :| 0 <= k < |m| && m[k] == w;
        assert IsMissedIn(ids)(m[k]);
      }
      if w in catalogue && w.id in ids {
        var k :| 0 <= k < |catalogue| && catalogue[k] == w;
        assert IsMissedIn(ids)(catalogue[k]);
      }
    }
  }

  /**
   * The "Perfect Score!" panel (shown when no word is missed) appears exactly
   * when no wrong answer names a catalogue word; when every answer names a
   * catalogue word, exactly when there are no incorrect answers.
   */
  lemma PerfectScorePanel(answers: seq<Answer>, catalogue: seq<Word>)
    ensures var s := SummaryOf(answers, catalogue);
      && (s.missedWords == [] <==>
            forall i, j :: 0 <= i < |answers| && 0 <= j < |catalogue| && !answers[i].isCorrect ==> answers[i].wordId != catalogue[j].id)
      && ((forall i :: 0 <= i < |answers| ==> exists j :: 0 <= j < |catalogue| && catalogue[j].id == answers[i].wordId)
            ==> (s.missedWords == [] <==> s.incorrectAnswers == 0))
  {
    var s := SummaryOf(answers, catalogue);
    MissedWordsSpec(answers, catalogue);
    SummaryCounts(answers, catalogue);
    NoneWrong(answers);
    if s.missedWords != [] {
      assert s.missedWords[0] in s.missedWords;
    }
  }

  // ---------------------------------------------------------------------------
  // Duration and message
  // ---------------------------------------------------------------------------

  /** `formatDuration(seconds)`: whole minutes, "m ", the remaining seconds, "s". */
  function FormatDuration(seconds: nat): string {
    NatToString(seconds / 60) + "m " + NatToString(seconds % 60) + "s"
  }

  /**
   * The text reads back as the duration: its minute digits and second digits
   * give `seconds` as `60 × minutes + seconds`, with fewer than 60 seconds.
   */
  lemma FormatDurationReadsBack(seconds: nat)
    ensures var m, s := NatToString(seconds / 60), NatToString(seconds % 60);
      && FormatDuration(seconds) == m + "m " + s + "s"
      && 60 * DigitsValue(m) + DigitsValue(s) == seconds
      && DigitsValue(s) < 60
  {
    NatToStringRoundTrip(seconds / 60);
    NatToStringRoundTrip(seconds % 60);
  }

  /**
   * The encouragements rendered for an accuracy: each of the four
   * paragraphs has its own condition, and those that hold are shown in order.
   */
  function Messages(accuracy: int): seq<Message> {
    (if accuracy >= 90 then [Excellent] else [])
    + (if accuracy >= 70 && accuracy < 90 then [GoodJob] else [])
    + (if accuracy >= 50 && accuracy < 70 then [RightTrack] else [])
    + (if accuracy < 50 then [KeepPracticing] else [])
  }

  /** The band an accuracy falls in. */
  function Band(accuracy: int): Message {
    if accuracy >= 90 then Excellent
    else if accuracy >= 70 then GoodJob
    else if accuracy >= 50 then RightTrack
    else KeepPracticing
  }

  /** The four conditions split the accuracies: exactly one message is shown, that of the band. */
  lemma ExactlyOneMessage(accuracy: int)
    ensures Messages(accuracy) == [Band(accuracy)]
  {
  }

  /** A better accuracy never earns a worse band. */
  lemma BandMonotone(a: int, b: int)
    requires a <= b
    ensures BandRank(Band(a)) <= BandRank(Band(b))
  {
  }

  function BandRank(m: Message): nat {
    match m
    case KeepPracticing => 0
    case RightTrack => 1
    case GoodJob => 2
    case Excellent => 3
  }
}
