/**
 * The signed-in user's statistics page (`calculateUserStats` in
 * `app/api/user/stats/route.ts`): per-word figures built from the user's
 * performance record, running totals, and four ranked lists.
 */
module UserStats {
  import opened Wrappers
  import opened JsArrays
  import opened JsMath
  import opened Vocab

  /** One word's line on the page. */
  datatype WordStat = WordStat(
    wordId: nat,
    word: string,
    definition: string,
    synonym: string,
    correct: nat,
    incorrect: nat,
    total: nat,
    accuracy: nat)

  datatype Overview = Overview(
    totalWordsStudied: nat,
    totalAttempts: nat,
    totalCorrect: nat,
    totalIncorrect: nat,
    overallAccuracy: nat)

  datatype Report = Report(
    overview: Overview,
    strongestWords: seq<WordStat>,
    weakestWords: seq<WordStat>,
    mostPracticed: seq<WordStat>,
    mostMissed: seq<WordStat>,
    recentWords: seq<WordStat>)

  /** How many words each list shows. */
  const ListLength := 10

  /** Fewest answers for a word to be ranked by accuracy. */
  const MinRankedAttempts := 3

  /**
   * The figures for one performance entry.  Catalogue fields come from the
   * last catalogue word with that id; a word missing from the catalogue (or
   * with an empty spelling) shows as "Unknown".
   */
  function WordStatOf(catalogue: seq<Word>, entry: (nat, Perf)): (w: WordStat)
    ensures w.wordId == entry.0 && w.correct == entry.1.correct && w.incorrect == entry.1.incorrect
    ensures w.total == w.correct + w.incorrect
    ensures w.accuracy <= 100
    ensures w.total == 0 ==> w.accuracy == 0
    ensures w.total > 0 ==> w.accuracy == MathRound(w.correct as real / w.total as real * 100.0)
    ensures LookupWord(catalogue, entry.0).None? ==> w.word == "Unknown" && w.definition == "" && w.synonym == ""
  {
    var found := LookupWord(catalogue, entry.0);
    var perf := entry.1;
    var total := perf.correct + perf.incorrect;
    var accuracy := if total > 0 then Percent(perf.correct, total) else 0;
    WordStat(
      entry.0,
      if found.Some? && found.value.word != "" then found.value.word else "Unknown",
      if found.Some? then found.value.definition else "",
      if found.Some? then found.value.synonym else "",
      perf.correct,
      perf.incorrect,
      total,
      accuracy)
  }

  /** `Math.round((c / t) * 100)`. */
  function Percent(c: nat, t: nat): (r: nat)
    requires t > 0
    ensures r == MathRound(c as real / t as real * 100.0)
    ensures c <= t ==> r <= 100
  {
    RoundPercentIsMathRound(c, t);
    RoundPercent(c, t)
  }

  function CorrectOf(p: Perf): nat { p.correct }

  function IncorrectOf(p: Perf): nat { p.incorrect }

  function AttemptsOf(p: Perf): nat { p.correct + p.incorrect }

  /** The sum of `f` over the entries, added up from the first to the last. */
  function SumOf(entries: seq<(nat, Perf)>, f: Perf -> nat): nat {
    if entries == [] then 0 else SumOf(entries[..|entries| - 1], f) + f(entries[|entries| - 1].1)
  }

  /** The running attempts total is the correct total plus the incorrect total. */
  lemma {:induction false} AttemptsSplit(entries: seq<(nat, Perf)>)
    ensures SumOf(entries, AttemptsOf) == SumOf(entries, CorrectOf) + SumOf(entries, IncorrectOf)
  {
    if entries != [] {
      AttemptsSplit(entries[..|entries| - 1]);
    }
  }

  /** At most as many correct answers as answers. */
  lemma {:induction false} CorrectAtMostAttempts(entries: seq<(nat, Perf)>)
    ensures SumOf(entries, CorrectOf) <= SumOf(entries, AttemptsOf)
  {
    if entries != [] {
      CorrectAtMostAttempts(entries[..|entries| - 1]);
    }
  }

  function NegAccuracy(w: WordStat): real { -(w.accuracy as real) }

  function Accuracy(w: WordStat): real { w.accuracy as real }

  function NegTotal(w: WordStat): real { -(w.total as real) }

  function NegIncorrect(w: WordStat): real { -(w.incorrect as real) }

  function Ranked(w: WordStat): bool { w.total >= MinRankedAttempts }

  function Missed(w: WordStat): bool { w.incorrect > 0 }

  function WordStatsOf(catalogue: seq<Word>, entries: seq<(nat, Perf)>): (r: seq<WordStat>)
    ensures |r| == |entries|
    ensures forall i :: 0 <= i < |entries| ==> r[i] == WordStatOf(catalogue, entries[i])
  {
    Map(entries, StatOfEntry(catalogue))
  }

  /** The `map` callback over the entries. */
  function StatOfEntry(catalogue: seq<Word>): ((nat, Perf)) -> WordStat {
    (e: (nat, Perf)) => WordStatOf(catalogue, e)
  }

  /** The overview totals over the entries; `overallAccuracy` is 0 with no attempts. */
  function OverviewOf(entries: seq<(nat, Perf)>): Overview {
    var totalAttempts := SumOf(entries, AttemptsOf);
    var totalCorrect := SumOf(entries, CorrectOf);
    Overview(
      |entries|,
      totalAttempts,
      totalCorrect,
      SumOf(entries, IncorrectOf),
      if totalAttempts > 0 then Percent(totalCorrect, totalAttempts) else 0)
  }

  /** `strongestWords`: ranked words, by accuracy from high to low, the first ten. */
  function StrongestOf(wordStats: seq<WordStat>): seq<WordStat> {
    Slice(SortBy(Filter(wordStats, Ranked), NegAccuracy), 0, ListLength)
  }

  /** `weakestWords`: ranked words, by accuracy from low to high, the first ten. */
  function WeakestOf(wordStats: seq<WordStat>): seq<WordStat> {
    Slice(SortBy(Filter(wordStats, Ranked), Accuracy), 0, ListLength)
  }

  /** `mostPracticed`: all words, by answers from most to fewest, the first ten. */
  function MostPracticedOf(wordStats: seq<WordStat>): seq<WordStat> {
    Slice(SortBy(wordStats, NegTotal), 0, ListLength)
  }

  /** `mostMissed`: words answered wrongly at least once, by wrong answers from most to fewest, the first ten. */
  function MostMissedOf(wordStats: seq<WordStat>): seq<WordStat> {
    Slice(SortBy(Filter(wordStats, Missed), NegIncorrect), 0, ListLength)
  }

  /** `recentWords`: the last ten, reversed. */
  function RecentOf(wordStats: seq<WordStat>): seq<WordStat> {
    Reverse(Slice(wordStats, -ListLength, |wordStats|))
  }

  /** The whole page, from the overview totals to the four lists and the recent words. */
  function UserStatsOf(catalogue: seq<Word>, performance: map<nat, Perf>): Report {
    var entries := Entries(performance);
    var wordStats := WordStatsOf(catalogue, entries);
    Report(OverviewOf(entries), StrongestOf(wordStats), WeakestOf(wordStats),
           MostPracticedOf(wordStats), MostMissedOf(wordStats), RecentOf(wordStats))
  }

  /** The three running totals after one more entry. */
  lemma SumsStep(entries: seq<(nat, Perf)>, i: nat)
    requires i < |entries|
    ensures SumOf(entries[..i + 1], AttemptsOf) == SumOf(entries[..i], AttemptsOf) + AttemptsOf(entries[i].1)
    ensures SumOf(entries[..i + 1], CorrectOf) == SumOf(entries[..i], CorrectOf) + CorrectOf(entries[i].1)
    ensures SumOf(entries[..i + 1], IncorrectOf) == SumOf(entries[..i], IncorrectOf) + IncorrectOf(entries[i].1)
  {
    assert entries[..i + 1][..i] == entries[..i];
  }

  /** The per-word figures after one more entry. */
  lemma WordStatsStep(catalogue: seq<Word>, entries: seq<(nat, Perf)>, i: nat)
    requires i < |entries|
    ensures WordStatsOf(catalogue, entries[..i + 1]) == WordStatsOf(catalogue, entries[..i]) + [WordStatOf(catalogue, entries[i])]
  {
    assert entries[..i + 1] == entries[..i] + [entries[i]];
    MapAppend(entries[..i], [entries[i]], StatOfEntry(catalogue));
  }

  /**
   * `calculateUserStats`: one pass over the entries builds the per-word
   * figures and the four running totals; the lists are then cut from the figures.
   */
  method CalculateUserStats(catalogue: seq<Word>, performance: map<nat, Perf>) returns (stats: Report)
    ensures stats == UserStatsOf(catalogue, performance)
  {
    var entries := Entries(performance);
    var wordStats, totalWordsStudied, totalAttempts, totalCorrect, totalIncorrect := TallyEntries(catalogue, entries);
    var overallAccuracy := if totalAttempts > 0 then Percent(totalCorrect, totalAttempts) else 0;
    stats := Report(
      Overview(totalWordsStudied, totalAttempts, totalCorrect, totalIncorrect, overallAccuracy),
      StrongestOf(wordStats), WeakestOf(wordStats), MostPracticedOf(wordStats),
      MostMissedOf(wordStats), RecentOf(wordStats));
  }

  /** The `map` callback over the entries, with its four running totals. */
  method TallyEntries(catalogue: seq<Word>, entries: seq<(nat, Perf)>)
    returns (wordStats: seq<WordStat>, totalWordsStudied: nat, totalAttempts: nat, totalCorrect: nat, totalIncorrect: nat)
    ensures wordStats == WordStatsOf(catalogue, entries)
    ensures totalWordsStudied == |entries|
    ensures totalAttempts == SumOf(entries, AttemptsOf)
    ensures totalCorrect == SumOf(entries, CorrectOf)
    ensures totalIncorrect == SumOf(entries, IncorrectOf)
  {
    totalWordsStudied, totalAttempts, totalCorrect, totalIncorrect := 0, 0, 0, 0;
    wordStats := [];
    var i := 0;
    while i < |entries|
      invariant 0 <= i <= |entries| && |wordStats| == i && totalWordsStudied == i
      invariant wordStats == WordStatsOf(catalogue, entries[..i])
      invariant totalAttempts == SumOf(entries[..i], AttemptsOf)
      invariant totalCorrect == SumOf(entries[..i], CorrectOf)
      invariant totalIncorrect == SumOf(entries[..i], IncorrectOf)
    {
      var perf := entries[i].1;
      var total := perf.correct + perf.incorrect;
      totalWordsStudied := totalWordsStudied + 1;
      totalAttempts := totalAttempts + total;
      totalCorrect := totalCorrect + perf.correct;
      totalIncorrect := totalIncorrect + perf.incorrect;
      wordStats := wordStats + [WordStatOf(catalogue, entries[i])];
      SumsStep(entries, i);
      WordStatsStep(catalogue, entries, i);
      i := i + 1;
    }
    assert entries[..i] == entries;
  }

  /**
   * The overview: one word studied per entry, every attempt either correct
   * or incorrect, and the overall accuracy the rounded percentage of correct
   * attempts (0 with none), at most 100.
   */
  lemma OverviewTotals(entries: seq<(nat, Perf)>)
    ensures var o := OverviewOf(entries);
            && o.totalWordsStudied == |entries|
            && o.totalAttempts == o.totalCorrect + o.totalIncorrect
            && (o.totalAttempts == 0 ==> o.overallAccuracy == 0)
            && (o.totalAttempts > 0 ==>
                  o.overallAccuracy == MathRound(o.totalCorrect as real / o.totalAttempts as real * 100.0))
            && o.overallAccuracy <= 100
  {
    AttemptsSplit(entries);
    CorrectAtMostAttempts(entries);
  }

  /**
   * The strongest words: the (at most) ten most accurate words answered at
   * least three times, most accurate first.
   */
  lemma StrongestWordsRanked(wordStats: seq<WordStat>)
    ensures var r := StrongestOf(wordStats);
            && TopByKey(r, Filter(wordStats, Ranked), NegAccuracy, ListLength)
            && (forall w :: w in r ==> w in wordStats && w.total >= 3)
            && (forall i, j :: 0 <= i < j < |r| ==> r[i].accuracy >= r[j].accuracy)
  {
    SortedSliceIsTop(Filter(wordStats, Ranked), NegAccuracy, ListLength);
    RankedMembers(wordStats, Ranked, StrongestOf(wordStats), NegAccuracy);
  }

  /** The weakest words: the (at most) ten least accurate words answered at least three times, least accurate first. */
  lemma WeakestWordsRanked(wordStats: seq<WordStat>)
    ensures var r := WeakestOf(wordStats);
            && TopByKey(r, Filter(wordStats, Ranked), Accuracy, ListLength)
            && (forall w :: w in r ==> w in wordStats && w.total >= 3)
            && (forall i, j :: 0 <= i < j < |r| ==> r[i].accuracy <= r[j].accuracy)
  {
    SortedSliceIsTop(Filter(wordStats, Ranked), Accuracy, ListLength);
    RankedMembers(wordStats, Ranked, WeakestOf(wordStats), Accuracy);
  }

  /** The most practised words: the (at most) ten words with the most answers, most answered first. */
  lemma MostPracticedRanked(wordStats: seq<WordStat>)
    ensures var r := MostPracticedOf(wordStats);
            && TopByKey(r, wordStats, NegTotal, ListLength)
            && (forall i, j :: 0 <= i < j < |r| ==> r[i].total >= r[j].total)
  {
    SortedSliceIsTop(wordStats, NegTotal, ListLength);
  }

  /** The most missed words: the (at most) ten words with the most wrong answers, all missed at least once. */
  lemma MostMissedRanked(wordStats: seq<WordStat>)
    ensures var r := MostMissedOf(wordStats);
            && TopByKey(r, Filter(wordStats, Missed), NegIncorrect, ListLength)
            && (forall w :: w in r ==> w in wordStats && w.incorrect > 0)
            && (forall i, j :: 0 <= i < j < |r| ==> r[i].incorrect >= r[j].incorrect)
  {
    SortedSliceIsTop(Filter(wordStats, Missed), NegIncorrect, ListLength);
    RankedMembers(wordStats, Missed, MostMissedOf(wordStats), NegIncorrect);
  }

  /** What is cut from the filtered figures comes from the figures and passes the filter. */
  lemma RankedMembers(wordStats: seq<WordStat>, p: WordStat -> bool, r: seq<WordStat>, key: WordStat -> real)
    requires TopByKey(r, Filter(wordStats, p), key, ListLength)
    ensures forall w :: w in r ==> w in wordStats && p(w)
  {
    FilterMembers(wordStats, p);
    forall w | w in r ensures w in wordStats && p(w) {
      assert w in multiset(r);
      assert w in multiset(Filter(wordStats, p));
    }
  }

  /** The figures come in the order of the entries: ascending word id. */
  lemma WordStatsAscending(catalogue: seq<Word>, performance: map<nat, Perf>)
    ensures var wordStats := WordStatsOf(catalogue, Entries(performance));
            forall i :: 0 < i < |wordStats| ==> wordStats[i - 1].wordId < wordStats[i].wordId
  {
  }

  /**
   * The recent words are the last ten figures, newest first.  With the
   * figures in ascending id order these are the words with the highest ids,
   * in descending id order, and every other word has a lower id.
   */
  lemma RecentWordsAreHighestIds(wordStats: seq<WordStat>)
    requires forall i :: 0 < i < |wordStats| ==> wordStats[i - 1].wordId < wordStats[i].wordId
    ensures var r := RecentOf(wordStats);
            var n := |wordStats|;
            && |r| == Min(ListLength, n)
            && (forall i :: 0 <= i < |r| ==> r[i] == wordStats[n - 1 - i])
            && (forall i :: 0 < i < |r| ==> r[i].wordId < r[i - 1].wordId)
            && (forall j, i :: 0 <= j < n - |r| && 0 <= i < |r| ==> wordStats[j].wordId < r[i].wordId)
  {
    SliceOfLast(wordStats, ListLength);
    AscendingIds(wordStats);
  }

  /** Ids that grow from each figure to the next grow from any figure to any later one. */
  lemma AscendingIds(wordStats: seq<WordStat>)
    requires forall i :: 0 < i < |wordStats| ==> wordStats[i - 1].wordId < wordStats[i].wordId
    ensures forall i, j :: 0 <= i < j < |wordStats| ==> wordStats[i].wordId < wordStats[j].wordId
  {
    forall i, j | 0 <= i < j < |wordStats| ensures wordStats[i].wordId < wordStats[j].wordId {
      AscendingFrom(wordStats, i, j);
    }
  }

  lemma {:induction false} AscendingFrom(wordStats: seq<WordStat>, i: nat, j: nat)
    requires forall k :: 0 < k < |wordStats| ==> wordStats[k - 1].wordId < wordStats[k].wordId
    requires i < j < |wordStats|
    ensures wordStats[i].wordId < wordStats[j].wordId
    decreases j - i
  {
    if i + 1 < j {
      AscendingFrom(wordStats, i, j - 1);
    }
  }
}
