/**
 * The "most missed words" ranking (`GET` of `app/api/stats/top-missed/route.ts`):
 * the global statistics are filtered by attempts, joined with the catalogue,
 * sorted by difficulty from hardest to easiest and cut to a limit.  The
 * statistics and the catalogue are parameters; the query string is reduced
 * to two optional integers.
 */
module TopMissed {
  import opened Wrappers
  import opened JsArrays
  import opened JsMath
  import opened Vocab
  import GlobalStats

  /** One line of the ranking. */
  datatype MissedWord = MissedWord(
    id: nat,
    word: string,
    definition: string,
    synonym: string,
    totalAttempts: nat,
    correct: nat,
    incorrect: nat,
    errorPercentage: int,
    difficultyScore: real)

  /** The response body: the ranked words and how many words have statistics at all. */
  datatype Ranking = Ranking(words: seq<MissedWord>, totalTrackedWords: nat)

  /** `limit` when the query string does not give one. */
  const DefaultLimit := 20

  /** `minAttempts` when the query string does not give one. */
  const DefaultMinAttempts := 5

  /** `stats.totalAttempts >= minAttempts`. */
  function EnoughAttempts(minAttempts: int): ((nat, GlobalStat)) -> bool {
    (e: (nat, GlobalStat)) => e.1.totalAttempts >= minAttempts
  }

  /**
   * The `map` callback: the catalogue word with the entry's id joined with
   * the entry's counts, or `null` (here `None`) when no catalogue word has that id.
   */
  function Joined(catalogue: seq<Word>, e: (nat, GlobalStat)): (r: Option<MissedWord>)
    ensures r.None? <==> LookupWord(catalogue, e.0).None?
    ensures r.Some? ==> ListsEntry(r.value, catalogue, e)
  {
    match LookupWord(catalogue, e.0)
    case None => None
    case Some(w) =>
      Some(MissedWord(w.id, w.word, w.definition, w.synonym,
                      e.1.totalAttempts, e.1.correct, e.1.incorrect,
                      MathRound(e.1.difficultyScore * 100.0), e.1.difficultyScore))
  }

  /**
   * `x` shows the statistics entry `e` of a catalogue word: the word's own
   * fields, the counts copied unchanged, and the score as a rounded percentage.
   */
  predicate ListsEntry(x: MissedWord, catalogue: seq<Word>, e: (nat, GlobalStat)) {
    && x.id == e.0
    && LookupWord(catalogue, e.0) == Some(Word(x.id, x.word, x.definition, x.synonym))
    && x.totalAttempts == e.1.totalAttempts
    && x.correct == e.1.correct
    && x.incorrect == e.1.incorrect
    && x.difficultyScore == e.1.difficultyScore
    && x.errorPercentage == MathRound(e.1.difficultyScore * 100.0)
  }

  /** `.filter(item => item !== null)`. */
  function Present<T>(s: seq<Option<T>>): (r: seq<T>)
    ensures |r| <= |s|
  {
    if s == [] then []
    else if s[0].Some? then [s[0].value] + Present(s[1..])
    else Present(s[1..])
  }

  /** What survives the `null` filter is exactly what was present, in order. */
  lemma {:induction false} PresentMembers<T>(s: seq<Option<T>>)
    ensures forall x :: x in Present(s) ==> Some(x) in s
    ensures forall i :: 0 <= i < |s| && s[i].Some? ==> s[i].value in Present(s)
  {
    if s != [] {
      PresentMembers(s[1..]);
      assert forall i :: 1 <= i < |s| ==> s[i] == s[1..][i - 1];
    }
  }

  /** The sort key of `(a, b) => b.difficultyScore - a.difficultyScore`: hardest first. */
  function NegScore(x: MissedWord): real { -x.difficultyScore }

  function JoinWith(catalogue: seq<Word>): ((nat, GlobalStat)) -> Option<MissedWord> {
    (e: (nat, GlobalStat)) => Joined(catalogue, e)
  }

  /** The catalogue words with enough attempts, joined, in ascending id order, before sorting. */
  function Candidates(stats: map<nat, GlobalStat>, catalogue: seq<Word>, minAttempts: int): seq<MissedWord> {
    Present(Map(Filter(Entries(stats), EnoughAttempts(minAttempts)), JoinWith(catalogue)))
  }

  /** The ranking for the given statistics, catalogue, `limit` and `minAttempts`. */
  function TopMissed(stats: map<nat, GlobalStat>, catalogue: seq<Word>, limit: int, minAttempts: int): Ranking {
    var ranked := Slice(SortBy(Candidates(stats, catalogue, minAttempts), NegScore), 0, limit);
    Ranking(ranked, |stats.Keys|)
  }

  /** The route with its query parameters, each replaced by its default when absent. */
  function TopMissedRoute(stats: map<nat, GlobalStat>, catalogue: seq<Word>, limit: Option<int>, minAttempts: Option<int>): (r: Ranking)
    ensures limit.None? && minAttempts.None? ==> r == TopMissed(stats, catalogue, 20, 5)
    ensures limit.None? ==> |r.words| <= DefaultLimit
    ensures limit.Some? && limit.value >= 0 ==> |r.words| <= limit.value
  {
    var l := limit.GetOr(DefaultLimit);
    RankingLength(stats, catalogue, l, minAttempts.GetOr(DefaultMinAttempts));
    TopMissed(stats, catalogue, l, minAttempts.GetOr(DefaultMinAttempts))
  }

  /** A `limit` of zero or more keeps at most `limit` words. */
  lemma RankingLength(stats: map<nat, GlobalStat>, catalogue: seq<Word>, limit: int, minAttempts: int)
    ensures limit >= 0 ==> |TopMissed(stats, catalogue, limit, minAttempts).words| <= limit
  {
    if limit >= 0 {
      SliceFromStart(SortBy(Candidates(stats, catalogue, minAttempts), NegScore), limit);
    }
  }

  /** `e` is an entry of `stats` with at least `minAttempts` attempts. */
  predicate Qualifies(stats: map<nat, GlobalStat>, minAttempts: int, e: (nat, GlobalStat)) {
    e.0 in stats && e.1 == stats[e.0] && e.1.totalAttempts >= minAttempts
  }

  /** The attempts filter keeps exactly the entries with enough attempts. */
  lemma PassedQualify(stats: map<nat, GlobalStat>, minAttempts: int)
    ensures forall e :: e in Filter(Entries(stats), EnoughAttempts(minAttempts)) ==> Qualifies(stats, minAttempts, e)
    ensures forall id :: id in stats && stats[id].totalAttempts >= minAttempts ==>
              (id, stats[id]) in Filter(Entries(stats), EnoughAttempts(minAttempts))
  {
    var entries := Entries(stats);
    FilterMembers(entries, EnoughAttempts(minAttempts));
    forall e | e in Filter(entries, EnoughAttempts(minAttempts)) ensures Qualifies(stats, minAttempts, e) {
      assert EnoughAttempts(minAttempts)(e);
      var i :| 0 <= i < |entries| && entries[i] == e;
    }
    forall id | id in stats && stats[id].totalAttempts >= minAttempts
      ensures (id, stats[id]) in Filter(entries, EnoughAttempts(minAttempts))
    {
      var i :| 0 <= i < |entries| && entries[i].0 == id;
      assert entries[i] == (id, stats[id]);
      assert EnoughAttempts(minAttempts)(entries[i]);
    }
  }

  /** What survives `map(f)` then the `null` filter is some element's non-null image, and every such image survives. */
  lemma PresentOfMap<T, U>(s: seq<T>, f: T -> Option<U>)
    ensures forall x :: x in Present(Map(s, f)) ==> exists e :: e in s && f(e) == Some(x)
    ensures forall e :: e in s && f(e).Some? ==> f(e).value in Present(Map(s, f))
  {
    var m := Map(s, f);
    PresentMembers(m);
    forall x | x in Present(m) ensures exists e :: e in s && f(e) == Some(x) {
      var i :| 0 <= i < |m| && m[i] == Some(x);
      assert s[i] in s && f(s[i]) == Some(x);
    }
    forall e | e in s && f(e).Some? ensures f(e).value in Present(m) {
      var i :| 0 <= i < |s| && s[i] == e;
      assert m[i] == f(e);
    }
  }

  /**
   * Every candidate lists a statistics entry of a catalogue word that has
   * at least `minAttempts` attempts.
   */
  lemma CandidatesList(stats: map<nat, GlobalStat>, catalogue: seq<Word>, minAttempts: int)
    ensures forall x :: x in Candidates(stats, catalogue, minAttempts) ==>
              && x.id in stats
              && stats[x.id].totalAttempts >= minAttempts
              && ListsEntry(x, catalogue, (x.id, stats[x.id]))
  {
    var passed := Filter(Entries(stats), EnoughAttempts(minAttempts));
    PassedQualify(stats, minAttempts);
    PresentOfMap(passed, JoinWith(catalogue));
    forall x | x in Candidates(stats, catalogue, minAttempts)
      ensures x.id in stats && stats[x.id].totalAttempts >= minAttempts && ListsEntry(x, catalogue, (x.id, stats[x.id]))
    {
      var e :| e in passed && JoinWith(catalogue)(e) == Some(x);
      JoinedLists(stats, catalogue, minAttempts, e, x);
    }
  }

  lemma JoinedLists(stats: map<nat, GlobalStat>, catalogue: seq<Word>, minAttempts: int, e: (nat, GlobalStat), x: MissedWord)
    requires Qualifies(stats, minAttempts, e) && Joined(catalogue, e) == Some(x)
    ensures x.id in stats && stats[x.id].totalAttempts >= minAttempts && ListsEntry(x, catalogue, (x.id, stats[x.id]))
  {
  }

  /**
   * Every statistics entry of a catalogue word with at least `minAttempts`
   * attempts becomes a candidate; the others are dropped.
   */
  lemma CandidatesComplete(stats: map<nat, GlobalStat>, catalogue: seq<Word>, minAttempts: int, id: nat)
    requires id in stats && stats[id].totalAttempts >= minAttempts
    ensures LookupWord(catalogue, id).Some? <==> exists x :: x in Candidates(stats, catalogue, minAttempts) && x.id == id
  {
    var passed := Filter(Entries(stats), EnoughAttempts(minAttempts));
    CandidatesList(stats, catalogue, minAttempts);
    if LookupWord(catalogue, id).Some? {
      PassedQualify(stats, minAttempts);
      PresentOfMap(passed, JoinWith(catalogue));
      var e := (id, stats[id]);
      assert JoinWith(catalogue)(e) == Joined(catalogue, e);
      var x := Joined(catalogue, e).value;
      assert x in Candidates(stats, catalogue, minAttempts) && x.id == id;
    }
  }

  /**
   * The ranking: each word lists a statistics entry of a catalogue word
   * with at least `minAttempts` attempts, from the hardest to the easiest,
   * no more than `limit` of them; none left out is harder than one kept;
   * and every tracked word is counted, shown or not.
   */
  lemma TopMissedSpec(stats: map<nat, GlobalStat>, catalogue: seq<Word>, limit: int, minAttempts: int)
    requires limit >= 0
    ensures var r := TopMissed(stats, catalogue, limit, minAttempts);
      && r.totalTrackedWords == |stats.Keys|
      && |r.words| == Min(limit, |Candidates(stats, catalogue, minAttempts)|)
      && (forall x :: x in r.words ==>
            x.id in stats && stats[x.id].totalAttempts >= minAttempts && ListsEntry(x, catalogue, (x.id, stats[x.id])))
      && (forall i, j :: 0 <= i < j < |r.words| ==> r.words[i].difficultyScore >= r.words[j].difficultyScore)
      && TopByKey(r.words, Candidates(stats, catalogue, minAttempts), NegScore, limit)
  {
    var c := Candidates(stats, catalogue, minAttempts);
    var r := TopMissed(stats, catalogue, limit, minAttempts);
    SortedSliceIsTop(c, NegScore, limit);
    assert TopByKey(r.words, c, NegScore, limit);
    CandidatesList(stats, catalogue, minAttempts);
    forall x | x in r.words ensures x in c {
      assert x in multiset(r.words);
    }
    forall i, j | 0 <= i < j < |r.words| ensures r.words[i].difficultyScore >= r.words[j].difficultyScore {
      assert NegScore(r.words[i]) <= NegScore(r.words[j]);
    }
  }

  /**
   * For statistics whose entries are consistent, the error percentage is
   * the rounded share of incorrect answers: `round(100 × incorrect / attempts)`.
   */
  lemma ErrorPercentageOfCounts(stats: map<nat, GlobalStat>, catalogue: seq<Word>, limit: int, minAttempts: int)
    requires GlobalStats.AllConsistent(stats) && limit >= 0
    ensures forall x :: x in TopMissed(stats, catalogue, limit, minAttempts).words && x.totalAttempts > 0 ==>
              x.errorPercentage == RoundPercent(x.incorrect, x.totalAttempts) && x.errorPercentage <= 100
  {
    TopMissedSpec(stats, catalogue, limit, minAttempts);
    forall x | x in TopMissed(stats, catalogue, limit, minAttempts).words && x.totalAttempts > 0
      ensures x.errorPercentage == RoundPercent(x.incorrect, x.totalAttempts) && x.errorPercentage <= 100
    {
      ErrorPercentageOfEntry(x, catalogue, (x.id, stats[x.id]));
    }
  }

  /** The error percentage of one line, from a consistent entry with at least one attempt. */
  lemma ErrorPercentageOfEntry(x: MissedWord, catalogue: seq<Word>, e: (nat, GlobalStat))
    requires GlobalStats.Consistent(e.1) && ListsEntry(x, catalogue, e) && x.totalAttempts > 0
    ensures x.errorPercentage == RoundPercent(x.incorrect, x.totalAttempts) && x.errorPercentage <= 100
  {
    RoundPercentIsMathRound(x.incorrect, x.totalAttempts);
  }
}
