/**
 * The global statistics shared by all users (`lib/globalStats.ts`): one
 * entry per word id, counting answers over every user, and the difficulty
 * weight derived from it.  The JSON file the entries live in is the
 * `entries` field of a `StatsFile`; reading and writing it are not modelled.
 */
module GlobalStats {
  import opened Vocab
  import opened JsMath

  /** The entry created for a word nobody has answered yet. */
  function Fresh(): GlobalStat {
    GlobalStat(0, 0, 0, 0.0)
  }

  /**
   * An entry whose fields agree with each other: every attempt is either
   * correct or incorrect, and the score is the error rate (0 before any attempt).
   */
  predicate Consistent(e: GlobalStat) {
    && e.totalAttempts == e.correct + e.incorrect
    && e.difficultyScore == (if e.totalAttempts == 0 then 0.0 else ErrorRate(e.incorrect, e.totalAttempts))
  }

  predicate AllConsistent(stats: map<nat, GlobalStat>) {
    forall id :: id in stats ==> Consistent(stats[id])
  }

  /** `incorrect / totalAttempts`, the error rate over at least one attempt. */
  function ErrorRate(incorrect: nat, total: nat): (r: real)
    requires total > 0
    ensures 0.0 <= r && (incorrect <= total ==> r <= 1.0)
  {
    var r := incorrect as real / total as real;
    RatioBounds(incorrect as real, total as real, r);
    r
  }

  /** A word's entry, or the all-zero one when the word has none yet. */
  function EntryOf(stats: map<nat, GlobalStat>, wordId: nat): (e: GlobalStat)
    ensures wordId !in stats ==> e == Fresh()
    ensures AllConsistent(stats) ==> Consistent(e)
  {
    if wordId in stats then stats[wordId] else Fresh()
  }

  /**
   * One answer recorded in an entry: one more attempt, one more correct or
   * incorrect answer, and the score recomputed as the error rate.
   */
  function Recorded(e: GlobalStat, isCorrect: bool): (r: GlobalStat)
    ensures r.totalAttempts == e.totalAttempts + 1
    ensures r.correct + r.incorrect == e.correct + e.incorrect + 1
    ensures r.correct == e.correct + (if isCorrect then 1 else 0)
    ensures 0.0 <= r.difficultyScore && (e.incorrect <= e.totalAttempts ==> r.difficultyScore <= 1.0)
  {
    var attempted := e.(totalAttempts := e.totalAttempts + 1);
    var counted :=
      if isCorrect then attempted.(correct := attempted.correct + 1)
      else attempted.(incorrect := attempted.incorrect + 1);
    counted.(difficultyScore := ErrorRate(counted.incorrect, counted.totalAttempts))
  }

  /** The statistics after `updateGlobalStats(wordId, isCorrect)`. */
  function Updated(stats: map<nat, GlobalStat>, wordId: nat, isCorrect: bool): map<nat, GlobalStat> {
    stats[wordId := Recorded(EntryOf(stats, wordId), isCorrect)]
  }

  /** Recording an answer keeps an entry consistent, and the error rate stays in [0, 1]. */
  lemma RecordedConsistent(e: GlobalStat, isCorrect: bool)
    requires Consistent(e)
    ensures Consistent(Recorded(e, isCorrect))
    ensures 0.0 <= Recorded(e, isCorrect).difficultyScore <= 1.0
  {
  }

  /**
   * An update touches only the answered word's entry, which is created if
   * missing and then counts the answer.
   */
  lemma UpdatedEntries(stats: map<nat, GlobalStat>, wordId: nat, isCorrect: bool)
    ensures Updated(stats, wordId, isCorrect).Keys == stats.Keys + {wordId}
    ensures forall id :: id in stats && id != wordId ==> Updated(stats, wordId, isCorrect)[id] == stats[id]
    ensures wordId !in stats ==> Updated(stats, wordId, isCorrect)[wordId] == Recorded(Fresh(), isCorrect)
  {
  }

  /** A consistent table stays consistent through an update. */
  lemma UpdatedConsistent(stats: map<nat, GlobalStat>, wordId: nat, isCorrect: bool)
    requires AllConsistent(stats)
    ensures AllConsistent(Updated(stats, wordId, isCorrect))
  {
    var u := Updated(stats, wordId, isCorrect);
    var r := Recorded(EntryOf(stats, wordId), isCorrect);
    RecordedConsistent(EntryOf(stats, wordId), isCorrect);
    assert u == stats[wordId := r];
    forall id | id in u ensures Consistent(u[id]) {
      if id == wordId {
        assert u[id] == r;
      } else {
        assert u[id] == stats[id];
      }
    }
  }

  /**
   * `getGlobalDifficultyWeight`: 1 for a word with no entry or fewer than 5
   * attempts, otherwise 1 + 4 × difficulty, so between 1 and 5.
   */
  function GlobalDifficultyWeight(stats: map<nat, GlobalStat>, wordId: nat): (r: real)
    ensures !(wordId in stats && stats[wordId].totalAttempts >= 5) ==> r == 1.0
    ensures wordId in stats && 0.0 <= stats[wordId].difficultyScore <= 1.0 ==> 1.0 <= r <= 5.0
  {
    if wordId !in stats || stats[wordId].totalAttempts < 5 then 1.0
    else 1.0 + stats[wordId].difficultyScore * 4.0
  }

  /**
   * Right after an answer is recorded the weight follows that word's error
   * rate: 1 + 4 × incorrect / attempts once it has 5 attempts, and it lies in [1, 5].
   */
  lemma WeightAfterUpdate(stats: map<nat, GlobalStat>, wordId: nat, isCorrect: bool)
    requires wordId in stats ==> Consistent(stats[wordId])
    ensures var e := Updated(stats, wordId, isCorrect)[wordId];
            GlobalDifficultyWeight(Updated(stats, wordId, isCorrect), wordId)
            == (if e.totalAttempts >= 5 then 1.0 + 4.0 * ErrorRate(e.incorrect, e.totalAttempts) else 1.0)
    ensures 1.0 <= GlobalDifficultyWeight(Updated(stats, wordId, isCorrect), wordId) <= 5.0
  {
    RecordedConsistent(EntryOf(stats, wordId), isCorrect);
  }

  /** The statistics file, read and rewritten on every update. */
  class StatsFile {
    var entries: map<nat, GlobalStat>

    constructor (entries: map<nat, GlobalStat>)
      ensures this.entries == entries
    {
      this.entries := entries;
    }

    /**
     * `updateGlobalStats`: load, create the entry if missing, count the
     * attempt and the answer, recompute the error rate, save, and return the entry.
     */
    method UpdateGlobalStats(wordId: nat, isCorrect: bool) returns (entry: GlobalStat)
      modifies this
      ensures entries == Updated(old(entries), wordId, isCorrect)
      ensures entry == entries[wordId]
    {
      var stats := entries;
      if wordId !in stats {
        stats := stats[wordId := GlobalStat(0, 0, 0, 0.0)];
      }
      var e := stats[wordId];
      e := e.(totalAttempts := e.totalAttempts + 1);
      if isCorrect {
        e := e.(correct := e.correct + 1);
      } else {
        e := e.(incorrect := e.incorrect + 1);
      }
      var errorRate := ErrorRate(e.incorrect, e.totalAttempts);
      e := e.(difficultyScore := errorRate);
      assert e == Recorded(EntryOf(entries, wordId), isCorrect);
      stats := stats[wordId := e];
      entries := stats;
      entry := stats[wordId];
    }
  }
}
