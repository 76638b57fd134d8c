/**
 * Browser-side storage (`lib/storage.ts`): a guest's per-word answer
 * counters, the accuracy read back from them, and the cached identity of
 * the signed-in user.  `localStorage` is the `BrowserStorage` object's
 * fields; the answer of `/api/auth/me` is a parameter.
 */
module Storage {
  import opened Wrappers
  import opened Vocab
  import opened JsMath
  import QuestionGen

  /** The user record `/api/auth/me` returns. */
  datatype User = User(id: nat, username: string)

  /** One answer counted: exactly one of the two counters grows by one. */
  function Counted(p: Perf, isCorrect: bool): (r: Perf)
    ensures r.correct + r.incorrect == p.correct + p.incorrect + 1
    ensures r.correct == p.correct + 1 <==> isCorrect
    ensures r.incorrect == p.incorrect + 1 <==> !isCorrect
  {
    if isCorrect then p.(correct := p.correct + 1) else p.(incorrect := p.incorrect + 1)
  }

  /** The guest branch of `updateWordPerformance`: a missing entry starts at zero, then the answer is counted. */
  function GuestUpdated(performance: map<nat, Perf>, wordId: nat, isCorrect: bool): map<nat, Perf> {
    var p := if wordId in performance then performance[wordId] else Perf(0, 0);
    performance[wordId := Counted(p, isCorrect)]
  }

  /** Only the answered word's entry changes, by one answer on the side `isCorrect` names. */
  lemma GuestUpdatedEntries(performance: map<nat, Perf>, wordId: nat, isCorrect: bool)
    ensures GuestUpdated(performance, wordId, isCorrect).Keys == performance.Keys + {wordId}
    ensures forall id :: id in performance && id != wordId ==> GuestUpdated(performance, wordId, isCorrect)[id] == performance[id]
    ensures wordId !in performance ==>
              GuestUpdated(performance, wordId, isCorrect)[wordId] == (if isCorrect then Perf(1, 0) else Perf(0, 1))
    ensures wordId in performance ==>
              var before, after := performance[wordId], GuestUpdated(performance, wordId, isCorrect)[wordId];
              after.correct == before.correct + (if isCorrect then 1 else 0) &&
              after.incorrect == before.incorrect + (if isCorrect then 0 else 1)
  {
  }

  /**
   * `getWordAccuracy`: the share of correct answers, 0 for a word with no
   * entry or no answers.  It is 0 exactly when nothing was answered correctly
   * and 1 exactly when something was answered and nothing wrongly.
   */
  function WordAccuracy(performance: map<nat, Perf>, wordId: nat): (r: real)
    ensures 0.0 <= r <= 1.0
    ensures wordId !in performance ==> r == 0.0
    ensures r == 0.0 <==> wordId !in performance || performance[wordId].correct == 0
    ensures r == 1.0 <==> wordId in performance && performance[wordId].incorrect == 0 && performance[wordId].correct > 0
  {
    if wordId !in performance then 0.0
    else
      var wordPerf := performance[wordId];
      var total := wordPerf.correct + wordPerf.incorrect;
      if total == 0 then 0.0
      else
        var r := wordPerf.correct as real / total as real;
        RatioBounds(wordPerf.correct as real, total as real, r);
        r
  }

  /** With `c ≤ t`, one more success does not lower `c / t` and one more failure does not raise it. */
  lemma RatioMonotone(c: real, t: real)
    requires 0.0 <= c <= t && t > 0.0
    ensures c / t <= (c + 1.0) / (t + 1.0)
    ensures c / (t + 1.0) <= c / t
  {
    var q := c / t;
    RatioBounds(c, t, q);
    assert q * t == c;
    assert q * (t + 1.0) == c + q;
    ScaleBelow(q, c + 1.0, t + 1.0);
    ScaleAtMost(q, c, t + 1.0);
  }

  /** A correct answer never lowers a word's accuracy and an incorrect one never raises it. */
  lemma AccuracyAfterAnswer(performance: map<nat, Perf>, wordId: nat, isCorrect: bool)
    ensures isCorrect ==> WordAccuracy(performance, wordId) <= WordAccuracy(GuestUpdated(performance, wordId, isCorrect), wordId)
    ensures !isCorrect ==> WordAccuracy(GuestUpdated(performance, wordId, isCorrect), wordId) <= WordAccuracy(performance, wordId)
  {
    var after := GuestUpdated(performance, wordId, isCorrect)[wordId];
    if wordId in performance && performance[wordId].correct + performance[wordId].incorrect > 0 {
      var p := performance[wordId];
      var c, t := p.correct as real, (p.correct + p.incorrect) as real;
      RatioMonotone(c, t);
      if isCorrect {
        assert after.correct as real == c + 1.0;
        assert (after.correct + after.incorrect) as real == t + 1.0;
      } else {
        assert after.correct as real == c;
        assert (after.correct + after.incorrect) as real == t + 1.0;
      }
    }
  }

  /**
   * The personal weight of the quiz's wheel is 1 + 5 × (1 − accuracy) for
   * a word the guest has answered: the error rate and the accuracy add up to 1.
   */
  lemma LocalWeightFromAccuracy(performance: map<nat, Perf>, wordId: nat)
    requires wordId in performance && performance[wordId].correct + performance[wordId].incorrect > 0
    ensures QuestionGen.LocalWeight(performance, wordId) == 1.0 + 5.0 * (1.0 - WordAccuracy(performance, wordId))
  {
    var p := performance[wordId];
    var t := (p.correct + p.incorrect) as real;
    ComplementRatio(p.correct as real, p.incorrect as real, t);
  }

  lemma ComplementRatio(c: real, i: real, t: real)
    requires t > 0.0 && c + i == t
    ensures i / t == 1.0 - c / t
  {
    assert c / t + i / t == (c + i) / t;
    assert t / t == 1.0;
  }

  /** The guest's `localStorage` entries and the module-level user cache. */
  class BrowserStorage {
    /** `sat_vocab_performance`. */
    var performance: map<nat, Perf>
    /** `sat_vocab_user`. */
    var storedUser: Option<User>
    /** `userCache`; `null` is `None`, and the cache is never `undefined`. */
    var userCache: Option<User>
    var userCacheChecked: bool

    constructor (performance: map<nat, Perf>, storedUser: Option<User>)
      ensures this.performance == performance && this.storedUser == storedUser
      ensures userCache.None? && !userCacheChecked
    {
      this.performance := performance;
      this.storedUser := storedUser;
      userCache := None;
      userCacheChecked := false;
    }

    /**
     * The user `getCurrentUser` answers when the server reports `signedIn`:
     * the cache once checked, else the stored user, else `signedIn`.
     */
    function CurrentUser(signedIn: Option<User>): Option<User>
      reads this
    {
      if userCacheChecked then userCache else if storedUser.Some? then storedUser else signedIn
    }

    /**
     * `getCurrentUser`: once checked, the cache is answered and nothing is
     * consulted; otherwise the stored user, else the server's answer
     * `signedIn`, which is then stored.  Afterwards the cache holds the answer.
     */
    method GetCurrentUser(signedIn: Option<User>) returns (user: Option<User>)
      modifies this
      ensures user == old(CurrentUser(signedIn))
      ensures old(userCacheChecked) ==> user == old(userCache) && unchanged(this)
      ensures !old(userCacheChecked) ==>
                && user == (if old(storedUser).Some? then old(storedUser) else signedIn)
                && storedUser == user
      ensures userCacheChecked && userCache == user && performance == old(performance)
    {
      if userCacheChecked {
        return userCache;
      }
      if storedUser.Some? {
        userCache := storedUser;
        userCacheChecked := true;
        return storedUser;
      }
      if signedIn.Some? {
        userCache := signedIn;
        userCacheChecked := true;
        storedUser := signedIn;
        return signedIn;
      }
      userCache := None;
      userCacheChecked := true;
      return None;
    }

    /** `clearUserCache`: forget the user, so the next lookup asks again. */
    method ClearUserCache()
      modifies this
      ensures userCache.None? && !userCacheChecked && storedUser.None?
      ensures performance == old(performance)
    {
      userCache := None;
      userCacheChecked := false;
      storedUser := None;
    }

    /**
     * `updateWordPerformance`: a signed-in user's answer goes to the server
     * and leaves the browser's counters alone; a guest's answer is counted here.
     */
    method UpdateWordPerformance(wordId: nat, isCorrect: bool, signedIn: Option<User>)
      modifies this
      ensures userCacheChecked && userCache == old(CurrentUser(signedIn))
      ensures storedUser == (if old(userCacheChecked) then old(storedUser) else userCache)
      ensures old(CurrentUser(signedIn)).None? ==> performance == GuestUpdated(old(performance), wordId, isCorrect)
      ensures old(CurrentUser(signedIn)).Some? ==> performance == old(performance)
    {
      var user := GetCurrentUser(signedIn);
      if user.None? {
        var perf := performance;
        if wordId !in perf {
          perf := perf[wordId := Perf(0, 0)];
        }
        if isCorrect {
          perf := perf[wordId := perf[wordId].(correct := perf[wordId].correct + 1)];
        } else {
          perf := perf[wordId := perf[wordId].(incorrect := perf[wordId].incorrect + 1)];
        }
        performance := perf;
      }
    }
  }
}
