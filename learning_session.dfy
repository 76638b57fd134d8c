/**
 * Learning mode (`components/LearningSession.tsx`): a sample of words drawn
 * without replacement, weighted by global difficulty, and shown one at a
 * time by a slideshow that advances on a five-second timer or on demand.
 */
module LearningSession {
  import opened Wrappers
  import opened JsArrays
  import opened Vocab
  import opened Roulette
  import opened RandomSource
  import QuestionGen

  // ---------------------------------------------------------------------------
  // Weighted sampling without replacement
  // ---------------------------------------------------------------------------

  /** Learning weight: 1, plus 2 × the global difficulty once the word has 5 attempts overall. */
  function LearningWeight(stats: map<nat, GlobalStat>, id: nat): (r: real)
    ensures !(id in stats && stats[id].totalAttempts >= 5) ==> r == 1.0
    ensures QuestionGen.ScoresInRange(stats) ==> 1.0 <= r <= 3.0
  {
    if id in stats && stats[id].totalAttempts >= 5 then 1.0 + stats[id].difficultyScore * 2.0
    else 1.0
  }

  /** The weights of the words still available, recomputed before every pick. */
  function LearningWeights(available: seq<Word>, stats: map<nat, GlobalStat>): (r: seq<real>)
    ensures |r| == |available|
    ensures forall i :: 0 <= i < |available| ==> r[i] == LearningWeight(stats, available[i].id)
  {
    Map(available, (w: Word) => LearningWeight(stats, w.id))
  }

  /**
   * The index the subtraction loop settles on: `random` loses `w[j]`, then
   * `w[j+1]`, ...; the first index that takes it to zero or below is chosen,
   * and `selectedIndex` keeps its initial 0 when none does (the quiz selector
   * falls back to the last word instead).
   */
  function SpinFrom(w: seq<real>, random: real, j: nat): nat
    requires j <= |w|
    decreases |w| - j
  {
    if j == |w| then 0
    else if random - w[j] <= 0.0 then j
    else SpinFrom(w, random - w[j], j + 1)
  }

  lemma {:induction false} SpinFromBound(w: seq<real>, random: real, j: nat)
    requires j <= |w| && |w| > 0
    ensures SpinFrom(w, random, j) < |w|
    decreases |w| - j
  {
    if j < |w| && random - w[j] > 0.0 {
      SpinFromBound(w, random - w[j], j + 1);
    }
  }

  /**
   * The subtraction loop is the roulette wheel: started at `target`, it
   * chooses the first index whose running sum reaches `target`, or 0.
   */
  lemma {:induction false} SpinFromReaches(w: seq<real>, target: real, random: real, j: nat)
    requires j <= |w| && random == target - Prefix(w, j)
    ensures SpinFrom(w, random, j) == ReachingFrom(w, target, j).GetOr(0)
    decreases |w| - j
  {
    if j < |w| && random - w[j] > 0.0 {
      SpinFromReaches(w, target, random - w[j], j + 1);
    }
  }

  /** The position picked among the available words by draw `u`. */
  function PickIndex(available: seq<Word>, stats: map<nat, GlobalStat>, u: real): (j: nat)
    requires |available| > 0
    ensures j < |available|
  {
    var w := LearningWeights(available, stats);
    SpinFromBound(w, Spot(w, u), 0);
    SpinFrom(w, Spot(w, u), 0)
  }

  /** The learning picking rule as a function of the remaining words and the draw. */
  function LearningPick(stats: map<nat, GlobalStat>): (pick: (seq<Word>, real) -> nat)
    ensures PickInRange(pick)
  {
    (s: seq<Word>, u: real) => if |s| > 0 then PickIndex(s, stats, u) else 0
  }

  /** A picking rule names a position of every non-empty sequence. */
  ghost predicate PickInRange<T(!new)>(pick: (seq<T>, real) -> nat) {
    forall s: seq<T>, u: real :: |s| > 0 ==> pick(s, u) < |s|
  }

  /** The position `pick` names among the available words for draw `u`. */
  function PickAt<T(!new)>(available: seq<T>, pick: (seq<T>, real) -> nat, u: real): (j: nat)
    requires PickInRange(pick) && |available| > 0
    ensures j < |available|
  {
    pick(available, u)
  }

  /** `availableWords.splice(j, 1)`. */
  function RemoveAt<T>(s: seq<T>, j: nat): (r: seq<T>)
    requires j < |s|
    ensures |r| == |s| - 1
  {
    s[..j] + s[j + 1..]
  }

  /**
   * Sampling without replacement with the draws `draw(k)`, `draw(k+1)`, ...:
   * while picks remain and elements are available, take the element `pick`
   * names for the next draw and remove it.
   */
  function Sampled<T(!new)>(available: seq<T>, pick: (seq<T>, real) -> nat, count: int, draw: nat -> real, k: nat): seq<T>
    requires PickInRange(pick)
    decreases |available|
  {
    if count <= 0 || |available| == 0 then []
    else
      var j := PickAt(available, pick, draw(k));
      [available[j]] + Sampled(RemoveAt(available, j), pick, count - 1, draw, k + 1)
  }

  /** `Sampled` with the words already taken carried along: the loop's own shape. */
  function SampledAfter<T(!new)>(taken: seq<T>, available: seq<T>, pick: (seq<T>, real) -> nat, count: int, draw: nat -> real, k: nat): seq<T>
    requires PickInRange(pick)
    decreases |available|
  {
    if count <= 0 || |available| == 0 then taken
    else
      var j := PickAt(available, pick, draw(k));
      SampledAfter(taken + [available[j]], RemoveAt(available, j), pick, count - 1, draw, k + 1)
  }

  lemma {:induction false} SampledAfterAppends<T(!new)>(taken: seq<T>, available: seq<T>, pick: (seq<T>, real) -> nat, count: int, draw: nat -> real, k: nat)
    requires PickInRange(pick)
    ensures SampledAfter(taken, available, pick, count, draw, k) == taken + Sampled(available, pick, count, draw, k)
    decreases |available|
  {
    if count <= 0 || |available| == 0 {
      assert taken + [] == taken;
    } else {
      var j := PickAt(available, pick, draw(k));
      var next := RemoveAt(available, j);
      SampledAfterAppends(taken + [available[j]], next, pick, count - 1, draw, k + 1);
      SampledStep(available, pick, count, draw, k, j, next, count - 1, k + 1);
      MoveFirst(taken, available[j], Sampled(next, pick, count - 1, draw, k + 1), Sampled(available, pick, count, draw, k),
                taken + [available[j]], taken + Sampled(available, pick, count, draw, k));
    }
  }

  /** One iteration of the sampling loop, stated over the loop's next-state variables. */
  lemma SampledStep<T(!new)>(available: seq<T>, pick: (seq<T>, real) -> nat, count: int, draw: nat -> real, k: nat,
                       j: nat, next: seq<T>, count1: int, k1: nat)
    requires PickInRange(pick) && count > 0 && |available| > 0
    requires j == PickAt(available, pick, draw(k))
    requires next == RemoveAt(available, j) && count1 == count - 1 && k1 == k + 1
    ensures [available[j]] + Sampled(next, pick, count1, draw, k1) == Sampled(available, pick, count, draw, k)
  {
  }

  /** `min(count, allWords.length)` elements are returned (none for `count <= 0`). */
  lemma {:induction false} SampledLength<T(!new)>(available: seq<T>, pick: (seq<T>, real) -> nat, count: int, draw: nat -> real, k: nat)
    requires PickInRange(pick)
    ensures |Sampled(available, pick, count, draw, k)| == Min(Max(count, 0), |available|)
    decreases |available|
  {
    if count > 0 && |available| > 0 {
      var j := PickAt(available, pick, draw(k));
      SampledLength(RemoveAt(available, j), pick, count - 1, draw, k + 1);
    }
  }

  /** Every element is taken from a distinct position: the sample is a sub-multiset of the input. */
  lemma {:induction false} SampledSubMultiset<T(!new)>(available: seq<T>, pick: (seq<T>, real) -> nat, count: int, draw: nat -> real, k: nat)
    requires PickInRange(pick)
    ensures multiset(Sampled(available, pick, count, draw, k)) <= multiset(available)
    decreases |available|
  {
    if count > 0 && |available| > 0 {
      var j := PickAt(available, pick, draw(k));
      var rest := RemoveAt(available, j);
      SampledSubMultiset(rest, pick, count - 1, draw, k + 1);
      TakeOneSubMultiset(available, pick, count, draw, k, j, rest);
    }
  }

  /** Taking the picked word and then a sub-multiset of what is left gives a sub-multiset of the whole. */
  lemma TakeOneSubMultiset<T(!new)>(available: seq<T>, pick: (seq<T>, real) -> nat, count: int, draw: nat -> real, k: nat,
                                    j: nat, rest: seq<T>)
    requires PickInRange(pick) && count > 0 && |available| > 0
    requires j == PickAt(available, pick, draw(k)) && rest == RemoveAt(available, j)
    requires multiset(Sampled(rest, pick, count - 1, draw, k + 1)) <= multiset(rest)
    ensures multiset(Sampled(available, pick, count, draw, k)) <= multiset(available)
  {
    var tail := Sampled(rest, pick, count - 1, draw, k + 1);
    SampledStep(available, pick, count, draw, k, j, rest, count - 1, k + 1);
    RemoveOne(available, j);
    TakeOneBag(available, j, rest, tail, Sampled(available, pick, count, draw, k));
  }

  lemma TakeOneBag<T>(available: seq<T>, j: nat, rest: seq<T>, tail: seq<T>, sample: seq<T>)
    requires j < |available| && rest == available[..j] + available[j + 1..]
    requires multiset(available) == multiset{available[j]} + multiset(rest)
    requires multiset(tail) <= multiset(rest) && sample == [available[j]] + tail
    ensures multiset(sample) <= multiset(available)
  {
  }

  /** With distinct catalogue entries no word is shown twice in one session. */
  lemma SampledDistinct<T(!new)>(allWords: seq<T>, pick: (seq<T>, real) -> nat, count: int, draw: nat -> real, k: nat)
    requires PickInRange(pick) && Distinct(allWords)
    ensures Distinct(Sampled(allWords, pick, count, draw, k))
  {
    SampledSubMultiset(allWords, pick, count, draw, k);
    SubMultisetOfDistinct(allWords, Sampled(allWords, pick, count, draw, k));
  }

  /**
   * With difficulty scores in [0, 1] every weight is at least 1, so the
   * fallback to index 0 is never taken: the first word sampled is the first
   * one whose running sum reaches `u × total`.
   */
  lemma FirstPickFollowsWheel(available: seq<Word>, stats: map<nat, GlobalStat>, count: int, draw: nat -> real, k: nat)
    requires ValidDraws(draw) && QuestionGen.ScoresInRange(stats) && count > 0 && |available| > 0
    ensures var w := LearningWeights(available, stats);
      var j := PickIndex(available, stats, draw(k));
      && FirstReaching(w, Spot(w, draw(k))) == Some(j)
      && (j > 0 ==> Prefix(w, j) < Spot(w, draw(k)))
      && Spot(w, draw(k)) <= Prefix(w, j + 1)
      && Sampled(available, LearningPick(stats), count, draw, k)[0] == available[j]
  {
    var w := LearningWeights(available, stats);
    assert AllAtLeast(w, 1.0);
    TotalAtLeastCount(w, 1.0);
    SpinLands(w, draw(k));
    SpinFromReaches(w, Spot(w, draw(k)), Spot(w, draw(k)), 0);
  }

  /**
   * `selectWeightedWords`: the catalogue is copied, so the caller's sequence is
   * a value and stays as it was; each round recomputes the weights of the
   * remaining words, spins once and splices the pick out of the copy.
   */
  method SelectWeightedWords(allWords: seq<Word>, stats: map<nat, GlobalStat>, count: int, rng: Random)
    returns (selected: seq<Word>)
    requires rng.Valid()
    modifies rng
    ensures selected == Sampled(allWords, LearningPick(stats), count, rng.draw, old(rng.calls))
    ensures rng.calls == old(rng.calls) + |selected|
  {
    LearningPickAgrees(stats);
    selected := SampleLoop(allWords, stats, count, rng, LearningPick(stats));
  }

  /** A picking rule that agrees with the learning wheel wherever the wheel is consulted. */
  ghost predicate AgreesWithWheel(pick: (seq<Word>, real) -> nat, stats: map<nat, GlobalStat>) {
    forall s: seq<Word>, u: real {:trigger PickIndex(s, stats, u)} :: |s| > 0 ==> pick(s, u) == PickIndex(s, stats, u)
  }

  lemma LearningPickAgrees(stats: map<nat, GlobalStat>)
    ensures AgreesWithWheel(LearningPick(stats), stats)
  {
  }

  /** The sampling loop of `selectWeightedWords`, for a picking rule that is the learning wheel. */
  method SampleLoop(allWords: seq<Word>, stats: map<nat, GlobalStat>, count: int, rng: Random,
                    ghost pick: (seq<Word>, real) -> nat)
    returns (selected: seq<Word>)
    requires rng.Valid() && PickInRange(pick) && AgreesWithWheel(pick, stats)
    modifies rng
    ensures selected == Sampled(allWords, pick, count, rng.draw, old(rng.calls))
    ensures rng.calls == old(rng.calls) + |selected|
  {
    ghost var draw := rng.draw;
    ghost var k := rng.calls;
    ghost var goal := SampledAfter([], allWords, pick, count, draw, k);
    selected := [];
    var availableWords := allWords;
    var i := 0;
    while i < count && |availableWords| > 0
      invariant rng.draw == draw && rng.calls == k == old(rng.calls) + i && |selected| == i
      invariant SampledAfter(selected, availableWords, pick, count - i, draw, k) == goal
      decreases |availableWords|
    {
      var picked, remaining := TakeWeighted(availableWords, stats, rng, pick, count - i, selected);
      selected := selected + [picked];
      availableWords := remaining;
      i := i + 1;
      k := k + 1;
    }
    SampleDone(selected, availableWords, pick, count - i, draw, k, allWords, count, old(rng.calls), goal);
  }

  /** When the loop stops, the words taken are the whole sample. */
  lemma SampleDone<T(!new)>(selected: seq<T>, available: seq<T>, pick: (seq<T>, real) -> nat, count: int, draw: nat -> real, k: nat,
                            allWords: seq<T>, count0: int, k0: nat, goal: seq<T>)
    requires PickInRange(pick) && (count <= 0 || |available| == 0)
    requires goal == SampledAfter([], allWords, pick, count0, draw, k0)
    requires SampledAfter(selected, available, pick, count, draw, k) == goal
    ensures selected == Sampled(allWords, pick, count0, draw, k0)
  {
    SampledAfterAppends([], allWords, pick, count0, draw, k0);
    assert [] + Sampled(allWords, pick, count0, draw, k0) == Sampled(allWords, pick, count0, draw, k0);
  }

  /**
   * One round of the loop: a draw, the wheel over the remaining words, and
   * the picked word spliced out of the copy.
   */
  method TakeWeighted(availableWords: seq<Word>, stats: map<nat, GlobalStat>, rng: Random,
                      ghost pick: (seq<Word>, real) -> nat, ghost count: int, ghost taken: seq<Word>)
    returns (picked: Word, remaining: seq<Word>)
    requires rng.Valid() && PickInRange(pick) && AgreesWithWheel(pick, stats)
    requires count > 0 && |availableWords| > 0
    modifies rng
    ensures rng.calls == old(rng.calls) + 1 && |remaining| == |availableWords| - 1
    ensures SampledAfter(taken + [picked], remaining, pick, count - 1, rng.draw, rng.calls)
            == SampledAfter(taken, availableWords, pick, count, rng.draw, old(rng.calls))
  {
    var u := rng.Next();
    var selectedIndex := PickWeighted(availableWords, stats, u, pick);
    picked := availableWords[selectedIndex];
    remaining := RemoveAt(availableWords, selectedIndex);
  }

  /** Moving the head of the remaining sample to the end of the part already taken. */
  lemma MoveFirst<T>(sel: seq<T>, x: T, rest: seq<T>, prevRest: seq<T>, selected: seq<T>, goal: seq<T>)
    requires sel + prevRest == goal && prevRest == [x] + rest && selected == sel + [x]
    ensures selected + rest == goal
  {
  }

  /**
   * One round's pick: the weights of the remaining words, their total, and
   * the subtraction loop.
   */
  method PickWeighted(availableWords: seq<Word>, stats: map<nat, GlobalStat>, u: real,
                      ghost pick: (seq<Word>, real) -> nat)
    returns (selectedIndex: nat)
    requires |availableWords| > 0 && PickInRange(pick) && AgreesWithWheel(pick, stats)
    ensures selectedIndex == PickAt(availableWords, pick, u)
  {
    var weights := LearningWeights(availableWords, stats);
    var totalWeight := Total(weights);
    selectedIndex := SpinLoop(weights, totalWeight, u);
    assert selectedIndex == PickIndex(availableWords, stats, u);
  }

  /** The inner subtraction loop, with `selectedIndex` starting at 0. */
  method SpinLoop(weights: seq<real>, totalWeight: real, u: real) returns (selectedIndex: nat)
    requires totalWeight == Total(weights)
    ensures selectedIndex == SpinFrom(weights, Spot(weights, u), 0)
  {
    var random := u * totalWeight;
    QuestionGen.SpotOfTotal(weights, u, totalWeight);
    selectedIndex := 0;
    var j := 0;
    while j < |weights|
      invariant 0 <= j <= |weights|
      invariant SpinFrom(weights, random, j) == SpinFrom(weights, Spot(weights, u), 0)
    {
      random := random - weights[j];
      if random <= 0.0 {
        selectedIndex := j;
        return;
      }
      j := j + 1;
    }
  }

  // ---------------------------------------------------------------------------
  // The slideshow
  // ---------------------------------------------------------------------------

  /** Seconds each word is shown before the timer moves on. */
  const SecondsPerWord := 5

  /**
   * The session's state once the sample is loaded: the word on screen, the
   * countdown, and the completion and pause flags.
   */
  class Slideshow {
    const words: seq<Word>
    var currentIndex: nat
    var isComplete: bool
    var timeRemaining: int
    var isPaused: bool

    /** The index always names a word (it stays 0 for an empty sample). */
    ghost predicate Valid()
      reads this
    {
      currentIndex < |words| || currentIndex == 0
    }

    constructor (words: seq<Word>)
      ensures Valid() && this.words == words
      ensures currentIndex == 0 && !isComplete && timeRemaining == SecondsPerWord && !isPaused
    {
      this.words := words;
      currentIndex := 0;
      isComplete := false;
      timeRemaining := SecondsPerWord;
      isPaused := false;
    }

    /**
     * Moving on: to the next word with a fresh countdown, or, at the last
     * word, completing the session without moving.
     */
    twostate predicate MovedOn()
      reads this
    {
      && isPaused == old(isPaused)
      && (if old(currentIndex) < |words| - 1 then
            currentIndex == old(currentIndex) + 1 && timeRemaining == SecondsPerWord && isComplete == old(isComplete)
          else
            currentIndex == old(currentIndex) && timeRemaining == old(timeRemaining) && isComplete)
    }

    method HandleNext()
      requires Valid()
      modifies this
      ensures Valid() && MovedOn()
    {
      if currentIndex < |words| - 1 {
        currentIndex := currentIndex + 1;
        timeRemaining := SecondsPerWord;
      } else {
        isComplete := true;
      }
    }

    method HandlePrevious()
      requires Valid()
      modifies this
      ensures Valid()
      ensures old(currentIndex) > 0 ==> currentIndex == old(currentIndex) - 1 && timeRemaining == SecondsPerWord
      ensures old(currentIndex) == 0 ==> currentIndex == 0 && timeRemaining == old(timeRemaining)
      ensures isComplete == old(isComplete) && isPaused == old(isPaused)
    {
      if currentIndex > 0 {
        currentIndex := currentIndex - 1;
        timeRemaining := SecondsPerWord;
      }
    }

    method TogglePause()
      modifies this
      ensures isPaused == !old(isPaused)
      ensures currentIndex == old(currentIndex) && timeRemaining == old(timeRemaining) && isComplete == old(isComplete)
    {
      isPaused := !isPaused;
    }

    /** The timer runs while the session is live: not complete, not paused, and with words to show. */
    predicate Running()
      reads this
    {
      !isComplete && !isPaused && |words| > 0
    }

    /**
     * The timer effect, run whenever its inputs change: an expired countdown
     * moves on exactly as `handleNext` does; otherwise `ticking` says whether
     * a one-second interval is started.
     */
    method TimerEffect() returns (ticking: bool)
      requires Valid()
      modifies this
      ensures Valid()
      ensures old(Running()) && old(timeRemaining) <= 0 ==> MovedOn()
      ensures !(old(Running()) && old(timeRemaining) <= 0) ==> unchanged(this)
      ensures ticking <==> old(Running()) && old(timeRemaining) > 0
    {
      ticking := false;
      if !Running() {
        return;
      }
      if timeRemaining <= 0 {
        if currentIndex < |words| - 1 {
          currentIndex := currentIndex + 1;
          timeRemaining := SecondsPerWord;
        } else {
          isComplete := true;
        }
        return;
      }
      ticking := true;
    }

    /** One tick of the interval the timer effect started. */
    method Tick()
      requires Valid() && Running() && timeRemaining > 0
      modifies this
      ensures Valid()
      ensures timeRemaining == old(timeRemaining) - 1
      ensures currentIndex == old(currentIndex) && isComplete == old(isComplete) && isPaused == old(isPaused)
    {
      timeRemaining := timeRemaining - 1;
    }
  }
}
