/**
 * The adaptive quiz question builder (`lib/questionGenerator.ts`): a word is
 * drawn by roulette-wheel selection weighted by personal and global error
 * rates, three distractors are drawn by Fisher–Yates shuffling, and the four
 * options are shuffled once more.
 */
module QuestionGen {
  import opened Wrappers
  import opened JsArrays
  import opened Vocab
  import opened Roulette
  import opened RandomSource

  // ---------------------------------------------------------------------------
  // Weights
  // ---------------------------------------------------------------------------

  /** Personal weight: 1, plus 5 × the word's error rate once it has been answered. */
  function LocalWeight(performance: map<nat, Perf>, id: nat): (r: real)
    ensures 1.0 <= r <= 6.0
    ensures r == 1.0 <==> id !in performance || performance[id].incorrect == 0
  {
    if id in performance && performance[id].correct + performance[id].incorrect > 0 then
      var p := performance[id];
      var total := (p.correct + p.incorrect) as real;
      var rate := p.incorrect as real / total;
      assert 0.0 <= rate <= 1.0 by {
        assert rate * total == p.incorrect as real;
      }
      assert rate == 0.0 <==> p.incorrect == 0 by {
        assert rate * total == p.incorrect as real;
      }
      1.0 + rate * 5.0
    else
      1.0
  }

  /** Every global entry carries a difficulty score in [0, 1]. */
  predicate ScoresInRange(stats: map<nat, GlobalStat>) {
    forall id :: id in stats ==> 0.0 <= stats[id].difficultyScore <= 1.0
  }

  /** Global weight of the quiz: 1 + 3 × difficulty once the word has 5 attempts overall. */
  function QuizGlobalWeight(stats: map<nat, GlobalStat>, id: nat): (r: real)
    ensures !(id in stats && stats[id].totalAttempts >= 5) ==> r == 1.0
    ensures ScoresInRange(stats) ==> 1.0 <= r <= 4.0
  {
    if id in stats && stats[id].totalAttempts >= 5 then 1.0 + stats[id].difficultyScore * 3.0
    else 1.0
  }

  lemma ProductNonNegative(a: real, b: real)
    requires a >= 0.0 && b >= 0.0
    ensures a * b >= 0.0
  {
  }

  /** A personal weight in [1, 6] times a global weight in [1, 4] lies in [1, 24]. */
  lemma ProductBounds(l: real, g: real)
    requires 1.0 <= l <= 6.0 && 1.0 <= g <= 4.0
    ensures 1.0 <= l * g <= 24.0
  {
    assert l * g - 1.0 == (l - 1.0) * g + (g - 1.0);
    ProductNonNegative(l - 1.0, g);
    assert 24.0 - l * g == (6.0 - l) * g + 6.0 * (4.0 - g);
    ProductNonNegative(6.0 - l, g);
  }

  /** The word's slot width on the wheel: personal weight × global weight. */
  function CombinedWeight(performance: map<nat, Perf>, stats: map<nat, GlobalStat>, w: Word): (r: real)
    ensures ScoresInRange(stats) ==> 1.0 <= r <= 24.0
  {
    var l := LocalWeight(performance, w.id);
    var g := QuizGlobalWeight(stats, w.id);
    if ScoresInRange(stats) then ProductBounds(l, g); l * g else l * g
  }

  function Weights(words: seq<Word>, performance: map<nat, Perf>, stats: map<nat, GlobalStat>): (r: seq<real>)
    ensures |r| == |words|
    ensures forall i :: 0 <= i < |words| ==> r[i] == CombinedWeight(performance, stats, words[i])
  {
    Map(words, (w: Word) => CombinedWeight(performance, stats, w))
  }

  /**
   * The word the subtraction loop returns when `random` starts at `target`,
   * the last word when the loop runs off the end, and `None` (JavaScript's `undefined`) for an empty
   * catalogue.
   */
  function Pick(words: seq<Word>, weights: seq<real>, target: real): (r: Option<Word>)
    requires |weights| == |words|
    ensures r.Some? <==> |words| > 0
    ensures r.Some? ==> r.value in words
  {
    if |words| == 0 then None
    else
      match FirstReaching(weights, target)
      case Some(i) => Some(words[i])
      case None => Some(words[|words| - 1])
  }

  /** The word picked for draw `u`: the wheel is spun to `u × total weight`. */
  function PickFor(words: seq<Word>, weights: seq<real>, u: real): Option<Word>
    requires |weights| == |words|
  {
    Pick(words, weights, Spot(weights, u))
  }

  lemma SpotOfTotal(w: seq<real>, u: real, t: real)
    requires t == Total(w)
    ensures Spot(w, u) == u * t
  {
  }

  /** The subtraction loop stops at `i` when every shorter prefix stays below the target and `i`'s reaches it. */
  lemma FirstReachingAt(w: seq<real>, target: real, i: nat)
    requires i < |w| && target <= Prefix(w, i + 1)
    requires forall n :: 0 < n <= i ==> Prefix(w, n) < target
    ensures FirstReaching(w, target) == Some(i)
  {
  }

  /**
   * With difficulty scores in [0, 1] every weight is at least 1, so the
   * fallback to the last word is never taken: the pick is the word whose
   * slot on the wheel contains `u × total`.
   */
  lemma PickFollowsWheel(words: seq<Word>, performance: map<nat, Perf>, stats: map<nat, GlobalStat>, u: real)
    requires ScoresInRange(stats) && |words| > 0 && 0.0 <= u < 1.0
    ensures var w := Weights(words, performance, stats);
      && FirstReaching(w, Spot(w, u)).Some?
      && PickFor(words, w, u) == Some(words[FirstReaching(w, Spot(w, u)).value])
  {
    var w := Weights(words, performance, stats);
    assert AllAtLeast(w, 1.0);
    TotalAtLeastCount(w, 1.0);
    SpinLands(w, u);
  }

  // ---------------------------------------------------------------------------
  // Fisher–Yates shuffle
  // ---------------------------------------------------------------------------

  function Swap<T>(s: seq<T>, i: nat, j: nat): (r: seq<T>)
    requires i < |s| && j < |s|
    ensures |r| == |s| && r[i] == s[j] && r[j] == s[i]
    ensures forall k :: 0 <= k < |s| && k != i && k != j ==> r[k] == s[k]
  {
    s[i := s[j]][j := s[i]]
  }

  lemma SwapPermutes<T>(s: seq<T>, i: nat, j: nat)
    requires i < |s| && j < |s|
    ensures multiset(Swap(s, i, j)) == multiset(s)
  {
  }

  /** Fisher–Yates from position `i` down to 1, consuming draws `k`, `k+1`, .... */
  function ShuffleFrom<T>(s: seq<T>, i: nat, draw: nat -> real, k: nat): (r: seq<T>)
    requires i < |s| && ValidDraws(draw)
    ensures |r| == |s|
    decreases i
  {
    if i == 0 then s
    else ShuffleFrom(Swap(s, i, ScaledIndex(draw(k), i + 1)), i - 1, draw, k + 1)
  }

  /** One step of the shuffle: swap position `i` with the position drawn by `u`. */
  lemma ShuffleStep<T>(s: seq<T>, i: nat, draw: nat -> real, k: nat, j: nat, next: seq<T>, i1: nat, k1: nat)
    requires 0 < i < |s| && ValidDraws(draw) && j == ScaledIndex(draw(k), i + 1)
    requires next == Swap(s, i, j) && i1 == i - 1 && k1 == k + 1
    ensures ShuffleFrom(next, i1, draw, k1) == ShuffleFrom(s, i, draw, k)
  {
  }

  /** Every step of the shuffle swaps two positions, so it permutes its input. */
  lemma {:induction false} ShuffleFromPermutes<T>(s: seq<T>, i: nat, draw: nat -> real, k: nat)
    requires i < |s| && ValidDraws(draw)
    ensures multiset(ShuffleFrom(s, i, draw, k)) == multiset(s)
    decreases i
  {
    if i > 0 {
      var j := ScaledIndex(draw(k), i + 1);
      SwapPermutes(s, i, j);
      ShuffleFromPermutes(Swap(s, i, j), i - 1, draw, k + 1);
    }
  }

  /** The result of `shuffleArray(s)` when its draws start at `draw(k)`. */
  function Shuffled<T>(s: seq<T>, draw: nat -> real, k: nat): (r: seq<T>)
    requires ValidDraws(draw)
    ensures |r| == |s|
  {
    if |s| == 0 then s else ShuffleFrom(s, |s| - 1, draw, k)
  }

  /** `shuffleArray` returns a permutation of its input: same length, same elements, same multiplicities. */
  lemma ShuffledPermutes<T>(s: seq<T>, draw: nat -> real, k: nat)
    requires ValidDraws(draw)
    ensures multiset(Shuffled(s, draw, k)) == multiset(s)
  {
    if |s| > 0 {
      ShuffleFromPermutes(s, |s| - 1, draw, k);
    }
  }

  /** The number of draws a shuffle of `n` elements makes. */
  function ShuffleDraws(n: nat): nat {
    if n == 0 then 0 else n - 1
  }

  // ---------------------------------------------------------------------------
  // Distractors, options and questions
  // ---------------------------------------------------------------------------

  /** `words.filter(w => w.id !== id)`. */
  function HasOtherId(id: nat): Word -> bool {
    (w: Word) => w.id != id
  }

  function OtherWords(words: seq<Word>, id: nat): (r: seq<Word>)
    ensures |r| <= |words|
  {
    Filter(words, HasOtherId(id))
  }

  /** The other words are exactly the catalogue words whose id differs from `id`. */
  lemma OtherWordsMembers(words: seq<Word>, id: nat)
    ensures forall i :: 0 <= i < |OtherWords(words, id)| ==>
      OtherWords(words, id)[i] in words && OtherWords(words, id)[i].id != id
    ensures forall w :: w in words && w.id != id ==> w in OtherWords(words, id)
  {
    FilterMembers(words, HasOtherId(id));
    assert forall i :: 0 <= i < |OtherWords(words, id)| ==> HasOtherId(id)(OtherWords(words, id)[i]);
  }

  /** With unique ids and `id` in use, exactly one word is filtered out. */
  lemma {:induction false} OtherWordsLength(words: seq<Word>, id: nat)
    ensures |OtherWords(words, id)| == |words| - multiset(WordIds(words))[id]
  {
    if words != [] {
      OtherWordsLength(words[1..], id);
      assert WordIds(words) == [words[0].id] + WordIds(words[1..]);
    }
  }

  /** The distractors drawn for the word with id `id`, the shuffle starting at `draw(k)`. */
  function Distractors(words: seq<Word>, id: nat, count: nat, draw: nat -> real, k: nat): (r: seq<Word>)
    requires ValidDraws(draw)
    ensures |r| == Min(count, |OtherWords(words, id)|)
  {
    var shuffled := Shuffled(OtherWords(words, id), draw, k);
    SliceFromStart(shuffled, count);
    Slice(shuffled, 0, count)
  }

  /** Every distractor is a catalogue word with an id other than `id`. */
  lemma DistractorsMembers(words: seq<Word>, id: nat, count: nat, draw: nat -> real, k: nat)
    requires ValidDraws(draw)
    ensures var ds := Distractors(words, id, count, draw, k);
      forall i :: 0 <= i < |ds| ==> ds[i] in words && ds[i].id != id
  {
    var ds := Distractors(words, id, count, draw, k);
    DistractorsSubMultiset(words, id, count, draw, k);
    OtherWordsMembers(words, id);
    forall i | 0 <= i < |ds| ensures ds[i] in words && ds[i].id != id {
      assert ds[i] in multiset(OtherWords(words, id));
    }
  }

  /** The distractors are distinct draws from the other words: none is taken twice. */
  lemma DistractorsSubMultiset(words: seq<Word>, id: nat, count: nat, draw: nat -> real, k: nat)
    requires ValidDraws(draw)
    ensures multiset(Distractors(words, id, count, draw, k)) <= multiset(OtherWords(words, id))
  {
    var shuffled := Shuffled(OtherWords(words, id), draw, k);
    ShuffledPermutes(OtherWords(words, id), draw, k);
    SliceSubMultiset(shuffled, 0, count);
  }

  /** The option shown for `w`: its word when the definition is asked, else its definition. */
  function OptionFor(w: Word, qtype: QuestionType): QuestionOption {
    QuestionOption(w.id, if qtype == DefinitionToWord then w.word else w.definition)
  }

  function OptionsFrom(ws: seq<Word>, qtype: QuestionType): (r: seq<QuestionOption>)
    ensures |r| == |ws| && forall i :: 0 <= i < |ws| ==> r[i] == OptionFor(ws[i], qtype)
  {
    Map(ws, (w: Word) => OptionFor(w, qtype))
  }

  function OptionId(o: QuestionOption): nat { o.id }

  function OptionIds(opts: seq<QuestionOption>): seq<nat> {
    Map(opts, OptionId)
  }

  /** `generateOptions(correct, qtype)` with its draws starting at `draw(k)`. */
  function Options(words: seq<Word>, correct: Word, qtype: QuestionType, draw: nat -> real, k: nat): seq<QuestionOption>
    requires ValidDraws(draw)
  {
    OptionsFrom(Arranged(words, correct, draw, k), qtype)
  }

  /** The correct word followed by its distractors, before the shuffle. */
  function Candidates(words: seq<Word>, correct: Word, draw: nat -> real, k: nat): seq<Word>
    requires ValidDraws(draw)
  {
    [correct] + Distractors(words, correct.id, 3, draw, k)
  }

  /** The candidates, shuffled: the words behind the options, in order. */
  function Arranged(words: seq<Word>, correct: Word, draw: nat -> real, k: nat): seq<Word>
    requires ValidDraws(draw)
  {
    Shuffled(Candidates(words, correct, draw, k), draw, k + ShuffleDraws(|OtherWords(words, correct.id)|))
  }

  lemma ArrangedPermutes(words: seq<Word>, correct: Word, draw: nat -> real, k: nat)
    requires ValidDraws(draw)
    ensures multiset(Arranged(words, correct, draw, k)) == multiset(Candidates(words, correct, draw, k))
  {
    var c := Candidates(words, correct, draw, k);
    var k2 := k + ShuffleDraws(|OtherWords(words, correct.id)|);
    assert Arranged(words, correct, draw, k) == Shuffled(c, draw, k2);
    ShuffledPermutes(c, draw, k2);
  }

  lemma ArrangedUnfold(words: seq<Word>, correct: Word, draw: nat -> real, k: nat)
    requires ValidDraws(draw)
    ensures Arranged(words, correct, draw, k)
         == Shuffled([correct] + Distractors(words, correct.id, 3, draw, k), draw, k + ShuffleDraws(|OtherWords(words, correct.id)|))
  {
  }

  /**
   * What `generateOptions` does step by step — draw the distractors, then
   * shuffle them behind the correct word — yields the arrangement.
   */
  lemma ArrangedOf(words: seq<Word>, correct: Word, draw: nat -> real, k: nat, ds: seq<Word>, k1: nat, sh: seq<Word>)
    requires ValidDraws(draw) && ds == Distractors(words, correct.id, 3, draw, k)
    requires k1 == k + ShuffleDraws(|OtherWords(words, correct.id)|)
    requires sh == Shuffled([correct] + ds, draw, k1)
    ensures sh == Arranged(words, correct, draw, k)
  {
    ArrangedUnfold(words, correct, draw, k);
  }

  lemma OptionIdsOfWords(ws: seq<Word>, qtype: QuestionType)
    ensures OptionIds(OptionsFrom(ws, qtype)) == WordIds(ws)
  {
  }

  /** The correct word's option survives any rearrangement. */
  lemma CorrectOptionPresent(correct: Word, ds: seq<Word>, sh: seq<Word>, qtype: QuestionType)
    requires multiset(sh) == multiset([correct] + ds)
    ensures OptionFor(correct, qtype) in OptionsFrom(sh, qtype)
  {
    var all := [correct] + ds;
    assert all[0] == correct;
    assert correct in multiset(sh);
    var c :| 0 <= c < |sh| && sh[c] == correct;
    assert OptionsFrom(sh, qtype)[c] == OptionFor(correct, qtype);
  }

  /** When no distractor carries the correct id, it occurs exactly once among the options. */
  lemma CorrectIdOnce(correct: Word, ds: seq<Word>, sh: seq<Word>, qtype: QuestionType)
    requires forall i :: 0 <= i < |ds| ==> ds[i].id != correct.id
    requires multiset(sh) == multiset([correct] + ds)
    ensures multiset(OptionIds(OptionsFrom(sh, qtype)))[correct.id] == 1
  {
    var all := [correct] + ds;
    OptionIdsOfWords(sh, qtype);
    MapRespectsPermutation(all, sh, IdOf);
    assert WordIds(all) == [correct.id] + WordIds(ds);
    assert forall j :: 0 <= j < |ds| ==> WordIds(ds)[j] != correct.id;
    assert correct.id !in multiset(WordIds(ds));
  }

  /** Every option shows the text of some catalogue word, under that word's id. */
  predicate StandForWords(opts: seq<QuestionOption>, words: seq<Word>, qtype: QuestionType) {
    forall i :: 0 <= i < |opts| ==> exists w :: w in words && opts[i] == OptionFor(w, qtype)
  }

  /** Every option stands for the correct word or one of the distractors, all catalogue words. */
  lemma OptionsStandForWords(words: seq<Word>, correct: Word, ds: seq<Word>, sh: seq<Word>, qtype: QuestionType)
    requires correct in words && forall i :: 0 <= i < |ds| ==> ds[i] in words
    requires multiset(sh) == multiset([correct] + ds)
    ensures StandForWords(OptionsFrom(sh, qtype), words, qtype)
  {
    var all := [correct] + ds;
    var opts := OptionsFrom(sh, qtype);
    forall i | 0 <= i < |opts| ensures exists w :: w in words && opts[i] == OptionFor(w, qtype) {
      assert sh[i] in multiset(all);
      assert sh[i] in all;
    }
  }

  /**
   * The options hold the correct word's option, the correct id exactly once,
   * one more entry than there are distractors, and only options of catalogue
   * words.
   */
  lemma OptionsSpec(words: seq<Word>, correct: Word, qtype: QuestionType, draw: nat -> real, k: nat)
    requires ValidDraws(draw) && correct in words
    ensures var opts := Options(words, correct, qtype, draw, k);
      && |opts| == 1 + Min(3, |OtherWords(words, correct.id)|)
      && OptionFor(correct, qtype) in opts
      && multiset(OptionIds(opts))[correct.id] == 1
      && StandForWords(opts, words, qtype)
  {
    var ds := Distractors(words, correct.id, 3, draw, k);
    var sh := Arranged(words, correct, draw, k);
    ArrangedPermutes(words, correct, draw, k);
    DistractorsMembers(words, correct.id, 3, draw, k);
    assert Candidates(words, correct, draw, k) == [correct] + ds;
    ArrangementFacts(words, correct, ds, sh, qtype);
  }

  /** The properties of `OptionsSpec`, for any rearrangement of the correct word and its distractors. */
  lemma ArrangementFacts(words: seq<Word>, correct: Word, ds: seq<Word>, sh: seq<Word>, qtype: QuestionType)
    requires correct in words
    requires forall i :: 0 <= i < |ds| ==> ds[i] in words && ds[i].id != correct.id
    requires multiset(sh) == multiset([correct] + ds)
    ensures var opts := OptionsFrom(sh, qtype);
      && |opts| == 1 + |ds|
      && OptionFor(correct, qtype) in opts
      && multiset(OptionIds(opts))[correct.id] == 1
      && StandForWords(opts, words, qtype)
  {
    assert |sh| == |multiset(sh)| == 1 + |ds|;
    CorrectOptionPresent(correct, ds, sh, qtype);
    CorrectIdOnce(correct, ds, sh, qtype);
    OptionsStandForWords(words, correct, ds, sh, qtype);
  }

  /** Word positions with different values carry different ids: the ids of `t` are unique. */
  lemma UniqueIdsOfDistinctMembers(s: seq<Word>, t: seq<Word>)
    requires UniqueIds(s) && Distinct(t)
    requires forall i :: 0 <= i < |t| ==> t[i] in s
    ensures UniqueIds(t)
  {
    forall i, j | 0 <= i < j < |t| ensures WordIds(t)[i] != WordIds(t)[j] {
      var p :| 0 <= p < |s| && s[p] == t[i];
      var q :| 0 <= q < |s| && s[q] == t[j];
      assert t[i] != t[j];
      assert WordIds(s)[p] != WordIds(s)[q] || p == q;
    }
  }

  /** With unique ids, a catalogue word differs from every other catalogue word. */
  lemma UniqueIdsDistinct(words: seq<Word>)
    requires UniqueIds(words)
    ensures Distinct(words)
  {
    forall i, j | 0 <= i < j < |words| ensures words[i] != words[j] {
      assert WordIds(words)[i] != WordIds(words)[j];
    }
  }

  /**
   * With unique catalogue ids, options built from an arrangement of the
   * correct word and distinct distractors with other ids have distinct ids.
   */
  lemma ArrangementIdsDistinct(words: seq<Word>, correct: Word, ds: seq<Word>, sh: seq<Word>, qtype: QuestionType)
    requires UniqueIds(words) && correct in words && Distinct(ds)
    requires forall i :: 0 <= i < |ds| ==> ds[i] in words && ds[i].id != correct.id
    requires multiset(sh) == multiset([correct] + ds)
    ensures Distinct(OptionIds(OptionsFrom(sh, qtype)))
  {
    var all := [correct] + ds;
    assert Distinct(all) by {
      forall i, j | 0 <= i < j < |all| ensures all[i] != all[j] {
        if i == 0 {
          assert all[j].id != correct.id;
        } else {
          assert all[i] == ds[i - 1] && all[j] == ds[j - 1];
        }
      }
    }
    assert forall i :: 0 <= i < |all| ==> all[i] in words;
    UniqueIdsOfDistinctMembers(words, all);
    MapRespectsPermutation(all, sh, IdOf);
    SubMultisetOfDistinct(WordIds(all), WordIds(sh));
    OptionIdsOfWords(sh, qtype);
  }

  /**
   * With unique catalogue ids and the correct word in the catalogue, the
   * option ids are distinct and there are four options whenever the
   * catalogue holds four words (fewer for a smaller catalogue).
   */
  lemma OptionsWithUniqueIds(words: seq<Word>, correct: Word, qtype: QuestionType, draw: nat -> real, k: nat)
    requires ValidDraws(draw) && UniqueIds(words) && correct in words
    ensures var opts := Options(words, correct, qtype, draw, k);
      |opts| == Min(4, |words|) && Distinct(OptionIds(opts))
  {
    OptionsSpec(words, correct, qtype, draw, k);
    OthersOfUniqueWord(words, correct);
    DistractorsDistinct(words, correct, draw, k);
    DistractorsMembers(words, correct.id, 3, draw, k);
    ArrangedPermutes(words, correct, draw, k);
    var ds := Distractors(words, correct.id, 3, draw, k);
    assert Candidates(words, correct, draw, k) == [correct] + ds;
    ArrangementIdsDistinct(words, correct, ds, Arranged(words, correct, draw, k), qtype);
  }

  /** With unique ids, every catalogue word but the correct one is a candidate distractor. */
  lemma OthersOfUniqueWord(words: seq<Word>, correct: Word)
    requires UniqueIds(words) && correct in words
    ensures |OtherWords(words, correct.id)| == |words| - 1
  {
    OtherWordsLength(words, correct.id);
    var c :| 0 <= c < |words| && words[c] == correct;
    assert WordIds(words)[c] == correct.id;
    DistinctHasMultiplicityOne(WordIds(words), correct.id);
  }

  /** With unique ids, no catalogue word is drawn twice as a distractor. */
  lemma DistractorsDistinct(words: seq<Word>, correct: Word, draw: nat -> real, k: nat)
    requires ValidDraws(draw) && UniqueIds(words)
    ensures Distinct(Distractors(words, correct.id, 3, draw, k))
  {
    var others := OtherWords(words, correct.id);
    UniqueIdsDistinct(words);
    FilterSubMultiset(words, HasOtherId(correct.id));
    SubMultisetOfDistinct(words, others);
    DistractorsSubMultiset(words, correct.id, 3, draw, k);
    SubMultisetOfDistinct(others, Distractors(words, correct.id, 3, draw, k));
  }

  /** `options.find(opt => opt.id === id)`. */
  function FindOption(opts: seq<QuestionOption>, id: nat): (r: Option<QuestionOption>)
    ensures r.Some? ==> r.value in opts && r.value.id == id
    ensures r.None? <==> forall i :: 0 <= i < |opts| ==> opts[i].id != id
  {
    if opts == [] then None
    else if opts[0].id == id then Some(opts[0])
    else FindOption(opts[1..], id)
  }

  /**
   * `generateQuestion(qtype)` with its draws starting at `draw(k)`: `None`
   * where the code throws (an empty catalogue leaves the word `undefined`,
   * and a missing correct option would fail the non-null assertion).
   */
  function QuestionFrom(words: seq<Word>, weights: seq<real>, qtype: QuestionType, draw: nat -> real, k: nat): Option<Question>
    requires ValidDraws(draw) && |weights| == |words|
  {
    match PickFor(words, weights, draw(k))
    case None => None
    case Some(w) =>
      var opts := Options(words, w, qtype, draw, k + 1);
      var found := FindOption(opts, w.id);
      if found.None? then None else Some(Question(w, opts, found.value.id, qtype))
  }

  /** What every generated question satisfies. */
  predicate WellFormed(q: Question, words: seq<Word>) {
    && q.word in words
    && q.correctOptionId == q.word.id
    && OptionFor(q.word, q.qtype) in q.options
    && multiset(OptionIds(q.options))[q.word.id] == 1
    && 1 <= |q.options| <= 4
    && StandForWords(q.options, words, q.qtype)
  }

  /**
   * A question is produced exactly when the catalogue is non-empty; it is
   * well formed, and with unique ids it has `min(4, |words|)` options with
   * distinct ids.
   */
  lemma QuestionFromSpec(words: seq<Word>, weights: seq<real>, qtype: QuestionType, draw: nat -> real, k: nat)
    requires ValidDraws(draw) && |weights| == |words|
    ensures var q := QuestionFrom(words, weights, qtype, draw, k);
      && (q.Some? <==> |words| > 0)
      && (q.Some? ==> WellFormed(q.value, words) && q.value.qtype == qtype)
      && (q.Some? && UniqueIds(words) ==> |q.value.options| == Min(4, |words|) && Distinct(OptionIds(q.value.options)))
  {
    var p := PickFor(words, weights, draw(k));
    if p.Some? {
      var w := p.value;
      var opts := Options(words, w, qtype, draw, k + 1);
      OptionsSpec(words, w, qtype, draw, k + 1);
      if UniqueIds(words) {
        OptionsWithUniqueIds(words, w, qtype, draw, k + 1);
      }
      QuestionOfOptions(words, w, opts, qtype);
      QuestionFromPicked(words, weights, qtype, draw, k, w, opts);
    } else {
      QuestionFromNone(words, weights, qtype, draw, k);
    }
  }

  /** `QuestionFrom` once the word is picked and its options are built. */
  lemma QuestionFromPicked(words: seq<Word>, weights: seq<real>, qtype: QuestionType, draw: nat -> real, k: nat, w: Word, opts: seq<QuestionOption>)
    requires ValidDraws(draw) && |weights| == |words|
    requires PickFor(words, weights, draw(k)) == Some(w)
    requires opts == Options(words, w, qtype, draw, k + 1)
    ensures QuestionFrom(words, weights, qtype, draw, k)
         == if FindOption(opts, w.id).None? then None else Some(Question(w, opts, FindOption(opts, w.id).value.id, qtype))
  {
  }

  /** `QuestionFromPicked` with the options' first draw `k1` named, and the draws made. */
  lemma QuestionFromPickedAt(words: seq<Word>, weights: seq<real>, qtype: QuestionType, draw: nat -> real, k: nat, w: Word, k1: nat, opts: seq<QuestionOption>)
    requires ValidDraws(draw) && |weights| == |words|
    requires PickFor(words, weights, draw(k)) == Some(w)
    requires k1 == k + 1 && opts == Options(words, w, qtype, draw, k1)
    ensures QuestionFrom(words, weights, qtype, draw, k)
         == if FindOption(opts, w.id).None? then None else Some(Question(w, opts, FindOption(opts, w.id).value.id, qtype))
    ensures QuestionDraws(words, weights, draw(k)) == 1 + OptionDraws(words, w)
  {
    QuestionFromPicked(words, weights, qtype, draw, k, w, opts);
  }

  /** `QuestionFrom` when no word is picked. */
  lemma QuestionFromNone(words: seq<Word>, weights: seq<real>, qtype: QuestionType, draw: nat -> real, k: nat)
    requires ValidDraws(draw) && |weights| == |words|
    requires PickFor(words, weights, draw(k)).None?
    ensures QuestionFrom(words, weights, qtype, draw, k) == None
    ensures QuestionDraws(words, weights, draw(k)) == 1
  {
  }

  /** A picked catalogue word with options as `OptionsSpec` describes makes a well-formed question. */
  lemma QuestionOfOptions(words: seq<Word>, w: Word, opts: seq<QuestionOption>, qtype: QuestionType)
    requires w in words && OptionFor(w, qtype) in opts && 1 <= |opts| <= 4
    requires multiset(OptionIds(opts))[w.id] == 1 && StandForWords(opts, words, qtype)
    ensures FindOption(opts, w.id).Some? && FindOption(opts, w.id).value.id == w.id
    ensures WellFormed(Question(w, opts, w.id, qtype), words)
  {
    var c :| 0 <= c < |opts| && opts[c] == OptionFor(w, qtype);
    assert opts[c].id == w.id;
  }

  // ---------------------------------------------------------------------------
  // The generator object
  // ---------------------------------------------------------------------------

  class QuestionGenerator {
    const words: seq<Word>
    var globalStats: map<nat, GlobalStat>
    /** `null` until an authenticated user's record is supplied. */
    var userPerformance: Option<map<nat, Perf>>

    /**
     * `new QuestionGenerator(words, globalStats)`. The statistics default to
     * `{}` in the source; the quiz screen relies on that default, so it
     * passes `map[]` here.
     */
    constructor (words: seq<Word>, globalStats: map<nat, GlobalStat>)
      ensures this.words == words && this.globalStats == globalStats && userPerformance == None
    {
      this.words := words;
      this.globalStats := globalStats;
      userPerformance := None;
    }

    method SetGlobalStats(stats: map<nat, GlobalStat>)
      modifies this
      ensures globalStats == stats && userPerformance == old(userPerformance)
    {
      globalStats := stats;
    }

    method SetUserPerformance(performance: map<nat, Perf>)
      modifies this
      ensures userPerformance == Some(performance) && globalStats == old(globalStats)
    {
      userPerformance := Some(performance);
    }

    /** The user's record when set, else the guest record read from browser storage. */
    function PerformanceUsed(guest: map<nat, Perf>): map<nat, Perf>
      reads this
    {
      if userPerformance.Some? then userPerformance.value else guest
    }

    /** The `forEach` that pushes one combined weight per catalogue word. */
    method ComputeWeights(performance: map<nat, Perf>) returns (weights: seq<real>)
      ensures weights == Weights(words, performance, globalStats)
    {
      weights := [];
      var i := 0;
      while i < |words|
        invariant 0 <= i <= |words| && |weights| == i
        invariant forall j :: 0 <= j < i ==> weights[j] == CombinedWeight(performance, globalStats, words[j])
      {
        weights := weights + [CombinedWeight(performance, globalStats, words[i])];
        i := i + 1;
      }
    }

    method SelectWeightedWord(guest: map<nat, Perf>, rng: Random) returns (word: Option<Word>)
      requires rng.Valid()
      modifies rng
      ensures rng.calls == old(rng.calls) + 1
      ensures word == PickFor(words, Weights(words, PerformanceUsed(guest), globalStats), rng.draw(old(rng.calls)))
    {
      var performance := if userPerformance.Some? then userPerformance.value else guest;
      var weights := ComputeWeights(performance);
      var totalWeight := Total(weights);
      var u := rng.Next();
      word := Spin(weights, totalWeight, u);
    }

    /**
     * The subtraction loop: `random` starts at `target` and loses one weight
     * per word; the first word that takes it to zero or below is returned.
     */
    method Spin(weights: seq<real>, totalWeight: real, u: real) returns (word: Option<Word>)
      requires |weights| == |words| && totalWeight == Total(weights)
      ensures word == PickFor(words, weights, u)
    {
      var random := u * totalWeight;
      ghost var target := Spot(weights, u);
      SpotOfTotal(weights, u, totalWeight);
      var i := 0;
      while i < |words|
        invariant 0 <= i <= |words|
        invariant random == target - Prefix(weights, i)
        invariant forall n :: 0 < n <= i ==> Prefix(weights, n) < target
      {
        random := random - weights[i];
        if random <= 0.0 {
          FirstReachingAt(weights, target, i);
          return Some(words[i]);
        }
        i := i + 1;
      }
      if |words| == 0 {
        return None;
      }
      assert FirstReaching(weights, target).None?;
      return Some(words[|words| - 1]);
    }

    /** Fisher–Yates on a copy of `input`: the input sequence is a value and stays as it was. */
    method ShuffleArray<T>(input: seq<T>, rng: Random) returns (shuffled: seq<T>)
      requires rng.Valid()
      modifies rng
      ensures rng.calls == old(rng.calls) + ShuffleDraws(|input|)
      ensures shuffled == Shuffled(input, rng.draw, old(rng.calls))
    {
      var a := new T[|input|](k requires 0 <= k < |input| => input[k]);
      ghost var draw := rng.draw;
      ghost var goal := Shuffled(input, draw, rng.calls);
      ghost var cur := input;
      assert a[..] == cur;
      var i := a.Length - 1;
      while i > 0
        invariant -1 <= i < a.Length && (a.Length > 0 ==> i >= 0)
        invariant rng.draw == draw && rng.calls == old(rng.calls) + (a.Length - 1 - i)
        invariant a[..] == cur
        invariant a.Length == 0 ==> cur == goal
        invariant a.Length > 0 ==> ShuffleFrom(cur, i, draw, rng.calls) == goal
      {
        ghost var c := rng.calls;
        var u := rng.Next();
        var j := ScaledIndex(u, i + 1);
        a[i], a[j] := a[j], a[i];
        ghost var prev, i0 := cur, i;
        cur := Swap(cur, i, j);
        i := i - 1;
        ShuffleStep(prev, i0, draw, c, j, cur, i, rng.calls);
      }
      shuffled := a[..];
    }

    method GetRandomDistractors(correctWord: Word, count: nat, rng: Random) returns (distractors: seq<Word>)
      requires rng.Valid()
      modifies rng
      ensures rng.calls == old(rng.calls) + ShuffleDraws(|OtherWords(words, correctWord.id)|)
      ensures distractors == Distractors(words, correctWord.id, count, rng.draw, old(rng.calls))
    {
      var available := OtherWords(words, correctWord.id);
      var shuffled := ShuffleArray(available, rng);
      distractors := Slice(shuffled, 0, count);
    }

    method GenerateOptions(correctWord: Word, qtype: QuestionType, rng: Random) returns (options: seq<QuestionOption>)
      requires rng.Valid()
      modifies rng
      ensures rng.calls == old(rng.calls) + OptionDraws(words, correctWord)
      ensures options == Options(words, correctWord, qtype, rng.draw, old(rng.calls))
    {
      ghost var k := rng.calls;
      var distractors := GetRandomDistractors(correctWord, 3, rng);
      ghost var k1 := rng.calls;
      var allWords := [correctWord] + distractors;
      var shuffled := ShuffleArray(allWords, rng);
      ArrangedOf(words, correctWord, rng.draw, k, distractors, k1, shuffled);
      options := OptionsFrom(shuffled, qtype);
    }

    method GenerateQuestion(qtype: QuestionType, guest: map<nat, Perf>, rng: Random) returns (q: Option<Question>)
      requires rng.Valid()
      modifies rng
      ensures q == QuestionFrom(words, Weights(words, PerformanceUsed(guest), globalStats), qtype, rng.draw, old(rng.calls))
      ensures rng.calls == old(rng.calls) + QuestionDraws(words, Weights(words, PerformanceUsed(guest), globalStats), rng.draw(old(rng.calls)))
    {
      ghost var k := rng.calls;
      ghost var weights := Weights(words, PerformanceUsed(guest), globalStats);
      var picked := SelectWeightedWord(guest, rng);
      if picked.None? {
        QuestionFromNone(words, weights, qtype, rng.draw, k);
        return None;
      }
      var word := picked.value;
      ghost var k1 := rng.calls;
      var options := GenerateOptions(word, qtype, rng);
      QuestionFromPickedAt(words, weights, qtype, rng.draw, k, word, k1, options);
      var found := FindOption(options, word.id);
      if found.None? {
        return None;
      }
      q := Some(Question(word, options, found.value.id, qtype));
    }

    /** `generateQuestions(count, qtype)`: `None` where a call of `generateQuestion` throws. */
    method GenerateQuestions(count: int, qtype: QuestionType, guest: map<nat, Perf>, rng: Random) returns (qs: Option<seq<Question>>)
      requires rng.Valid()
      modifies rng
      ensures qs.Some? <==> count <= 0 || |words| > 0
      ensures qs.Some? ==> |qs.value| == Max(count, 0)
      ensures qs.Some? ==> forall i :: 0 <= i < |qs.value| ==> Generated(qs.value[i], words, qtype)
    {
      var questions: seq<Question> := [];
      var i := 0;
      while i < count
        invariant 0 <= i && (count >= 0 ==> i <= count) && (count < 0 ==> i == 0)
        invariant |questions| == i && (i > 0 ==> |words| > 0)
        invariant forall j :: 0 <= j < i ==> Generated(questions[j], words, qtype)
      {
        ghost var k := rng.calls;
        ghost var weights := Weights(words, PerformanceUsed(guest), globalStats);
        var q := GenerateQuestion(qtype, guest, rng);
        GeneratedOf(words, weights, qtype, rng.draw, k, q);
        if q.None? {
          return None;
        }
        GeneratedAppend(questions, q.value, words, qtype);
        questions := questions + [q.value];
        i := i + 1;
      }
      return Some(questions);
    }
  }

  /** What `generateQuestions` promises of each question it returns. */
  predicate Generated(q: Question, words: seq<Word>, qtype: QuestionType) {
    && WellFormed(q, words)
    && q.qtype == qtype
    && (UniqueIds(words) ==> |q.options| == Min(4, |words|))
  }

  lemma GeneratedAppend(qs: seq<Question>, q: Question, words: seq<Word>, qtype: QuestionType)
    requires forall j :: 0 <= j < |qs| ==> Generated(qs[j], words, qtype)
    requires Generated(q, words, qtype)
    ensures forall j :: 0 <= j < |qs| + 1 ==> Generated((qs + [q])[j], words, qtype)
  {
    assert forall j :: 0 <= j < |qs| ==> (qs + [q])[j] == qs[j];
  }

  /** `QuestionFromSpec` restated for one result of `generateQuestion`. */
  lemma GeneratedOf(words: seq<Word>, weights: seq<real>, qtype: QuestionType, draw: nat -> real, k: nat, q: Option<Question>)
    requires ValidDraws(draw) && |weights| == |words|
    requires q == QuestionFrom(words, weights, qtype, draw, k)
    ensures q.Some? <==> |words| > 0
    ensures q.Some? ==> Generated(q.value, words, qtype)
  {
    QuestionFromSpec(words, weights, qtype, draw, k);
  }

  /** The draws `generateQuestion` makes: one spin of the wheel, then the option draws for the picked word. */
  function QuestionDraws(words: seq<Word>, weights: seq<real>, u: real): nat
    requires |weights| == |words|
  {
    match PickFor(words, weights, u)
    case None => 1
    case Some(w) => 1 + OptionDraws(words, w)
  }

  /** The draws `generateOptions` makes: one shuffle of the other words, one of the options. */
  function OptionDraws(words: seq<Word>, correct: Word): nat {
    var others := |OtherWords(words, correct.id)|;
    ShuffleDraws(others) + ShuffleDraws(1 + Min(3, others))
  }
}
