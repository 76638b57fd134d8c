/** The records the application passes around (its `types/index.ts`). */
module Vocab {
  import opened Wrappers
  import opened JsArrays

  /** A vocabulary item of the catalogue `words.json`. */
  datatype Word = Word(id: nat, word: string, definition: string, synonym: string)

  datatype QuestionType = DefinitionToWord | WordToDefinition

  datatype StudyMode = Timed | WordCount | Learning

  datatype QuestionOption = QuestionOption(id: nat, text: string)

  datatype Question = Question(word: Word, options: seq<QuestionOption>, correctOptionId: nat, qtype: QuestionType)

  datatype Answer = Answer(
    questionId: nat,
    wordId: nat,
    selectedOptionId: nat,
    correctOptionId: nat,
    isCorrect: bool,
    timestamp: int)

  datatype AnswerSubmission = AnswerSubmission(wordId: nat, isCorrect: bool)

  /** One word's entry of a user's performance record. */
  datatype Perf = Perf(correct: nat, incorrect: nat)

  /** One word's entry of the global statistics shared by all users. */
  datatype GlobalStat = GlobalStat(correct: nat, incorrect: nat, totalAttempts: nat, difficultyScore: real)

  function IdOf(w: Word): nat { w.id }

  function WordIds(words: seq<Word>): seq<nat> {
    Map(words, IdOf)
  }

  /** No two catalogue words share an id. */
  predicate UniqueIds(words: seq<Word>) {
    Distinct(WordIds(words))
  }

  /**
   * `new Map(words.map(w => [w.id, w])).get(id)`: a later word with the same
   * id overwrites an earlier one, so the last word carrying `id` is found.
   */
  function LookupWord(catalogue: seq<Word>, id: nat): (r: Option<Word>)
    ensures r.Some? ==> r.value in catalogue && r.value.id == id
    ensures r.None? <==> forall i :: 0 <= i < |catalogue| ==> catalogue[i].id != id
  {
    if catalogue == [] then None
    else
      var last := catalogue[|catalogue| - 1];
      if last.id == id then Some(last)
      else
        var r := LookupWord(catalogue[..|catalogue| - 1], id);
        assert forall i :: 0 <= i < |catalogue| - 1 ==> catalogue[..|catalogue| - 1][i] == catalogue[i];
        r
  }

  /** With unique ids, looking up a word's id finds that word. */
  lemma {:induction false} LookupFindsWord(catalogue: seq<Word>, w: Word)
    requires UniqueIds(catalogue) && w in catalogue
    ensures LookupWord(catalogue, w.id) == Some(w)
  {
    var n := |catalogue|;
    var last := catalogue[n - 1];
    var init := catalogue[..n - 1];
    assert catalogue == init + [last];
    if last.id != w.id {
      assert w in init;
      assert UniqueIds(init) by {
        forall i, j | 0 <= i < j < |init| ensures WordIds(init)[i] != WordIds(init)[j] {
          assert WordIds(catalogue)[i] != WordIds(catalogue)[j];
        }
      }
      LookupFindsWord(init, w);
    }
  }
}
