/**
 * The word-list converter (`parse-words.js`): every line of the text file
 * of the form `word...syn: synonym; definition` becomes a catalogue entry
 * with the next id. The line pattern is
 * `/^([a-z]+)\.\.\.syn:\s*([^;]+);\s*(.+)$/i`; it is modelled twice, as the
 * regular expression's language (`Decomposes`) and as the greedy,
 * backtracking match a JavaScript engine computes (`Greedy`), and the two
 * are proved to accept the same lines.
 */
module ParseWords {
  import opened Wrappers
  import opened JsArrays
  import opened JsText
  import opened Vocab

  /** The three capture groups of a match, untrimmed. */
  datatype Groups = Groups(letters: string, synonym: string, definition: string)

  /**
   * Where a match cuts the line: the letters are `[0, n)`, the marker
   * `...syn:` is `[n, n + 7)`, the synonym group `[s, e)`, the `;` sits at
   * `e`, and the definition group is `[t, |line|)`.
   */
  datatype Cut = Cut(n: nat, s: nat, e: nat, t: nat)

  // ---------------------------------------------------------------------------
  // Scanning
  // ---------------------------------------------------------------------------

  /** The end of the run of ASCII letters starting at `k`. */
  function LetterEnd(line: string, k: nat): (r: nat)
    requires k <= |line|
    ensures k <= r <= |line|
    ensures forall j :: k <= j < r ==> IsAsciiLetter(line[j])
    ensures r < |line| ==> !IsAsciiLetter(line[r])
    decreases |line| - k
  {
    if k < |line| && IsAsciiLetter(line[k]) then LetterEnd(line, k + 1) else k
  }

  /** The end of the run of whitespace starting at `k`. */
  function SpaceEnd(line: string, k: nat): (r: nat)
    requires k <= |line|
    ensures k <= r <= |line|
    ensures forall j :: k <= j < r ==> IsWhitespace(line[j])
    ensures r < |line| ==> !IsWhitespace(line[r])
    decreases |line| - k
  {
    if k < |line| && IsWhitespace(line[k]) then SpaceEnd(line, k + 1) else k
  }

  /** The first `;` at or after `k`, or `|line|` when there is none. */
  function SemicolonFrom(line: string, k: nat): (r: nat)
    requires k <= |line|
    ensures k <= r <= |line|
    ensures forall j :: k <= j < r ==> line[j] != ';'
    ensures r < |line| ==> line[r] == ';'
    decreases |line| - k
  {
    if k < |line| && line[k] != ';' then SemicolonFrom(line, k + 1) else k
  }

  /** `\.\.\.syn:` under the `i` flag, at `n`. */
  predicate MarkerAt(line: string, n: nat)
    requires n + 7 <= |line|
  {
    && line[n] == '.' && line[n + 1] == '.' && line[n + 2] == '.'
    && (line[n + 3] == 's' || line[n + 3] == 'S')
    && (line[n + 4] == 'y' || line[n + 4] == 'Y')
    && (line[n + 5] == 'n' || line[n + 5] == 'N')
    && line[n + 6] == ':'
  }

  /** `.` matches every character of `line` from `k` on: none is a line terminator. */
  predicate NoLineTerminatorFrom(line: string, k: nat) {
    forall j :: k <= j < |line| ==> !IsLineTerminator(line[j])
  }

  // ---------------------------------------------------------------------------
  // The pattern
  // ---------------------------------------------------------------------------

  /**
   * The line is in the pattern's language, cut at `c`: one or more letters,
   * the marker, whitespace, one or more characters other than `;`, a `;`,
   * whitespace, and one or more characters other than line terminators up
   * to the end of the line.
   */
  predicate Decomposes(line: string, c: Cut) {
    && 1 <= c.n && c.n + 7 <= c.s < c.e < c.t < |line|
    && (forall j :: 0 <= j < c.n ==> IsAsciiLetter(line[j]))
    && MarkerAt(line, c.n)
    && (forall j :: c.n + 7 <= j < c.s ==> IsWhitespace(line[j]))
    && (forall j :: c.s <= j < c.e ==> line[j] != ';')
    && line[c.e] == ';'
    && (forall j :: c.e < j < c.t ==> IsWhitespace(line[j]))
    && NoLineTerminatorFrom(line, c.t)
  }

  /**
   * The match the engine finds: the letter run cannot give back letters to
   * a `.`, the synonym group ends at the first `;` after the marker, and
   * each `\s*` takes all the whitespace it can but gives back one character
   * when the group after it would otherwise be empty.
   */
  function Greedy(line: string): (r: Option<Cut>)
    ensures r.Some? ==> 1 <= r.value.n && r.value.n + 7 <= r.value.s < r.value.e < r.value.t < |line|
  {
    var n := LetterEnd(line, 0);
    if n == 0 || |line| < n + 7 || !MarkerAt(line, n) then None
    else
      var e := SemicolonFrom(line, n + 7);
      if e == |line| || e == n + 7 || e + 1 == |line| then None
      else
        var t := Min(SpaceEnd(line, e + 1), |line| - 1);
        if !NoLineTerminatorFrom(line, t) then None
        else Some(Cut(n, Min(SpaceEnd(line, n + 7), e - 1), e, t))
  }

  /** `line.match(...)`: the capture groups of the match, if any. */
  function MatchLine(line: string): Option<Groups> {
    match Greedy(line)
    case None => None
    case Some(c) => Some(Groups(line[..c.n], line[c.s..c.e], line[c.t..]))
  }

  /** The match the engine finds is a cut of the line in the pattern's language. */
  lemma GreedyDecomposes(line: string)
    requires Greedy(line).Some?
    ensures Decomposes(line, Greedy(line).value)
  {
    var c := Greedy(line).value;
    var n, e := LetterEnd(line, 0), SemicolonFrom(line, LetterEnd(line, 0) + 7);
    assert c.n == n && c.e == e;
    assert forall j :: c.e < j < c.t ==> IsWhitespace(line[j]);
  }

  /** The letter run from `k` ends at the first non-letter. */
  lemma LetterEndAt(line: string, k: nat, m: nat)
    requires k <= m < |line| && !IsAsciiLetter(line[m])
    requires forall j :: k <= j < m ==> IsAsciiLetter(line[j])
    ensures LetterEnd(line, k) == m
  {
  }

  /** The first `;` from `k` is the one at `m` when none comes before it. */
  lemma SemicolonAt(line: string, k: nat, m: nat)
    requires k <= m < |line| && line[m] == ';'
    requires forall j :: k <= j < m ==> line[j] != ';'
    ensures SemicolonFrom(line, k) == m
  {
  }

  /** The whitespace run from `k` reaches at least `m` when `[k, m)` is whitespace. */
  lemma SpaceEndReaches(line: string, k: nat, m: nat)
    requires k <= m <= |line|
    requires forall j :: k <= j < m ==> IsWhitespace(line[j])
    ensures SpaceEnd(line, k) >= m
  {
  }

  /**
   * Every cut of a line in the pattern's language has the letters and the
   * `;` of the engine's match, so the engine finds a match, and it gives
   * the last group no less whitespace than the engine does.
   */
  lemma DecomposedIsFound(line: string, c: Cut)
    requires Decomposes(line, c)
    ensures Greedy(line).Some?
    ensures var g := Greedy(line).value; g.n == c.n && g.e == c.e && c.t <= g.t
  {
    LetterEndAt(line, 0, c.n);
    forall j | c.n + 7 <= j < c.e ensures line[j] != ';' {
      if j < c.s {
        assert IsWhitespace(line[j]);
      }
    }
    SemicolonAt(line, c.n + 7, c.e);
    SpaceEndReaches(line, c.e + 1, c.t);
  }

  /**
   * Two groups that end at `e` and start after whitespace from `a` trim to
   * the same text: cuts of a line differ only in the whitespace they give
   * to a group, which is trimmed away.
   */
  lemma SameAfterWhitespace(line: string, a: nat, s1: nat, s2: nat, e: nat)
    requires a <= s1 <= e && a <= s2 <= e && e <= |line|
    requires forall j :: a <= j < s1 ==> IsWhitespace(line[j])
    requires forall j :: a <= j < s2 ==> IsWhitespace(line[j])
    ensures Trim(line[s1..e]) == Trim(line[s2..e])
  {
    WhitespaceThenRest(line, a, s1, e);
    WhitespaceThenRest(line, a, s2, e);
  }

  /** Whitespace at `[a, b)` does not survive trimming `[a, c)`. */
  lemma WhitespaceThenRest(line: string, a: nat, b: nat, c: nat)
    requires a <= b <= c <= |line|
    requires forall j :: a <= j < b ==> IsWhitespace(line[j])
    ensures Trim(line[a..c]) == Trim(line[b..c])
  {
    assert line[a..c] == line[a..b] + line[b..c];
    TrimIgnoresLeadingWhitespace(line[a..b], line[b..c]);
  }

  /** The engine matches a line exactly when the line is in the pattern's language. */
  lemma MatchesIffDecomposes(line: string)
    ensures MatchLine(line).Some? <==> exists c :: Decomposes(line, c)
  {
    if Greedy(line).Some? {
      GreedyDecomposes(line);
    }
    if exists c :: Decomposes(line, c) {
      var c :| Decomposes(line, c);
      DecomposedIsFound(line, c);
      GreedyDecomposes(line);
    }
  }

  // ---------------------------------------------------------------------------
  // Entries
  // ---------------------------------------------------------------------------

  /** The entry pushed for a match: trimmed captures, word and definition capitalised. */
  function EntryOf(g: Groups, id: nat): Word {
    Word(id, Capitalize(Trim(g.letters)), Capitalize(Trim(g.definition)), Trim(g.synonym))
  }

  /** A string with no whitespace at either end is its own trim. */
  lemma TrimOfLetters(s: string)
    requires s != [] && !IsWhitespace(s[0]) && !IsWhitespace(s[|s| - 1])
    ensures Trim(s) == s
  {
  }

  /** The word of the entry: the leading letters, untouched by trimming, the first upper-cased. */
  lemma WordOfLetters(line: string, c: Cut)
    requires Decomposes(line, c)
    ensures var w := Capitalize(Trim(line[..c.n]));
      w == Capitalize(line[..c.n]) && |w| >= 1 && 'A' <= w[0] <= 'Z'
  {
    var letters := line[..c.n];
    assert IsAsciiLetter(letters[0]) && IsAsciiLetter(letters[|letters| - 1]);
    TrimOfLetters(letters);
  }

  /** The trimmed synonym group holds no `;`. */
  lemma SynonymHasNoSemicolon(line: string, c: Cut)
    requires Decomposes(line, c)
    ensures ';' !in Trim(line[c.s..c.e])
  {
    var syn := line[c.s..c.e];
    forall j | 0 <= j < |syn| ensures syn[j] != ';' {
      assert syn[j] == line[c.s + j];
    }
    TrimKeepsCharacters(syn);
  }

  /** The definition, trimmed and capitalised, stays on one line. */
  lemma DefinitionOnOneLine(line: string, t: nat)
    requires t <= |line| && NoLineTerminatorFrom(line, t)
    ensures SingleLine(Capitalize(Trim(line[t..])))
  {
    forall j | 0 <= j < |line| - t ensures !IsLineTerminator(line[t..][j]) {
      assert line[t..][j] == line[t + j];
    }
    CapitalizedTrimStaysSingleLine(line[t..]);
  }

  /**
   * The engine's groups for a matching line, against any cut the pattern
   * allows: the same letters, and the same synonym and definition once
   * trimmed.
   */
  lemma EngineGroups(line: string, c: Cut)
    requires Decomposes(line, c)
    ensures MatchLine(line).Some?
    ensures var m := MatchLine(line).value;
      && m.letters == line[..c.n]
      && Trim(m.synonym) == Trim(line[c.s..c.e])
      && Trim(m.definition) == Trim(line[c.t..])
  {
    DecomposedIsFound(line, c);
    GreedyDecomposes(line);
    var g := Greedy(line).value;
    SameAfterWhitespace(line, c.n + 7, c.s, g.s, c.e);
    SameSuffixAfterWhitespace(line, c.e + 1, c.t, g.t);
  }

  /** `SameAfterWhitespace` for groups that run to the end of the line. */
  lemma SameSuffixAfterWhitespace(line: string, a: nat, s1: nat, s2: nat)
    requires a <= s1 <= |line| && a <= s2 <= |line|
    requires forall j :: a <= j < s1 ==> IsWhitespace(line[j])
    requires forall j :: a <= j < s2 ==> IsWhitespace(line[j])
    ensures Trim(line[s1..]) == Trim(line[s2..])
  {
    SameAfterWhitespace(line, a, s1, s2, |line|);
    assert line[s1..|line|] == line[s1..];
    assert line[s2..|line|] == line[s2..];
  }

  /**
   * The fields of the entry for any matching line, cut however the pattern
   * allows: the word is the leading letters with the first upper-cased; the
   * synonym is the cut's synonym group trimmed, so it holds no `;`; the
   * definition is the cut's definition group trimmed, with the first
   * character upper-cased, and stays on one line.
   */
  lemma EntryFields(line: string, c: Cut, id: nat)
    requires Decomposes(line, c)
    ensures MatchLine(line).Some?
    ensures var w := EntryOf(MatchLine(line).value, id);
      && w.id == id
      && w.word == Capitalize(line[..c.n])
      && |w.word| >= 1 && 'A' <= w.word[0] <= 'Z'
      && w.synonym == Trim(line[c.s..c.e]) && ';' !in w.synonym
      && w.definition == Capitalize(Trim(line[c.t..]))
      && SingleLine(w.definition)
  {
    EngineGroups(line, c);
    WordOfLetters(line, c);
    SynonymHasNoSemicolon(line, c);
    DefinitionOnOneLine(line, c.t);
  }

  /**
   * With Windows line ends the `\r` stays on every line after the split on
   * `\n`; `.` does not match it, so such a line yields no entry.
   */
  lemma CarriageReturnLineSkipped(line: string)
    requires |line| > 0 && line[|line| - 1] == '\r'
    ensures MatchLine(line).None?
    ensures forall c :: !Decomposes(line, c)
  {
    forall c ensures !Decomposes(line, c) {
    }
    MatchesIffDecomposes(line);
  }

  // ---------------------------------------------------------------------------
  // The file
  // ---------------------------------------------------------------------------

  /**
   * The entries for `lines`, numbered from `id` in input order, where
   * `matcher` gives each line's capture groups, lines without a match are
   * skipped, and `entry` builds the entry for a match and its id.
   */
  function ParsedWith<G>(lines: seq<string>, matcher: string -> Option<G>, entry: (G, nat) -> Word, id: nat): seq<Word>
    decreases |lines|
  {
    if lines == [] then []
    else match matcher(lines[0])
      case Some(g) => [entry(g, id)] + ParsedWith(lines[1..], matcher, entry, id + 1)
      case None => ParsedWith(lines[1..], matcher, entry, id)
  }

  /** The entries for `lines` under the pattern, numbered from `id`. */
  function ParsedFrom(lines: seq<string>, id: nat): seq<Word> {
    ParsedWith(lines, MatchLine, EntryOf, id)
  }

  function LineMatches(line: string): bool { MatchLine(line).Some? }

  /**
   * One entry per line that has a match, in order: the `k`-th entry is the
   * entry of the `k`-th such line with id `id + k`; lines without a match
   * use no id.
   */
  lemma {:induction false} ParsedWithSpec<G>(lines: seq<string>, matcher: string -> Option<G>,
                                             entry: (G, nat) -> Word, matches: string -> bool, id: nat)
    requires forall line :: matches(line) == matcher(line).Some?
    ensures var r, m := ParsedWith(lines, matcher, entry, id), Filter(lines, matches);
      && |r| == |m|
      && forall k :: 0 <= k < |r| ==>
           matcher(m[k]).Some? && r[k] == entry(matcher(m[k]).value, id + k)
  {
    if lines != [] {
      var r, m := ParsedWith(lines, matcher, entry, id), Filter(lines, matches);
      if matches(lines[0]) {
        var r', m' := ParsedWith(lines[1..], matcher, entry, id + 1), Filter(lines[1..], matches);
        ParsedWithSpec(lines[1..], matcher, entry, matches, id + 1);
        assert r == [entry(matcher(lines[0]).value, id)] + r';
        assert m == [lines[0]] + m';
        forall k | 1 <= k < |r|
          ensures matcher(m[k]).Some? && r[k] == entry(matcher(m[k]).value, id + k)
        {
          assert r[k] == r'[k - 1] && m[k] == m'[k - 1];
        }
      } else {
        ParsedWithSpec(lines[1..], matcher, entry, matches, id);
        assert r == ParsedWith(lines[1..], matcher, entry, id);
      }
    }
  }

  /** `ParsedWithSpec` for the pattern's matches. */
  lemma ParsedSpec(lines: seq<string>, id: nat)
    ensures var r, m := ParsedFrom(lines, id), Filter(lines, LineMatches);
      && |r| == |m|
      && forall k :: 0 <= k < |r| ==>
           MatchLine(m[k]).Some? && r[k] == EntryOf(MatchLine(m[k]).value, id + k)
  {
    ParsedWithSpec(lines, MatchLine, EntryOf, LineMatches, id);
  }

  /** The ids of a parsed file run 1, 2, 3, … and count the matching lines. */
  lemma ParsedIds(lines: seq<string>)
    ensures |ParsedFrom(lines, 1)| == |Filter(lines, LineMatches)|
    ensures forall k :: 0 <= k < |ParsedFrom(lines, 1)| ==> ParsedFrom(lines, 1)[k].id == k + 1
  {
    ParsedSpec(lines, 1);
  }

  /** The loop over `content.split('\n')`, pushing an entry and taking the next id for each matching line. */
  method ParseWords(content: string) returns (words: seq<Word>)
    ensures words == ParsedFrom(Split(content, '\n'), 1)
  {
    var lines := Split(content, '\n');
    words := [];
    var id := 1;
    for i := 0 to |lines|
      invariant id == |words| + 1
      invariant words + ParsedFrom(lines[i..], id) == ParsedFrom(lines, 1)
    {
      var match_ := MatchLine(lines[i]);
      ghost var before, idBefore := words, id;
      if match_.Some? {
        words := words + [EntryOf(match_.value, id)];
        id := id + 1;
      }
      ParseStep(lines, i, before, idBefore, words, id);
    }
    assert lines[|lines|..] == [];
  }

  /** One round of the loop keeps the entries still to come. */
  lemma ParseStep(lines: seq<string>, i: nat, before: seq<Word>, id: nat, after: seq<Word>, id': nat)
    requires i < |lines|
    requires MatchLine(lines[i]).Some? ==> after == before + [EntryOf(MatchLine(lines[i]).value, id)] && id' == id + 1
    requires MatchLine(lines[i]).None? ==> after == before && id' == id
    ensures before + ParsedFrom(lines[i..], id) == after + ParsedFrom(lines[i + 1..], id')
  {
    assert lines[i..][1..] == lines[i + 1..];
    assert lines[i..][0] == lines[i];
  }
}
