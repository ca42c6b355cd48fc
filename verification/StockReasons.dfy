/**
  A stock non-answer stays one: in any case, with any spacing, with closing stops, and
  glued to others with any punctuation, it is refused as an exemption's reason.
*/
module StockReasons {
  import opened Text
  import opened ExemptionRules

  // ------------------------------------------------------------------
  // Words and spaces
  // ------------------------------------------------------------------

  predicate IsStop(c: char) {
    c in {'.', '!', '?'}
  }

  predicate AllStops(s: string) {
    forall i | 0 <= i < |s| :: IsStop(s[i])
  }

  predicate IsWordChar(c: char) {
    'a' <= c <= 'z' || c == '-' || c == '/'
  }

  predicate IsWord(w: string) {
    w != "" && forall i | 0 <= i < |w| :: IsWordChar(w[i])
  }

  predicate AllWords(ws: seq<string>) {
    |ws| >= 1 && forall i | 0 <= i < |ws| :: IsWord(ws[i])
  }

  lemma WordChar(c: char)
    requires IsWordChar(c)
    ensures !IsSpace(c) && !IsStop(c)
  {
    NotASpace(c);
  }

  lemma StopIsNoSpace(c: char)
    requires IsStop(c)
    ensures !IsSpace(c) && Lower(c) == c
  {
    NotASpace(c);
  }

  /** Lowering neither makes nor removes a space, and leaves spaces alone. */
  lemma LowerKeepsSpaces(c: char)
    ensures IsSpace(Lower(c)) <==> IsSpace(c)
    ensures IsSpace(c) ==> Lower(c) == c
  {
    if Lower(c) != c {
      NotASpace(Lower(c));
      OneOfIs(c, SPACES);
    }
  }

  lemma ToLowerConcat(a: string, b: string)
    ensures ToLower(a + b) == ToLower(a) + ToLower(b)
  {
  }

  lemma LowerSpaces(s: string)
    requires AllSpace(s)
    ensures ToLower(s) == s
  {
    forall i | 0 <= i < |s|
      ensures Lower(s[i]) == s[i]
    {
      LowerKeepsSpaces(s[i]);
    }
  }

  lemma LowerStops(s: string)
    requires AllStops(s)
    ensures ToLower(s) == s
  {
    forall i | 0 <= i < |s|
      ensures Lower(s[i]) == s[i]
    {
      StopIsNoSpace(s[i]);
    }
  }

  // ------------------------------------------------------------------
  // Words with gaps between them
  // ------------------------------------------------------------------

  predicate Gapped(ws: seq<string>, gaps: seq<string>) {
    && |ws| == |gaps| + 1
    && forall i | 0 <= i < |gaps| :: gaps[i] != "" && AllSpace(gaps[i])
  }

  /** The words in some mixture of cases. */
  predicate Respells(ws: seq<string>, words: seq<string>) {
    |ws| == |words| && forall i | 0 <= i < |ws| :: ToLower(ws[i]) == words[i]
  }

  lemma {:induction false} LowerGlue(ws: seq<string>, gaps: seq<string>, words: seq<string>)
    requires Gapped(ws, gaps) && Respells(ws, words)
    ensures ToLower(Glue(ws, gaps)) == Glue(words, gaps)
    decreases |gaps|
  {
    if gaps != [] {
      LowerGlue(ws[1..], gaps[1..], words[1..]);
      LowerSpaces(gaps[0]);
      ToLowerConcat(ws[0], gaps[0]);
      ToLowerConcat(ws[0] + gaps[0], Glue(ws[1..], gaps[1..]));
    }
  }

  lemma WordHasNoSpace(w: string)
    requires IsWord(w)
    ensures forall i | 0 <= i < |w| :: !IsSpace(w[i])
  {
    forall i | 0 <= i < |w|
      ensures !IsSpace(w[i])
    {
      WordChar(w[i]);
    }
  }

  /** However the words are spaced out, they are the fields. */
  lemma {:induction false} FieldsOfGlue(words: seq<string>, gaps: seq<string>)
    requires AllWords(words) && Gapped(words, gaps)
    ensures Fields(Glue(words, gaps)) == words
    decreases |gaps|
  {
    var first := words[0];
    WordHasNoSpace(first);
    assert "" + first == first;
    if gaps == [] {
      FieldsThroughWord(first, "", "");
      assert first + "" == first;
    } else {
      var tail := Glue(words[1..], gaps[1..]);
      FieldsThroughWord(first, gaps[0] + tail, "");
      FieldsThroughGap(gaps[0], tail, first);
      FieldsOfGlue(words[1..], gaps[1..]);
      assert first + gaps[0] + tail == first + (gaps[0] + tail);
      assert words == [first] + words[1..];
    }
  }

  /** The ends of the spaced words are the ends of the outer words. */
  lemma {:induction false} GlueEnds(ws: seq<string>, gaps: seq<string>)
    requires Gapped(ws, gaps) && forall i | 0 <= i < |ws| :: ws[i] != ""
    ensures var g, last := Glue(ws, gaps), ws[|ws| - 1];
            g != "" && g[0] == ws[0][0] && g[|g| - 1] == last[|last| - 1]
    decreases |gaps|
  {
    if gaps != [] {
      GlueEnds(ws[1..], gaps[1..]);
      EndsOfConcat(ws[0] + gaps[0], Glue(ws[1..], gaps[1..]));
    }
  }

  lemma EndsOfConcat(a: string, b: string)
    requires a != "" && b != ""
    ensures (a + b)[0] == a[0] && (a + b)[|a + b| - 1] == b[|b| - 1]
  {
  }

  lemma GlueOfWordsEnds(words: seq<string>, gaps: seq<string>)
    requires AllWords(words) && Gapped(words, gaps)
    ensures var g := Glue(words, gaps);
            g != "" && !IsSpace(g[0]) && !IsSpace(g[|g| - 1]) && !IsStop(g[|g| - 1])
  {
    var last := words[|words| - 1];
    GlueEnds(words, gaps);
    WordChar(words[0][0]);
    WordChar(last[|last| - 1]);
  }

  /** A respelling has its spaces where the words have none, at its ends least of all. */
  lemma RespelledEnds(ws: seq<string>, gaps: seq<string>, words: seq<string>)
    requires AllWords(words) && Gapped(ws, gaps) && Respells(ws, words)
    ensures var g := Glue(ws, gaps); g != "" && !IsSpace(g[0]) && !IsSpace(g[|g| - 1])
  {
    var g, low := Glue(ws, gaps), Glue(words, gaps);
    LowerGlue(ws, gaps, words);
    GlueOfWordsEnds(words, gaps);
    assert ToLower(g) == low && |g| == |low|;
    assert Lower(g[0]) == low[0] && Lower(g[|g| - 1]) == low[|g| - 1];
    LowerKeepsSpaces(g[0]);
    LowerKeepsSpaces(g[|g| - 1]);
  }

  // ------------------------------------------------------------------
  // Normalising
  // ------------------------------------------------------------------

  lemma {:induction false} TrimStopsIs(core: string, stops: string)
    requires AllStops(stops) && (core == "" || !IsStop(core[|core| - 1]))
    ensures TrimStops(core + stops) == core
    decreases stops
  {
    if stops == "" {
      assert core + stops == core;
    } else {
      assert (core + stops)[..|core + stops| - 1] == core + stops[..|stops| - 1];
      TrimStopsIs(core, stops[..|stops| - 1]);
    }
  }

  /** The four steps of `normalizeReasonForCheck`, one after the other. */
  lemma NormalizeSteps(reason: string, trimmed: string, lowered: string, stripped: string, core: string)
    requires TrimSpace(reason) == trimmed && ToLower(trimmed) == lowered
    requires TrimStops(lowered) == stripped && TrimSpace(stripped) == core && Fields(core) != []
    ensures Normalize(reason) == Join(Fields(core), ' ')
  {
  }

  /** A phrase in some spelling: its words in any case, gaps, and spaces and stops around. */
  datatype Spelling = Spelling(
    phrase: seq<string>, words: seq<string>, gaps: seq<string>,
    before: string, beforeStops: string, stops: string, after: string)

  predicate IsSpelling(sp: Spelling) {
    && AllWords(sp.phrase) && Gapped(sp.words, sp.gaps) && Respells(sp.words, sp.phrase)
    && AllSpace(sp.before) && AllSpace(sp.beforeStops) && AllStops(sp.stops) && AllSpace(sp.after)
  }

  /** The text after its leading spaces and before its trailing ones. */
  function Core(sp: Spelling): string
    requires |sp.words| == |sp.gaps| + 1
  {
    Glue(sp.words, sp.gaps) + sp.beforeStops + sp.stops
  }

  function TextOf(sp: Spelling): string
    requires |sp.words| == |sp.gaps| + 1
  {
    sp.before + Core(sp) + sp.after
  }

  lemma TrimsToCore(sp: Spelling)
    requires IsSpelling(sp) && sp.stops != ""
    ensures TrimSpace(TextOf(sp)) == Core(sp)
  {
    RespelledEnds(sp.words, sp.gaps, sp.phrase);
    var core := Core(sp);
    assert core[0] == Glue(sp.words, sp.gaps)[0];
    assert core[|core| - 1] == sp.stops[|sp.stops| - 1];
    StopIsNoSpace(core[|core| - 1]);
    TrimSpaceIs(sp.before, core, sp.after);
  }

  lemma TrimsToWords(sp: Spelling)
    requires IsSpelling(sp) && sp.stops == ""
    ensures TrimSpace(TextOf(sp)) == Glue(sp.words, sp.gaps)
  {
    var g := Glue(sp.words, sp.gaps);
    RespelledEnds(sp.words, sp.gaps, sp.phrase);
    TrimSpaceIs(sp.before, g, sp.beforeStops + sp.after);
    assert TextOf(sp) == sp.before + g + (sp.beforeStops + sp.after);
  }

  lemma LoweredCore(sp: Spelling)
    requires IsSpelling(sp)
    ensures ToLower(Core(sp)) == Glue(sp.phrase, sp.gaps) + sp.beforeStops + sp.stops
  {
    LowerGlue(sp.words, sp.gaps, sp.phrase);
    LowerSpaces(sp.beforeStops);
    LowerStops(sp.stops);
    ToLowerConcat(Glue(sp.words, sp.gaps), sp.beforeStops);
    ToLowerConcat(Glue(sp.words, sp.gaps) + sp.beforeStops, sp.stops);
  }

  lemma StrippedOfStops(sp: Spelling)
    requires IsSpelling(sp)
    ensures var low := Glue(sp.phrase, sp.gaps) + sp.beforeStops; TrimStops(low + sp.stops) == low
  {
    var low := Glue(sp.phrase, sp.gaps) + sp.beforeStops;
    GlueOfWordsEnds(sp.phrase, sp.gaps);
    if sp.beforeStops != "" {
      assert low[|low| - 1] == sp.beforeStops[|sp.beforeStops| - 1];
      if IsStop(low[|low| - 1]) {
        StopIsNoSpace(low[|low| - 1]);
      }
    } else {
      assert low == Glue(sp.phrase, sp.gaps);
    }
    TrimStopsIs(low, sp.stops);
  }

  lemma TrimsToPhrase(sp: Spelling, spaces: string)
    requires IsSpelling(sp) && AllSpace(spaces)
    ensures TrimSpace(Glue(sp.phrase, sp.gaps) + spaces) == Glue(sp.phrase, sp.gaps)
  {
    var low := Glue(sp.phrase, sp.gaps);
    GlueOfWordsEnds(sp.phrase, sp.gaps);
    TrimSpaceIs("", low, spaces);
    assert "" + low + spaces == low + spaces;
  }

  /** In whatever spelling, a phrase normalises to itself. */
  lemma SpellingNormalizes(sp: Spelling)
    requires IsSpelling(sp)
    ensures Normalize(TextOf(sp)) == Join(sp.phrase, ' ')
  {
    var low := Glue(sp.phrase, sp.gaps);
    FieldsOfGlue(sp.phrase, sp.gaps);
    if sp.stops == "" {
      BareSpellingNormalizes(sp);
    } else {
      TrimsToCore(sp);
      LoweredCore(sp);
      StrippedOfStops(sp);
      TrimsToPhrase(sp, sp.beforeStops);
      NormalizeSteps(TextOf(sp), Core(sp), low + sp.beforeStops + sp.stops, low + sp.beforeStops, low);
    }
  }

  lemma BareSpellingNormalizes(sp: Spelling)
    requires IsSpelling(sp) && sp.stops == ""
    ensures Normalize(TextOf(sp)) == Join(sp.phrase, ' ')
  {
    var low := Glue(sp.phrase, sp.gaps);
    FieldsOfGlue(sp.phrase, sp.gaps);
    TrimsToWords(sp);
    LowerGlue(sp.words, sp.gaps, sp.phrase);
    GlueOfWordsEnds(sp.phrase, sp.gaps);
    TrimStopsIs(low, "");
    assert low + "" == low;
    TrimsToPhrase(sp, "");
    NormalizeSteps(TextOf(sp), Glue(sp.words, sp.gaps), low, low, low);
  }

  // ------------------------------------------------------------------
  // Stock phrases
  // ------------------------------------------------------------------

  lemma StockWords()
    ensures IsWord("internal") && IsWord("only") && IsWord("use") && IsWord("not") && IsWord("user-facing")
    ensures IsWord("user") && IsWord("facing") && IsWord("for") && IsWord("users") && IsWord("n/a") && IsWord("na")
    ensures IsWord("applicable") && IsWord("admin") && IsWord("machine") && IsWord("to") && IsWord("system")
  {
  }

  lemma MoreStockWords()
    ensures IsWord("backend") && IsWord("todo") && IsWord("tbd") && IsWord("misc") && IsWord("other")
    ensures IsWord("see") && IsWord("code") && IsWord("self-explanatory") && IsWord("here")
  {
  }

  lemma StockPhrasesAreWords(phrase: seq<string>)
    requires phrase in STOCK_PHRASES
    ensures AllWords(phrase)
  {
    StockWords();
    MoreStockWords();
  }

  /** The text spells one of the stock phrases. */
  ghost predicate SpellsStock(text: string) {
    exists sp :: IsStockSpelling(sp) && TextOf(sp) == text
  }

  predicate IsStockSpelling(sp: Spelling) {
    sp.phrase in STOCK_PHRASES && IsSpelling(sp)
  }

  /** Every stock phrase in every spelling weighs nothing. */
  lemma SpelledStockIsStock(text: string)
    requires SpellsStock(text)
    ensures Weigh(text) == Stock
  {
    var sp :| IsStockSpelling(sp) && TextOf(sp) == text;
    SpellingNormalizes(sp);
    JoinedIsStock(sp.phrase);
  }

  lemma JoinedIsStock(phrase: seq<string>)
    requires phrase in STOCK_PHRASES && AllWords(phrase)
    ensures Join(phrase, ' ') != "" && Join(phrase, ' ') in STOCK_REASONS
  {
  }

  lemma BlankIsBlank(text: string)
    requires AllSpace(text)
    ensures Weigh(text) == Blank
  {
    TrimSpaceIs(text, "", "");
    assert text + "" + "" == text;
    TrimSpaceIs("", "", "");
  }

  // ------------------------------------------------------------------
  // Surrounding spaces do not matter
  // ------------------------------------------------------------------

  lemma TrimPadded(before: string, s: string, after: string)
    requires AllSpace(before) && AllSpace(after)
    ensures TrimSpace(before + s + after) == TrimSpace(s)
  {
    var b, a := TrimSpaceSplits(s);
    var core := TrimSpace(s);
    TrimSpaceIs(before + b, core, a + after);
    assert before + (b + core + a) + after == (before + b) + core + (a + after);
  }

  lemma WeighPadded(before: string, s: string, after: string)
    requires AllSpace(before) && AllSpace(after)
    ensures Weigh(before + s + after) == Weigh(s)
  {
    TrimPadded(before, s, after);
  }

  lemma SpacesHoldNoSeparator(s: string)
    requires AllSpace(s)
    ensures NoSeparator(s)
  {
    forall i | 0 <= i < |s|
      ensures !IsSeparator(s[i])
    {
      if '!' <= s[i] <= '~' {
        NotASpace(s[i]);
      }
    }
  }

  lemma {:induction false} GluePadRight(pieces: seq<string>, joints: seq<string>, after: string)
    requires |pieces| == |joints| + 1
    ensures var last := |pieces| - 1; Glue(pieces[last := pieces[last] + after], joints) == Glue(pieces, joints) + after
    decreases |joints|
  {
    if joints != [] {
      var last := |pieces| - 1;
      GluePadRight(pieces[1..], joints[1..], after);
      assert pieces[last := pieces[last] + after][1..] == pieces[1..][last - 1 := pieces[last] + after];
    }
  }

  lemma GluePadLeft(pieces: seq<string>, joints: seq<string>, before: string)
    requires |pieces| == |joints| + 1
    ensures Glue(pieces[0 := before + pieces[0]], joints) == before + Glue(pieces, joints)
  {
    if joints != [] {
      assert pieces[0 := before + pieces[0]][1..] == pieces[1..];
    }
  }

  /** The pieces, the outer ones padded. */
  function Padded(pieces: seq<string>, before: string, after: string): (padded: seq<string>)
    requires |pieces| >= 1
    ensures |padded| == |pieces|
  {
    var left := pieces[0 := before + pieces[0]];
    left[|left| - 1 := left[|left| - 1] + after]
  }

  lemma GluePadded(pieces: seq<string>, joints: seq<string>, before: string, after: string)
    requires |pieces| == |joints| + 1
    ensures Glue(Padded(pieces, before, after), joints) == before + Glue(pieces, joints) + after
  {
    GluePadLeft(pieces, joints, before);
    GluePadRight(pieces[0 := before + pieces[0]], joints, after);
  }

  /** Each padded piece is the piece between spaces. */
  lemma PaddedAt(pieces: seq<string>, before: string, after: string, i: nat) returns (b: string, a: string)
    requires |pieces| >= 1 && i < |pieces| && AllSpace(before) && AllSpace(after)
    ensures AllSpace(b) && AllSpace(a) && Padded(pieces, before, after)[i] == b + pieces[i] + a
  {
    b, a := if i == 0 then before else "", if i == |pieces| - 1 then after else "";
  }

  lemma WeighPaddedAt(pieces: seq<string>, before: string, after: string, i: nat)
    requires |pieces| >= 1 && i < |pieces| && AllSpace(before) && AllSpace(after)
    ensures Weigh(Padded(pieces, before, after)[i]) == Weigh(pieces[i])
  {
    var b, a := PaddedAt(pieces, before, after, i);
    WeighPadded(b, pieces[i], a);
  }

  lemma NoSeparatorPaddedAt(pieces: seq<string>, before: string, after: string, i: nat)
    requires |pieces| >= 1 && i < |pieces| && AllSpace(before) && AllSpace(after) && NoSeparator(pieces[i])
    ensures NoSeparator(Padded(pieces, before, after)[i])
  {
    var b, a := PaddedAt(pieces, before, after, i);
    SpacesHoldNoSeparator(b);
    SpacesHoldNoSeparator(a);
  }

  lemma GluedPadded(pieces: seq<string>, joints: seq<string>, before: string, after: string)
    requires Glued(pieces, joints) && AllSpace(before) && AllSpace(after)
    ensures Glued(Padded(pieces, before, after), joints)
  {
    forall i | 0 <= i < |pieces|
      ensures NoSeparator(Padded(pieces, before, after)[i])
    {
      NoSeparatorPaddedAt(pieces, before, after, i);
    }
  }

  /** Spaces around a reason change the weight of none of its clauses. */
  lemma ClausesPadded(s: string, before: string, after: string)
    requires AllSpace(before) && AllSpace(after)
    ensures Clauses(before + s + after) == Padded(Clauses(s), before, after)
  {
    var joints := GlueOfClauses(s);
    GluedPadded(Clauses(s), joints, before, after);
    GluePadded(Clauses(s), joints, before, after);
    ClausesOfGlue(Padded(Clauses(s), before, after), joints);
  }

  lemma AllStockPadded(pieces: seq<string>, before: string, after: string)
    requires |pieces| >= 1 && AllSpace(before) && AllSpace(after)
    ensures AllStock(Weigh, Padded(pieces, before, after)) <==> AllStock(Weigh, pieces)
  {
    var padded := Padded(pieces, before, after);
    forall i | 0 <= i < |pieces|
      ensures Weigh(padded[i]) == Weigh(pieces[i])
    {
      WeighPaddedAt(pieces, before, after, i);
    }
    SameWeights(Weigh, padded, pieces);
  }

  lemma SameWeights(weigh: string -> Weight, a: seq<string>, b: seq<string>)
    requires |a| == |b| && forall i | 0 <= i < |a| :: weigh(a[i]) == weigh(b[i])
    ensures AllStock(weigh, a) <==> AllStock(weigh, b)
  {
    if AllStock(weigh, a) {
      StockByWeight(weigh, a, b);
    }
    if AllStock(weigh, b) {
      StockByWeight(weigh, b, a);
    }
  }

  lemma StockByWeight(weigh: string -> Weight, a: seq<string>, b: seq<string>)
    requires |a| == |b| && (forall i | 0 <= i < |a| :: weigh(a[i]) == weigh(b[i])) && AllStock(weigh, a)
    ensures AllStock(weigh, b)
  {
    var k :| 0 <= k < |a| && weigh(a[k]) != Blank;
    assert weigh(b[k]) != Blank;
    forall i | 0 <= i < |b|
      ensures weigh(b[i]) != Substance
    {
      assert weigh(a[i]) == weigh(b[i]);
    }
  }

  lemma ClauseCheckTrimmed(reason: string)
    ensures AllStock(Weigh, Clauses(TrimSpace(reason))) <==> AllStock(Weigh, Clauses(reason))
  {
    var before, after := TrimSpaceSplits(reason);
    var joints := GlueOfClauses(TrimSpace(reason));
    ClausesPadded(TrimSpace(reason), before, after);
    AllStockPadded(Clauses(TrimSpace(reason)), before, after);
  }

  // ------------------------------------------------------------------
  // What is refused
  // ------------------------------------------------------------------

  /** Stock phrases in any spelling, and blanks, with at least one phrase among them. */
  ghost predicate StockPieces(pieces: seq<string>) {
    && (forall i | 0 <= i < |pieces| :: AllSpace(pieces[i]) || SpellsStock(pieces[i]))
    && (exists i | 0 <= i < |pieces| :: SpellsStock(pieces[i]))
  }

  lemma StockPiecesAreStock(pieces: seq<string>)
    requires StockPieces(pieces)
    ensures AllStock(Weigh, pieces)
  {
    forall i | 0 <= i < |pieces|
      ensures Weigh(pieces[i]) != Substance && (SpellsStock(pieces[i]) ==> Weigh(pieces[i]) == Stock)
    {
      if SpellsStock(pieces[i]) {
        SpelledStockIsStock(pieces[i]);
      } else {
        BlankIsBlank(pieces[i]);
      }
    }
    var k :| 0 <= k < |pieces| && SpellsStock(pieces[k]);
    assert Weigh(pieces[k]) != Blank;
  }

  /** A reason glued together from stock phrases with punctuation is refused, however long, spelled and padded. */
  lemma GluedStockIsRefused(pieces: seq<string>, joints: seq<string>)
    requires Glued(pieces, joints) && StockPieces(pieces)
    ensures CheckReason(TrimSpace(Glue(pieces, joints))).Some?
  {
    StockPiecesAreStock(pieces);
    ClausesOfGlue(pieces, joints);
    ClauseCheckTrimmed(Glue(pieces, joints));
  }

  /** A reason that is one stock phrase, hyphens included, is refused in every spelling. */
  lemma StockIsRefused(reason: string)
    requires SpellsStock(reason)
    ensures CheckReason(TrimSpace(reason)).Some?
  {
    SpelledStockIsStock(reason);
    var before, after := TrimSpaceSplits(reason);
    WeighPadded(before, TrimSpace(reason), after);
  }

  lemma BareSpelling(phrase: seq<string>) returns (sp: Spelling)
    requires AllWords(phrase)
    ensures sp.phrase == phrase && IsSpelling(sp) && TextOf(sp) == Join(phrase, ' ')
  {
    var gaps := seq(|phrase| - 1, _ => " ");
    SomeSpaces();
    sp := Spelling(phrase, phrase, gaps, "", "", "", "");
    forall i | 0 <= i < |phrase|
      ensures ToLower(phrase[i]) == phrase[i]
    {
      assert IsWord(phrase[i]);
    }
    JoinIsGlue(phrase, gaps);
    assert TextOf(sp) == Glue(phrase, gaps);
  }

  /** The bare phrases are among the spellings. */
  lemma PhraseSpellsItself(phrase: seq<string>)
    requires phrase in STOCK_PHRASES
    ensures |phrase| >= 1 && SpellsStock(Join(phrase, ' '))
  {
    StockPhrasesAreWords(phrase);
    var sp := BareSpelling(phrase);
    assert IsStockSpelling(sp);
  }

  lemma {:induction false} JoinIsGlue(ws: seq<string>, gaps: seq<string>)
    requires |ws| == |gaps| + 1 && forall i | 0 <= i < |gaps| :: gaps[i] == " "
    ensures Join(ws, ' ') == Glue(ws, gaps)
    decreases |ws|
  {
    if gaps != [] {
      JoinIsGlue(ws[1..], gaps[1..]);
    }
  }
}
