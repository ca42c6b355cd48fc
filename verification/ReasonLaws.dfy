/**
  Which reasons are accepted and which refused, in terms of their text: the length floor,
  the clause that says something, and the spellings and punctuation that do not help.
*/
module ReasonLaws {
  import opened Text
  import opened GuideCommands
  import opened ExemptionRules
  import opened StockReasons
  import opened GuideDrift
  import opened GuideDriftLaws

  // ------------------------------------------------------------------
  // Length
  // ------------------------------------------------------------------

  predicate Ascii(s: string) {
    forall i | 0 <= i < |s| :: s[i] < '\U{80}'
  }

  lemma {:induction false} BytesAtLeastChars(s: string)
    ensures |s| <= ByteLength(s) <= 4 * |s|
  {
    if s != "" {
      BytesAtLeastChars(s[..|s| - 1]);
    }
  }

  lemma {:induction false} AsciiBytes(s: string)
    requires Ascii(s)
    ensures ByteLength(s) == |s|
  {
    if s != "" {
      AsciiBytes(s[..|s| - 1]);
    }
  }

  lemma {:induction false} BytesConcat(a: string, b: string)
    ensures ByteLength(a + b) == ByteLength(a) + ByteLength(b)
  {
    if b == "" {
      assert a + b == a;
    } else {
      assert (a + b)[..|a + b| - 1] == a + b[..|b| - 1];
      BytesConcat(a, b[..|b| - 1]);
    }
  }

  /** The widths of UTF-8: one byte below U+0080, two below U+0800, three below U+10000, four above. */
  lemma Utf8Widths(c: char)
    ensures ByteLength([c]) ==
            if c as int < 0x80 then 1 else if c as int < 0x800 then 2 else if c as int < 0x10000 then 3 else 4
  {
    assert [c][..0] == "";
  }

  // ------------------------------------------------------------------
  // Accepted and refused
  // ------------------------------------------------------------------

  /** Some clause of the reason says something. */
  ghost predicate HasSubstance(reason: string) {
    exists i | 0 <= i < |Clauses(reason)| :: Weigh(Clauses(reason)[i]) == Substance
  }

  /** A reason of thirty characters or more that says something in some clause is accepted. */
  lemma GoodReasonIsAccepted(reason: string)
    requires |reason| >= 30 && Weigh(reason) != Stock && HasSubstance(reason)
    ensures CheckReason(reason).None?
  {
    BytesAtLeastChars(reason);
    var i :| 0 <= i < |Clauses(reason)| && Weigh(Clauses(reason)[i]) == Substance;
    assert !AllStock(Weigh, Clauses(reason));
  }

  /** Every reason of fewer than thirty bytes is refused. */
  lemma ShortReasonIsRefused(reason: string)
    requires ByteLength(reason) < 30
    ensures CheckReason(reason).Some?
  {
  }

  /** In ASCII that is every reason of fewer than thirty characters. */
  lemma ShortAsciiReasonIsRefused(reason: string)
    requires Ascii(reason) && |reason| < 30
    ensures CheckReason(reason).Some?
  {
    AsciiBytes(reason);
    ShortReasonIsRefused(reason);
  }

  /** Which of the three is reported: nothing said at all, then stock, then length. */
  lemma ReasonProblemIs(reason: string, p: ReasonProblem)
    ensures var stock := Weigh(reason) == Stock || AllStock(Weigh, Clauses(reason));
      CheckReason(reason) == Some(p) <==>
      || (p == EmptyReason && reason == "")
      || (p == VacuousReason && reason != "" && stock)
      || (p == ReasonTooShort && reason != "" && !stock && ByteLength(reason) < 30)
  {
  }

  // ------------------------------------------------------------------
  // What has substance
  // ------------------------------------------------------------------

  lemma StockLengthTwo(a: string, b: string)
    ensures |Join([a, b], ' ')| == |a| + |b| + 1
  {
    assert [a, b][1..] == [b];
  }

  lemma StockLengthThree(a: string, b: string, c: string)
    ensures |Join([a, b, c], ' ')| == |a| + |b| + |c| + 2
  {
    assert [a, b, c][1..] == [b, c];
    StockLengthTwo(b, c);
  }

  predicate ShortPhrase(phrase: seq<string>) {
    && 1 <= |phrase| <= 3
    && forall i | 0 <= i < |phrase| :: |phrase[i]| <= 16
  }

  lemma StockPhrasesAreShort(phrase: seq<string>)
    requires phrase in STOCK_PHRASES
    ensures ShortPhrase(phrase)
  {
  }

  lemma ShortPhraseLength(phrase: seq<string>)
    requires ShortPhrase(phrase)
    ensures |Join(phrase, ' ')| <= 50
  {
    if |phrase| == 2 {
      assert phrase == [phrase[0], phrase[1]];
      StockLengthTwo(phrase[0], phrase[1]);
    } else if |phrase| == 3 {
      assert phrase == [phrase[0], phrase[1], phrase[2]];
      StockLengthThree(phrase[0], phrase[1], phrase[2]);
    }
  }

  /** No stock phrase is longer than fifty characters, so a longer text that normalises to itself is none. */
  lemma LongIsNotStock(text: string)
    requires |text| > 50
    ensures text !in STOCK_REASONS
  {
    forall ws | ws in STOCK_PHRASES && |ws| >= 1
      ensures Join(ws, ' ') != text
    {
      StockPhrasesAreShort(ws);
      ShortPhraseLength(ws);
    }
  }

  /** A clause of plain words of more than fifty characters has substance, however it is spelled. */
  lemma LongClauseHasSubstance(sp: Spelling)
    requires IsSpelling(sp) && |Join(sp.phrase, ' ')| > 50
    ensures Weigh(TextOf(sp)) == Substance
  {
    SpellingNormalizes(sp);
    LongIsNotStock(Join(sp.phrase, ' '));
  }

  /** So such a clause by itself is an acceptable reason. */
  lemma LongClauseIsAccepted(sp: Spelling)
    requires IsSpelling(sp) && |Join(sp.phrase, ' ')| > 50 && NoSeparator(TextOf(sp)) && |TextOf(sp)| >= 30
    ensures CheckReason(TextOf(sp)).None?
  {
    LongClauseHasSubstance(sp);
    LastClause(TextOf(sp));
    assert Weigh(Clauses(TextOf(sp))[0]) == Substance;
    GoodReasonIsAccepted(TextOf(sp));
  }

  // ------------------------------------------------------------------
  // What does not help
  // ------------------------------------------------------------------

  function ShoutChar(c: char): char {
    if 'a' <= c <= 'z' then c - 32 as char else c
  }

  function Shout(w: string): string {
    seq(|w|, i requires 0 <= i < |w| => ShoutChar(w[i]))
  }

  lemma ShoutedWord(w: string)
    requires IsWord(w)
    ensures ToLower(Shout(w)) == w && |Shout(w)| == |w|
  {
    forall i | 0 <= i < |w|
      ensures Lower(ShoutChar(w[i])) == w[i]
    {
      assert IsWordChar(w[i]);
    }
  }

  /** A stock phrase in capitals, with whatever gaps and closing stops, is still one. */
  lemma ShoutedStockIsStock(phrase: seq<string>, gaps: seq<string>, stops: string)
    requires phrase in STOCK_PHRASES && AllStops(stops) && Gapped(phrase, gaps)
    ensures var shouted := seq(|phrase|, i requires 0 <= i < |phrase| => Shout(phrase[i]));
            Gapped(shouted, gaps) && Weigh(Glue(shouted, gaps) + stops) == Stock
  {
    StockPhrasesAreWords(phrase);
    var shouted := seq(|phrase|, i requires 0 <= i < |phrase| => Shout(phrase[i]));
    forall i | 0 <= i < |phrase|
      ensures ToLower(shouted[i]) == phrase[i]
    {
      ShoutedWord(phrase[i]);
    }
    var sp := Spelling(phrase, shouted, gaps, "", "", stops, "");
    assert TextOf(sp) == Glue(shouted, gaps) + stops;
    assert IsStockSpelling(sp);
    SpelledStockIsStock(TextOf(sp));
  }

  const PUNCTUATION := ",;:.!?()-"

  /** Each of nine punctuation marks splits a reason into clauses, and nothing else does. */
  lemma SeparatorsAre(c: char)
    ensures IsSeparator(c) <==> c in PUNCTUATION
  {
    assert PUNCTUATION == [',', ';', ':', '.', '!', '?', '(', ')', '-'];
  }

  /** Two stock phrases with any run of such marks between them are refused. */
  lemma TwoStockPhrasesAreRefused(first: string, marks: string, second: string)
    requires SpellsStock(first) && SpellsStock(second) && NoSeparator(first) && NoSeparator(second)
    requires marks != "" && forall i | 0 <= i < |marks| :: marks[i] in PUNCTUATION
    ensures CheckReason(TrimSpace(first + marks + second)).Some?
  {
    forall i | 0 <= i < |marks|
      ensures IsSeparator(marks[i])
    {
      SeparatorsAre(marks[i]);
    }
    var pieces, joints := [first, second], [marks];
    assert pieces[1..] == [second] && joints[1..] == [];
    assert Glue(pieces, joints) == first + marks + second;
    assert SpellsStock(pieces[0]);
    GluedStockIsRefused(pieces, joints);
  }

  // ------------------------------------------------------------------
  // On the whole check
  // ------------------------------------------------------------------

  /** A well-formed entry for a real route, with a good reason, keeps the route from being reported. */
  lemma GoodEntryExempts(
    guides: seq<SurfaceGuide>, routes: RouteTable, vocab: Vocabulary, exs: seq<Exemption>, keys: seq<string>, i: nat)
    requires Enumerates(keys, routes) && i < |exs|
    requires var route, reason := TrimSpace(exs[i].route), TrimSpace(exs[i].reason);
      && route in routes && LooksLikeRoute(route) && !Holds(route, "*") && !Holds(route, "...")
      && |reason| >= 30 && Weigh(reason) != Stock && HasSubstance(reason)
    ensures var route := TrimSpace(exs[i].route);
      Drift(Undocumented, routes[route].file, route) !in AllDrift(RULES, guides, routes, vocab, exs, keys)
  {
    var route := TrimSpace(exs[i].route);
    GoodReasonIsAccepted(TrimSpace(exs[i].reason));
    CodeReportedIff(guides, routes, vocab, exs, keys, route);
  }
}
