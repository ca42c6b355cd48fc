/**
  The part of Go's `strings` package the modelled code uses, over sequences of
  Unicode scalar values, and byte-order comparison of strings, which is the same
  as comparing scalar values one by one.
*/
module Text {

  datatype Option<+T> = None | Some(value: T)

  datatype Result<+T, +E> = Ok(value: T) | Err(error: E)

  /** Unicode's White_Space characters. */
  const SPACES: string :=
    "\t\n\U{B}\U{C}\r \U{85}\U{A0}\U{1680}"
    + "\U{2000}\U{2001}\U{2002}\U{2003}\U{2004}\U{2005}\U{2006}\U{2007}\U{2008}\U{2009}\U{200A}"
    + "\U{2028}\U{2029}\U{202F}\U{205F}\U{3000}"

  predicate OneOf(c: char, s: string) {
    s != "" && (c == s[0] || OneOf(c, s[1..]))
  }

  /** `unicode.IsSpace`. */
  predicate IsSpace(c: char) {
    OneOf(c, SPACES)
  }

  /** A space is one; the characters a fence begins or ends with are not. */
  lemma SomeSpaces()
    ensures IsSpace(' ') && !IsSpace('`') && !IsSpace('d')
  {
    assert SPACES[5] == ' ';
    OneOfIs(' ', SPACES);
    NotASpace('`');
    NotASpace('d');
  }

  lemma NotASpace(c: char)
    requires '!' <= c <= '~'
    ensures !IsSpace(c)
  {
    OneOfIs(c, SPACES);
  }

  lemma {:induction false} OneOfIs(c: char, s: string)
    ensures OneOf(c, s) <==> c in s
  {
    if s != "" {
      OneOfIs(c, s[1..]);
    }
  }

  predicate AllSpace(s: string) {
    forall i | 0 <= i < |s| :: IsSpace(s[i])
  }

  function TrimLeft(s: string): string {
    if s == "" || !IsSpace(s[0]) then s else TrimLeft(s[1..])
  }

  function TrimRight(s: string): string {
    if s == "" || !IsSpace(s[|s| - 1]) then s else TrimRight(s[..|s| - 1])
  }

  /** `strings.TrimSpace`. */
  function TrimSpace(s: string): string {
    TrimRight(TrimLeft(s))
  }

  /** A string that neither begins nor ends with a space. */
  predicate Trimmed(s: string) {
    s == "" || (!IsSpace(s[0]) && !IsSpace(s[|s| - 1]))
  }

  /** Trimming removes exactly the surrounding spaces. */
  lemma TrimSpaceIs(before: string, core: string, after: string)
    requires AllSpace(before) && AllSpace(after) && Trimmed(core)
    ensures TrimSpace(before + core + after) == core
  {
    if core == "" {
      assert before + core + after == before + after;
      AllSpaceTrims(before + after);
    } else {
      var rest := core + after;
      assert rest[0] == core[0];
      TrimLeftIs(before, rest);
      assert before + core + after == before + rest;
      TrimRightIs(core, after);
    }
  }

  lemma {:induction false} AllSpaceTrims(s: string)
    requires AllSpace(s)
    ensures TrimLeft(s) == ""
  {
    if s != "" {
      AllSpaceTrims(s[1..]);
    }
  }

  lemma {:induction false} TrimLeftIs(before: string, rest: string)
    requires AllSpace(before) && rest != "" && !IsSpace(rest[0])
    ensures TrimLeft(before + rest) == rest
  {
    if before != "" {
      assert (before + rest)[1..] == before[1..] + rest;
      TrimLeftIs(before[1..], rest);
    } else {
      assert before + rest == rest;
    }
  }

  lemma {:induction false} TrimRightIs(core: string, after: string)
    requires AllSpace(after) && core != "" && !IsSpace(core[|core| - 1])
    ensures TrimRight(core + after) == core
  {
    if after != "" {
      assert (core + after)[..|core + after| - 1] == core + after[..|after| - 1];
      TrimRightIs(core, after[..|after| - 1]);
    } else {
      assert core + after == core;
    }
  }

  lemma {:induction false} TrimLeftSplits(s: string) returns (before: string)
    ensures AllSpace(before) && s == before + TrimLeft(s)
    ensures TrimLeft(s) == "" || !IsSpace(TrimLeft(s)[0])
  {
    if s == "" || !IsSpace(s[0]) {
      before := "";
    } else {
      before := TrimLeftSplits(s[1..]);
      before := [s[0]] + before;
    }
  }

  lemma {:induction false} TrimRightSplits(s: string) returns (after: string)
    ensures AllSpace(after) && s == TrimRight(s) + after
    ensures TrimRight(s) == "" || !IsSpace(TrimRight(s)[|TrimRight(s)| - 1])
  {
    if s == "" || !IsSpace(s[|s| - 1]) {
      after := "";
    } else {
      after := TrimRightSplits(s[..|s| - 1]);
      after := after + [s[|s| - 1]];
    }
  }

  /** A string is its trimmed core between spaces. */
  lemma TrimSpaceSplits(s: string) returns (before: string, after: string)
    ensures AllSpace(before) && AllSpace(after) && s == before + TrimSpace(s) + after
    ensures Trimmed(TrimSpace(s))
  {
    before := TrimLeftSplits(s);
    after := TrimRightSplits(TrimLeft(s));
  }

  /** `strings.Contains`. */
  predicate Contains(s: string, part: string) {
    part <= s || (s != "" && Contains(s[1..], part))
  }

  predicate PartAt(s: string, part: string, i: nat) {
    i + |part| <= |s| && s[i..i + |part|] == part
  }

  /** The string holds the part at some place. */
  ghost predicate Holds(s: string, part: string) {
    exists i: nat :: PartAt(s, part, i)
  }

  lemma PartAtShift(s: string, part: string, i: nat)
    requires s != ""
    ensures PartAt(s, part, i + 1) <==> PartAt(s[1..], part, i)
  {
    if i + 1 + |part| <= |s| {
      SliceOfSlice(s, 1, |s|, i, i + |part|);
      assert s[1..|s|] == s[1..];
    }
  }

  lemma {:induction false} ContainsIff(s: string, part: string)
    ensures Contains(s, part) <==> Holds(s, part)
  {
    assert part <= s <==> PartAt(s, part, 0);
    if s != "" {
      ContainsIff(s[1..], part);
      if i: nat :| PartAt(s[1..], part, i) {
        PartAtShift(s, part, i);
        assert PartAt(s, part, i + 1);
      }
      if i: nat :| PartAt(s, part, i) {
        if i > 0 {
          PartAtShift(s, part, i - 1);
        }
      }
    }
  }

  predicate HasSuffix(s: string, suffix: string) {
    |suffix| <= |s| && s[|s| - |suffix|..] == suffix
  }

  /** `strings.Split` on one separator character: always at least one piece. */
  function Split(s: string, sep: char): (pieces: seq<string>)
    ensures |pieces| >= 1
    ensures forall p | p in pieces :: sep !in p
    ensures Join(pieces, sep) == s
  {
    if s == "" then [""]
    else
      var rest := Split(s[1..], sep);
      if s[0] == sep then
        assert Join([""] + rest, sep) == [sep] + Join(rest, sep) by {
          assert ([""] + rest)[1..] == rest;
        }
        [""] + rest
      else
        var pieces := [[s[0]] + rest[0]] + rest[1..];
        assert Join(pieces, sep) == [s[0]] + Join(rest, sep) by {
          assert pieces[1..] == rest[1..];
        }
        pieces
  }

  function Join(pieces: seq<string>, sep: char): string
    requires |pieces| >= 1
  {
    if |pieces| == 1 then pieces[0] else pieces[0] + [sep] + Join(pieces[1..], sep)
  }

  /** Splitting undoes joining when no piece holds the separator. */
  lemma {:induction false} SplitJoin(pieces: seq<string>, sep: char)
    requires |pieces| >= 1 && forall p | p in pieces :: sep !in p
    ensures Split(Join(pieces, sep), sep) == pieces
    decreases |Join(pieces, sep)|
  {
    var s := Join(pieces, sep);
    if pieces[0] == "" {
      if |pieces| > 1 {
        assert s[1..] == Join(pieces[1..], sep);
        SplitJoin(pieces[1..], sep);
        assert pieces == [""] + pieces[1..];
      }
    } else {
      var shorter := [pieces[0][1..]] + pieces[1..];
      assert shorter[1..] == pieces[1..];
      assert s[1..] == Join(shorter, sep);
      assert pieces[0] in pieces && pieces[0][0] in pieces[0];
      SplitJoin(shorter, sep);
      assert pieces == [[s[0]] + shorter[0]] + shorter[1..] by {
        assert pieces[0] == [pieces[0][0]] + pieces[0][1..];
      }
    }
  }

  lemma {:induction false} JoinConcat(a: seq<string>, b: seq<string>, sep: char)
    requires |a| >= 1 && |b| >= 1
    ensures Join(a + b, sep) == Join(a, sep) + [sep] + Join(b, sep)
  {
    assert (a + b)[1..] == a[1..] + b;
    if |a| > 1 {
      JoinConcat(a[1..], b, sep);
    } else {
      assert a[1..] + b == b;
    }
  }

  /** Splitting two texts joined by the separator splits each. */
  lemma SplitConcat(a: string, b: string, sep: char)
    ensures Split(a + [sep] + b, sep) == Split(a, sep) + Split(b, sep)
  {
    var pieces := Split(a, sep) + Split(b, sep);
    JoinConcat(Split(a, sep), Split(b, sep), sep);
    SplitJoin(pieces, sep);
  }

  /** `strings.Fields`: the maximal space-free pieces. */
  function Fields(s: string): seq<string> {
    FieldsFrom(s, "")
  }

  /** Splits `s` into fields, `word` being the part of a field already read. */
  function FieldsFrom(s: string, word: string): seq<string> {
    var done := if word == "" then [] else [word];
    if s == "" then done
    else if IsSpace(s[0]) then done + FieldsFrom(s[1..], "")
    else FieldsFrom(s[1..], word + [s[0]])
  }

  lemma ConcatAssociative<T>(a: seq<T>, b: seq<T>, c: seq<T>)
    ensures (a + b) + c == a + (b + c)
  {
  }

  lemma SliceOfSlice<T>(s: seq<T>, a: nat, b: nat, c: nat, d: nat)
    requires a <= b <= |s| && c <= d <= b - a
    ensures s[a..b][c..d] == s[a + c..a + d]
  {
    var inner := s[a..b];
    forall k | 0 <= k < d - c
      ensures inner[c..d][k] == s[a + c..a + d][k]
    {
      assert inner[c + k] == s[a + c + k];
    }
  }

  // ------------------------------------------------------------------
  // Fields of a text
  // ------------------------------------------------------------------

  /** Not empty, and without a space. */
  predicate Solid(w: string) {
    w != "" && forall i | 0 <= i < |w| :: !IsSpace(w[i])
  }

  lemma {:induction false} FieldsThroughWord(w: string, rest: string, word: string)
    requires forall i | 0 <= i < |w| :: !IsSpace(w[i])
    ensures FieldsFrom(w + rest, word) == FieldsFrom(rest, word + w)
    decreases w
  {
    if w == "" {
      assert w + rest == rest && word + w == word;
    } else {
      assert (w + rest)[1..] == w[1..] + rest;
      FieldsThroughWord(w[1..], rest, word + [w[0]]);
      assert word + [w[0]] + w[1..] == word + w;
    }
  }

  lemma {:induction false} FieldsThroughSpaces(gap: string, rest: string)
    requires AllSpace(gap)
    ensures FieldsFrom(gap + rest, "") == FieldsFrom(rest, "")
    decreases gap
  {
    if gap == "" {
      assert gap + rest == rest;
    } else {
      assert (gap + rest)[1..] == gap[1..] + rest;
      FieldsThroughSpaces(gap[1..], rest);
    }
  }

  lemma FieldsThroughGap(gap: string, rest: string, word: string)
    requires gap != "" && AllSpace(gap) && word != ""
    ensures FieldsFrom(gap + rest, word) == [word] + FieldsFrom(rest, "")
  {
    assert (gap + rest)[1..] == gap[1..] + rest;
    FieldsThroughSpaces(gap[1..], rest);
  }

  lemma FieldsOfOne(w: string)
    requires Solid(w)
    ensures Fields(w) == [w]
  {
    FieldsThroughWord(w, "", "");
    assert w + "" == w && "" + w == w;
  }

  /** A first word is split off by what spaces follow it. */
  lemma FieldsOfMore(w: string, gap: string, rest: string)
    requires Solid(w) && gap != "" && AllSpace(gap)
    ensures Fields(w + (gap + rest)) == [w] + Fields(rest)
  {
    FieldsThroughWord(w, gap + rest, "");
    assert "" + w == w;
    FieldsThroughGap(gap, rest, w);
  }
}
