/**
  What the scanner's reference meaning promises: one outcome per document,
  hidden text without influence, composition, and printing as an inverse.
*/
module GuideScannerLaws {
  import opened Text
  import opened GuideCommands
  import opened GuideScanner

  lemma {:induction false} FlattenFront(segs: seq<Segment>)
    requires segs != []
    ensures Flatten(segs) == segs[0] + Flatten(segs[1..])
  {
    if |segs| > 1 {
      FlattenFront(segs[..|segs| - 1]);
      assert segs[..|segs| - 1][1..] == segs[1..][..|segs| - 2];
    }
  }

  lemma {:induction false} FlattenConcat(a: seq<Segment>, b: seq<Segment>)
    ensures Flatten(a + b) == Flatten(a) + Flatten(b)
  {
    if b == [] {
      assert a + b == a;
    } else {
      assert (a + b)[..|a + b| - 1] == a + b[..|b| - 1];
      FlattenConcat(a, b[..|b| - 1]);
    }
  }

  // ------------------------------------------------------------------
  // One segmentation, one outcome
  // ------------------------------------------------------------------

  /** Where a segment ends is decided by the lines alone. */
  lemma FirstSegmentUnique(read: Reader, a: Segment, restA: seq<string>, b: Segment, restB: seq<string>)
    requires WellFormed(read, a) && WellFormed(read, b)
    requires a + restA == b + restB
    ensures a == b && restA == restB
  {
    var whole := a + restA;
    assert a == whole[..|a|] && b == whole[..|b|];
    assert a[0] == b[0];
    var o := Opens(a[0]);
    if !o.Inert? {
      ClosedNotLonger(a, b, o);
      ClosedNotLonger(b, a, o);
    }
    assert restA == whole[|a|..] && restB == whole[|b|..];
  }

  lemma ClosedNotLonger(a: Segment, b: Segment, o: Opening)
    requires Closed(a, o) && Closed(b, o)
    requires a <= b || b <= a
    ensures |b| <= |a|
  {
  }

  /** Nothing more can be cut off: the lines are used up, or what comes next cannot be completed. */
  ghost predicate Blocked(read: Reader, rest: seq<string>) {
    rest == [] || exists line, e :: Stuck(read, rest, line, e)
  }

  lemma BlockedHasNoSegment(read: Reader, rest: seq<string>, a: Segment)
    requires Blocked(read, rest) && WellFormed(read, a)
    ensures !(a <= rest)
  {
    if a <= rest {
      var line, e :| Stuck(read, rest, line, e);
      assert a[0] == rest[0];
      var o := Opens(a[0]);
      assert a == rest[..|a|];
      assert Closes(o, rest[|a| - 1]);
      if !StillOpen(rest, o) {
        var k :| BadBlock(read, rest, k, line, e);
        ClosedNotLonger(a, rest[..k], o);
        ClosedNotLonger(rest[..k], a, o);
      }
    }
  }

  /** What follows the first segment. */
  function After(segs: seq<Segment>, rest: seq<string>): seq<string>
    requires segs != []
  {
    Flatten(segs[1..]) + rest
  }

  lemma PeelFirst(segs: seq<Segment>, rest: seq<string>)
    requires segs != []
    ensures Flatten(segs) + rest == segs[0] + After(segs, rest)
  {
    FlattenFront(segs);
    ConcatAssociative(segs[0], Flatten(segs[1..]), rest);
  }

  lemma PeelWellFormed(read: Reader, segs: seq<Segment>)
    requires AllWellFormed(read, segs) && segs != []
    ensures WellFormed(read, segs[0]) && AllWellFormed(read, segs[1..])
  {
  }

  lemma BlockedCutIsEmpty(read: Reader, segs: seq<Segment>, rest: seq<string>, whole: seq<string>)
    requires AllWellFormed(read, segs) && Blocked(read, whole)
    requires Flatten(segs) + rest == whole
    ensures segs == []
  {
    if segs != [] {
      PeelWellFormed(read, segs);
      PeelFirst(segs, rest);
      BlockedHasNoSegment(read, whole, segs[0]);
    }
  }

  lemma {:induction false} CutUnique(
    read: Reader, a: seq<Segment>, restA: seq<string>, b: seq<Segment>, restB: seq<string>)
    requires AllWellFormed(read, a) && AllWellFormed(read, b)
    requires Blocked(read, restA) && Blocked(read, restB)
    requires Flatten(a) + restA == Flatten(b) + restB
    ensures a == b && restA == restB
  {
    if a == [] || b == [] {
      if a == [] {
        assert Flatten(a) + restA == restA;
        BlockedCutIsEmpty(read, b, restB, restA);
      } else {
        assert Flatten(b) + restB == restB;
        BlockedCutIsEmpty(read, a, restA, restB);
      }
    } else {
      CutFirst(read, a, restA, b, restB);
      CutUnique(read, a[1..], restA, b[1..], restB);
      assert a == [a[0]] + a[1..];
      assert b == [b[0]] + b[1..];
    }
  }

  lemma CutFirst(read: Reader, a: seq<Segment>, restA: seq<string>, b: seq<Segment>, restB: seq<string>)
    requires AllWellFormed(read, a) && AllWellFormed(read, b) && a != [] && b != []
    requires Flatten(a) + restA == Flatten(b) + restB
    ensures a[0] == b[0] && Flatten(a[1..]) + restA == Flatten(b[1..]) + restB
    ensures AllWellFormed(read, a[1..]) && AllWellFormed(read, b[1..])
  {
    PeelWellFormed(read, a);
    PeelWellFormed(read, b);
    PeelFirst(a, restA);
    PeelFirst(b, restB);
    FirstSegmentUnique(read, a[0], After(a, restA), b[0], After(b, restB));
  }

  /** A document has at most one segmentation. */
  lemma SegmentationUnique(read: Reader, a: seq<Segment>, b: seq<Segment>, lines: seq<string>)
    requires Segments(read, a, lines) && Segments(read, b, lines)
    ensures a == b
  {
    assert Flatten(a) + [] == Flatten(b) + [];
    CutUnique(read, a, [], b, []);
  }

  lemma StuckUnique(read: Reader, tail: seq<string>, line: nat, e: ScanError, f: ScanError)
    requires Stuck(read, tail, line, e) && Stuck(read, tail, line, f)
    ensures e == f
  {
    var o := Opens(tail[0]);
    if StillOpen(tail, o) {
      NoBadBlock(read, tail, line, e);
      NoBadBlock(read, tail, line, f);
    } else {
      var j :| BadBlock(read, tail, j, line, e);
      var k :| BadBlock(read, tail, k, line, f);
      ClosedNotLonger(tail[..j], tail[..k], o);
      ClosedNotLonger(tail[..k], tail[..j], o);
    }
  }

  lemma NoBadBlock(read: Reader, tail: seq<string>, line: nat, e: ScanError)
    requires |tail| >= 1 && StillOpen(tail, Opens(tail[0]))
    ensures !exists k :: BadBlock(read, tail, k, line, e)
  {
  }

  /**
    A document means exactly one outcome, so the scanner succeeds if and only if
    the lines have a segmentation, and refuses with one determined error otherwise.
  */
  lemma OutcomeUnique(read: Reader, path: string, lines: seq<string>, r: Outcome, q: Outcome)
    requires Means(read, path, lines, r) && Means(read, path, lines, q)
    ensures r == q
  {
    var segsR, tailR := CutOf(read, path, lines, r);
    var segsQ, tailQ := CutOf(read, path, lines, q);
    CutUnique(read, segsR, tailR, segsQ, tailQ);
    if r.Err? && q.Err? {
      StuckUnique(read, tailR, |Flatten(segsR)| + 1, r.error, q.error);
    }
  }

  /** The scanner succeeds exactly on the documents that can be cut into segments. */
  lemma SucceedsIffSegmented(read: Reader, path: string, lines: seq<string>, r: Outcome)
    requires Means(read, path, lines, r)
    ensures r.Ok? <==> exists segs :: Segments(read, segs, lines)
  {
    if segs :| Segments(read, segs, lines) {
      OutcomeUnique(read, path, lines, r, Ok(Commands(read, path, segs)));
    }
  }

  /** The cut behind an outcome: all of the lines, or everything before the place that is stuck. */
  lemma CutOf(
    read: Reader, path: string, lines: seq<string>, r: Outcome) returns (segs: seq<Segment>, tail: seq<string>)
    requires Means(read, path, lines, r)
    ensures AllWellFormed(read, segs) && Flatten(segs) + tail == lines && Blocked(read, tail)
    ensures r.Ok? ==> tail == [] && r.value == Commands(read, path, segs)
    ensures r.Err? ==> Stuck(read, tail, |Flatten(segs)| + 1, r.error)
  {
    match r {
      case Ok(commands) =>
        segs :| Segments(read, segs, lines) && commands == Commands(read, path, segs);
        tail := [];
        assert Flatten(segs) + tail == lines;
      case Err(e) =>
        segs, tail :| StuckAfter(read, segs, tail, lines, e);
    }
  }

  // ------------------------------------------------------------------
  // What is extracted, and what has no influence on it
  // ------------------------------------------------------------------

  /** Every extracted command begins on the line where a command segment begins, and is what that segment decodes to. */
  lemma {:induction false} ExtractedFromCommandSegments(read: Reader, path: string, segs: seq<Segment>, c: GuideCommand)
    returns (k: nat)
    requires c in Commands(read, path, segs)
    ensures k < |segs| && Extracted(read, segs[k]) == Some(c.body)
    ensures c.line == |Flatten(segs[..k])| + 1 && c.sourcePath == path
  {
    var before := segs[..|segs| - 1];
    if c in Commands(read, path, before) {
      k := ExtractedFromCommandSegments(read, path, before, c);
      assert before[..k] == segs[..k];
    } else {
      k := |segs| - 1;
    }
  }

  /** Two segmentations that differ only in segments nothing is extracted from. */
  predicate SameButHidden(extract: Segment -> Option<CommandBody>, a: seq<Segment>, b: seq<Segment>) {
    && |a| == |b|
    && forall i | 0 <= i < |a| :: a[i] == b[i] || (|a[i]| == |b[i]| && extract(a[i]).None? && extract(b[i]).None?)
  }

  lemma {:induction false} CollectIgnoresHidden(
    extract: Segment -> Option<CommandBody>, path: string, a: seq<Segment>, b: seq<Segment>)
    requires SameButHidden(extract, a, b)
    ensures Collect(extract, path, a) == Collect(extract, path, b)
    ensures |Flatten(a)| == |Flatten(b)|
  {
    if a != [] {
      CollectIgnoresHidden(extract, path, a[..|a| - 1], b[..|b| - 1]);
    }
  }

  /** A comment or an enclosing fence that opens and closes: everything between its ends is up to the author. */
  ghost predicate Hidden(read: Reader, seg: Segment) {
    WellFormed(read, seg) && (Opens(seg[0]).OpensComment? || Opens(seg[0]).OpensFence?)
  }

  lemma HiddenExtractsNothing(read: Reader, seg: Segment)
    requires Hidden(read, seg)
    ensures Extracted(read, seg).None?
  {
  }

  /** The segmentations differ in the inside of comments and enclosing fences only, line for line. */
  ghost predicate SameOutsideHidden(read: Reader, a: seq<Segment>, b: seq<Segment>) {
    && |a| == |b|
    && forall i | 0 <= i < |a| :: a[i] == b[i] || (|a[i]| == |b[i]| && Hidden(read, a[i]) && Hidden(read, b[i]))
  }

  lemma HiddenCommands(read: Reader, path: string, a: seq<Segment>, b: seq<Segment>)
    requires SameOutsideHidden(read, a, b)
    ensures Commands(read, path, a) == Commands(read, path, b) && |Flatten(a)| == |Flatten(b)|
  {
    var extract := seg => Extracted(read, seg);
    forall i | 0 <= i < |a|
      ensures a[i] == b[i] || (|a[i]| == |b[i]| && extract(a[i]).None? && extract(b[i]).None?)
    {
      if a[i] != b[i] {
        HiddenExtractsNothing(read, a[i]);
        HiddenExtractsNothing(read, b[i]);
      }
    }
    SameCommands(read, path, extract, a, b);
  }

  lemma SameCommands(
    read: Reader, path: string, extract: Segment -> Option<CommandBody>, a: seq<Segment>, b: seq<Segment>)
    requires forall seg :: extract(seg) == Extracted(read, seg)
    requires SameButHidden(extract, a, b)
    ensures Commands(read, path, a) == Commands(read, path, b) && |Flatten(a)| == |Flatten(b)|
  {
    CollectIgnoresHidden(seg => Extracted(read, seg), path, a, b);
  }

  // ------------------------------------------------------------------
  // Composition
  // ------------------------------------------------------------------

  function Shift(commands: seq<GuideCommand>, offset: nat): seq<GuideCommand> {
    seq(|commands|, i requires 0 <= i < |commands| => commands[i].(line := commands[i].line + offset))
  }

  function ShiftError(e: ScanError, offset: nat): ScanError {
    e.(line := e.line + offset)
  }

  /** The outcome of a document placed after another one that holds `commands`. */
  function Following(commands: seq<GuideCommand>, offset: nat, r: Outcome): Outcome {
    match r
    case Ok(more) => Ok(commands + Shift(more, offset))
    case Err(e) => Err(ShiftError(e, offset))
  }

  lemma {:induction false} CollectConcat(
    extract: Segment -> Option<CommandBody>, path: string, a: seq<Segment>, b: seq<Segment>)
    ensures Collect(extract, path, a + b) == Collect(extract, path, a) + Shift(Collect(extract, path, b), |Flatten(a)|)
  {
    if b == [] {
      assert a + b == a;
    } else {
      var b' := b[..|b| - 1];
      assert (a + b)[..|a + b| - 1] == a + b';
      CollectConcat(extract, path, a, b');
      FlattenConcat(a, b');
    }
  }

  lemma StuckMoves(read: Reader, tail: seq<string>, line: nat, e: ScanError, offset: nat)
    requires Stuck(read, tail, line, e)
    ensures Stuck(read, tail, line + offset, ShiftError(e, offset))
  {
    if exists k :: BadBlock(read, tail, k, line, e) {
      var k :| BadBlock(read, tail, k, line, e);
      assert BadBlock(read, tail, k, line + offset, ShiftError(e, offset));
    }
  }

  lemma JoinSegments(read: Reader, a: seq<Segment>, linesA: seq<string>, b: seq<Segment>, linesB: seq<string>)
    requires Segments(read, a, linesA) && AllWellFormed(read, b) && Flatten(b) == linesB
    ensures Segments(read, a + b, linesA + linesB)
  {
    FlattenConcat(a, b);
    forall seg | seg in a + b
      ensures WellFormed(read, seg)
    {
    }
  }

  lemma ConcatLines(
    read: Reader, path: string, linesA: seq<string>, linesB: seq<string>, commands: seq<GuideCommand>, r: Outcome)
    requires Means(read, path, linesA, Ok(commands))
    requires Means(read, path, linesB, r)
    ensures Means(read, path, linesA + linesB, Following(commands, |linesA|, r))
  {
    var segs :| Segments(read, segs, linesA) && commands == Commands(read, path, segs);
    if r.Ok? {
      ConcatCommands(read, path, segs, linesA, linesB, r.value);
    } else {
      ConcatError(read, path, segs, linesA, linesB, r.error);
    }
  }

  lemma ConcatCommands(
    read: Reader, path: string, segs: seq<Segment>, linesA: seq<string>, linesB: seq<string>, more: seq<GuideCommand>)
    requires Segments(read, segs, linesA) && Means(read, path, linesB, Ok(more))
    ensures Means(read, path, linesA + linesB, Ok(Commands(read, path, segs) + Shift(more, |linesA|)))
  {
    var segsB :| Segments(read, segsB, linesB) && more == Commands(read, path, segsB);
    JoinSegments(read, segs, linesA, segsB, linesB);
    CommandsConcat(read, path, segs, segsB);
  }

  lemma CommandsConcat(read: Reader, path: string, a: seq<Segment>, b: seq<Segment>)
    ensures Commands(read, path, a + b) == Commands(read, path, a) + Shift(Commands(read, path, b), |Flatten(a)|)
  {
    CollectConcat(seg => Extracted(read, seg), path, a, b);
  }

  lemma ConcatError(
    read: Reader, path: string, segs: seq<Segment>, linesA: seq<string>, linesB: seq<string>, e: ScanError)
    requires Segments(read, segs, linesA) && Means(read, path, linesB, Err(e))
    ensures Means(read, path, linesA + linesB, Err(ShiftError(e, |linesA|)))
  {
    var segsB, tail :| StuckAfter(read, segsB, tail, linesB, e);
    JoinSegments(read, segs, linesA, segsB, Flatten(segsB));
    ConcatStuck(read, segs + segsB, linesA, Flatten(segsB), tail, e);
  }

  lemma ConcatStuck(
    read: Reader, segs: seq<Segment>, linesA: seq<string>, head: seq<string>, tail: seq<string>, e: ScanError)
    requires Segments(read, segs, linesA + head)
    requires Stuck(read, tail, |head| + 1, e)
    ensures StuckAfter(read, segs, tail, linesA + (head + tail), ShiftError(e, |linesA|))
  {
    StuckMoves(read, tail, |head| + 1, e, |linesA|);
    ConcatAssociative(linesA, head, tail);
    StuckIsAfter(read, segs, linesA + head, tail, linesA + (head + tail), ShiftError(e, |linesA|));
  }

  lemma StuckIsAfter(
    read: Reader, segs: seq<Segment>, done: seq<string>, tail: seq<string>, lines: seq<string>, e: ScanError)
    requires Segments(read, segs, done) && done + tail == lines && Stuck(read, tail, |done| + 1, e)
    ensures StuckAfter(read, segs, tail, lines, e)
  {
  }

  /**
    Scanning is compositional: after a document that scans, another one gives
    what it gives alone, its line numbers moved down, its error included.
  */
  lemma ScanConcat(read: Reader, path: string, a: string, b: string, commands: seq<GuideCommand>, r: Outcome)
    requires Means(read, path, Split(a, '\n'), Ok(commands))
    requires Means(read, path, Split(b, '\n'), r)
    ensures Means(read, path, Split(a + "\n" + b, '\n'), Following(commands, |Split(a, '\n')|, r))
  {
    SplitConcat(a, b, '\n');
    ConcatLines(read, path, Split(a, '\n'), Split(b, '\n'), commands, r);
  }

  // ------------------------------------------------------------------
  // Every document means something
  // ------------------------------------------------------------------

  /** The first line after the opening one that closes it, or the end. */
  function FirstClose(lines: seq<string>, o: Opening, from: nat): (k: nat)
    requires from <= |lines|
    ensures from <= k <= |lines| && (k < |lines| ==> Closes(o, lines[k]))
    ensures forall i | from <= i < k :: !Closes(o, lines[i])
    decreases |lines| - from
  {
    if from == |lines| || Closes(o, lines[from]) then from else FirstClose(lines, o, from + 1)
  }

  lemma OneSegment(read: Reader, path: string, seg: Segment)
    requires WellFormed(read, seg)
    ensures exists commands :: Means(read, path, seg, Ok(commands))
  {
    var segs := [seg];
    assert segs[..0] == [];
    assert Flatten(segs) == seg;
    assert Segments(read, segs, seg);
    assert Means(read, path, seg, Ok(Commands(read, path, segs)));
  }

  lemma StuckAtOnce(read: Reader, path: string, lines: seq<string>, e: ScanError)
    requires Stuck(read, lines, 1, e)
    ensures Means(read, path, lines, Err(e))
  {
    assert Flatten([]) + lines == lines;
    assert StuckAfter(read, [], lines, lines, e);
  }

  /** A non-empty document begins with a segment, or is stuck where it begins. */
  lemma FirstCut(read: Reader, lines: seq<string>) returns (k: nat, e: ScanError)
    requires lines != []
    ensures k <= |lines|
    ensures k > 0 ==> WellFormed(read, lines[..k])
    ensures k == 0 ==> Stuck(read, lines, 1, e)
  {
    var o := Opens(lines[0]);
    e := UnterminatedComment(1);
    if o.Inert? {
      k := 1;
    } else {
      var close := FirstClose(lines, o, 1);
      if close == |lines| {
        k, e := 0, Unterminated(o, 1);
      } else {
        var seg := lines[..close + 1];
        assert seg[..|seg| - 1] == lines[..close];
        assert Closed(seg, o);
        if o.OpensCommand? && ReadSegment(read, seg).Err? {
          k, e := 0, BadCommand(1, ReadSegment(read, seg).error);
          assert BadBlock(read, lines, close + 1, 1, e);
        } else {
          k := close + 1;
        }
      }
    }
  }

  /** Every document means an outcome, and by OutcomeUnique only one. */
  lemma {:induction false} EveryDocumentMeans(read: Reader, path: string, lines: seq<string>) returns (r: Outcome)
    ensures Means(read, path, lines, r)
    decreases |lines|
  {
    if lines == [] {
      r := Ok([]);
      assert Segments(read, [], lines);
      assert Commands(read, path, []) == [];
    } else {
      var k, e := FirstCut(read, lines);
      if k == 0 {
        r := Err(e);
        StuckAtOnce(read, path, lines, e);
      } else {
        var rest := EveryDocumentMeans(read, path, lines[k..]);
        OneSegment(read, path, lines[..k]);
        var commands :| Means(read, path, lines[..k], Ok(commands));
        ConcatLines(read, path, lines[..k], lines[k..], commands, rest);
        assert lines[..k] + lines[k..] == lines;
        r := Following(commands, k, rest);
      }
    }
  }

  /**
    Rewriting the inside of comments and enclosing fences, line for line, changes
    nothing the scanner returns, command-shaped text included: not the commands, and
    not the error when some later part of the document is refused.
  */
  lemma HiddenTextHasNoInfluence(
    read: Reader, path: string, a: seq<Segment>, b: seq<Segment>, rest: seq<string>, r: Outcome)
    requires AllWellFormed(read, a) && AllWellFormed(read, b) && SameOutsideHidden(read, a, b)
    requires Means(read, path, Flatten(a) + rest, r)
    ensures Means(read, path, Flatten(b) + rest, r)
  {
    var ofRest := EveryDocumentMeans(read, path, rest);
    HiddenCommands(read, path, a, b);
    SegmentedMeans(read, path, a);
    SegmentedMeans(read, path, b);
    var commands := Commands(read, path, a);
    ConcatLines(read, path, Flatten(a), rest, commands, ofRest);
    ConcatLines(read, path, Flatten(b), rest, commands, ofRest);
    OutcomeUnique(read, path, Flatten(a) + rest, r, Following(commands, |Flatten(a)|, ofRest));
  }

  lemma SegmentedMeans(read: Reader, path: string, segs: seq<Segment>)
    requires AllWellFormed(read, segs)
    ensures Means(read, path, Flatten(segs), Ok(Commands(read, path, segs)))
  {
    assert Segments(read, segs, Flatten(segs));
  }

  // ------------------------------------------------------------------
  // Printing
  // ------------------------------------------------------------------

  /** A piece of a guide: text without a command, or a command to print. */
  datatype Item = Prose(lines: Segment) | Block(body: CommandBody)

  type Encoder = CommandBody -> seq<string>

  function PrintItem(encode: Encoder, item: Item): Segment {
    match item
    case Prose(lines) => lines
    case Block(body) => [FENCE_OPEN] + encode(body) + [FENCE_CLOSE]
  }

  function PrintItems(encode: Encoder, items: seq<Item>): seq<Segment> {
    seq(|items|, i requires 0 <= i < |items| => PrintItem(encode, items[i]))
  }

  /**
    The encoder writes text that reads back and holds no closing fence of its own. With
    a reader made from a decoder: the body is valid, and decoding inverts encoding.
  */
  ghost predicate Encodes(encode: Encoder, read: Reader, body: CommandBody) {
    && read(BodyText(encode(body))) == Ok(body)
    && forall l | l in encode(body) :: TrimSpace(l) != FENCE_CLOSE && '\n' !in l
  }

  ghost predicate Printable(encode: Encoder, read: Reader, item: Item) {
    match item
    case Prose(lines) => WellFormed(read, lines) && !IsCommand(lines) && forall l | l in lines :: '\n' !in l
    case Block(body) => Encodes(encode, read, body)
  }

  function Bodies(items: seq<Item>): seq<CommandBody> {
    if items == [] then [] else
      var last := items[|items| - 1];
      Bodies(items[..|items| - 1]) + if last.Block? then [last.body] else []
  }

  function BodiesOf(commands: seq<GuideCommand>): seq<CommandBody> {
    seq(|commands|, i requires 0 <= i < |commands| => commands[i].body)
  }

  lemma FenceLines()
    ensures Opens(FENCE_OPEN) == OpensCommand && Closes(OpensCommand, FENCE_CLOSE)
  {
    SomeSpaces();
    TrimSpaceIs("", FENCE_OPEN, "");
    TrimSpaceIs("", FENCE_CLOSE, "");
    assert "" + FENCE_OPEN + "" == FENCE_OPEN;
    assert "" + FENCE_CLOSE + "" == FENCE_CLOSE;
    assert FENCE_OPEN[0] != COMMENT_OPEN[0];
  }

  lemma PrintedItemWellFormed(encode: Encoder, read: Reader, item: Item)
    requires Printable(encode, read, item)
    ensures WellFormed(read, PrintItem(encode, item))
    ensures IsCommand(PrintItem(encode, item)) <==> item.Block?
    ensures item.Block? ==> ReadSegment(read, PrintItem(encode, item)) == Ok(item.body)
  {
    if item.Block? {
      FenceLines();
      var seg := PrintItem(encode, item);
      assert seg[1..|seg| - 1] == encode(item.body);
      var open := seg[..|seg| - 1];
      forall i | 1 <= i < |open|
        ensures !Closes(OpensCommand, open[i])
      {
        assert open[i] == encode(item.body)[i - 1];
      }
    }
  }

  lemma {:induction false} PrintedCommands(encode: Encoder, read: Reader, path: string, items: seq<Item>)
    requires forall item | item in items :: Printable(encode, read, item)
    ensures AllWellFormed(read, PrintItems(encode, items))
    ensures BodiesOf(Commands(read, path, PrintItems(encode, items))) == Bodies(items)
  {
    if items != [] {
      var before, last := items[..|items| - 1], items[|items| - 1];
      PrintedCommands(encode, read, path, before);
      PrintedItemWellFormed(encode, read, last);
      assert PrintItems(encode, items)[..|items| - 1] == PrintItems(encode, before);
      assert PrintItems(encode, items) == PrintItems(encode, before) + [PrintItem(encode, last)];
    }
  }

  lemma {:induction false} PrintedLinesUnbroken(encode: Encoder, read: Reader, items: seq<Item>)
    requires forall item | item in items :: Printable(encode, read, item)
    ensures forall l | l in Flatten(PrintItems(encode, items)) :: '\n' !in l
  {
    if items != [] {
      var before, last := items[..|items| - 1], items[|items| - 1];
      PrintedLinesUnbroken(encode, read, before);
      assert PrintItems(encode, items)[..|items| - 1] == PrintItems(encode, before);
      assert '\n' !in FENCE_OPEN && '\n' !in FENCE_CLOSE;
      assert last in items;
    }
  }

  /** The printed document. */
  function PrintDocument(encode: Encoder, items: seq<Item>): string {
    var lines := Flatten(PrintItems(encode, items));
    if lines == [] then "" else Join(lines, '\n')
  }

  lemma EmptyDocument(read: Reader, path: string, items: seq<Item>, segs: seq<Segment>)
    requires AllWellFormed(read, segs) && Flatten(segs) == [] && |segs| == |items|
    ensures items == []
    ensures Means(read, path, Split("", '\n'), Ok([]))
  {
    if segs != [] {
      FlattenFront(segs);
      PeelWellFormed(read, segs);
    }
    var blank: seq<Segment> := [[""]];
    assert blank[..0] == [];
    assert Flatten(blank) == [""];
    assert Opens("").Inert?;
    assert Segments(read, blank, [""]);
    assert Collect(seg => Extracted(read, seg), path, blank[..0]) == [];
    assert Commands(read, path, blank) == [];
  }

  /**
    Printing any valid commands as blocks, among any text that is itself cleanly
    closed, and scanning the printed document gives back exactly those commands.
  */
  lemma ScanInvertsPrint(encode: Encoder, read: Reader, path: string, items: seq<Item>, r: Outcome)
    requires forall item | item in items :: Printable(encode, read, item)
    requires Means(read, path, Split(PrintDocument(encode, items), '\n'), r)
    ensures r.Ok? && BodiesOf(r.value) == Bodies(items)
  {
    var segs := PrintItems(encode, items);
    var lines := Flatten(segs);
    PrintedCommands(encode, read, path, items);
    if lines == [] {
      EmptyDocument(read, path, items, segs);
      OutcomeUnique(read, path, Split("", '\n'), r, Ok([]));
    } else {
      PrintedLinesUnbroken(encode, read, items);
      SplitJoin(lines, '\n');
      var want: Outcome := Ok(Commands(read, path, segs));
      assert Segments(read, segs, lines);
      assert Means(read, path, lines, want);
      OutcomeUnique(read, path, lines, r, want);
    }
  }
}
