/**
  `extractCommandBlocks`: the line scanner that finds narvi-command blocks in a
  guide, outside HTML comments and outside longer fences.

  The reference it is proved against is not a scanner. It says how a document's
  lines may be cut into segments (a plain line, a closed comment, a closed
  enclosing fence, a closed and decodable command block) and reads the commands
  off the segments. JSON decoding is an arbitrary function `read`.
*/
module GuideScanner {
  import opened Text
  import opened GuideCommands

  const FENCE_OPEN := "```json narvi-command"
  const FENCE_CLOSE := "```"
  const COMMENT_OPEN := "<!--"
  const COMMENT_CLOSE := "-->"

  /** What becomes of a block's text: a loaded command, or why it is refused. */
  type Reader = string -> Result<CommandBody, Fault>

  // ------------------------------------------------------------------
  // Reference: cutting lines into segments
  // ------------------------------------------------------------------

  /** What a line opens when it is read outside every comment and fence. */
  datatype Opening = Inert | OpensComment | OpensFence(run: nat) | OpensCommand

  function BacktickRun(s: string): (n: nat)
    ensures n <= |s|
  {
    if s == "" || s[0] != '`' then 0 else 1 + BacktickRun(s[1..])
  }

  predicate IsBareFence(trimmed: string, need: nat) {
    trimmed != "" && need <= |trimmed| && forall i | 0 <= i < |trimmed| :: trimmed[i] == '`'
  }

  function Opens(line: string): Opening {
    var trimmed := TrimSpace(line);
    if COMMENT_OPEN <= trimmed then
      if Contains(line, COMMENT_CLOSE) then Inert else OpensComment
    else if trimmed == FENCE_OPEN then OpensCommand
    else if BacktickRun(trimmed) >= 3 && !Contains(trimmed[BacktickRun(trimmed)..], "`") then
      OpensFence(BacktickRun(trimmed))
    else Inert
  }

  predicate Closes(o: Opening, line: string) {
    match o
    case Inert => false
    case OpensComment => Contains(line, COMMENT_CLOSE)
    case OpensFence(run) => IsBareFence(TrimSpace(line), run)
    case OpensCommand => TrimSpace(line) == FENCE_CLOSE
  }

  /** Consecutive lines of a document. */
  type Segment = seq<string>

  /** No line after the first closes what the first opened. */
  ghost predicate StillOpen(lines: Segment, o: Opening) {
    forall i {:trigger Closes(o, lines[i])} | 1 <= i < |lines| :: !Closes(o, lines[i])
  }

  /** The last line, and no line before it, closes what the first opened. */
  ghost predicate Closed(seg: Segment, o: Opening) {
    |seg| >= 2 && Closes(o, seg[|seg| - 1]) && StillOpen(seg[..|seg| - 1], o)
  }

  /** The JSON text between two fence lines. */
  function BodyText(lines: seq<string>): string {
    if lines == [] then "" else BodyText(lines[..|lines| - 1]) + lines[|lines| - 1] + "\n"
  }

  datatype Fault = Malformed | Invalid(problem: Problem)

  function ReadSegment(read: Reader, seg: Segment): Result<CommandBody, Fault>
    requires |seg| >= 2
  {
    read(BodyText(seg[1..|seg| - 1]))
  }

  ghost predicate WellFormed(read: Reader, seg: Segment) {
    && |seg| >= 1
    && var o := Opens(seg[0]);
       if o.Inert? then |seg| == 1
       else Closed(seg, o) && (o.OpensCommand? ==> ReadSegment(read, seg).Ok?)
  }

  ghost predicate AllWellFormed(read: Reader, segs: seq<Segment>) {
    forall s | s in segs :: WellFormed(read, s)
  }

  function Flatten(segs: seq<Segment>): seq<string> {
    if segs == [] then [] else Flatten(segs[..|segs| - 1]) + segs[|segs| - 1]
  }

  predicate IsCommand(seg: Segment) {
    |seg| >= 2 && Opens(seg[0]).OpensCommand?
  }

  /** The command a segment documents, if it documents one. */
  function Extracted(read: Reader, seg: Segment): Option<CommandBody> {
    if IsCommand(seg) && ReadSegment(read, seg).Ok? then Some(ReadSegment(read, seg).value) else None
  }

  /** What `extract` finds in each segment, with the number of the line the segment begins on. */
  function Collect(extract: Segment -> Option<CommandBody>, path: string, segs: seq<Segment>): seq<GuideCommand> {
    if segs == [] then [] else
      var before, found := segs[..|segs| - 1], extract(segs[|segs| - 1]);
      Collect(extract, path, before)
      + if found.Some? then [GuideCommand(found.value, path, |Flatten(before)| + 1)] else []
  }

  /** The commands a segmentation holds, each with the number of the line that opens it. */
  function Commands(read: Reader, path: string, segs: seq<Segment>): seq<GuideCommand> {
    Collect(seg => Extracted(read, seg), path, segs)
  }

  datatype ScanError =
    | UnterminatedComment(line: nat)
    | UnterminatedFence(line: nat, run: nat)
    | UnterminatedCommand(line: nat)
    | BadCommand(line: nat, fault: Fault)

  function Unterminated(o: Opening, line: nat): ScanError
    requires !o.Inert?
  {
    match o
    case OpensComment => UnterminatedComment(line)
    case OpensFence(run) => UnterminatedFence(line, run)
    case OpensCommand => UnterminatedCommand(line)
  }

  /** `tail` begins, at line `line`, with something that cannot be completed to a segment. */
  ghost predicate Stuck(read: Reader, tail: seq<string>, line: nat, e: ScanError) {
    && |tail| >= 1
    && var o := Opens(tail[0]);
       && !o.Inert?
       && (|| (StillOpen(tail, o) && e == Unterminated(o, line))
           || (exists k :: BadBlock(read, tail, k, line, e)))
  }

  ghost predicate BadBlock(read: Reader, tail: seq<string>, k: int, line: nat, e: ScanError) {
    && 2 <= k <= |tail|
    && Opens(tail[0]).OpensCommand? && Closed(tail[..k], OpensCommand)
    && ReadSegment(read, tail[..k]).Err?
    && e == BadCommand(line, ReadSegment(read, tail[..k]).error)
  }

  type Outcome = Result<seq<GuideCommand>, ScanError>

  /** What scanning `lines` means: their segmentation's commands, or where segmenting gets stuck. */
  ghost predicate Means(read: Reader, path: string, lines: seq<string>, r: Outcome) {
    match r
    case Ok(commands) => exists segs :: Segments(read, segs, lines) && commands == Commands(read, path, segs)
    case Err(e) => exists segs, tail :: StuckAfter(read, segs, tail, lines, e)
  }

  ghost predicate Segments(read: Reader, segs: seq<Segment>, lines: seq<string>) {
    AllWellFormed(read, segs) && Flatten(segs) == lines
  }

  ghost predicate StuckAfter(read: Reader, segs: seq<Segment>, tail: seq<string>, lines: seq<string>, e: ScanError) {
    && AllWellFormed(read, segs)
    && Flatten(segs) + tail == lines
    && Stuck(read, tail, |Flatten(segs)| + 1, e)
  }

  // ------------------------------------------------------------------
  // The scanner
  // ------------------------------------------------------------------

  method LeadingBacktickRun(s: string) returns (n: nat)
    ensures n == BacktickRun(s)
  {
    n := 0;
    while n < |s| && s[n] == '`'
      invariant n <= |s|
      invariant n + BacktickRun(s[n..]) == BacktickRun(s)
    {
      assert s[n..][1..] == s[n + 1..];
      n := n + 1;
    }
  }

  method IsBareFenceCloseLine(trimmed: string, need: nat) returns (b: bool)
    ensures b == IsBareFence(trimmed, need)
  {
    if trimmed == "" {
      return false;
    }
    for i := 0 to |trimmed|
      invariant forall j | 0 <= j < i :: trimmed[j] == '`'
    {
      if trimmed[i] != '`' {
        return false;
      }
    }
    return |trimmed| >= need;
  }

  /** The scanner's two flags as what they stand for; it is never inside both. */
  function Inside(inComment: bool, enclosingFenceLen: nat): Opening {
    if inComment then OpensComment else if enclosingFenceLen > 0 then OpensFence(enclosingFenceLen) else Inert
  }

  method ClosesHidden(raw: string, inComment: bool, enclosingFenceLen: nat) returns (b: bool)
    ensures b == Closes(Inside(inComment, enclosingFenceLen), raw)
  {
    if inComment {
      return Contains(raw, COMMENT_CLOSE);
    }
    if enclosingFenceLen > 0 {
      b := IsBareFenceCloseLine(TrimSpace(raw), enclosingFenceLen);
      return b;
    }
    return false;
  }

  /** At line `i` the scanner is inside what line `start` opened, or, when `o` is inert, between segments. */
  ghost predicate OpenAt(lines: seq<string>, start: nat, i: nat, o: Opening) {
    && start <= i <= |lines|
    && (o.Inert? ==> start == i)
    && (!o.Inert? ==> start < i && Opens(lines[start]) == o && StillOpen(lines[start..i], o))
  }

  /** The segments of everything before `start`, and their commands. */
  ghost predicate DoneUpTo(
    read: Reader, path: string, lines: seq<string>, segs: seq<Segment>, start: nat, commands: seq<GuideCommand>)
  {
    start <= |lines| && Segments(read, segs, lines[..start]) && commands == Commands(read, path, segs)
  }

  lemma StaysOpen(lines: seq<string>, start: nat, i: nat, o: Opening)
    requires start < i < |lines| && StillOpen(lines[start..i], o) && !Closes(o, lines[i])
    ensures StillOpen(lines[start..i + 1], o)
  {
    var seg := lines[start..i + 1];
    forall j | 1 <= j < |seg|
      ensures !Closes(o, seg[j])
    {
      if j < i - start {
        assert seg[j] == lines[start..i][j];
      }
    }
  }

  lemma GetsClosed(lines: seq<string>, start: nat, i: nat, o: Opening)
    requires start < i < |lines| && StillOpen(lines[start..i], o) && Closes(o, lines[i])
    ensures Closed(lines[start..i + 1], o)
  {
    assert lines[start..i + 1][..i - start] == lines[start..i];
  }

  /** Completing one more segment. */
  lemma Complete(
    read: Reader, path: string, lines: seq<string>, segs: seq<Segment>, start: nat, commands: seq<GuideCommand>,
    end: nat)
    requires DoneUpTo(read, path, lines, segs, start, commands)
    requires start < end <= |lines| && WellFormed(read, lines[start..end])
    ensures
      var seg := lines[start..end];
      DoneUpTo(read, path, lines, segs + [seg], end,
               if IsCommand(seg) then commands + [GuideCommand(ReadSegment(read, seg).value, path, start + 1)]
               else commands)
  {
    var seg := lines[start..end];
    SegmentsGrow(read, segs, lines[..start], seg);
    assert lines[..start] + seg == lines[..end];
    CommandsGrow(read, path, segs, seg);
  }

  lemma SegmentsGrow(read: Reader, segs: seq<Segment>, lines: seq<string>, seg: Segment)
    requires Segments(read, segs, lines) && WellFormed(read, seg)
    ensures Segments(read, segs + [seg], lines + seg)
  {
    assert (segs + [seg])[..|segs|] == segs;
  }

  lemma CommandsGrow(read: Reader, path: string, segs: seq<Segment>, seg: Segment)
    ensures Commands(read, path, segs + [seg]) == Commands(read, path, segs)
      + if Extracted(read, seg).Some? then [GuideCommand(Extracted(read, seg).value, path, |Flatten(segs)| + 1)] else []
  {
    assert (segs + [seg])[..|segs|] == segs;
  }

  lemma CompleteInert(
    read: Reader, path: string, lines: seq<string>, segs: seq<Segment>, start: nat, commands: seq<GuideCommand>)
    requires DoneUpTo(read, path, lines, segs, start, commands)
    requires start < |lines| && Opens(lines[start]).Inert?
    ensures DoneUpTo(read, path, lines, segs + [lines[start..start + 1]], start + 1, commands)
  {
    Complete(read, path, lines, segs, start, commands, start + 1);
  }

  lemma CompleteHidden(
    read: Reader, path: string, lines: seq<string>, segs: seq<Segment>, start: nat, commands: seq<GuideCommand>,
    i: nat, o: Opening)
    requires DoneUpTo(read, path, lines, segs, start, commands)
    requires OpenAt(lines, start, i, o) && (o.OpensComment? || o.OpensFence?)
    requires i < |lines| && Closes(o, lines[i])
    ensures DoneUpTo(read, path, lines, segs + [lines[start..i + 1]], i + 1, commands)
  {
    GetsClosed(lines, start, i, o);
    Complete(read, path, lines, segs, start, commands, i + 1);
  }

  lemma StuckAt(
    read: Reader, path: string, lines: seq<string>, segs: seq<Segment>, start: nat, commands: seq<GuideCommand>,
    e: ScanError)
    requires DoneUpTo(read, path, lines, segs, start, commands)
    requires Stuck(read, lines[start..], start + 1, e)
    ensures Means(read, path, lines, Err(e))
  {
    assert lines[..start] + lines[start..] == lines;
    assert StuckAfter(read, segs, lines[start..], lines, e);
  }

  lemma CompleteCommand(
    read: Reader, path: string, lines: seq<string>, segs: seq<Segment>, start: nat, commands: seq<GuideCommand>,
    end: nat)
    requires DoneUpTo(read, path, lines, segs, start, commands)
    requires start + 2 <= end <= |lines| && Opens(lines[start]) == OpensCommand && WellFormed(read, lines[start..end])
    ensures DoneUpTo(read, path, lines, segs + [lines[start..end]], end,
                     commands + [GuideCommand(ReadSegment(read, lines[start..end]).value, path, start + 1)])
  {
    Complete(read, path, lines, segs, start, commands, end);
  }

  /** Scanning has reached line `i`: everything before `start` is done, and `o` is what line `start` left open. */
  ghost predicate ScannedTo(
    read: Reader, path: string, lines: seq<string>, p: Progress, i: nat, commands: seq<GuideCommand>)
  {
    DoneUpTo(read, path, lines, p.segs, p.start, commands) && OpenAt(lines, p.start, i, p.o)
  }

  datatype Progress = Progress(segs: seq<Segment>, start: nat, o: Opening)

  /** Inside a comment or a fence: the line closes it, or it goes on. */
  lemma StepInside(
    read: Reader, path: string, lines: seq<string>, p: Progress, i: nat, commands: seq<GuideCommand>)
    returns (q: Progress)
    requires i < |lines| && ScannedTo(read, path, lines, p, i, commands) && (p.o.OpensComment? || p.o.OpensFence?)
    ensures ScannedTo(read, path, lines, q, i + 1, commands)
    ensures if Closes(p.o, lines[i]) then q.o == Inert else q == p
  {
    if Closes(p.o, lines[i]) {
      CompleteHidden(read, path, lines, p.segs, p.start, commands, i, p.o);
      q := Progress(p.segs + [lines[p.start..i + 1]], i + 1, Inert);
    } else {
      StaysOpen(lines, p.start, i, p.o);
      q := p;
    }
  }

  /** Outside: an inert line is a segment of its own, and a comment or a fence is opened. */
  lemma StepOutside(
    read: Reader, path: string, lines: seq<string>, p: Progress, i: nat, commands: seq<GuideCommand>)
    returns (q: Progress)
    requires i < |lines| && ScannedTo(read, path, lines, p, i, commands)
    requires p.o == Inert && Opens(lines[i]) != OpensCommand
    ensures ScannedTo(read, path, lines, q, i + 1, commands)
    ensures q.o == Opens(lines[i]) && (!q.o.Inert? ==> q.start == i)
  {
    if Opens(lines[i]) == Inert {
      CompleteInert(read, path, lines, p.segs, p.start, commands);
      q := Progress(p.segs + [lines[i..i + 1]], i + 1, Inert);
    } else {
      q := p.(o := Opens(lines[i]));
    }
  }

  lemma StepCommand(
    read: Reader, path: string, lines: seq<string>, p: Progress, i: nat, commands: seq<GuideCommand>, next: nat,
    body: CommandBody) returns (q: Progress)
    requires i + 2 <= next <= |lines| && ScannedTo(read, path, lines, p, i, commands) && p.o == Inert
    requires Opens(lines[i]) == OpensCommand
    requires WellFormed(read, lines[i..next]) && ReadSegment(read, lines[i..next]) == Ok(body)
    ensures ScannedTo(read, path, lines, q, next, commands + [GuideCommand(body, path, i + 1)]) && q.o == Inert
  {
    CompleteCommand(read, path, lines, p.segs, i, commands, next);
    q := Progress(p.segs + [lines[i..next]], next, Inert);
  }

  /** The lines end while something is still open. */
  lemma EndsInside(
    read: Reader, path: string, lines: seq<string>, segs: seq<Segment>, start: nat, commands: seq<GuideCommand>,
    o: Opening)
    requires DoneUpTo(read, path, lines, segs, start, commands)
    requires !o.Inert? && OpenAt(lines, start, |lines|, o)
    ensures Means(read, path, lines, Err(Unterminated(o, start + 1)))
  {
    assert lines[start..|lines|] == lines[start..];
    StuckAt(read, path, lines, segs, start, commands, Unterminated(o, start + 1));
  }

  lemma BodyTextGrows(lines: seq<string>, from: nat, end: nat)
    requires from <= end < |lines|
    ensures BodyText(lines[from..end + 1]) == BodyText(lines[from..end]) + lines[end] + "\n"
  {
    assert lines[from..end + 1][..end - from] == lines[from..end];
  }

  /** A closed block is the start of what is left, and its body lies between its two fence lines. */
  lemma BlockAt(read: Reader, lines: seq<string>, start: nat, end: nat)
    requires start < end < |lines|
    requires StillOpen(lines[start..end], OpensCommand) && Closes(OpensCommand, lines[end])
    ensures var seg := lines[start..end + 1];
      && Closed(seg, OpensCommand) && seg == lines[start..][..|seg|]
      && ReadSegment(read, seg) == read(BodyText(lines[start + 1..end]))
  {
    var seg := lines[start..end + 1];
    GetsClosed(lines, start, end, OpensCommand);
    SliceOfSlice(lines, start, end + 1, 1, end - start);
  }

  lemma RefusedAt(read: Reader, lines: seq<string>, start: nat, end: nat, fault: Fault)
    requires start < end < |lines| && Opens(lines[start]) == OpensCommand
    requires Closed(lines[start..end + 1], OpensCommand) && ReadSegment(read, lines[start..end + 1]) == Err(fault)
    ensures Stuck(read, lines[start..], start + 1, BadCommand(start + 1, fault))
  {
    var seg, tail := lines[start..end + 1], lines[start..];
    assert seg == tail[..|seg|];
    assert BadBlock(read, tail, |seg|, start + 1, BadCommand(start + 1, fault));
  }

  lemma EndsOutside(read: Reader, path: string, lines: seq<string>, p: Progress, commands: seq<GuideCommand>)
    requires ScannedTo(read, path, lines, p, |lines|, commands) && p.o == Inert
    ensures Means(read, path, lines, Ok(commands))
  {
    assert lines[..p.start] == lines;
  }

  lemma StartsScan(read: Reader, path: string, lines: seq<string>)
    ensures ScannedTo(read, path, lines, Progress([], 0, Inert), 0, [])
  {
  }

  method CollectBody(lines: seq<string>, start: nat) returns (body: string, end: nat)
    requires start < |lines| && Opens(lines[start]) == OpensCommand
    ensures start < end <= |lines|
    ensures StillOpen(lines[start..end], OpensCommand)
    ensures body == BodyText(lines[start + 1..end])
    ensures end < |lines| ==> Closes(OpensCommand, lines[end])
  {
    body := "";
    end := start + 1;
    while end < |lines| && TrimSpace(lines[end]) != FENCE_CLOSE
      invariant start < end <= |lines|
      invariant StillOpen(lines[start..end], OpensCommand)
      invariant body == BodyText(lines[start + 1..end])
    {
      StaysOpen(lines, start, end, OpensCommand);
      BodyTextGrows(lines, start + 1, end);
      body := body + lines[end] + "\n";
      end := end + 1;
    }
  }

  /** The block a command fence opens: its body and the line after it, or why it is refused. */
  method TakeCommand(
    lines: seq<string>, start: nat, read: Reader) returns (r: Result<CommandBody, ScanError>, next: nat)
    requires start < |lines| && Opens(lines[start]) == OpensCommand
    ensures r.Ok? ==>
              && start + 2 <= next <= |lines| && WellFormed(read, lines[start..next])
              && ReadSegment(read, lines[start..next]) == Ok(r.value)
    ensures r.Err? ==> Stuck(read, lines[start..], start + 1, r.error)
  {
    var startLine := start + 1;
    var body, end := CollectBody(lines, start);
    if end == |lines| {
      assert lines[start..end] == lines[start..];
      return Err(UnterminatedCommand(startLine)), end;
    }
    next := end + 1;
    BlockAt(read, lines, start, end);
    match read(body) {
      case Ok(cmd) =>
        r := Ok(cmd);
      case Err(fault) =>
        r := Err(BadCommand(startLine, fault));
        RefusedAt(read, lines, start, end, fault);
    }
  }

  /** What a line outside every comment and fence opens, in the order the scanner asks. */
  method Classify(raw: string) returns (o: Opening)
    ensures o == Opens(raw)
  {
    var trimmed := TrimSpace(raw);
    if COMMENT_OPEN <= trimmed {
      if !Contains(raw, COMMENT_CLOSE) {
        return OpensComment;
      }
      return Inert;
    }
    if trimmed == FENCE_OPEN {
      return OpensCommand;
    }
    var run := LeadingBacktickRun(trimmed);
    if run >= 3 && !Contains(trimmed[run..], "`") {
      return OpensFence(run);
    }
    return Inert;
  }

  /** The scanner's variables; `startLine` is where the open comment or fence began. */
  datatype Scanner = Scanner(
    i: nat, inComment: bool, enclosingFenceLen: nat, startLine: nat, commands: seq<GuideCommand>)

  ghost predicate Scanning(read: Reader, path: string, lines: seq<string>, p: Progress, s: Scanner) {
    && s.i <= |lines|
    && ScannedTo(read, path, lines, p, s.i, s.commands)
    && p.o == Inside(s.inComment, s.enclosingFenceLen)
    && (!p.o.Inert? ==> s.startLine == p.start + 1)
  }

  /** One line inside a comment or an enclosing fence. */
  method LineInside(path: string, lines: seq<string>, read: Reader, s: Scanner, ghost p: Progress)
    returns (s': Scanner, ghost p': Progress)
    requires Scanning(read, path, lines, p, s) && s.i < |lines| && (s.inComment || s.enclosingFenceLen > 0)
    ensures Scanning(read, path, lines, p', s') && s'.i == s.i + 1
  {
    p' := StepInside(read, path, lines, p, s.i, s.commands);
    var closes := ClosesHidden(lines[s.i], s.inComment, s.enclosingFenceLen);
    s' := s.(i := s.i + 1);
    if closes {
      s' := s'.(inComment := false, enclosingFenceLen := 0);
    }
  }

  /** One line, or one whole command block, outside of both. */
  method LineOutside(path: string, lines: seq<string>, read: Reader, s: Scanner, ghost p: Progress)
    returns (s': Scanner, error: Option<ScanError>, ghost p': Progress)
    requires Scanning(read, path, lines, p, s) && s.i < |lines| && !s.inComment && s.enclosingFenceLen == 0
    ensures error.None? ==> Scanning(read, path, lines, p', s') && s.i < s'.i
    ensures error.Some? ==> Means(read, path, lines, Err(error.value))
  {
    s', error, p' := s, None, p;
    var opening := Classify(lines[s.i]);
    if opening == OpensCommand {
      var block, next := TakeCommand(lines, s.i, read);
      if block.Err? {
        StuckAt(read, path, lines, p.segs, p.start, s.commands, block.error);
        return s, Some(block.error), p;
      }
      p' := StepCommand(read, path, lines, p, s.i, s.commands, next, block.value);
      s' := s.(i := next, commands := s.commands + [GuideCommand(block.value, path, s.i + 1)]);
    } else {
      p' := StepOutside(read, path, lines, p, s.i, s.commands);
      s' := s.(i := s.i + 1);
      match opening {
        case OpensComment => s' := s'.(inComment := true, startLine := s.i + 1);
        case OpensFence(run) => s' := s'.(enclosingFenceLen := run, startLine := s.i + 1);
        case _ =>
      }
    }
  }

  /** The scanner's loop. */
  method ScanLines(path: string, lines: seq<string>, read: Reader) returns (r: Outcome)
    ensures Means(read, path, lines, r)
  {
    var s := Scanner(0, false, 0, 0, []);
    ghost var p := Progress([], 0, Inert);
    StartsScan(read, path, lines);
    while s.i < |lines|
      invariant Scanning(read, path, lines, p, s)
      decreases |lines| - s.i
    {
      if s.inComment || s.enclosingFenceLen > 0 {
        s, p := LineInside(path, lines, read, s, p);
      } else {
        var error;
        s, error, p := LineOutside(path, lines, read, s, p);
        if error.Some? {
          return Err(error.value);
        }
      }
    }
    ScanEnds(read, path, lines, p, s);
    return Finish(s);
  }

  /** Fail-closed: what is still open at the end is refused where it was opened. */
  function Finish(s: Scanner): Outcome {
    if s.inComment then Err(UnterminatedComment(s.startLine))
    else if s.enclosingFenceLen > 0 then Err(UnterminatedFence(s.startLine, s.enclosingFenceLen))
    else Ok(s.commands)
  }

  lemma ScanEnds(read: Reader, path: string, lines: seq<string>, p: Progress, s: Scanner)
    requires Scanning(read, path, lines, p, s) && s.i == |lines|
    ensures Means(read, path, lines, Finish(s))
  {
    if p.o.Inert? {
      EndsOutside(read, path, lines, p, s.commands);
    } else {
      EndsInside(read, path, lines, p.segs, p.start, s.commands, p.o);
    }
  }
}
