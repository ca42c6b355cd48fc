/**
  `extractCommandBlocks` as a whole: the scanner over a document's lines, with decoding
  and validation of each block, and what that says about the commands it returns and the
  blocks it refuses.
*/
module GuideExtraction {
  import opened Text
  import opened GuideCommands
  import opened GuideScanner
  import opened GuideScannerLaws

  /** The JSON decoder, unknown fields refused. */
  type Decoder = string -> Option<CommandBody>

  /** Decoding, then `Validate`. */
  function ReadBody(decode: Decoder, text: string): Result<CommandBody, Fault> {
    match decode(text)
    case None => Err(Malformed)
    case Some(body) => if Validate(body).None? then Ok(body) else Err(Invalid(Validate(body).value))
  }

  function ReaderOf(decode: Decoder): Reader {
    text => ReadBody(decode, text)
  }

  // ------------------------------------------------------------------
  // Blocks by their lines
  // ------------------------------------------------------------------

  /** A block opens on line `line`, counted from 1, and line `close + 1` is the first that closes it. */
  ghost predicate BlockOn(lines: seq<string>, line: nat, close: nat) {
    && 1 <= line <= close < |lines|
    && TrimSpace(lines[line - 1]) == "```json narvi-command"
    && TrimSpace(lines[close]) == "```"
    && forall i | line <= i < close :: TrimSpace(lines[i]) != "```"
  }

  /** The text between the two fence lines. */
  function TextBetween(lines: seq<string>, line: nat, close: nat): string
    requires line <= close <= |lines|
  {
    BodyText(lines[line..close])
  }

  /** The command is what a block of the document decodes to, and it may be loaded. */
  ghost predicate Loaded(decode: Decoder, lines: seq<string>, c: GuideCommand) {
    exists close: nat :: BlockOn(lines, c.line, close) && LoadedFrom(decode, lines, c, close)
  }

  predicate LoadedFrom(decode: Decoder, lines: seq<string>, c: GuideCommand, close: nat)
    requires c.line <= close <= |lines|
  {
    decode(TextBetween(lines, c.line, close)) == Some(c.body) && Loadable(c.body)
  }

  /** A block of the document is refused for that fault, and for no other. */
  ghost predicate Refused(decode: Decoder, lines: seq<string>, line: nat, fault: Fault) {
    exists close: nat :: BlockOn(lines, line, close) && RefusedFor(decode(TextBetween(lines, line, close)), fault)
  }

  ghost predicate RefusedFor(decoded: Option<CommandBody>, fault: Fault) {
    && (fault == Malformed <==> decoded.None?)
    && forall p :: fault == Invalid(p) <==> decoded.Some? && FirstFailing(p, decoded.value)
  }

  // ------------------------------------------------------------------
  // Reading a block
  // ------------------------------------------------------------------

  lemma ReadOk(decode: Decoder, text: string, body: CommandBody)
    ensures ReadBody(decode, text) == Ok(body) <==> decode(text) == Some(body) && Loadable(body)
  {
    if decode(text).Some? {
      ValidateIs(decode(text).value, NameRequired);
    }
  }

  lemma ReadErr(decode: Decoder, text: string, fault: Fault)
    requires ReadBody(decode, text) == Err(fault)
    ensures RefusedFor(decode(text), fault)
  {
    if decode(text).Some? {
      forall p
        ensures fault == Invalid(p) <==> FirstFailing(p, decode(text).value)
      {
        ValidateIs(decode(text).value, p);
      }
    }
  }

  /** A segment's lines in the document. */
  lemma {:induction false} SegmentInLines(segs: seq<Segment>, k: nat)
    requires k < |segs|
    ensures var start := |Flatten(segs[..k])|;
      start + |segs[k]| <= |Flatten(segs)| && Flatten(segs)[start..start + |segs[k]|] == segs[k]
  {
    FlattenConcat(segs[..k], segs[k..]);
    assert segs[..k] + segs[k..] == segs;
    FlattenFront(segs[k..]);
  }

  lemma LinesOfSegment(lines: seq<string>, start: nat, seg: Segment)
    requires start + |seg| <= |lines| && lines[start..start + |seg|] == seg && |seg| >= 2
    ensures forall i | start <= i < start + |seg| :: lines[i] == seg[i - start]
    ensures lines[start + 1..start + |seg| - 1] == seg[1..|seg| - 1]
  {
    forall i | start <= i < start + |seg|
      ensures lines[i] == seg[i - start]
    {
      assert lines[start..start + |seg|][i - start] == lines[i];
    }
    SliceOfSlice(lines, start, start + |seg|, 1, |seg| - 1);
  }

  /** A closed command segment is a block of the document. */
  lemma ClosedIsBlock(lines: seq<string>, start: nat, seg: Segment)
    requires start + |seg| <= |lines| && lines[start..start + |seg|] == seg
    requires |seg| >= 1 && Opens(seg[0]) == OpensCommand && Closed(seg, OpensCommand)
    ensures BlockOn(lines, start + 1, start + |seg| - 1)
    ensures TextBetween(lines, start + 1, start + |seg| - 1) == BodyText(seg[1..|seg| - 1])
  {
    LinesOfSegment(lines, start, seg);
    var close := start + |seg| - 1;
    forall i | start + 1 <= i < close
      ensures TrimSpace(lines[i]) != "```"
    {
      assert !Closes(OpensCommand, seg[..|seg| - 1][i - start]);
    }
  }

  /** Whatever reads the blocks, every command that is returned was read from one of them. */
  lemma ReturnedBlock(read: Reader, path: string, lines: seq<string>, commands: seq<GuideCommand>, c: GuideCommand)
    returns (close: nat)
    requires Means(read, path, lines, Ok(commands)) && c in commands
    ensures c.sourcePath == path && BlockOn(lines, c.line, close)
    ensures read(TextBetween(lines, c.line, close)) == Ok(c.body)
  {
    var segs :| Segments(read, segs, lines) && commands == Commands(read, path, segs);
    var k := ExtractedFromCommandSegments(read, path, segs, c);
    close := SegmentBlock(read, lines, segs, k);
  }

  lemma SegmentBlock(read: Reader, lines: seq<string>, segs: seq<Segment>, k: nat) returns (close: nat)
    requires Segments(read, segs, lines) && k < |segs| && IsCommand(segs[k])
    ensures BlockOn(lines, |Flatten(segs[..k])| + 1, close)
    ensures read(TextBetween(lines, |Flatten(segs[..k])| + 1, close)) == ReadSegment(read, segs[k])
  {
    var seg, start := segs[k], |Flatten(segs[..k])|;
    assert WellFormed(read, seg);
    SegmentInLines(segs, k);
    ClosedIsBlock(lines, start, seg);
    close := start + |seg| - 1;
  }

  /** And a block that is refused could not be read. */
  lemma RefusedBlock(read: Reader, path: string, lines: seq<string>, line: nat, fault: Fault) returns (close: nat)
    requires Means(read, path, lines, Err(BadCommand(line, fault)))
    ensures BlockOn(lines, line, close) && read(TextBetween(lines, line, close)) == Err(fault)
  {
    var segs, tail :| StuckAfter(read, segs, tail, lines, BadCommand(line, fault));
    var k :| BadBlock(read, tail, k, |Flatten(segs)| + 1, BadCommand(line, fault));
    close := BadBlockInLines(read, Flatten(segs), tail, k, fault);
  }

  lemma BadBlockInLines(read: Reader, head: seq<string>, tail: seq<string>, k: nat, fault: Fault) returns (close: nat)
    requires BadBlock(read, tail, k, |head| + 1, BadCommand(|head| + 1, fault))
    ensures BlockOn(head + tail, |head| + 1, close) && read(TextBetween(head + tail, |head| + 1, close)) == Err(fault)
  {
    var lines, seg := head + tail, tail[..k];
    assert lines[|head|..|head| + |seg|] == seg;
    ClosedIsBlock(lines, |head|, seg);
    close := |head| + |seg| - 1;
  }

  /** Every command that is returned is loaded from a block of the document. */
  lemma ReturnedAreLoaded(
    decode: Decoder, path: string, lines: seq<string>, commands: seq<GuideCommand>, c: GuideCommand)
    requires Means(ReaderOf(decode), path, lines, Ok(commands)) && c in commands
    ensures c.sourcePath == path && Loaded(decode, lines, c)
  {
    var close := ReturnedBlock(ReaderOf(decode), path, lines, commands, c);
    ReadOk(decode, TextBetween(lines, c.line, close), c.body);
    assert LoadedFrom(decode, lines, c, close);
  }

  /** A block that is refused is refused for what is wrong with it. */
  lemma RefusalIsRight(decode: Decoder, path: string, lines: seq<string>, line: nat, fault: Fault)
    requires Means(ReaderOf(decode), path, lines, Err(BadCommand(line, fault)))
    ensures Refused(decode, lines, line, fault)
  {
    var close := RefusedBlock(ReaderOf(decode), path, lines, line, fault);
    ReadErr(decode, TextBetween(lines, line, close), fault);
  }

  // ------------------------------------------------------------------
  // The whole
  // ------------------------------------------------------------------

  /**
    The outcome is what the document means. On success every command comes from a block of
    the document, decodes and may be loaded; a refused block is refused for the first
    thing that is wrong with it.
  */
  method ExtractCommandBlocks(path: string, content: string, decode: Decoder) returns (r: Outcome)
    ensures Means(ReaderOf(decode), path, Split(content, '\n'), r)
    ensures r.Ok? ==> forall c | c in r.value :: c.sourcePath == path && Loaded(decode, Split(content, '\n'), c)
    ensures r.Err? && r.error.BadCommand? ==> Refused(decode, Split(content, '\n'), r.error.line, r.error.fault)
  {
    var lines := Split(content, '\n');
    r := ScanLines(path, lines, ReaderOf(decode));
    if r.Ok? {
      forall c | c in r.value
        ensures c.sourcePath == path && Loaded(decode, lines, c)
      {
        ReturnedAreLoaded(decode, path, lines, r.value, c);
      }
    } else if r.error.BadCommand? {
      RefusalIsRight(decode, path, lines, r.error.line, r.error.fault);
    }
  }

  /** Printing loadable commands with an encoder the decoder inverts, and scanning, gives them back. */
  lemma EncodesLoadable(encode: Encoder, decode: Decoder, body: CommandBody)
    requires Loadable(body) && decode(BodyText(encode(body))) == Some(body)
    requires forall l | l in encode(body) :: TrimSpace(l) != "```" && '\n' !in l
    ensures Encodes(encode, ReaderOf(decode), body)
  {
    ReadOk(decode, BodyText(encode(body)), body);
  }
}
