/** When an exemption's route and reason are acceptable: `guideomission.go`'s mechanical rules. */
module ExemptionRules {
  import opened Text
  import opened GuideCommands

  // ------------------------------------------------------------------
  // Routes
  // ------------------------------------------------------------------

  datatype RouteProblem = MalformedRoute | WildcardRoute

  /** `isWellFormedExemptionRoute`. */
  predicate IsWellFormedExemptionRoute(route: string) {
    route != "" && LooksLikeRoute(route)
  }

  /** `exemptionRouteIsWildcard`. */
  predicate IsWildcardRoute(route: string) {
    Contains(route, "*") || Contains(route, "...")
  }

  /** A well-formed route is one that reads METHOD /path, and the empty one does not. */
  lemma WellFormedIff(route: string)
    ensures IsWellFormedExemptionRoute(route) <==> LooksLikeRoute(route)
  {
    assert Fields("") == [];
  }

  /** A wildcard is a star or three dots, anywhere. */
  lemma WildcardIff(route: string)
    ensures IsWildcardRoute(route) <==> Holds(route, "*") || Holds(route, "...")
  {
    ContainsIff(route, "*");
    ContainsIff(route, "...");
  }

  // ------------------------------------------------------------------
  // Reasons
  // ------------------------------------------------------------------

  const MIN_REASON_LENGTH: nat := 30

  /** `vacuousExemptionReasons`, word by word. */
  const STOCK_PHRASES: seq<seq<string>> := [
    ["internal"], ["internal", "only"], ["internal", "use"], ["internal", "use", "only"],
    ["not", "user-facing"], ["not", "user", "facing"], ["not", "for", "users"],
    ["n/a"], ["na"], ["not", "applicable"], ["admin", "only"], ["machine", "only"], ["machine", "to", "machine"],
    ["system", "only"], ["backend", "only"], ["todo"], ["tbd"], ["misc"], ["other"], ["see", "code"],
    ["self-explanatory"], ["not", "applicable", "here"]]

  const STOCK_REASONS: set<string> := set ws | ws in STOCK_PHRASES && |ws| >= 1 :: Join(ws, ' ')

  /** What a clause is split on. */
  const SEPARATORS: set<char> := {',', ';', ':', '.', '!', '?', '(', ')', '-'}

  predicate IsSeparator(c: char) {
    c in SEPARATORS
  }

  predicate NoSeparator(s: string) {
    forall i | 0 <= i < |s| :: !IsSeparator(s[i])
  }

  predicate AllSeparators(s: string) {
    forall i | 0 <= i < |s| :: IsSeparator(s[i])
  }

  /**
    `strings.ToLower`, as far as a comparison with an ASCII phrase can tell: the
    ASCII letters, and the two other characters whose lower case is ASCII.
  */
  function Lower(c: char): char {
    if 'A' <= c <= 'Z' then c + 32 as char
    else if c == '\U{130}' then 'i'
    else if c == '\U{212A}' then 'k'
    else c
  }

  function ToLower(s: string): string {
    seq(|s|, i requires 0 <= i < |s| => Lower(s[i]))
  }

  /** `strings.TrimRight` with the cutset ".!?". */
  function TrimStops(s: string): string {
    if s != "" && s[|s| - 1] in {'.', '!', '?'} then TrimStops(s[..|s| - 1]) else s
  }

  /** `normalizeReasonForCheck`. */
  function Normalize(reason: string): string {
    var words := Fields(TrimSpace(TrimStops(ToLower(TrimSpace(reason)))));
    if words == [] then "" else Join(words, ' ')
  }

  /** The number of separators a string begins with. */
  function SeparatorRun(s: string): (n: nat)
    ensures n <= |s|
  {
    if s == "" || !IsSeparator(s[0]) then 0 else 1 + SeparatorRun(s[1..])
  }

  /** The length of the clause a string begins with. */
  function ClauseLength(s: string): (n: nat)
    ensures n <= |s|
  {
    if s == "" || IsSeparator(s[0]) then 0 else 1 + ClauseLength(s[1..])
  }

  /** `clauseSplitRE.Split(s, -1)`: cut at every maximal run of separators. */
  function Clauses(s: string): seq<string>
    decreases |s|
  {
    var n := ClauseLength(s);
    if n == |s| then [s] else
      var rest := s[n..];
      [s[..n]] + Clauses(rest[SeparatorRun(rest)..])
  }

  /** What a clause is worth once normalised. */
  datatype Weight = Blank | Stock | Substance

  function Weigh(clause: string): Weight {
    var norm := Normalize(clause);
    if norm == "" then Blank else if norm in STOCK_REASONS then Stock else Substance
  }

  /** Every clause that says anything is a stock phrase, and at least one says something. */
  predicate AllStock(weigh: string -> Weight, clauses: seq<string>) {
    && (forall i | 0 <= i < |clauses| :: weigh(clauses[i]) != Substance)
    && (exists i | 0 <= i < |clauses| :: weigh(clauses[i]) != Blank)
  }

  method ReasonClausesAllVacuous(reason: string, weigh: string -> Weight) returns (vacuous: bool)
    ensures vacuous == AllStock(weigh, Clauses(reason))
  {
    var clauses := Clauses(reason);
    var sawClause := false;
    for i := 0 to |clauses|
      invariant forall j | 0 <= j < i :: weigh(clauses[j]) != Substance
      invariant sawClause <==> exists j | 0 <= j < i :: weigh(clauses[j]) != Blank
    {
      var weight := weigh(clauses[i]);
      if weight == Blank {
        continue;
      }
      sawClause := true;
      if weight != Stock {
        return false;
      }
    }
    return sawClause;
  }

  /** The length in UTF-8 bytes, which is what `len` counts. */
  function ByteLength(s: string): nat {
    if s == "" then 0 else
      var c := s[|s| - 1];
      ByteLength(s[..|s| - 1])
      + if c < '\U{80}' then 1 else if c < '\U{800}' then 2 else if c < '\U{10000}' then 3 else 4
  }

  datatype ReasonProblem = EmptyReason | VacuousReason | ReasonTooShort

  /** The first thing wrong with a trimmed reason. */
  function CheckReason(reason: string): Option<ReasonProblem> {
    if reason == "" then Some(EmptyReason)
    else if Weigh(reason) == Stock || AllStock(Weigh, Clauses(reason)) then Some(VacuousReason)
    else if ByteLength(reason) < MIN_REASON_LENGTH then Some(ReasonTooShort)
    else None
  }

  /** The reason half of an exemption's check, with the clause scan as the code runs it. */
  method JudgeReason(reason: string) returns (problem: Option<ReasonProblem>)
    ensures problem == CheckReason(reason)
  {
    if reason == "" {
      return Some(EmptyReason);
    }
    var allStock := ReasonClausesAllVacuous(reason, Weigh);
    if Weigh(reason) == Stock || allStock {
      return Some(VacuousReason);
    }
    return if ByteLength(reason) < MIN_REASON_LENGTH then Some(ReasonTooShort) else None;
  }

  // ------------------------------------------------------------------
  // Gluing stock phrases together does not help
  // ------------------------------------------------------------------

  /** Pieces with a run of separators between each two. */
  function Glue(pieces: seq<string>, joints: seq<string>): string
    requires |pieces| == |joints| + 1
  {
    if joints == [] then pieces[0] else pieces[0] + joints[0] + Glue(pieces[1..], joints[1..])
  }

  /** No piece holds a separator, joints hold nothing else and are not empty, and only the outer pieces may be empty. */
  predicate Glued(pieces: seq<string>, joints: seq<string>) {
    && |pieces| == |joints| + 1
    && (forall i | 0 <= i < |pieces| :: NoSeparator(pieces[i]))
    && (forall i | 0 <= i < |joints| :: joints[i] != "" && AllSeparators(joints[i]))
    && (forall i | 0 < i < |joints| :: pieces[i] != "")
  }

  lemma {:induction false} ClauseLengthIs(piece: string, rest: string)
    requires NoSeparator(piece) && (rest == "" || IsSeparator(rest[0]))
    ensures ClauseLength(piece + rest) == |piece|
  {
    if piece != "" {
      assert (piece + rest)[1..] == piece[1..] + rest;
      ClauseLengthIs(piece[1..], rest);
    } else {
      assert piece + rest == rest;
    }
  }

  lemma {:induction false} SeparatorRunIs(joint: string, rest: string)
    requires AllSeparators(joint) && (rest == "" || !IsSeparator(rest[0]))
    ensures SeparatorRun(joint + rest) == |joint|
  {
    if joint != "" {
      assert (joint + rest)[1..] == joint[1..] + rest;
      SeparatorRunIs(joint[1..], rest);
    } else {
      assert joint + rest == rest;
    }
  }

  lemma LastClause(piece: string)
    requires NoSeparator(piece)
    ensures Clauses(piece) == [piece]
  {
    ClauseLengthIs(piece, "");
    assert piece + "" == piece;
  }

  lemma NextClause(piece: string, joint: string, tail: string)
    requires NoSeparator(piece) && joint != "" && AllSeparators(joint)
    requires tail == "" || !IsSeparator(tail[0])
    ensures Clauses(piece + (joint + tail)) == [piece] + Clauses(tail)
  {
    var rest := joint + tail;
    var s := piece + rest;
    assert rest[0] == joint[0];
    ClauseLengthIs(piece, rest);
    assert s[|piece|..] == rest && s[..|piece|] == piece;
    SeparatorRunIs(joint, tail);
    assert rest[|joint|..] == tail;
  }

  /** A glued text whose first piece is not empty, or which is that piece alone, does not begin with a separator. */
  lemma TailBegins(pieces: seq<string>, joints: seq<string>)
    requires |pieces| == |joints| + 1 && NoSeparator(pieces[0]) && (joints != [] ==> pieces[0] != "")
    ensures var g := Glue(pieces, joints); g == "" || !IsSeparator(g[0])
  {
    if joints != [] {
      assert Glue(pieces, joints)[0] == pieces[0][0];
    }
  }

  lemma GluedTail(pieces: seq<string>, joints: seq<string>)
    requires Glued(pieces, joints) && joints != []
    ensures Glued(pieces[1..], joints[1..])
    ensures joints[1..] != [] ==> pieces[1] != ""
  {
  }

  /** Splitting undoes gluing. */
  lemma {:induction false} ClausesOfGlue(pieces: seq<string>, joints: seq<string>)
    requires Glued(pieces, joints)
    ensures Clauses(Glue(pieces, joints)) == pieces
    decreases |joints|
  {
    if joints == [] {
      LastClause(pieces[0]);
    } else {
      var tail := Glue(pieces[1..], joints[1..]);
      GluedTail(pieces, joints);
      TailBegins(pieces[1..], joints[1..]);
      NextClause(pieces[0], joints[0], tail);
      assert pieces[0] + joints[0] + tail == pieces[0] + (joints[0] + tail);
      ClausesOfGlue(pieces[1..], joints[1..]);
      assert pieces == [pieces[0]] + pieces[1..];
    }
  }

  lemma {:induction false} CutClause(s: string) returns (piece: string, rest: string)
    ensures s == piece + rest && NoSeparator(piece) && (rest == "" || IsSeparator(rest[0]))
  {
    if s == "" || IsSeparator(s[0]) {
      piece, rest := "", s;
    } else {
      piece, rest := CutClause(s[1..]);
      piece := [s[0]] + piece;
    }
  }

  lemma {:induction false} CutJoint(s: string) returns (joint: string, tail: string)
    ensures s == joint + tail && AllSeparators(joint) && (tail == "" || !IsSeparator(tail[0]))
    ensures s != "" && IsSeparator(s[0]) ==> joint != ""
  {
    if s == "" || !IsSeparator(s[0]) {
      joint, tail := "", s;
    } else {
      joint, tail := CutJoint(s[1..]);
      joint := [s[0]] + joint;
    }
  }

  lemma PrependGlued(piece: string, joint: string, pieces: seq<string>, joints: seq<string>)
    requires Glued(pieces, joints) && NoSeparator(piece) && joint != "" && AllSeparators(joint)
    requires joints != [] ==> pieces[0] != ""
    ensures Glued([piece] + pieces, [joint] + joints)
    ensures Glue([piece] + pieces, [joint] + joints) == piece + (joint + Glue(pieces, joints))
  {
    assert ([piece] + pieces)[1..] == pieces && ([joint] + joints)[1..] == joints;
  }

  /** Every text is the gluing of its clauses. */
  lemma {:induction false} GlueOfClauses(s: string) returns (joints: seq<string>)
    ensures Glued(Clauses(s), joints) && Glue(Clauses(s), joints) == s
    ensures s == "" || !IsSeparator(s[0]) ==> joints == [] || Clauses(s)[0] != ""
    decreases |s|
  {
    var piece, rest := CutClause(s);
    if rest == "" {
      assert piece + rest == piece;
      LastClause(piece);
      joints := [];
    } else {
      var joint, tail := CutJoint(rest);
      joints := GlueOfClauses(tail);
      NextClause(piece, joint, tail);
      PrependGlued(piece, joint, Clauses(tail), joints);
      joints := [joint] + joints;
    }
  }

  /**
    A reason is caught by the clause check exactly when it is stock phrases and blanks
    glued together with separators, at any length.
  */
  lemma ClauseCheckIff(reason: string, weigh: string -> Weight)
    ensures AllStock(weigh, Clauses(reason)) <==>
            exists pieces, joints :: Glued(pieces, joints) && Glue(pieces, joints) == reason && AllStock(weigh, pieces)
  {
    if AllStock(weigh, Clauses(reason)) {
      var joints := GlueOfClauses(reason);
    }
    if pieces, joints :| Glued(pieces, joints) && Glue(pieces, joints) == reason && AllStock(weigh, pieces) {
      ClausesOfGlue(pieces, joints);
    }
  }
}
