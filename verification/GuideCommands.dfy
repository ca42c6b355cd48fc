/** A documented command of a per-surface guide, and the checks its block must pass to be loaded. */
module GuideCommands {
  import opened Text

  const VALID_METHODS: set<string> := {"GET", "POST", "PUT", "PATCH", "DELETE"}

  datatype ClassifierRef = ClassifierRef(surface: string, target: string, mode: string, source: string)

  /** What a block's JSON holds. */
  datatype CommandBody = CommandBody(name: string, route: string, classifier: Option<ClassifierRef>)

  /** A block found in a file, with the 1-based line of its opening fence. */
  datatype GuideCommand = GuideCommand(body: CommandBody, sourcePath: string, line: nat)

  datatype Problem = NameRequired | ExactlyOneBinding | BadRoute | SurfaceRequired

  /** "METHOD /path", as both a command's route and an exemption's route must read. */
  predicate LooksLikeRoute(route: string) {
    var parts := Fields(route);
    |parts| == 2 && parts[0] in VALID_METHODS && "/" <= parts[1]
  }

  /** `Validate`: the first structural problem, if any. */
  function Validate(c: CommandBody): (problem: Option<Problem>)
    ensures problem.None? <==>
              && TrimSpace(c.name) != ""
              && (c.route != "" <==> c.classifier.None?)
              && (c.route != "" ==> LooksLikeRoute(c.route))
              && (c.classifier.Some? ==> TrimSpace(c.classifier.value.surface) != "")
  {
    if TrimSpace(c.name) == "" then Some(NameRequired)
    else if (c.route != "") == c.classifier.Some? then Some(ExactlyOneBinding)
    else if c.route != "" && !LooksLikeRoute(c.route) then Some(BadRoute)
    else if c.classifier.Some? && TrimSpace(c.classifier.value.surface) == "" then Some(SurfaceRequired)
    else None
  }

  /** The test a problem stands for fails. */
  predicate Fails(p: Problem, c: CommandBody) {
    match p
    case NameRequired => TrimSpace(c.name) == ""
    case ExactlyOneBinding => (c.route != "" && c.classifier.Some?) || (c.route == "" && c.classifier.None?)
    case BadRoute => c.route != "" && !LooksLikeRoute(c.route)
    case SurfaceRequired => c.classifier.Some? && TrimSpace(c.classifier.value.surface) == ""
  }

  /** The order of the tests. */
  function Rank(p: Problem): nat {
    match p
    case NameRequired => 0
    case ExactlyOneBinding => 1
    case BadRoute => 2
    case SurfaceRequired => 3
  }

  /** The test fails, and none before it does. */
  predicate FirstFailing(p: Problem, c: CommandBody) {
    Fails(p, c) && forall q: Problem | Rank(q) < Rank(p) :: !Fails(q, c)
  }

  /** A command that may be loaded: it has a name, exactly one binding, and the binding is well formed. */
  predicate Loadable(c: CommandBody) {
    && TrimSpace(c.name) != ""
    && ((c.route != "" && c.classifier.None?) || (c.route == "" && c.classifier.Some?))
    && (c.route != "" ==> LooksLikeRoute(c.route))
    && (c.classifier.Some? ==> TrimSpace(c.classifier.value.surface) != "")
  }

  /** `Validate` lets exactly the loadable commands through, and names the first test that fails. */
  lemma ValidateIs(c: CommandBody, p: Problem)
    ensures Validate(c).None? <==> Loadable(c)
    ensures Validate(c) == Some(p) <==> FirstFailing(p, c)
  {
    assert Rank(NameRequired) == 0 && Rank(ExactlyOneBinding) == 1 && Rank(BadRoute) == 2 && Rank(SurfaceRequired) == 3;
    if FirstFailing(p, c) {
      assert Fails(p, c);
    }
  }

  lemma OneSpaceIsSpace()
    ensures AllSpace(" ")
  {
    SomeSpaces();
  }

  /** A method and a path make a route exactly when the method is one of the five and the path begins with "/". */
  lemma RouteShape(verb: string, path: string)
    requires Solid(verb) && Solid(path)
    ensures LooksLikeRoute(verb + (" " + path)) <==>
            verb in ["GET", "POST", "PUT", "PATCH", "DELETE"] && path[0] == '/'
  {
    OneSpaceIsSpace();
    FieldsOfMore(verb, " ", path);
    FieldsOfOne(path);
    assert Fields(verb + (" " + path)) == [verb, path];
    assert "/" <= path <==> path[0] == '/';
  }

  /** One word, or three and more, make none. */
  lemma NotARoute(a: string, b: string, c: string, rest: string)
    requires Solid(a) && Solid(b) && Solid(c)
    ensures !LooksLikeRoute(a) && !LooksLikeRoute(a + (" " + (b + (" " + (c + (" " + rest))))))
  {
    OneSpaceIsSpace();
    FieldsOfOne(a);
    FieldsOfMore(a, " ", b + (" " + (c + (" " + rest))));
    FieldsOfMore(b, " ", c + (" " + rest));
    FieldsOfMore(c, " ", rest);
  }
}
