/**
  `CheckGuideDrift`: every documented command binds to something real, and every
  real route is documented or exempted for a reason, never both.
*/
module GuideDrift {
  import opened Text
  import opened Sorting
  import opened GuideCommands
  import opened ExemptionRules

  datatype SurfaceGuide = SurfaceGuide(surface: string, title: string, commands: seq<GuideCommand>, sourcePath: string)

  datatype Vocabulary = Vocabulary(
    surfaces: set<string>, targets: set<string>, modes: set<string>, sources: set<string>)

  datatype Exemption = Exemption(route: string, reason: string)

  datatype Registered = Registered(file: string, line: nat)

  type RouteTable = map<string, Registered>

  datatype Kind =
    | GuideSurface
    | UnknownRoute
    | ClassifierSurface
    | ClassifierTarget
    | ClassifierMode
    | ClassifierSource
    | DuplicateExemption
    | BadExemptionRoute(route: RouteProblem)
    | BadExemptionReason(reason: ReasonProblem)
    | StaleExemption
    | ContradictedExemption
    | Undocumented

  datatype Drift = Drift(kind: Kind, source: string, command: string)

  const REGISTER := "internal/ops/guideomission.go (RouteGuideExemptions)"

  /** The rules an exemption is held to. */
  datatype Rules = Rules(
    trim: string -> string,
    wellFormed: string -> bool,
    wildcard: string -> bool,
    reason: string -> Option<ReasonProblem>)

  const RULES := Rules(
    s => TrimSpace(s),
    s => IsWellFormedExemptionRoute(s),
    s => IsWildcardRoute(s),
    s => CheckReason(s))

  function RouteProblemOf(rules: Rules, route: string): Option<RouteProblem> {
    if !rules.wellFormed(route) then Some(MalformedRoute)
    else if rules.wildcard(route) then Some(WildcardRoute)
    else None
  }

  // ------------------------------------------------------------------
  // Reports, one source at a time
  // ------------------------------------------------------------------

  function When(condition: bool, kind: Kind, source: string, command: string): seq<Drift> {
    if condition then [Drift(kind, source, command)] else []
  }

  function ClassifierDrift(path: string, name: string, cl: ClassifierRef, vocab: Vocabulary): seq<Drift> {
    When(cl.surface !in vocab.surfaces, ClassifierSurface, path, name)
    + When(cl.target != "" && cl.target !in vocab.targets, ClassifierTarget, path, name)
    + When(cl.mode != "" && cl.mode !in vocab.modes, ClassifierMode, path, name)
    + When(cl.source != "" && cl.source !in vocab.sources, ClassifierSource, path, name)
  }

  function CommandDrift(path: string, c: CommandBody, routes: RouteTable, vocab: Vocabulary): seq<Drift> {
    When(c.route != "" && c.route !in routes, UnknownRoute, path, c.name)
    + if c.classifier.Some? then ClassifierDrift(path, c.name, c.classifier.value, vocab) else []
  }

  function CommandsDrift(path: string, cs: seq<GuideCommand>, routes: RouteTable, vocab: Vocabulary): seq<Drift> {
    if cs == [] then [] else
      CommandsDrift(path, cs[..|cs| - 1], routes, vocab) + CommandDrift(path, cs[|cs| - 1].body, routes, vocab)
  }

  function GuideDriftOf(g: SurfaceGuide, routes: RouteTable, vocab: Vocabulary): seq<Drift> {
    When(g.surface !in vocab.surfaces, GuideSurface, g.sourcePath, g.title)
    + CommandsDrift(g.sourcePath, g.commands, routes, vocab)
  }

  function GuidesDrift(guides: seq<SurfaceGuide>, routes: RouteTable, vocab: Vocabulary): seq<Drift> {
    if guides == [] then [] else
      GuidesDrift(guides[..|guides| - 1], routes, vocab) + GuideDriftOf(guides[|guides| - 1], routes, vocab)
  }

  function DocumentedBy(cs: seq<GuideCommand>): set<string> {
    if cs == [] then {} else
      var route := cs[|cs| - 1].body.route;
      DocumentedBy(cs[..|cs| - 1]) + if route != "" then {route} else {}
  }

  /** The routes some guide documents. */
  function Documented(guides: seq<SurfaceGuide>): set<string> {
    if guides == [] then {} else Documented(guides[..|guides| - 1]) + DocumentedBy(guides[|guides| - 1].commands)
  }

  /** The non-empty routes an exemption list names. */
  function Named(rules: Rules, exs: seq<Exemption>): set<string> {
    if exs == [] then {} else
      var route := rules.trim(exs[|exs| - 1].route);
      Named(rules, exs[..|exs| - 1]) + if route != "" then {route} else {}
  }

  /** An entry whose route and reason pass the rules. */
  predicate Acceptable(rules: Rules, ex: Exemption) {
    RouteProblemOf(rules, rules.trim(ex.route)).None? && rules.reason(rules.trim(ex.reason)).None?
  }

  /** An entry that names a real route for an acceptable reason. */
  predicate Effective(rules: Rules, ex: Exemption, routes: RouteTable) {
    Acceptable(rules, ex) && rules.trim(ex.route) in routes
  }

  /** What is wrong with an entry by itself, `seen` being the routes named before it. */
  function EntryDrift(rules: Rules, route: string, reason: string, seen: set<string>): seq<Drift> {
    var badRoute, badReason := RouteProblemOf(rules, route), rules.reason(reason);
    When(route != "" && route in seen, DuplicateExemption, REGISTER, route)
    + (if badRoute.Some? then [Drift(BadExemptionRoute(badRoute.value), REGISTER, route)] else [])
    + (if badReason.Some? then [Drift(BadExemptionReason(badReason.value), REGISTER, route)] else [])
  }

  /** What is wrong with it besides, once its route can be looked up. */
  function LookupDrift(route: string, documented: set<string>, routes: RouteTable): seq<Drift> {
    When(route !in routes, StaleExemption, REGISTER, route)
    + When(route in documented, ContradictedExemption, REGISTER, route)
  }

  function ExemptionDrift(rules: Rules, ex: Exemption, seen: set<string>, documented: set<string>, routes: RouteTable)
    : seq<Drift>
  {
    var route, reason := rules.trim(ex.route), rules.trim(ex.reason);
    EntryDrift(rules, route, reason, seen)
    + if RouteProblemOf(rules, route).None? then LookupDrift(route, documented, routes) else []
  }

  function ExemptionsDrift(rules: Rules, exs: seq<Exemption>, documented: set<string>, routes: RouteTable): seq<Drift> {
    if exs == [] then [] else
      var before := exs[..|exs| - 1];
      ExemptionsDrift(rules, before, documented, routes)
      + ExemptionDrift(rules, exs[|exs| - 1], Named(rules, before), documented, routes)
  }

  /** The routes that count as exempted: those of the effective entries. */
  function Exempted(rules: Rules, exs: seq<Exemption>, routes: RouteTable): set<string> {
    if exs == [] then {} else
      var ex := exs[|exs| - 1];
      Exempted(rules, exs[..|exs| - 1], routes)
      + if Effective(rules, ex, routes) then {rules.trim(ex.route)} else {}
  }

  function UndocumentedDrift(keys: seq<string>, covered: set<string>, routes: RouteTable): seq<Drift>
    requires forall k | k in keys :: k in routes
  {
    if keys == [] then [] else
      var k := keys[|keys| - 1];
      UndocumentedDrift(keys[..|keys| - 1], covered, routes) + When(k !in covered, Undocumented, routes[k].file, k)
  }

  // ------------------------------------------------------------------
  // The check
  // ------------------------------------------------------------------

  /** Appending a report when there is something to report. */
  method Report(
    errs: seq<Drift>, condition: bool, kind: Kind, source: string, command: string) returns (longer: seq<Drift>)
    ensures longer == errs + When(condition, kind, source, command)
  {
    longer := errs;
    if condition {
      longer := longer + [Drift(kind, source, command)];
    }
  }

  method CheckGuides(guides: seq<SurfaceGuide>, routes: RouteTable, vocab: Vocabulary)
    returns (errs: seq<Drift>, documented: set<string>)
    ensures errs == GuidesDrift(guides, routes, vocab) && documented == Documented(guides)
  {
    errs, documented := [], {};
    for i := 0 to |guides|
      invariant errs == GuidesDrift(guides[..i], routes, vocab)
      invariant documented == Documented(guides[..i])
    {
      assert guides[..i + 1][..i] == guides[..i];
      var more, ofGuide := CheckGuide(guides[i], routes, vocab);
      errs, documented := errs + more, documented + ofGuide;
    }
    assert guides[..|guides|] == guides;
  }

  method CheckGuide(g: SurfaceGuide, routes: RouteTable, vocab: Vocabulary)
    returns (errs: seq<Drift>, documented: set<string>)
    ensures errs == GuideDriftOf(g, routes, vocab) && documented == DocumentedBy(g.commands)
  {
    errs := [];
    if g.surface !in vocab.surfaces {
      errs := [Drift(GuideSurface, g.sourcePath, g.title)];
    }
    var more;
    more, documented := CheckCommands(g, routes, vocab);
    errs := errs + more;
  }

  method CheckCommands(
    g: SurfaceGuide, routes: RouteTable, vocab: Vocabulary) returns (errs: seq<Drift>, documented: set<string>)
    ensures errs == CommandsDrift(g.sourcePath, g.commands, routes, vocab) && documented == DocumentedBy(g.commands)
  {
    errs, documented := [], {};
    for i := 0 to |g.commands|
      invariant errs == CommandsDrift(g.sourcePath, g.commands[..i], routes, vocab)
      invariant documented == DocumentedBy(g.commands[..i])
    {
      var c := g.commands[i].body;
      assert g.commands[..i + 1][..i] == g.commands[..i];
      if c.route != "" {
        documented := documented + {c.route};
      }
      var more := CheckCommand(g.sourcePath, c, routes, vocab);
      errs := errs + more;
    }
    assert g.commands[..|g.commands|] == g.commands;
  }

  method CheckCommand(path: string, c: CommandBody, routes: RouteTable, vocab: Vocabulary) returns (errs: seq<Drift>)
    ensures errs == CommandDrift(path, c, routes, vocab)
  {
    errs := [];
    if c.route != "" && c.route !in routes {
      errs := [Drift(UnknownRoute, path, c.name)];
    }
    if c.classifier.Some? {
      var more := CheckClassifier(path, c.name, c.classifier.value, vocab);
      errs := errs + more;
    }
  }

  method CheckClassifier(path: string, name: string, cl: ClassifierRef, vocab: Vocabulary) returns (errs: seq<Drift>)
    ensures errs == ClassifierDrift(path, name, cl, vocab)
  {
    errs := [];
    if cl.surface !in vocab.surfaces {
      errs := [Drift(ClassifierSurface, path, name)];
    }
    errs := Report(errs, cl.target != "" && cl.target !in vocab.targets, ClassifierTarget, path, name);
    errs := Report(errs, cl.mode != "" && cl.mode !in vocab.modes, ClassifierMode, path, name);
    errs := Report(errs, cl.source != "" && cl.source !in vocab.sources, ClassifierSource, path, name);
  }

  /** A wildcard is reported and then treated like a malformed route; the reason is judged either way. */
  method CheckEntry(rules: Rules, route: string, reason: string, seen: set<string>)
    returns (errs: seq<Drift>, wellFormed: bool, reasonValid: bool)
    ensures errs == EntryDrift(rules, route, reason, seen)
    ensures wellFormed <==> RouteProblemOf(rules, route).None?
    ensures reasonValid <==> rules.reason(reason).None?
  {
    errs := [];
    if route != "" && route in seen {
      errs := [Drift(DuplicateExemption, REGISTER, route)];
    }
    wellFormed := rules.wellFormed(route);
    if !wellFormed {
      errs := errs + [Drift(BadExemptionRoute(MalformedRoute), REGISTER, route)];
    } else if rules.wildcard(route) {
      errs := errs + [Drift(BadExemptionRoute(WildcardRoute), REGISTER, route)];
      wellFormed := false;
    }
    reasonValid := true;
    var problem := rules.reason(reason);
    if problem.Some? {
      reasonValid := false;
      errs := errs + [Drift(BadExemptionReason(problem.value), REGISTER, route)];
    }
  }

  /** One entry of the register: only a route that can be looked up gets as far as exempting anything. */
  method CheckExemption(rules: Rules, ex: Exemption, seen: set<string>, documented: set<string>, routes: RouteTable)
    returns (errs: seq<Drift>, exempts: bool)
    ensures errs == ExemptionDrift(rules, ex, seen, documented, routes)
    ensures exempts <==> Effective(rules, ex, routes)
  {
    var route, reason := rules.trim(ex.route), rules.trim(ex.reason);
    var wellFormed, reasonValid;
    errs, wellFormed, reasonValid := CheckEntry(rules, route, reason, seen);
    exempts := false;
    if !wellFormed {
      return;
    }
    if route !in routes {
      errs := errs + [Drift(StaleExemption, REGISTER, route)];
    } else if reasonValid {
      exempts := true;
    }
    errs := Report(errs, route in documented, ContradictedExemption, REGISTER, route);
  }

  method CheckExemptions(rules: Rules, exs: seq<Exemption>, documented: set<string>, routes: RouteTable)
    returns (errs: seq<Drift>, exempted: set<string>)
    ensures errs == ExemptionsDrift(rules, exs, documented, routes)
    ensures exempted == Exempted(rules, exs, routes)
  {
    errs, exempted := [], {};
    var seen: set<string> := {};
    for i := 0 to |exs|
      invariant errs == ExemptionsDrift(rules, exs[..i], documented, routes)
      invariant exempted == Exempted(rules, exs[..i], routes)
      invariant seen == Named(rules, exs[..i])
    {
      assert exs[..i + 1][..i] == exs[..i];
      var more, exempts := CheckExemption(rules, exs[i], seen, documented, routes);
      errs := errs + more;
      var route := rules.trim(exs[i].route);
      if route != "" {
        seen := seen + {route};
      }
      if exempts {
        exempted := exempted + {route};
      }
    }
    assert exs[..|exs|] == exs;
  }

  method CheckCompleteness(keys: seq<string>, covered: set<string>, routes: RouteTable) returns (errs: seq<Drift>)
    requires forall k | k in keys :: k in routes
    ensures errs == UndocumentedDrift(keys, covered, routes)
  {
    errs := [];
    for i := 0 to |keys|
      invariant errs == UndocumentedDrift(keys[..i], covered, routes)
    {
      assert keys[..i + 1][..i] == keys[..i];
      assert keys[i] in keys;
      if keys[i] !in covered {
        errs := errs + [Drift(Undocumented, routes[keys[i]].file, keys[i])];
      }
    }
    assert keys[..|keys|] == keys;
  }

  /** Everything `CheckGuideDrift` reports, given the order in which the route map is read. */
  function AllDrift(
    rules: Rules, guides: seq<SurfaceGuide>, routes: RouteTable, vocab: Vocabulary, exs: seq<Exemption>,
    keys: seq<string>): seq<Drift>
    requires forall k | k in keys :: k in routes
  {
    GuidesDrift(guides, routes, vocab)
    + ExemptionsDrift(rules, exs, Documented(guides), routes)
    + UndocumentedDrift(keys, Documented(guides) + Exempted(rules, exs, routes), routes)
  }

  /** `order` is the order in which the route map happens to be read; the keys are sorted before use. */
  method CheckGuideDrift(
    guides: seq<SurfaceGuide>, routes: RouteTable, vocab: Vocabulary, exs: seq<Exemption>, order: seq<string>)
    returns (errs: seq<Drift>)
    requires multiset(order) == multiset(routes.Keys)
    ensures forall k | k in SortStrings(order) :: k in routes
    ensures errs == AllDrift(RULES, guides, routes, vocab, exs, SortStrings(order))
  {
    var documented, exempted, more;
    errs, documented := CheckGuides(guides, routes, vocab);
    more, exempted := CheckExemptions(RULES, exs, documented, routes);
    errs := errs + more;
    SortStringsSorts(order);
    var keys := SortStrings(order);
    forall k | k in keys
      ensures k in routes
    {
      assert k in multiset(keys);
    }
    more := CheckCompleteness(keys, documented + exempted, routes);
    errs := errs + more;
  }
}
