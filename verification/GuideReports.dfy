/** Which report the drift check makes when: one law for each kind, on the list of all reports. */
module GuideReports {
  import opened Text
  import opened GuideCommands
  import opened ExemptionRules
  import opened GuideDrift
  import opened GuideDriftLaws

  // ------------------------------------------------------------------
  // Where a report can come from
  // ------------------------------------------------------------------

  predicate OfGuide(k: Kind) {
    || k == GuideSurface || k == UnknownRoute || k == ClassifierSurface
    || k == ClassifierTarget || k == ClassifierMode || k == ClassifierSource
  }

  predicate OfRegister(k: Kind) {
    || k == DuplicateExemption || k.BadExemptionRoute? || k.BadExemptionReason?
    || k == StaleExemption || k == ContradictedExemption
  }

  predicate AllOfGuide(ds: seq<Drift>) {
    forall i | 0 <= i < |ds| :: OfGuide(ds[i].kind)
  }

  predicate AllOfRegister(ds: seq<Drift>) {
    forall i | 0 <= i < |ds| :: OfRegister(ds[i].kind)
  }

  lemma ClassifierKinds(path: string, name: string, cl: ClassifierRef, vocab: Vocabulary)
    ensures AllOfGuide(ClassifierDrift(path, name, cl, vocab))
  {
  }

  lemma CommandKinds(path: string, c: CommandBody, routes: RouteTable, vocab: Vocabulary)
    ensures AllOfGuide(CommandDrift(path, c, routes, vocab))
  {
    if c.classifier.Some? {
      ClassifierKinds(path, c.name, c.classifier.value, vocab);
    }
  }

  lemma AllOfGuideConcat(a: seq<Drift>, b: seq<Drift>)
    requires AllOfGuide(a) && AllOfGuide(b)
    ensures AllOfGuide(a + b)
  {
  }

  lemma {:induction false} CommandsKinds(path: string, cs: seq<GuideCommand>, routes: RouteTable, vocab: Vocabulary)
    ensures AllOfGuide(CommandsDrift(path, cs, routes, vocab))
  {
    if cs != [] {
      var before, c := cs[..|cs| - 1], cs[|cs| - 1].body;
      CommandsKinds(path, before, routes, vocab);
      CommandKinds(path, c, routes, vocab);
      AllOfGuideConcat(CommandsDrift(path, before, routes, vocab), CommandDrift(path, c, routes, vocab));
    }
  }

  lemma {:induction false} GuidesKinds(guides: seq<SurfaceGuide>, routes: RouteTable, vocab: Vocabulary)
    ensures AllOfGuide(GuidesDrift(guides, routes, vocab))
  {
    if guides != [] {
      var before, g := guides[..|guides| - 1], guides[|guides| - 1];
      GuidesKinds(before, routes, vocab);
      CommandsKinds(g.sourcePath, g.commands, routes, vocab);
      AllOfGuideConcat(
        When(g.surface !in vocab.surfaces, GuideSurface, g.sourcePath, g.title),
        CommandsDrift(g.sourcePath, g.commands, routes, vocab));
      AllOfGuideConcat(GuidesDrift(before, routes, vocab), GuideDriftOf(g, routes, vocab));
    }
  }

  lemma EntryKinds(rules: Rules, ex: Exemption, seen: set<string>, documented: set<string>, routes: RouteTable)
    ensures AllOfRegister(ExemptionDrift(rules, ex, seen, documented, routes))
  {
    assert AllOfRegister(EntryDrift(rules, rules.trim(ex.route), rules.trim(ex.reason), seen));
    assert AllOfRegister(LookupDrift(rules.trim(ex.route), documented, routes));
  }

  lemma AllOfRegisterConcat(a: seq<Drift>, b: seq<Drift>)
    requires AllOfRegister(a) && AllOfRegister(b)
    ensures AllOfRegister(a + b)
  {
  }

  lemma {:induction false} RegisterKinds(rules: Rules, exs: seq<Exemption>, documented: set<string>, routes: RouteTable)
    ensures AllOfRegister(ExemptionsDrift(rules, exs, documented, routes))
  {
    if exs != [] {
      var before, ex := exs[..|exs| - 1], exs[|exs| - 1];
      RegisterKinds(rules, before, documented, routes);
      EntryKinds(rules, ex, Named(rules, before), documented, routes);
      AllOfRegisterConcat(
        ExemptionsDrift(rules, before, documented, routes),
        ExemptionDrift(rules, ex, Named(rules, before), documented, routes));
    }
  }

  lemma {:induction false} CompletenessKinds(keys: seq<string>, covered: set<string>, routes: RouteTable)
    requires forall k | k in keys :: k in routes
    ensures forall d | d in UndocumentedDrift(keys, covered, routes) :: d.kind == Undocumented
  {
    if keys != [] {
      CompletenessKinds(keys[..|keys| - 1], covered, routes);
    }
  }

  /** A report of the whole check is one of the part its kind belongs to. */
  lemma PartOf(
    rules: Rules, guides: seq<SurfaceGuide>, routes: RouteTable, vocab: Vocabulary,
    exs: seq<Exemption>, keys: seq<string>, d: Drift)
    requires forall k | k in keys :: k in routes
    ensures OfGuide(d.kind) ==>
            (d in AllDrift(rules, guides, routes, vocab, exs, keys) <==> d in GuidesDrift(guides, routes, vocab))
    ensures OfRegister(d.kind) ==>
            (d in AllDrift(rules, guides, routes, vocab, exs, keys) <==>
             d in ExemptionsDrift(rules, exs, Documented(guides), routes))
  {
    GuidesKinds(guides, routes, vocab);
    RegisterKinds(rules, exs, Documented(guides), routes);
    CompletenessKinds(keys, Documented(guides) + Exempted(rules, exs, routes), routes);
  }

  // ------------------------------------------------------------------
  // Guides
  // ------------------------------------------------------------------

  /** The command has that defect. */
  predicate CommandHas(k: Kind, c: CommandBody, routes: RouteTable, vocab: Vocabulary) {
    match k
    case UnknownRoute => c.route != "" && c.route !in routes
    case ClassifierSurface => c.classifier.Some? && c.classifier.value.surface !in vocab.surfaces
    case ClassifierTarget =>
      c.classifier.Some? && c.classifier.value.target != "" && c.classifier.value.target !in vocab.targets
    case ClassifierMode =>
      c.classifier.Some? && c.classifier.value.mode != "" && c.classifier.value.mode !in vocab.modes
    case ClassifierSource =>
      c.classifier.Some? && c.classifier.value.source != "" && c.classifier.value.source !in vocab.sources
    case _ => false
  }

  lemma ClassifierReports(path: string, name: string, cl: ClassifierRef, vocab: Vocabulary, d: Drift)
    ensures d in ClassifierDrift(path, name, cl, vocab) <==>
            && d.source == path && d.command == name && d.kind != UnknownRoute
            && CommandHas(d.kind, CommandBody(name, "", Some(cl)), map[], vocab)
  {
    var one := When(cl.surface !in vocab.surfaces, ClassifierSurface, path, name);
    var two := When(cl.target != "" && cl.target !in vocab.targets, ClassifierTarget, path, name);
    var three := When(cl.mode != "" && cl.mode !in vocab.modes, ClassifierMode, path, name);
    assert d in one + two + three <==> d in one || d in two || d in three;
  }

  /** A command is reported for each of its defects and for nothing else. */
  lemma CommandReports(path: string, c: CommandBody, routes: RouteTable, vocab: Vocabulary, d: Drift)
    ensures d in CommandDrift(path, c, routes, vocab) <==>
            d.source == path && d.command == c.name && CommandHas(d.kind, c, routes, vocab)
  {
    if c.classifier.Some? {
      ClassifierReports(path, c.name, c.classifier.value, vocab, d);
    }
  }

  lemma {:induction false} CommandsReport(
    path: string, cs: seq<GuideCommand>, routes: RouteTable, vocab: Vocabulary, d: Drift)
    ensures d in CommandsDrift(path, cs, routes, vocab) <==>
            exists c | c in cs :: d in CommandDrift(path, c.body, routes, vocab)
  {
    if cs != [] {
      CommandsReport(path, cs[..|cs| - 1], routes, vocab, d);
      assert cs == cs[..|cs| - 1] + [cs[|cs| - 1]];
    }
  }

  /** The guide itself, or a command of it, has that defect. */
  ghost predicate GuideHas(d: Drift, g: SurfaceGuide, routes: RouteTable, vocab: Vocabulary) {
    d.source == g.sourcePath
    && ((d.kind == GuideSurface && d.command == g.title && g.surface !in vocab.surfaces)
        || exists c | c in g.commands :: d.command == c.body.name && CommandHas(d.kind, c.body, routes, vocab))
  }

  lemma GuideReports(g: SurfaceGuide, routes: RouteTable, vocab: Vocabulary, d: Drift)
    ensures d in GuideDriftOf(g, routes, vocab) <==> GuideHas(d, g, routes, vocab)
  {
    CommandsReport(g.sourcePath, g.commands, routes, vocab, d);
    forall c | c in g.commands
      ensures d in CommandDrift(g.sourcePath, c.body, routes, vocab) <==>
              d.source == g.sourcePath && d.command == c.body.name && CommandHas(d.kind, c.body, routes, vocab)
    {
      CommandReports(g.sourcePath, c.body, routes, vocab, d);
    }
  }

  lemma {:induction false} GuidesReport(guides: seq<SurfaceGuide>, routes: RouteTable, vocab: Vocabulary, d: Drift)
    ensures d in GuidesDrift(guides, routes, vocab) <==> exists g | g in guides :: GuideHas(d, g, routes, vocab)
  {
    if guides != [] {
      GuidesReport(guides[..|guides| - 1], routes, vocab, d);
      GuideReports(guides[|guides| - 1], routes, vocab, d);
      assert guides == guides[..|guides| - 1] + [guides[|guides| - 1]];
    }
  }

  /** The check reports a guide's or a command's defect exactly when some guide has it. */
  lemma GuideDefectReportedIff(
    rules: Rules, guides: seq<SurfaceGuide>, routes: RouteTable, vocab: Vocabulary,
    exs: seq<Exemption>, keys: seq<string>, d: Drift)
    requires (forall k | k in keys :: k in routes) && OfGuide(d.kind)
    ensures d in AllDrift(rules, guides, routes, vocab, exs, keys) <==>
            exists g | g in guides :: GuideHas(d, g, routes, vocab)
  {
    PartOf(rules, guides, routes, vocab, exs, keys, d);
    GuidesReport(guides, routes, vocab, d);
  }

  lemma {:induction false} DocumentedByHas(cs: seq<GuideCommand>, route: string)
    ensures route in DocumentedBy(cs) <==> route != "" && exists c | c in cs :: c.body.route == route
  {
    if cs != [] {
      DocumentedByHas(cs[..|cs| - 1], route);
      assert cs == cs[..|cs| - 1] + [cs[|cs| - 1]];
    }
  }

  /** A route is documented exactly when some command of some guide names it. */
  lemma {:induction false} DocumentedHas(guides: seq<SurfaceGuide>, route: string)
    ensures route in Documented(guides) <==>
            route != "" && exists g | g in guides :: exists c | c in g.commands :: c.body.route == route
  {
    if guides != [] {
      DocumentedHas(guides[..|guides| - 1], route);
      DocumentedByHas(guides[|guides| - 1].commands, route);
      assert guides == guides[..|guides| - 1] + [guides[|guides| - 1]];
    }
  }

  // ------------------------------------------------------------------
  // The register
  // ------------------------------------------------------------------

  /** The entry has that defect, `earlier` being the entries before it. */
  ghost predicate EntryHas(
    k: Kind, rules: Rules, ex: Exemption, earlier: seq<Exemption>, documented: set<string>, routes: RouteTable)
  {
    var route, reason := RouteOf(rules, ex), rules.trim(ex.reason);
    match k
    case DuplicateExemption => route != "" && exists i | 0 <= i < |earlier| :: RouteOf(rules, earlier[i]) == route
    case BadExemptionRoute(MalformedRoute) => !rules.wellFormed(route)
    case BadExemptionRoute(WildcardRoute) => rules.wellFormed(route) && rules.wildcard(route)
    case BadExemptionReason(p) => rules.reason(reason) == Some(p)
    case StaleExemption => rules.wellFormed(route) && !rules.wildcard(route) && route !in routes
    case ContradictedExemption => rules.wellFormed(route) && !rules.wildcard(route) && route in documented
    case _ => false
  }

  lemma EntryDriftHas(rules: Rules, route: string, reason: string, seen: set<string>, d: Drift)
    ensures d in EntryDrift(rules, route, reason, seen) <==>
            && d.source == REGISTER && d.command == route
            && (|| (d.kind == DuplicateExemption && route != "" && route in seen)
                || (d.kind.BadExemptionRoute? && RouteProblemOf(rules, route) == Some(d.kind.route))
                || (d.kind.BadExemptionReason? && rules.reason(reason) == Some(d.kind.reason)))
  {
  }

  lemma LookupDriftHas(route: string, documented: set<string>, routes: RouteTable, d: Drift)
    ensures d in LookupDrift(route, documented, routes) <==>
            && d.source == REGISTER && d.command == route
            && (|| (d.kind == StaleExemption && route !in routes)
                || (d.kind == ContradictedExemption && route in documented))
  {
  }

  /** An entry is reported for each of its defects and for nothing else. */
  lemma EntryReports(
    rules: Rules, ex: Exemption, earlier: seq<Exemption>, documented: set<string>, routes: RouteTable, d: Drift)
    ensures d in ExemptionDrift(rules, ex, Named(rules, earlier), documented, routes) <==>
            && d.source == REGISTER && d.command == RouteOf(rules, ex)
            && EntryHas(d.kind, rules, ex, earlier, documented, routes)
  {
    var route := RouteOf(rules, ex);
    EntryDriftHas(rules, route, rules.trim(ex.reason), Named(rules, earlier), d);
    LookupDriftHas(route, documented, routes, d);
    NamedHas(rules, earlier, route);
  }

  /** Entry `i` of the register has that defect. */
  ghost predicate EntryAtHas(
    d: Drift, rules: Rules, exs: seq<Exemption>, i: nat, documented: set<string>, routes: RouteTable)
    requires i < |exs|
  {
    && d.source == REGISTER && d.command == RouteOf(rules, exs[i])
    && EntryHas(d.kind, rules, exs[i], exs[..i], documented, routes)
  }

  ghost predicate SomeEntryHas(
    d: Drift, rules: Rules, exs: seq<Exemption>, documented: set<string>, routes: RouteTable)
  {
    exists i: nat | i < |exs| :: EntryAtHas(d, rules, exs, i, documented, routes)
  }

  lemma SomeEntryAppend(
    d: Drift, rules: Rules, before: seq<Exemption>, ex: Exemption, documented: set<string>, routes: RouteTable)
    ensures SomeEntryHas(d, rules, before + [ex], documented, routes) <==>
            || SomeEntryHas(d, rules, before, documented, routes)
            || EntryAtHas(d, rules, before + [ex], |before|, documented, routes)
  {
    var exs := before + [ex];
    if i: nat :| i < |before| && EntryAtHas(d, rules, before, i, documented, routes) {
      assert before[..i] == exs[..i];
      assert EntryAtHas(d, rules, exs, i, documented, routes);
    }
    if i: nat :| i < |exs| && EntryAtHas(d, rules, exs, i, documented, routes) {
      if i < |before| {
        assert before[..i] == exs[..i];
        assert EntryAtHas(d, rules, before, i, documented, routes);
      }
    }
  }

  lemma {:induction false} RegisterReports(
    rules: Rules, exs: seq<Exemption>, documented: set<string>, routes: RouteTable, d: Drift)
    ensures d in ExemptionsDrift(rules, exs, documented, routes) <==> SomeEntryHas(d, rules, exs, documented, routes)
  {
    if exs != [] {
      var before, ex := exs[..|exs| - 1], exs[|exs| - 1];
      RegisterReports(rules, before, documented, routes, d);
      EntryReports(rules, ex, before, documented, routes, d);
      SomeEntryAppend(d, rules, before, ex, documented, routes);
      assert exs == before + [ex];
    }
  }

  /** The check reports a defect of the register exactly when some entry has it, with that entry's route. */
  lemma EntryDefectReportedIff(
    rules: Rules, guides: seq<SurfaceGuide>, routes: RouteTable, vocab: Vocabulary,
    exs: seq<Exemption>, keys: seq<string>, d: Drift)
    requires (forall k | k in keys :: k in routes) && OfRegister(d.kind)
    ensures d in AllDrift(rules, guides, routes, vocab, exs, keys) <==>
            SomeEntryHas(d, rules, exs, Documented(guides), routes)
  {
    PartOf(rules, guides, routes, vocab, exs, keys, d);
    RegisterReports(rules, exs, Documented(guides), routes, d);
  }

  // ------------------------------------------------------------------
  // In which order
  // ------------------------------------------------------------------

  /** Which part of the check a report belongs to. */
  function Part(k: Kind): nat {
    if OfGuide(k) then 0 else if OfRegister(k) then 1 else 2
  }

  predicate InParts(ds: seq<Drift>) {
    forall i, j | 0 <= i < j < |ds| :: Part(ds[i].kind) <= Part(ds[j].kind)
  }

  /** Guides first, then the register, then the undocumented routes. */
  lemma PartsInOrder(
    rules: Rules, guides: seq<SurfaceGuide>, routes: RouteTable, vocab: Vocabulary,
    exs: seq<Exemption>, keys: seq<string>)
    requires forall k | k in keys :: k in routes
    ensures InParts(AllDrift(rules, guides, routes, vocab, exs, keys))
  {
    var last := UndocumentedDrift(keys, Documented(guides) + Exempted(rules, exs, routes), routes);
    GuidesKinds(guides, routes, vocab);
    RegisterKinds(rules, exs, Documented(guides), routes);
    CompletenessKinds(keys, Documented(guides) + Exempted(rules, exs, routes), routes);
    ThreeParts(GuidesDrift(guides, routes, vocab), ExemptionsDrift(rules, exs, Documented(guides), routes), last);
  }

  lemma ThreeParts(a: seq<Drift>, b: seq<Drift>, c: seq<Drift>)
    requires AllOfGuide(a) && AllOfRegister(b) && forall d | d in c :: d.kind == Undocumented
    ensures InParts(a + b + c)
  {
    forall i | 0 <= i < |c|
      ensures Part(c[i].kind) == 2
    {
      assert c[i] in c;
    }
  }
}
