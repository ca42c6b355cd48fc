/** What a silent drift check means, and what an unacceptable exemption can and cannot do. */
module GuideDriftLaws {
  import opened Text
  import opened Sorting
  import opened GuideCommands
  import opened ExemptionRules
  import opened StockReasons
  import opened GuideDrift

  // ------------------------------------------------------------------
  // Guides
  // ------------------------------------------------------------------

  /** A value a classifier binding may leave out. */
  predicate KnownOrOmitted(value: string, known: set<string>) {
    value == "" || value in known
  }

  predicate ClassifierKnown(c: CommandBody, vocab: Vocabulary) {
    c.classifier.Some? ==>
      var cl := c.classifier.value;
      && cl.surface in vocab.surfaces
      && KnownOrOmitted(cl.target, vocab.targets)
      && KnownOrOmitted(cl.mode, vocab.modes)
      && KnownOrOmitted(cl.source, vocab.sources)
  }

  /** Every guide's surface, and every classifier value it names, is registered. */
  ghost predicate VocabularyKnown(guides: seq<SurfaceGuide>, vocab: Vocabulary) {
    forall g | g in guides :: GuideKnown(g, vocab)
  }

  ghost predicate GuideKnown(g: SurfaceGuide, vocab: Vocabulary) {
    g.surface in vocab.surfaces && forall c | c in g.commands :: ClassifierKnown(c.body, vocab)
  }

  lemma CommandSilentIff(path: string, c: CommandBody, routes: RouteTable, vocab: Vocabulary)
    ensures CommandDrift(path, c, routes, vocab) == [] <==>
            ClassifierKnown(c, vocab) && (c.route != "" ==> c.route in routes)
  {
  }

  lemma {:induction false} SilentCommandByCommand(
    path: string, cs: seq<GuideCommand>, routes: RouteTable, vocab: Vocabulary)
    ensures CommandsDrift(path, cs, routes, vocab) == [] <==>
            forall i | 0 <= i < |cs| :: CommandDrift(path, cs[i].body, routes, vocab) == []
  {
    if cs != [] {
      var before := cs[..|cs| - 1];
      SilentCommandByCommand(path, before, routes, vocab);
      assert forall i | 0 <= i < |before| :: before[i] == cs[i];
      BothEmpty(CommandsDrift(path, before, routes, vocab), CommandDrift(path, cs[|cs| - 1].body, routes, vocab));
    }
  }

  lemma {:induction false} DocumentedCommandByCommand(cs: seq<GuideCommand>, whole: set<string>)
    ensures DocumentedBy(cs) <= whole <==>
            forall i | 0 <= i < |cs| :: cs[i].body.route == "" || cs[i].body.route in whole
  {
    if cs != [] {
      var before := cs[..|cs| - 1];
      DocumentedCommandByCommand(before, whole);
      assert forall i | 0 <= i < |before| :: before[i] == cs[i];
      var route := cs[|cs| - 1].body.route;
      UnionWithin(DocumentedBy(before), if route != "" then {route} else {}, whole);
    }
  }

  lemma CommandsSilentIff(path: string, cs: seq<GuideCommand>, routes: RouteTable, vocab: Vocabulary)
    ensures CommandsDrift(path, cs, routes, vocab) == [] <==>
            (forall c | c in cs :: ClassifierKnown(c.body, vocab)) && DocumentedBy(cs) <= routes.Keys
  {
    SilentCommandByCommand(path, cs, routes, vocab);
    DocumentedCommandByCommand(cs, routes.Keys);
    forall i | 0 <= i < |cs|
      ensures CommandDrift(path, cs[i].body, routes, vocab) == [] <==>
              ClassifierKnown(cs[i].body, vocab) && (cs[i].body.route == "" || cs[i].body.route in routes.Keys)
    {
      CommandSilentIff(path, cs[i].body, routes, vocab);
    }
    assert forall i | 0 <= i < |cs| :: cs[i] in cs;
  }

  lemma {:induction false} SilentGuideByGuide(guides: seq<SurfaceGuide>, routes: RouteTable, vocab: Vocabulary)
    ensures GuidesDrift(guides, routes, vocab) == [] <==>
            forall i | 0 <= i < |guides| :: GuideDriftOf(guides[i], routes, vocab) == []
  {
    if guides != [] {
      var before := guides[..|guides| - 1];
      SilentGuideByGuide(before, routes, vocab);
      assert forall i | 0 <= i < |before| :: before[i] == guides[i];
      BothEmpty(GuidesDrift(before, routes, vocab), GuideDriftOf(guides[|guides| - 1], routes, vocab));
    }
  }

  lemma {:induction false} DocumentedGuideByGuide(guides: seq<SurfaceGuide>, whole: set<string>)
    ensures Documented(guides) <= whole <==> forall i | 0 <= i < |guides| :: DocumentedBy(guides[i].commands) <= whole
  {
    if guides != [] {
      var before := guides[..|guides| - 1];
      DocumentedGuideByGuide(before, whole);
      assert forall i | 0 <= i < |before| :: before[i] == guides[i];
      UnionWithin(Documented(before), DocumentedBy(guides[|guides| - 1].commands), whole);
    }
  }

  lemma KnownGuideByGuide(guides: seq<SurfaceGuide>, vocab: Vocabulary)
    ensures VocabularyKnown(guides, vocab) <==> forall i | 0 <= i < |guides| :: GuideKnown(guides[i], vocab)
  {
    forall g | g in guides && (forall i | 0 <= i < |guides| :: GuideKnown(guides[i], vocab))
      ensures GuideKnown(g, vocab)
    {
      var i :| 0 <= i < |guides| && guides[i] == g;
    }
    assert forall i | 0 <= i < |guides| :: guides[i] in guides;
  }

  /** The guides' part is silent exactly when all vocabulary is registered and every documented route exists. */
  lemma GuidesSilentIff(guides: seq<SurfaceGuide>, routes: RouteTable, vocab: Vocabulary)
    ensures GuidesDrift(guides, routes, vocab) == [] <==>
            VocabularyKnown(guides, vocab) && Documented(guides) <= routes.Keys
  {
    SilentGuideByGuide(guides, routes, vocab);
    DocumentedGuideByGuide(guides, routes.Keys);
    KnownGuideByGuide(guides, vocab);
    forall i | 0 <= i < |guides|
      ensures GuideDriftOf(guides[i], routes, vocab) == [] <==>
              GuideKnown(guides[i], vocab) && DocumentedBy(guides[i].commands) <= routes.Keys
    {
      GuideSilentIff(guides[i], routes, vocab);
    }
  }

  lemma UnionWithin(a: set<string>, b: set<string>, whole: set<string>)
    ensures a + b <= whole <==> a <= whole && b <= whole
  {
  }

  lemma BothEmpty(a: seq<Drift>, b: seq<Drift>)
    ensures a + b == [] <==> a == [] && b == []
  {
  }

  lemma GuideSilentIff(g: SurfaceGuide, routes: RouteTable, vocab: Vocabulary)
    ensures GuideDriftOf(g, routes, vocab) == [] <==> GuideKnown(g, vocab) && DocumentedBy(g.commands) <= routes.Keys
  {
    CommandsSilentIff(g.sourcePath, g.commands, routes, vocab);
  }

  // ------------------------------------------------------------------
  // Exemptions
  // ------------------------------------------------------------------

  function RouteOf(rules: Rules, ex: Exemption): string {
    rules.trim(ex.route)
  }

  /** Every entry passes the rules, and no two name the same route. */
  ghost predicate RegisterSound(rules: Rules, exs: seq<Exemption>) {
    && (forall i | 0 <= i < |exs| :: Acceptable(rules, exs[i]))
    && (forall i, j | 0 <= i < j < |exs| :: RouteOf(rules, exs[i]) != RouteOf(rules, exs[j]))
  }

  lemma {:induction false} NamedHas(rules: Rules, exs: seq<Exemption>, route: string)
    ensures route in Named(rules, exs) <==> route != "" && exists i | 0 <= i < |exs| :: RouteOf(rules, exs[i]) == route
  {
    if exs != [] {
      var before := exs[..|exs| - 1];
      NamedHas(rules, before, route);
      if i :| 0 <= i < |before| && RouteOf(rules, before[i]) == route {
        assert RouteOf(rules, exs[i]) == route;
      }
      if i :| 0 <= i < |exs| && RouteOf(rules, exs[i]) == route {
        assert i == |exs| - 1 || RouteOf(rules, before[i]) == route;
      }
    }
  }

  lemma EntrySilentIff(rules: Rules, ex: Exemption, seen: set<string>, documented: set<string>, routes: RouteTable)
    requires !rules.wellFormed("")
    ensures ExemptionDrift(rules, ex, seen, documented, routes) == [] <==>
              var route := RouteOf(rules, ex);
              Acceptable(rules, ex) && route in routes && route !in documented && route !in seen
  {
  }

  lemma SoundAppend(rules: Rules, before: seq<Exemption>, ex: Exemption)
    requires !rules.wellFormed("")
    ensures RegisterSound(rules, before + [ex]) <==>
              RegisterSound(rules, before) && Acceptable(rules, ex) && RouteOf(rules, ex) !in Named(rules, before)
  {
    var exs := before + [ex];
    NamedHas(rules, before, RouteOf(rules, ex));
    assert forall i | 0 <= i < |before| :: exs[i] == before[i];
    assert exs[|before|] == ex;
  }

  /** All named routes are real, and none is documented. */
  predicate NamesReal(rules: Rules, exs: seq<Exemption>, documented: set<string>, routes: RouteTable) {
    Named(rules, exs) <= routes.Keys && Named(rules, exs) !! documented
  }

  lemma NamedAppend(
    rules: Rules, before: seq<Exemption>, ex: Exemption, documented: set<string>, routes: RouteTable)
    ensures var route := RouteOf(rules, ex);
      NamesReal(rules, before + [ex], documented, routes) <==>
      NamesReal(rules, before, documented, routes) && (route != "" ==> route in routes && route !in documented)
  {
    assert (before + [ex])[..|before|] == before;
  }

  /** The register's part of the check is silent exactly when it is sound and names undocumented real routes only. */
  lemma {:induction false} RegisterSilentIff(
    rules: Rules, exs: seq<Exemption>, documented: set<string>, routes: RouteTable)
    requires !rules.wellFormed("")
    ensures ExemptionsDrift(rules, exs, documented, routes) == [] <==>
              RegisterSound(rules, exs) && NamesReal(rules, exs, documented, routes)
  {
    if exs != [] {
      var before, ex := exs[..|exs| - 1], exs[|exs| - 1];
      RegisterSilentIff(rules, before, documented, routes);
      EntrySilentIff(rules, ex, Named(rules, before), documented, routes);
      assert exs == before + [ex];
      SoundAppend(rules, before, ex);
      NamedAppend(rules, before, ex, documented, routes);
      BothEmpty(
        ExemptionsDrift(rules, before, documented, routes),
        ExemptionDrift(rules, ex, Named(rules, before), documented, routes));
    }
  }

  /** In a sound register of real routes, everything named is exempted. */
  lemma {:induction false} SoundRegisterExempts(rules: Rules, exs: seq<Exemption>, routes: RouteTable)
    requires !rules.wellFormed("")
    requires RegisterSound(rules, exs) && Named(rules, exs) <= routes.Keys
    ensures Exempted(rules, exs, routes) == Named(rules, exs)
  {
    if exs != [] {
      SoundRegisterExempts(rules, exs[..|exs| - 1], routes);
    }
  }

  // ------------------------------------------------------------------
  // The whole check
  // ------------------------------------------------------------------

  lemma {:induction false} CompleteIff(keys: seq<string>, covered: set<string>, routes: RouteTable)
    requires forall k | k in keys :: k in routes
    ensures UndocumentedDrift(keys, covered, routes) == [] <==> forall k | k in keys :: k in covered
  {
    if keys != [] {
      CompleteIff(keys[..|keys| - 1], covered, routes);
      assert keys == keys[..|keys| - 1] + [keys[|keys| - 1]];
    }
  }

  /** The keys are the routes. */
  ghost predicate Enumerates(keys: seq<string>, routes: RouteTable) {
    forall k :: k in keys <==> k in routes
  }

  /** Documented and exempted routes split the registered ones between them. */
  ghost predicate Partitioned(documented: set<string>, exempted: set<string>, routes: RouteTable) {
    routes.Keys == documented + exempted && documented !! exempted
  }

  /**
    The check is silent exactly when the vocabulary is known, the register is
    sound, and the registered routes are the documented ones and the exempted
    ones, with nothing in both and nothing in neither.
  */
  lemma SilentIffPartitioned(
    rules: Rules, guides: seq<SurfaceGuide>, routes: RouteTable, vocab: Vocabulary, exs: seq<Exemption>,
    keys: seq<string>)
    requires !rules.wellFormed("") && Enumerates(keys, routes)
    ensures AllDrift(rules, guides, routes, vocab, exs, keys) == [] <==>
              && VocabularyKnown(guides, vocab)
              && RegisterSound(rules, exs)
              && Partitioned(Documented(guides), Named(rules, exs), routes)
  {
    var documented, named := Documented(guides), Named(rules, exs);
    GuidesSilentIff(guides, routes, vocab);
    RegisterSilentIff(rules, exs, documented, routes);
    CompleteIff(keys, documented + Exempted(rules, exs, routes), routes);
    if RegisterSound(rules, exs) && named <= routes.Keys {
      SoundRegisterExempts(rules, exs, routes);
      if (forall k | k in keys :: k in documented + named) && documented <= routes.Keys {
        assert routes.Keys == documented + named;
      }
    }
  }

  /** The rules the code applies refuse an empty route, so the theorem holds of them. */
  lemma CodeSilentIffPartitioned(
    guides: seq<SurfaceGuide>, routes: RouteTable, vocab: Vocabulary, exs: seq<Exemption>, order: seq<string>)
    requires multiset(order) == multiset(routes.Keys)
    requires forall k | k in SortStrings(order) :: k in routes
    ensures AllDrift(RULES, guides, routes, vocab, exs, SortStrings(order)) == [] <==>
              && VocabularyKnown(guides, vocab)
              && RegisterSound(RULES, exs)
              && Partitioned(Documented(guides), Named(RULES, exs), routes)
  {
    SortStringsSorts(order);
    forall k
      ensures k in SortStrings(order) <==> k in routes
    {
      assert k in multiset(SortStrings(order)) <==> k in SortStrings(order);
      assert k in multiset(routes.Keys) <==> k in routes.Keys;
    }
    SilentIffPartitioned(RULES, guides, routes, vocab, exs, SortStrings(order));
  }

  /** The order in which the route map is read does not change the report. */
  lemma MapOrderDoesNotMatter(order: seq<string>, other: seq<string>)
    requires multiset(order) == multiset(other)
    ensures SortStrings(order) == SortStrings(other)
  {
    SortStringsSorts(order);
    SortStringsSorts(other);
    SortedUnique(SortStrings(order), SortStrings(other));
  }

  // ------------------------------------------------------------------
  // Unacceptable entries silence nothing
  // ------------------------------------------------------------------

  function OnlyEffective(rules: Rules, exs: seq<Exemption>, routes: RouteTable): seq<Exemption> {
    if exs == [] then [] else
      OnlyEffective(rules, exs[..|exs| - 1], routes)
      + if Effective(rules, exs[|exs| - 1], routes) then [exs[|exs| - 1]] else []
  }

  lemma {:induction false} ExemptedByEffectiveOnly(rules: Rules, exs: seq<Exemption>, routes: RouteTable)
    ensures Exempted(rules, OnlyEffective(rules, exs, routes), routes) == Exempted(rules, exs, routes)
  {
    if exs != [] {
      var before, ex := exs[..|exs| - 1], exs[|exs| - 1];
      ExemptedByEffectiveOnly(rules, before, routes);
      var kept := OnlyEffective(rules, before, routes);
      if Effective(rules, ex, routes) {
        assert (kept + [ex])[..|kept|] == kept;
      } else {
        assert kept + [] == kept;
      }
    }
  }

  /** The reports of undocumented routes among all reports, in order. */
  function OnlyUndocumented(ds: seq<Drift>): seq<Drift> {
    if ds == [] then [] else
      OnlyUndocumented(ds[..|ds| - 1]) + if ds[|ds| - 1].kind == Undocumented then [ds[|ds| - 1]] else []
  }

  lemma {:induction false} OnlyUndocumentedConcat(a: seq<Drift>, b: seq<Drift>)
    ensures OnlyUndocumented(a + b) == OnlyUndocumented(a) + OnlyUndocumented(b)
  {
    if b == [] {
      assert a + b == a;
    } else {
      assert (a + b)[..|a + b| - 1] == a + b[..|b| - 1];
      OnlyUndocumentedConcat(a, b[..|b| - 1]);
    }
  }

  predicate NoneUndocumented(ds: seq<Drift>) {
    forall i | 0 <= i < |ds| :: ds[i].kind != Undocumented
  }

  lemma {:induction false} NothingToKeep(ds: seq<Drift>)
    requires NoneUndocumented(ds)
    ensures OnlyUndocumented(ds) == []
  {
    if ds != [] {
      NothingToKeep(ds[..|ds| - 1]);
    }
  }

  lemma NoneUndocumentedConcat(a: seq<Drift>, b: seq<Drift>)
    requires NoneUndocumented(a) && NoneUndocumented(b)
    ensures NoneUndocumented(a + b)
  {
  }

  lemma CommandReportsOther(path: string, c: CommandBody, routes: RouteTable, vocab: Vocabulary)
    ensures NoneUndocumented(CommandDrift(path, c, routes, vocab))
  {
    if c.classifier.Some? {
      assert NoneUndocumented(ClassifierDrift(path, c.name, c.classifier.value, vocab));
    }
  }

  lemma {:induction false} CommandsReportOther(
    path: string, cs: seq<GuideCommand>, routes: RouteTable, vocab: Vocabulary)
    ensures NoneUndocumented(CommandsDrift(path, cs, routes, vocab))
  {
    if cs != [] {
      var before, c := cs[..|cs| - 1], cs[|cs| - 1].body;
      CommandsReportOther(path, before, routes, vocab);
      CommandReportsOther(path, c, routes, vocab);
      NoneUndocumentedConcat(CommandsDrift(path, before, routes, vocab), CommandDrift(path, c, routes, vocab));
    }
  }

  lemma {:induction false} GuidesReportOther(guides: seq<SurfaceGuide>, routes: RouteTable, vocab: Vocabulary)
    ensures NoneUndocumented(GuidesDrift(guides, routes, vocab))
  {
    if guides != [] {
      var g := guides[|guides| - 1];
      GuidesReportOther(guides[..|guides| - 1], routes, vocab);
      CommandsReportOther(g.sourcePath, g.commands, routes, vocab);
    }
  }

  lemma EntryReportsOther(
    rules: Rules, ex: Exemption, seen: set<string>, documented: set<string>, routes: RouteTable)
    ensures NoneUndocumented(ExemptionDrift(rules, ex, seen, documented, routes))
  {
    assert NoneUndocumented(EntryDrift(rules, rules.trim(ex.route), rules.trim(ex.reason), seen));
    assert NoneUndocumented(LookupDrift(rules.trim(ex.route), documented, routes));
  }

  lemma {:induction false} RegisterReportsOther(
    rules: Rules, exs: seq<Exemption>, documented: set<string>, routes: RouteTable)
    ensures NoneUndocumented(ExemptionsDrift(rules, exs, documented, routes))
  {
    if exs != [] {
      var before, ex := exs[..|exs| - 1], exs[|exs| - 1];
      RegisterReportsOther(rules, before, documented, routes);
      EntryReportsOther(rules, ex, Named(rules, before), documented, routes);
      NoneUndocumentedConcat(
        ExemptionsDrift(rules, before, documented, routes),
        ExemptionDrift(rules, ex, Named(rules, before), documented, routes));
    }
  }

  lemma {:induction false} CompletenessReportsOnly(keys: seq<string>, covered: set<string>, routes: RouteTable)
    requires forall k | k in keys :: k in routes
    ensures OnlyUndocumented(UndocumentedDrift(keys, covered, routes)) == UndocumentedDrift(keys, covered, routes)
  {
    if keys != [] {
      var before, k := keys[..|keys| - 1], keys[|keys| - 1];
      CompletenessReportsOnly(before, covered, routes);
      var more := When(k !in covered, Undocumented, routes[k].file, k);
      OnlyUndocumentedConcat(UndocumentedDrift(before, covered, routes), more);
      assert OnlyUndocumented(more) == more;
    }
  }

  /** The undocumented-route reports of the whole check are those of its last part. */
  lemma UndocumentedPart(
    rules: Rules, guides: seq<SurfaceGuide>, routes: RouteTable, vocab: Vocabulary,
    exs: seq<Exemption>, keys: seq<string>)
    requires forall k | k in keys :: k in routes
    ensures OnlyUndocumented(AllDrift(rules, guides, routes, vocab, exs, keys)) ==
            UndocumentedDrift(keys, Documented(guides) + Exempted(rules, exs, routes), routes)
  {
    var ofGuides := GuidesDrift(guides, routes, vocab);
    var ofRegister := ExemptionsDrift(rules, exs, Documented(guides), routes);
    var ofRoutes := UndocumentedDrift(keys, Documented(guides) + Exempted(rules, exs, routes), routes);
    GuidesReportOther(guides, routes, vocab);
    RegisterReportsOther(rules, exs, Documented(guides), routes);
    NothingToKeep(ofGuides);
    NothingToKeep(ofRegister);
    CompletenessReportsOnly(keys, Documented(guides) + Exempted(rules, exs, routes), routes);
    OnlyUndocumentedConcat(ofGuides + ofRegister, ofRoutes);
    OnlyUndocumentedConcat(ofGuides, ofRegister);
  }

  /**
    Dropping every malformed, wildcard, stale or badly reasoned entry from the register
    leaves the undocumented-route reports of the whole check as they were, in order.
  */
  lemma BadEntriesSilenceNothing(
    rules: Rules, guides: seq<SurfaceGuide>, routes: RouteTable, vocab: Vocabulary,
    exs: seq<Exemption>, keys: seq<string>)
    requires forall k | k in keys :: k in routes
    ensures OnlyUndocumented(AllDrift(rules, guides, routes, vocab, OnlyEffective(rules, exs, routes), keys)) ==
            OnlyUndocumented(AllDrift(rules, guides, routes, vocab, exs, keys))
  {
    UndocumentedPart(rules, guides, routes, vocab, exs, keys);
    UndocumentedPart(rules, guides, routes, vocab, OnlyEffective(rules, exs, routes), keys);
    ExemptedByEffectiveOnly(rules, exs, routes);
  }

  lemma {:induction false} ExemptedHas(rules: Rules, exs: seq<Exemption>, routes: RouteTable, route: string)
    ensures route in Exempted(rules, exs, routes) <==>
            exists i | 0 <= i < |exs| :: Effective(rules, exs[i], routes) && RouteOf(rules, exs[i]) == route
  {
    if exs != [] {
      var before := exs[..|exs| - 1];
      ExemptedHas(rules, before, routes, route);
      assert forall i | 0 <= i < |before| :: before[i] == exs[i];
      if i :| 0 <= i < |exs| && Effective(rules, exs[i], routes) && RouteOf(rules, exs[i]) == route {
        assert i == |exs| - 1 || Effective(rules, before[i], routes);
      }
    }
  }

  lemma {:induction false} UndocumentedHas(keys: seq<string>, covered: set<string>, routes: RouteTable, route: string)
    requires (forall k | k in keys :: k in routes) && route in routes
    ensures Drift(Undocumented, routes[route].file, route) in UndocumentedDrift(keys, covered, routes) <==>
            route in keys && route !in covered
  {
    if keys != [] {
      UndocumentedHas(keys[..|keys| - 1], covered, routes, route);
      assert keys == keys[..|keys| - 1] + [keys[|keys| - 1]];
    }
  }

  /**
    The check reports a route as undocumented exactly when no guide documents it and
    every entry of the register that names it is unacceptable.
  */
  lemma ReportedIff(
    rules: Rules, guides: seq<SurfaceGuide>, routes: RouteTable, vocab: Vocabulary,
    exs: seq<Exemption>, keys: seq<string>, route: string)
    requires Enumerates(keys, routes) && route in routes
    ensures Drift(Undocumented, routes[route].file, route) in AllDrift(rules, guides, routes, vocab, exs, keys) <==>
            && route !in Documented(guides)
            && forall i | 0 <= i < |exs| && RouteOf(rules, exs[i]) == route :: !Acceptable(rules, exs[i])
  {
    GuidesReportOther(guides, routes, vocab);
    RegisterReportsOther(rules, exs, Documented(guides), routes);
    UndocumentedHas(keys, Documented(guides) + Exempted(rules, exs, routes), routes, route);
    ExemptedHas(rules, exs, routes, route);
    forall i | 0 <= i < |exs| && RouteOf(rules, exs[i]) == route
      ensures Acceptable(rules, exs[i]) <==> Effective(rules, exs[i], routes)
    {
    }
  }

  /** The code accepts an entry: METHOD /path without a wildcard, and a reason that passes. */
  ghost predicate CodeAccepts(ex: Exemption) {
    var route := TrimSpace(ex.route);
    && LooksLikeRoute(route) && !Holds(route, "*") && !Holds(route, "...")
    && CheckReason(TrimSpace(ex.reason)).None?
  }

  lemma CodeAcceptsIff(ex: Exemption)
    ensures RouteOf(RULES, ex) == TrimSpace(ex.route)
    ensures Acceptable(RULES, ex) <==> CodeAccepts(ex)
  {
    WellFormedIff(TrimSpace(ex.route));
    WildcardIff(TrimSpace(ex.route));
  }

  /** The same with the code's own rules spelled out. */
  lemma CodeReportedIff(
    guides: seq<SurfaceGuide>, routes: RouteTable, vocab: Vocabulary,
    exs: seq<Exemption>, keys: seq<string>, route: string)
    requires Enumerates(keys, routes) && route in routes
    ensures Drift(Undocumented, routes[route].file, route) in AllDrift(RULES, guides, routes, vocab, exs, keys) <==>
            && route !in Documented(guides)
            && forall i | 0 <= i < |exs| && TrimSpace(exs[i].route) == route :: !CodeAccepts(exs[i])
  {
    ReportedIff(RULES, guides, routes, vocab, exs, keys, route);
    forall i | 0 <= i < |exs|
      ensures RouteOf(RULES, exs[i]) == TrimSpace(exs[i].route)
      ensures Acceptable(RULES, exs[i]) <==> CodeAccepts(exs[i])
    {
      CodeAcceptsIff(exs[i]);
    }
  }

  /** An entry whose reason is stock phrases glued together, or one stock phrase, exempts nothing. */
  lemma StockReasonExemptsNothing(ex: Exemption, pieces: seq<string>, joints: seq<string>)
    requires SpellsStock(ex.reason)
             || (Glued(pieces, joints) && StockPieces(pieces) && Glue(pieces, joints) == ex.reason)
    ensures RULES.reason(RULES.trim(ex.reason)).Some? && !Acceptable(RULES, ex)
  {
    if SpellsStock(ex.reason) {
      StockIsRefused(ex.reason);
    } else {
      GluedStockIsRefused(pieces, joints);
    }
    CodeAcceptsIff(ex);
  }
}
