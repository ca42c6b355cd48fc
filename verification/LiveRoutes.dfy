/**
  The static scan and the drift check together: what a silent check says about the
  routes the router really serves.
*/
module LiveRoutes {
  import opened Text
  import opened Sorting
  import opened Paths
  import opened RouteScan
  import opened GuideDrift
  import opened GuideDriftLaws

  /** The scanner's map as the drift check reads it. */
  function TableOf(found: map<string, RegisteredRoute>): (table: RouteTable)
    ensures table.Keys == found.Keys
  {
    map k | k in found :: Registered(found[k].file, found[k].line)
  }

  function ScannedTable(ns: seq<Node>, file: string): RouteTable {
    TableOf(Recorded(map[], FoundIn(ns, "", file)))
  }

  /** Every route the router serves is documented in a guide or exempted by the register. */
  ghost predicate EveryLiveRouteCovered(ns: seq<Node>, guides: seq<SurfaceGuide>, exs: seq<Exemption>)
    requires Registrable(ns)
  {
    forall k | k in LiveKeys(LiveIn(ns, "")) :: k in Documented(guides) + Named(RULES, exs)
  }

  /**
    When the check over the scanned table is silent, no route is both documented and
    exempted, and every live route is one of the two exactly when every served path is
    normal and every method known to the scanner; a live route the scanner cannot name escapes a silent check.
  */
  lemma SilentCheckCoversLiveRoutesIff(
    ns: seq<Node>, file: string, guides: seq<SurfaceGuide>, vocab: Vocabulary, exs: seq<Exemption>, order: seq<string>)
    requires Registrable(ns)
    requires multiset(order) == multiset(ScannedTable(ns, file).Keys)
    requires forall k | k in SortStrings(order) :: k in ScannedTable(ns, file)
    requires AllDrift(RULES, guides, ScannedTable(ns, file), vocab, exs, SortStrings(order)) == []
    ensures Documented(guides) !! Named(RULES, exs)
    ensures EveryLiveRouteCovered(ns, guides, exs) <==> Scannable(LiveIn(ns, ""))
  {
    CodeSilentIffPartitioned(guides, ScannedTable(ns, file), vocab, exs, order);
    ScanCoversIff(ns, file);
    CoveredIff(ns, file, Documented(guides) + Named(RULES, exs));
  }

  lemma CoveredIff(ns: seq<Node>, file: string, covered: set<string>)
    requires Registrable(ns) && covered == ScannedTable(ns, file).Keys
    ensures (forall k | k in LiveKeys(LiveIn(ns, "")) :: k in covered) <==>
            Elements(LiveKeys(LiveIn(ns, ""))) <= Recorded(map[], FoundIn(ns, "", file)).Keys
  {
  }
}
