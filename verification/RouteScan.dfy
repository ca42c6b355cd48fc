/**
  The static route scan (`scanRouterNode`) against the route table the router
  serves (`App.Routes`), on the tree of registration calls both are built from.
*/
module RouteScan {
  import opened Text
  import opened Sorting
  import opened Paths

  // ------------------------------------------------------------------
  // Calls and their methods
  // ------------------------------------------------------------------

  /** The method names the scanner takes for a registration. */
  const CHI_ROUTER_METHODS: set<string> := {"Get", "Post", "Put", "Patch", "Delete"}

  function UpperChar(c: char): char {
    if 'a' <= c <= 'z' then c - 32 as char else c
  }

  /** `strings.ToUpper` on ASCII. */
  function Upper(s: string): string {
    seq(|s|, i requires 0 <= i < |s| => UpperChar(s[i]))
  }

  /** The HTTP method chi serves for a registration by that name. */
  function ChiMethod(selector: string): Option<string> {
    match selector
    case "Get" => Some("GET")
    case "Post" => Some("POST")
    case "Put" => Some("PUT")
    case "Patch" => Some("PATCH")
    case "Delete" => Some("DELETE")
    case "Head" => Some("HEAD")
    case "Options" => Some("OPTIONS")
    case "Connect" => Some("CONNECT")
    case "Trace" => Some("TRACE")
    case _ => None
  }

  /** The methods a scanned route can have. */
  const SCANNED_METHODS: set<string> := {"GET", "POST", "PUT", "PATCH", "DELETE"}

  /** Upper-casing a registration's name gives the method chi serves for it. */
  lemma UpperIsChi(selector: string)
    requires ChiMethod(selector).Some?
    ensures ChiMethod(selector).value == Upper(selector)
  {
    assert selector == "Get" ==> Upper(selector) == "GET";
    assert selector == "Post" ==> Upper(selector) == "POST";
    assert selector == "Put" ==> Upper(selector) == "PUT";
    assert selector == "Patch" ==> Upper(selector) == "PATCH";
    assert selector == "Delete" ==> Upper(selector) == "DELETE";
    assert selector == "Head" ==> Upper(selector) == "HEAD";
    assert selector == "Options" ==> Upper(selector) == "OPTIONS";
    assert selector == "Connect" ==> Upper(selector) == "CONNECT";
    assert selector == "Trace" ==> Upper(selector) == "TRACE";
  }

  /** Only the five names give the five methods, each its own. */
  lemma MethodNamesCall(selector: string, other: string)
    requires ChiMethod(selector).Some? && ChiMethod(selector) == ChiMethod(other)
    ensures selector == other
    ensures selector in CHI_ROUTER_METHODS <==> ChiMethod(selector).value in SCANNED_METHODS
  {
  }

  lemma MethodsHoldNoSpace(selector: string)
    requires ChiMethod(selector).Some?
    ensures ' ' !in ChiMethod(selector).value
  {
  }

  /**
    What the scanner meets: a call of a method with a literal path, a Route call with a
    literal path and a function literal, or any other node. The scanner cannot tell
    whether a call registers a route with the router or only has such a name; `registers`
    says so. What a registering call's arguments hold is a handler's own code.
  */
  datatype Node =
    | Call(selector: string, literal: string, line: nat, registers: bool, arguments: seq<Node>)
    | Group(literal: string, body: seq<Node>)
    | Other(children: seq<Node>)

  datatype RegisteredRoute = RegisteredRoute(verb: string, path: string, file: string, line: nat)

  function Key(verb: string, path: string): string {
    verb + " " + path
  }

  // ------------------------------------------------------------------
  // The scan
  // ------------------------------------------------------------------

  /** What the scanner makes of a call itself. */
  function Own(selector: string, literal: string, line: nat, prefix: string, file: string): seq<RegisteredRoute> {
    if selector in CHI_ROUTER_METHODS
    then [RegisteredRoute(Upper(selector), JoinRoutePath(prefix, literal), file, line)]
    else []
  }

  /** The registrations found below a node, in the order they are met. */
  function Found(n: Node, prefix: string, file: string): seq<RegisteredRoute>
    decreases n, 0
  {
    match n
    case Call(selector, literal, line, _, arguments) =>
      Own(selector, literal, line, prefix, file) + FoundIn(arguments, prefix, file)
    case Group(literal, body) => FoundIn(body, JoinRoutePath(prefix, literal), file)
    case Other(children) => FoundIn(children, prefix, file)
  }

  function FoundIn(ns: seq<Node>, prefix: string, file: string): seq<RegisteredRoute>
    decreases ns, 0
  {
    if ns == [] then [] else Found(ns[0], prefix, file) + FoundIn(ns[1..], prefix, file)
  }

  /** Writing registrations into the map one after the other: a later one replaces an earlier one of the same key. */
  function Recorded(out: map<string, RegisteredRoute>, rs: seq<RegisteredRoute>): map<string, RegisteredRoute>
    decreases rs
  {
    if rs == [] then out else Recorded(out[Key(rs[0].verb, rs[0].path) := rs[0]], rs[1..])
  }

  lemma {:induction false} RecordedConcat(
    out: map<string, RegisteredRoute>, a: seq<RegisteredRoute>, b: seq<RegisteredRoute>)
    ensures Recorded(out, a + b) == Recorded(Recorded(out, a), b)
    decreases a
  {
    if a == [] {
      assert a + b == b;
    } else {
      assert (a + b)[1..] == a[1..] + b;
      RecordedConcat(out[Key(a[0].verb, a[0].path) := a[0]], a[1..], b);
    }
  }

  /** `scanRouterNode`: the walk, writing into `out`. */
  method ScanRouterNode(n: Node, prefix: string, file: string, out: map<string, RegisteredRoute>)
    returns (found: map<string, RegisteredRoute>)
    ensures found == Recorded(out, Found(n, prefix, file))
    decreases n, 0
  {
    match n {
      case Group(literal, body) =>
        found := ScanNodes(body, JoinRoutePath(prefix, literal), file, out);
      case Call(selector, literal, line, _, arguments) =>
        found := out;
        if selector in CHI_ROUTER_METHODS {
          var verb := Upper(selector);
          var fullPath := JoinRoutePath(prefix, literal);
          found := found[verb + " " + fullPath := RegisteredRoute(verb, fullPath, file, line)];
        }
        assert found == Recorded(out, Own(selector, literal, line, prefix, file));
        found := ScanNodes(arguments, prefix, file, found);
        RecordedConcat(out, Own(selector, literal, line, prefix, file), FoundIn(arguments, prefix, file));
      case Other(children) =>
        found := ScanNodes(children, prefix, file, out);
    }
  }

  method ScanNodes(ns: seq<Node>, prefix: string, file: string, out: map<string, RegisteredRoute>)
    returns (found: map<string, RegisteredRoute>)
    ensures found == Recorded(out, FoundIn(ns, prefix, file))
    decreases ns, 0
  {
    found := out;
    for i := 0 to |ns|
      invariant Recorded(found, FoundIn(ns[i..], prefix, file)) == Recorded(out, FoundIn(ns, prefix, file))
    {
      ghost var before := found;
      found := ScanRouterNode(ns[i], prefix, file, found);
      assert ns[i..][1..] == ns[i + 1..];
      RecordedConcat(before, Found(ns[i], prefix, file), FoundIn(ns[i + 1..], prefix, file));
    }
  }

  function Keys(rs: seq<RegisteredRoute>): seq<string> {
    seq(|rs|, i requires 0 <= i < |rs| => Key(rs[i].verb, rs[i].path))
  }

  function Elements(s: seq<string>): set<string> {
    set x | x in s
  }

  lemma {:induction false} RecordedKeys(out: map<string, RegisteredRoute>, rs: seq<RegisteredRoute>)
    ensures Recorded(out, rs).Keys == out.Keys + Elements(Keys(rs))
    decreases rs
  {
    if rs != [] {
      RecordedKeys(out[Key(rs[0].verb, rs[0].path) := rs[0]], rs[1..]);
      assert Keys(rs) == [Key(rs[0].verb, rs[0].path)] + Keys(rs[1..]);
    }
  }

  /** Under each key the map holds the last registration that has it. */
  lemma {:induction false} LastIsRecorded(out: map<string, RegisteredRoute>, rs: seq<RegisteredRoute>, i: nat)
    requires i < |rs| && forall j | i < j < |rs| :: Keys(rs)[j] != Keys(rs)[i]
    ensures Keys(rs)[i] in Recorded(out, rs) && Recorded(out, rs)[Keys(rs)[i]] == rs[i]
    decreases rs
  {
    var next := out[Key(rs[0].verb, rs[0].path) := rs[0]];
    assert Keys(rs) == [Key(rs[0].verb, rs[0].path)] + Keys(rs[1..]);
    if i > 0 {
      forall j | i - 1 < j < |rs[1..]|
        ensures Keys(rs[1..])[j] != Keys(rs[1..])[i - 1]
      {
        assert Keys(rs)[j + 1] == Keys(rs[1..])[j];
      }
      LastIsRecorded(next, rs[1..], i - 1);
    } else {
      forall j | 0 <= j < |rs[1..]|
        ensures Keys(rs[1..])[j] != Keys(rs)[0]
      {
        assert Keys(rs)[j + 1] == Keys(rs[1..])[j];
      }
      Unrecorded(next, rs[1..], Keys(rs)[0]);
    }
  }

  lemma {:induction false} Unrecorded(out: map<string, RegisteredRoute>, rs: seq<RegisteredRoute>, k: string)
    requires k in out && forall j | 0 <= j < |rs| :: Keys(rs)[j] != k
    ensures k in Recorded(out, rs) && Recorded(out, rs)[k] == out[k]
    decreases rs
  {
    if rs != [] {
      assert Keys(rs)[0] != k;
      forall j | 0 <= j < |rs[1..]|
        ensures Keys(rs[1..])[j] != k
      {
        assert Keys(rs)[j + 1] == Keys(rs[1..])[j];
      }
      Unrecorded(out[Key(rs[0].verb, rs[0].path) := rs[0]], rs[1..], k);
    }
  }

  // ------------------------------------------------------------------
  // The live table
  // ------------------------------------------------------------------

  datatype Served = Served(verb: string, route: string)

  /** What reaches the router begins with "/" and is a method of chi's: it takes nothing else. */
  predicate Registrable(ns: seq<Node>)
    decreases ns, 0
  {
    ns == [] || (RegistrableNode(ns[0]) && Registrable(ns[1..]))
  }

  predicate RegistrableNode(n: Node)
    decreases n, 0
  {
    match n
    case Call(selector, literal, _, registers, arguments) =>
      if registers then Rooted(literal) && ChiMethod(selector).Some? else Registrable(arguments)
    case Group(literal, body) => Rooted(literal) && Registrable(body)
    case Other(children) => Registrable(children)
  }

  /** What chi's walk reports below a group mounted at `prefix`. */
  function LiveIn(ns: seq<Node>, prefix: string): seq<Served>
    requires Registrable(ns)
    decreases ns, 0
  {
    if ns == [] then [] else Live(ns[0], prefix) + LiveIn(ns[1..], prefix)
  }

  function Live(n: Node, prefix: string): seq<Served>
    requires RegistrableNode(n)
    decreases n, 0
  {
    match n
    case Call(selector, literal, _, registers, arguments) =>
      if registers then [Served(ChiMethod(selector).value, LiveJoin(prefix, literal))] else LiveIn(arguments, prefix)
    case Group(literal, body) => LiveIn(body, LiveJoin(prefix, literal))
    case Other(children) => LiveIn(children, prefix)
  }

  function LiveKeys(walk: seq<Served>): seq<string> {
    seq(|walk|, i requires 0 <= i < |walk| => Key(walk[i].verb, TrimGroupRootSlash(walk[i].route)))
  }

  /** `App.Routes`: one entry per walked route, sorted. */
  method Routes(walk: seq<Served>) returns (routes: seq<string>)
    ensures Sorted(routes)
    ensures multiset(routes) == multiset(LiveKeys(walk))
  {
    routes := [];
    for i := 0 to |walk|
      invariant routes == LiveKeys(walk[..i])
    {
      routes := routes + [walk[i].verb + " " + TrimGroupRootSlash(walk[i].route)];
      assert LiveKeys(walk[..i + 1]) == LiveKeys(walk[..i]) + [Key(walk[i].verb, TrimGroupRootSlash(walk[i].route))];
    }
    assert walk[..|walk|] == walk;
    SortStringsSorts(routes);
    routes := SortStrings(routes);
  }

  // ------------------------------------------------------------------
  // The scan is the walk, cleaned, and what only looks like a route
  // ------------------------------------------------------------------

  /** The walked routes under the names the scanner gives them. */
  function CleanKeys(walk: seq<Served>): seq<string> {
    seq(|walk|, i requires 0 <= i < |walk| => Key(walk[i].verb, Clean(walk[i].route)))
  }

  /** The walked routes whose method the scanner knows. */
  function Known(walk: seq<Served>): seq<Served> {
    if walk == [] then [] else
      (if walk[0].verb in SCANNED_METHODS then [walk[0]] else []) + Known(walk[1..])
  }

  predicate AllKnown(walk: seq<Served>) {
    forall i | 0 <= i < |walk| :: walk[i].verb in SCANNED_METHODS
  }

  /** What is recorded without being registered: unrelated calls, and whatever a handler's own code holds. */
  function Extra(n: Node, prefix: string, file: string): seq<RegisteredRoute>
    decreases n, 0
  {
    match n
    case Call(selector, literal, line, registers, arguments) =>
      if registers then FoundIn(arguments, prefix, file)
      else Own(selector, literal, line, prefix, file) + ExtraIn(arguments, prefix, file)
    case Group(literal, body) => ExtraIn(body, JoinRoutePath(prefix, literal), file)
    case Other(children) => ExtraIn(children, prefix, file)
  }

  function ExtraIn(ns: seq<Node>, prefix: string, file: string): seq<RegisteredRoute>
    decreases ns, 0
  {
    if ns == [] then [] else Extra(ns[0], prefix, file) + ExtraIn(ns[1..], prefix, file)
  }

  lemma CleanKeysConcat(a: seq<Served>, b: seq<Served>)
    ensures CleanKeys(a + b) == CleanKeys(a) + CleanKeys(b)
  {
  }

  lemma {:induction false} KnownConcat(a: seq<Served>, b: seq<Served>)
    ensures Known(a + b) == Known(a) + Known(b)
  {
    if a == [] {
      assert a + b == b;
    } else {
      assert (a + b)[1..] == a[1..] + b;
      KnownConcat(a[1..], b);
    }
  }

  lemma {:induction false} AllKnownIsKnown(walk: seq<Served>)
    requires AllKnown(walk)
    ensures Known(walk) == walk
  {
    if walk != [] {
      AllKnownIsKnown(walk[1..]);
    }
  }

  lemma KeysConcat(a: seq<RegisteredRoute>, b: seq<RegisteredRoute>)
    ensures Keys(a + b) == Keys(a) + Keys(b)
  {
  }

  predicate RootedPrefix(live: string) {
    live == "" || Rooted(live)
  }

  /** What is recorded is the known live routes, cleaned, and the extra ones, each as often as it occurs. */
  ghost predicate SplitsInto(found: seq<RegisteredRoute>, walk: seq<Served>, extra: seq<RegisteredRoute>) {
    multiset(Keys(found)) == multiset(CleanKeys(Known(walk))) + multiset(Keys(extra))
  }

  lemma SplitsConcat(
    f: seq<RegisteredRoute>, w: seq<Served>, e: seq<RegisteredRoute>,
    f': seq<RegisteredRoute>, w': seq<Served>, e': seq<RegisteredRoute>)
    requires SplitsInto(f, w, e) && SplitsInto(f', w', e')
    ensures SplitsInto(f + f', w + w', e + e')
  {
    KeysConcat(f, f');
    KeysConcat(e, e');
    KnownConcat(w, w');
    CleanKeysConcat(Known(w), Known(w'));
  }

  /**
    Below any prefix, every registering call of a known method is recorded once, under the
    method chi serves it with and the cleaned form of the full path it is served at, and
    nothing else is recorded but the extra calls.
  */
  lemma {:induction false} ScanIsCleanedWalk(ns: seq<Node>, live: string, file: string)
    requires Registrable(ns) && RootedPrefix(live)
    ensures SplitsInto(
              FoundIn(ns, StaticPrefix(live), file), LiveIn(ns, live), ExtraIn(ns, StaticPrefix(live), file))
    decreases ns, 1
  {
    if ns != [] {
      var scanned := StaticPrefix(live);
      ScanIsCleanedWalk(ns[1..], live, file);
      NodeIsCleanedWalk(ns[0], live, file);
      SplitsConcat(
        Found(ns[0], scanned, file), Live(ns[0], live), Extra(ns[0], scanned, file),
        FoundIn(ns[1..], scanned, file), LiveIn(ns[1..], live), ExtraIn(ns[1..], scanned, file));
    }
  }

  lemma {:induction false} NodeIsCleanedWalk(n: Node, live: string, file: string)
    requires RegistrableNode(n) && RootedPrefix(live)
    ensures SplitsInto(Found(n, StaticPrefix(live), file), Live(n, live), Extra(n, StaticPrefix(live), file))
    decreases n, 1
  {
    match n {
      case Call(selector, literal, line, registers, arguments) =>
        if registers {
          RegisteringCall(selector, literal, line, live, file);
          CallAndArguments(
            Own(selector, literal, line, StaticPrefix(live), file), Live(n, live),
            FoundIn(arguments, StaticPrefix(live), file));
        } else {
          ScanIsCleanedWalk(arguments, live, file);
          UnrelatedCall(
            Own(selector, literal, line, StaticPrefix(live), file), FoundIn(arguments, StaticPrefix(live), file),
            LiveIn(arguments, live), ExtraIn(arguments, StaticPrefix(live), file));
        }
      case Group(literal, body) =>
        StaticIsCleanedLive(live, literal);
        ScanIsCleanedWalk(body, LiveJoin(live, literal), file);
      case Other(children) =>
        ScanIsCleanedWalk(children, live, file);
    }
  }

  lemma CallAndArguments(own: seq<RegisteredRoute>, walk: seq<Served>, inside: seq<RegisteredRoute>)
    requires SplitsInto(own, walk, [])
    ensures SplitsInto(own + inside, walk, inside)
  {
    assert SplitsInto(inside, [], inside);
    SplitsConcat(own, walk, [], inside, [], inside);
    assert walk + [] == walk && [] + inside == inside;
  }

  lemma UnrelatedCall(
    own: seq<RegisteredRoute>, inside: seq<RegisteredRoute>, walk: seq<Served>, extra: seq<RegisteredRoute>)
    requires SplitsInto(inside, walk, extra)
    ensures SplitsInto(own + inside, walk, own + extra)
  {
    assert SplitsInto(own, [], own);
    SplitsConcat(own, [], own, inside, walk, extra);
    assert [] + walk == walk;
  }

  lemma RegisteringCall(selector: string, literal: string, line: nat, live: string, file: string)
    requires Rooted(literal) && ChiMethod(selector).Some? && RootedPrefix(live)
    ensures SplitsInto(
              Own(selector, literal, line, StaticPrefix(live), file),
              [Served(ChiMethod(selector).value, LiveJoin(live, literal))], [])
  {
    var served := Served(ChiMethod(selector).value, LiveJoin(live, literal));
    MethodNamesCall(selector, selector);
    StaticIsCleanedLive(live, literal);
    assert [served][1..] == [];
    if selector in CHI_ROUTER_METHODS {
      UpperIsChi(selector);
      assert Known([served]) == [served];
      assert Keys(Own(selector, literal, line, StaticPrefix(live), file)) == CleanKeys([served]);
    } else {
      assert Known([served]) == [];
    }
  }

  lemma InMultiset(s: seq<string>, k: string)
    ensures k in multiset(s) <==> k in s
  {
  }

  /** The scanner's map: unrelated calls can only add to the cleaned live routes. */
  lemma ScannedKeys(ns: seq<Node>, file: string)
    requires Registrable(ns)
    ensures Recorded(map[], FoundIn(ns, "", file)).Keys ==
            Elements(CleanKeys(Known(LiveIn(ns, "")))) + Elements(Keys(ExtraIn(ns, "", file)))
  {
    ScanIsCleanedWalk(ns, "", file);
    RecordedKeys(map[], FoundIn(ns, "", file));
    var found, walked := Keys(FoundIn(ns, "", file)), CleanKeys(Known(LiveIn(ns, "")));
    var extra := Keys(ExtraIn(ns, "", file));
    forall k
      ensures k in found <==> k in walked || k in extra
    {
      InMultiset(found, k);
      InMultiset(walked, k);
      InMultiset(extra, k);
    }
  }

  // ------------------------------------------------------------------
  // Which call a key comes from
  // ------------------------------------------------------------------

  /** A call the scanner records: the name it is made by, the joined path and its line. */
  datatype RecordedCall = RecordedCall(selector: string, path: string, line: nat)

  function Calls(n: Node, prefix: string): seq<RecordedCall>
    decreases n, 0
  {
    match n
    case Call(selector, literal, line, _, arguments) =>
      (if selector in {"Get", "Post", "Put", "Patch", "Delete"}
       then [RecordedCall(selector, JoinRoutePath(prefix, literal), line)] else [])
      + CallsIn(arguments, prefix)
    case Group(literal, body) => CallsIn(body, JoinRoutePath(prefix, literal))
    case Other(children) => CallsIn(children, prefix)
  }

  function CallsIn(ns: seq<Node>, prefix: string): seq<RecordedCall>
    decreases ns, 0
  {
    if ns == [] then [] else Calls(ns[0], prefix) + CallsIn(ns[1..], prefix)
  }

  /** Each registration is a call's, with chi's method for it, in the scanned file and on the call's line. */
  ghost predicate FromCalls(rs: seq<RegisteredRoute>, calls: seq<RecordedCall>, file: string) {
    && |rs| == |calls|
    && forall i | 0 <= i < |rs| ::
         && calls[i].selector in CHI_ROUTER_METHODS
         && rs[i] == RegisteredRoute(ChiMethod(calls[i].selector).value, calls[i].path, file, calls[i].line)
  }

  lemma FromCallsConcat(
    a: seq<RegisteredRoute>, b: seq<RegisteredRoute>, c: seq<RecordedCall>, d: seq<RecordedCall>, file: string)
    requires FromCalls(a, c, file) && FromCalls(b, d, file)
    ensures FromCalls(a + b, c + d, file)
  {
  }

  lemma {:induction false} FoundFromCalls(ns: seq<Node>, prefix: string, file: string)
    ensures FromCalls(FoundIn(ns, prefix, file), CallsIn(ns, prefix), file)
    decreases ns, 1
  {
    if ns != [] {
      NodeFromCalls(ns[0], prefix, file);
      FoundFromCalls(ns[1..], prefix, file);
      FromCallsConcat(
        Found(ns[0], prefix, file), FoundIn(ns[1..], prefix, file),
        Calls(ns[0], prefix), CallsIn(ns[1..], prefix), file);
    }
  }

  lemma {:induction false} NodeFromCalls(n: Node, prefix: string, file: string)
    ensures FromCalls(Found(n, prefix, file), Calls(n, prefix), file)
    decreases n, 1
  {
    match n {
      case Call(selector, literal, line, _, arguments) =>
        var own := Own(selector, literal, line, prefix, file);
        var call := if own == [] then [] else [RecordedCall(selector, JoinRoutePath(prefix, literal), line)];
        if selector in CHI_ROUTER_METHODS {
          UpperIsChi(selector);
        }
        FoundFromCalls(arguments, prefix, file);
        FromCallsConcat(own, FoundIn(arguments, prefix, file), call, CallsIn(arguments, prefix), file);
      case Group(literal, body) => FoundFromCalls(body, JoinRoutePath(prefix, literal), file);
      case Other(children) => FoundFromCalls(children, prefix, file);
    }
  }

  /** A key falls apart at its first space in one way only. */
  lemma {:induction false} SpaceFree(m: string, p: string, n: string, q: string)
    requires m + " " + p == n + " " + q && ' ' !in m && ' ' !in n
    ensures m == n && p == q
  {
    var key := m + " " + p;
    assert key[0] == if m == "" then ' ' else m[0];
    assert key[0] == if n == "" then ' ' else n[0];
    if m != "" {
      assert key[1..] == m[1..] + " " + p && key[1..] == n[1..] + " " + q;
      SpaceFree(m[1..], p, n[1..], q);
      assert m == [m[0]] + m[1..] && n == [n[0]] + n[1..];
    } else {
      assert key[1..] == p && key[1..] == q;
    }
  }

  ghost predicate SomeCall(calls: seq<RecordedCall>, selector: string, path: string) {
    exists i | 0 <= i < |calls| :: calls[i].selector == selector && calls[i].path == path
  }

  /** A method and a path are a scanned key exactly when a call by that method's own name records that path. */
  lemma KeyNamesCall(ns: seq<Node>, prefix: string, file: string, selector: string, path: string)
    requires selector in CHI_ROUTER_METHODS
    ensures ChiMethod(selector).value + " " + path in Keys(FoundIn(ns, prefix, file)) <==>
            SomeCall(CallsIn(ns, prefix), selector, path)
  {
    var found, calls := FoundIn(ns, prefix, file), CallsIn(ns, prefix);
    FoundFromCalls(ns, prefix, file);
    MethodsHoldNoSpace(selector);
    var key := ChiMethod(selector).value + " " + path;
    if key in Keys(found) {
      var i :| 0 <= i < |found| && Keys(found)[i] == key;
      MethodsHoldNoSpace(calls[i].selector);
      SpaceFree(found[i].verb, found[i].path, ChiMethod(selector).value, path);
      MethodNamesCall(selector, calls[i].selector);
    }
    if SomeCall(calls, selector, path) {
      var i :| 0 <= i < |calls| && calls[i].selector == selector && calls[i].path == path;
      assert Keys(found)[i] == key;
    }
  }

  /** Spelled out for the five methods. */
  lemma FiveMethods(ns: seq<Node>, prefix: string, file: string, path: string)
    ensures var keys, calls := Keys(FoundIn(ns, prefix, file)), CallsIn(ns, prefix);
      && ("GET" + " " + path in keys <==> SomeCall(calls, "Get", path))
      && ("POST" + " " + path in keys <==> SomeCall(calls, "Post", path))
      && ("PUT" + " " + path in keys <==> SomeCall(calls, "Put", path))
      && ("PATCH" + " " + path in keys <==> SomeCall(calls, "Patch", path))
      && ("DELETE" + " " + path in keys <==> SomeCall(calls, "Delete", path))
  {
    KeyNamesCall(ns, prefix, file, "Get", path);
    KeyNamesCall(ns, prefix, file, "Post", path);
    KeyNamesCall(ns, prefix, file, "Put", path);
    KeyNamesCall(ns, prefix, file, "Patch", path);
    KeyNamesCall(ns, prefix, file, "Delete", path);
  }

  /** And a route is listed by `Routes` exactly when the router serves that method at that path. */
  lemma ListedIff(walk: seq<Served>, verb: string, path: string)
    requires ' ' !in verb && forall i | 0 <= i < |walk| :: ' ' !in walk[i].verb
    ensures verb + " " + path in LiveKeys(walk) <==>
            exists i | 0 <= i < |walk| :: walk[i].verb == verb && TrimGroupRootSlash(walk[i].route) == path
  {
    var key := verb + " " + path;
    if key in LiveKeys(walk) {
      var i :| 0 <= i < |walk| && LiveKeys(walk)[i] == key;
      SpaceFree(walk[i].verb, TrimGroupRootSlash(walk[i].route), verb, path);
    }
    if i :| 0 <= i < |walk| && walk[i].verb == verb && TrimGroupRootSlash(walk[i].route) == path {
      assert LiveKeys(walk)[i] == key;
    }
  }

  // ------------------------------------------------------------------
  // When the two tables agree
  // ------------------------------------------------------------------

  /** Every path the router serves, its group-root slash trimmed, is "/" or has plain segments only. */
  predicate AllNormal(walk: seq<Served>) {
    forall i | 0 <= i < |walk| :: Normal(TrimGroupRootSlash(walk[i].route))
  }

  /** What the walk reports is rooted and has a method of chi's. */
  predicate Proper(walk: seq<Served>) {
    forall i | 0 <= i < |walk| :: Rooted(walk[i].route) && ' ' !in walk[i].verb
  }

  lemma ProperConcat(a: seq<Served>, b: seq<Served>)
    requires Proper(a) && Proper(b)
    ensures Proper(a + b)
  {
  }

  lemma {:induction false} ServedAreProper(ns: seq<Node>, live: string)
    requires Registrable(ns) && RootedPrefix(live)
    ensures Proper(LiveIn(ns, live))
    decreases ns, 1
  {
    if ns != [] {
      NodeServesProper(ns[0], live);
      ServedAreProper(ns[1..], live);
      ProperConcat(Live(ns[0], live), LiveIn(ns[1..], live));
    }
  }

  lemma {:induction false} NodeServesProper(n: Node, live: string)
    requires RegistrableNode(n) && RootedPrefix(live)
    ensures Proper(Live(n, live))
    decreases n, 1
  {
    match n {
      case Call(selector, literal, _, registers, arguments) =>
        if registers {
          StaticIsCleanedLive(live, literal);
          MethodsHoldNoSpace(selector);
        } else {
          ServedAreProper(arguments, live);
        }
      case Group(literal, body) =>
        StaticIsCleanedLive(live, literal);
        ServedAreProper(body, LiveJoin(live, literal));
      case Other(children) => ServedAreProper(children, live);
    }
  }

  predicate NormalIfRooted(rs: seq<RegisteredRoute>) {
    forall i | 0 <= i < |rs| :: Rooted(rs[i].path) ==> Normal(rs[i].path)
  }

  lemma NormalIfRootedConcat(a: seq<RegisteredRoute>, b: seq<RegisteredRoute>)
    requires NormalIfRooted(a) && NormalIfRooted(b)
    ensures NormalIfRooted(a + b)
  {
  }

  /** Whatever the calls, a rooted path that is recorded is normal. */
  lemma {:induction false} RecordedAreNormal(ns: seq<Node>, prefix: string, file: string)
    ensures NormalIfRooted(FoundIn(ns, prefix, file))
    decreases ns, 1
  {
    if ns != [] {
      NodeRecordsNormal(ns[0], prefix, file);
      RecordedAreNormal(ns[1..], prefix, file);
      NormalIfRootedConcat(Found(ns[0], prefix, file), FoundIn(ns[1..], prefix, file));
    }
  }

  lemma {:induction false} NodeRecordsNormal(n: Node, prefix: string, file: string)
    ensures NormalIfRooted(Found(n, prefix, file))
    decreases n, 1
  {
    match n {
      case Call(selector, literal, line, _, arguments) =>
        if Rooted(JoinRoutePath(prefix, literal)) {
          JoinedIsNormal(prefix, literal);
        }
        RecordedAreNormal(arguments, prefix, file);
        NormalIfRootedConcat(Own(selector, literal, line, prefix, file), FoundIn(arguments, prefix, file));
      case Group(literal, body) => RecordedAreNormal(body, JoinRoutePath(prefix, literal), file);
      case Other(children) => RecordedAreNormal(children, prefix, file);
    }
  }

  /** A served route whose key is recorded, by whatever call, is normal and of a known method. */
  lemma RecordedRouteIsNormal(ns: seq<Node>, file: string, s: Served)
    requires Rooted(s.route) && ' ' !in s.verb
    requires Key(s.verb, TrimGroupRootSlash(s.route)) in Keys(FoundIn(ns, "", file))
    ensures Normal(TrimGroupRootSlash(s.route)) && s.verb in SCANNED_METHODS
  {
    var found, calls := FoundIn(ns, "", file), CallsIn(ns, "");
    var j :| 0 <= j < |found| && Keys(found)[j] == Key(s.verb, TrimGroupRootSlash(s.route));
    FoundFromCalls(ns, "", file);
    MethodNamesCall(calls[j].selector, calls[j].selector);
    MethodsHoldNoSpace(calls[j].selector);
    SpaceFree(s.verb, TrimGroupRootSlash(s.route), found[j].verb, found[j].path);
    CleanOfTrimmed(s.route);
    RecordedAreNormal(ns, "", file);
  }

  /** Where every served path is normal, the two sides name them alike. */
  lemma NormalKeysAgree(walk: seq<Served>)
    requires AllNormal(walk) && Proper(walk)
    ensures CleanKeys(walk) == LiveKeys(walk)
  {
    forall i | 0 <= i < |walk|
      ensures Clean(walk[i].route) == TrimGroupRootSlash(walk[i].route)
    {
      CleanOfTrimmed(walk[i].route);
      NormalIsClean(TrimGroupRootSlash(walk[i].route));
    }
  }

  /** Every served path is normal and every served method is one the scanner knows. */
  predicate Scannable(walk: seq<Served>) {
    AllNormal(walk) && AllKnown(walk)
  }

  /**
    Every route the router serves is in the scanner's map exactly when every served path
    is normal and every method known, whatever unrelated calls there are.
  */
  lemma ScanCoversIff(ns: seq<Node>, file: string)
    requires Registrable(ns)
    ensures Elements(LiveKeys(LiveIn(ns, ""))) <= Recorded(map[], FoundIn(ns, "", file)).Keys <==>
            Scannable(LiveIn(ns, ""))
  {
    var walk := LiveIn(ns, "");
    ServedAreProper(ns, "");
    ScannedKeys(ns, file);
    RecordedKeys(map[], FoundIn(ns, "", file));
    if Scannable(walk) {
      AllKnownIsKnown(walk);
      NormalKeysAgree(walk);
    }
    if Elements(LiveKeys(walk)) <= Recorded(map[], FoundIn(ns, "", file)).Keys {
      forall i | 0 <= i < |walk|
        ensures Normal(TrimGroupRootSlash(walk[i].route)) && walk[i].verb in SCANNED_METHODS
      {
        assert LiveKeys(walk)[i] in Elements(LiveKeys(walk));
        RecordedRouteIsNormal(ns, file, walk[i]);
      }
    }
  }

  /** Every extra call happens to name a route that is served. */
  ghost predicate ExtrasAreServed(ns: seq<Node>, file: string)
    requires Registrable(ns)
  {
    Elements(Keys(ExtraIn(ns, "", file))) <= Elements(LiveKeys(LiveIn(ns, "")))
  }

  /** The two tables are equal exactly when, besides, every extra call names a served route. */
  lemma StaticTableIsLiveTableIff(ns: seq<Node>, file: string)
    requires Registrable(ns)
    ensures Recorded(map[], FoundIn(ns, "", file)).Keys == Elements(LiveKeys(LiveIn(ns, ""))) <==>
            Scannable(LiveIn(ns, "")) && ExtrasAreServed(ns, file)
  {
    ScanCoversIff(ns, file);
    ScannedKeys(ns, file);
    ServedAreProper(ns, "");
    if Scannable(LiveIn(ns, "")) {
      AllKnownIsKnown(LiveIn(ns, ""));
      NormalKeysAgree(LiveIn(ns, ""));
    }
  }

  lemma SameElements(a: seq<string>, b: seq<string>)
    requires multiset(a) == multiset(b)
    ensures Elements(a) == Elements(b)
  {
    forall x
      ensures x in a <==> x in b
    {
      InMultiset(a, x);
      InMultiset(b, x);
    }
  }

  /** The same for the list `App.Routes` returns. */
  lemma StaticTableIsLiveTable(ns: seq<Node>, file: string, routes: seq<string>)
    requires Registrable(ns) && multiset(routes) == multiset(LiveKeys(LiveIn(ns, "")))
    ensures Recorded(map[], FoundIn(ns, "", file)).Keys == Elements(routes) <==>
            Scannable(LiveIn(ns, "")) && ExtrasAreServed(ns, file)
  {
    SameElements(routes, LiveKeys(LiveIn(ns, "")));
    StaticTableIsLiveTableIff(ns, file);
  }

  // ------------------------------------------------------------------
  // Clean literals are enough
  // ------------------------------------------------------------------

  /** Plain segments, and perhaps the empty one a closing slash leaves. */
  predicate TidySegments(segs: seq<string>) {
    segs != [] && (AllPlain(segs) || (segs[|segs| - 1] == "" && AllPlain(segs[..|segs| - 1])))
  }

  /** "/a/b", "/a/b/" or "/": no empty, "." or ".." segment before an optional closing slash. */
  predicate TidyLiteral(p: string) {
    Rooted(p) && TidySegments(Split(p, '/')[1..])
  }

  /** Every literal that reaches the router is tidy. */
  predicate Tidy(ns: seq<Node>)
    decreases ns, 0
  {
    ns == [] || (TidyNode(ns[0]) && Tidy(ns[1..]))
  }

  predicate ChiKnows(n: Node) {
    n.Call? ==> ChiMethod(n.selector).Some?
  }

  predicate TidyNode(n: Node)
    decreases n, 0
  {
    match n
    case Call(_, literal, _, registers, arguments) =>
      if registers then TidyLiteral(literal) && ChiKnows(n) else Tidy(arguments)
    case Group(literal, body) => TidyLiteral(literal) && Tidy(body)
    case Other(children) => Tidy(children)
  }

  /** A path without its closing slash, if it has one. */
  function Stem(p: string): string {
    if p != "" && p[|p| - 1] == '/' then p[..|p| - 1] else p
  }

  /** A tidy path's segments after the root, its closing slash aside. */
  lemma TidyStem(p: string)
    requires TidyLiteral(p)
    ensures Split(Stem(p), '/')[0] == "" && AllPlain(Split(Stem(p), '/')[1..])
  {
    SplitRooted(p);
    if p[|p| - 1] == '/' {
      TidyStemSlash(p);
    } else {
      LastSegment(p);
    }
  }

  lemma TidyStemSlash(p: string)
    requires TidyLiteral(p) && p[|p| - 1] == '/'
    ensures Split(Stem(p), '/')[0] == "" && AllPlain(Split(Stem(p), '/')[1..])
  {
    SplitRooted(p);
    SplitOfStem(p);
    TidyWithoutEnd(Split(Stem(p), '/'));
  }

  lemma TidyWithoutEnd(stem: seq<string>)
    requires |stem| >= 1 && TidySegments((stem + [""])[1..])
    ensures AllPlain(stem[1..])
  {
    DropEnds(stem, "");
    var x := (stem + [""])[1..];
    assert x[|x| - 1] == "" && x[..|x| - 1] == stem[1..];
  }

  lemma SplitOfStem(p: string)
    requires p != "" && p[|p| - 1] == '/'
    ensures Split(p, '/') == Split(Stem(p), '/') + [""]
  {
    assert p == Stem(p) + ['/'] + "";
    SplitConcat(Stem(p), "", '/');
  }

  lemma DropEnds<T>(s: seq<T>, last: T)
    requires |s| >= 1
    ensures (s + [last])[1..][..|s| - 1] == s[1..] && (s + [last])[1..][|s| - 1] == last
  {
    assert (s + [last])[1..] == s[1..] + [last];
  }

  lemma {:induction false} LastSegment(p: string)
    requires p != "" && p[|p| - 1] != '/'
    ensures var segs := Split(p, '/'); segs[|segs| - 1] != ""
  {
    if |p| > 1 {
      LastSegment(p[1..]);
    } else {
      assert p[1..] == "";
    }
  }

  lemma TidyConcat(a: seq<string>, b: seq<string>)
    requires AllPlain(a) && TidySegments(b)
    ensures TidySegments(a + b)
  {
    if !AllPlain(b) {
      assert (a + b)[..|a + b| - 1] == a + b[..|b| - 1];
    }
  }

  lemma LiveJoinSplit(live: string, p: string)
    requires Rooted(live) && Rooted(p)
    ensures Split(LiveJoin(live, p), '/') == Split(Stem(live), '/') + Split(p[1..], '/')
  {
    assert LiveJoin(live, p) == Stem(live) + ['/'] + p[1..];
    SplitConcat(Stem(live), p[1..], '/');
  }

  lemma DropFirst(a: seq<string>, b: seq<string>)
    requires a != []
    ensures (a + b)[1..] == a[1..] + b
  {
  }

  /** A tidy path below a tidy group is tidy. */
  lemma TidyJoin(live: string, p: string)
    requires TidyLiteral(live) && TidyLiteral(p)
    ensures TidyLiteral(LiveJoin(live, p))
  {
    TidyStem(live);
    LiveJoinSplit(live, p);
    assert Split(p, '/')[1..] == Split(p[1..], '/') by {
      SplitRooted(p);
      DropFirst([""], Split(p[1..], '/'));
    }
    DropFirst(Split(Stem(live), '/'), Split(p[1..], '/'));
    TidyConcat(Split(Stem(live), '/')[1..], Split(p[1..], '/'));
    assert Rooted(LiveJoin(live, p));
  }

  lemma TidyIsNormal(p: string)
    requires TidyLiteral(p)
    ensures Normal(TrimGroupRootSlash(p))
  {
    if p != "/" {
      TidyStem(p);
      assert TrimGroupRootSlash(p) == Stem(p);
      SplitRooted(Stem(p));
    }
  }

  lemma {:induction false} TidyRegistrable(ns: seq<Node>)
    requires Tidy(ns)
    ensures Registrable(ns)
    decreases ns, 0
  {
    if ns != [] {
      TidyRegistrable(ns[1..]);
      match ns[0] {
        case Call(_, _, _, registers, arguments) =>
          if !registers {
            TidyRegistrable(arguments);
          }
        case Group(_, body) => TidyRegistrable(body);
        case Other(children) => TidyRegistrable(children);
      }
    }
  }

  predicate TidyPrefix(live: string) {
    live == "" || TidyLiteral(live)
  }

  lemma TidyBelow(live: string, literal: string)
    requires TidyPrefix(live) && TidyLiteral(literal)
    ensures TidyLiteral(LiveJoin(live, literal))
  {
    if live != "" {
      TidyJoin(live, literal);
    }
  }

  lemma AllNormalConcat(a: seq<Served>, b: seq<Served>)
    requires AllNormal(a) && AllNormal(b)
    ensures AllNormal(a + b)
  {
  }

  /** A tree of tidy literals serves normal paths only. */
  lemma {:induction false} TidyIsAllNormal(ns: seq<Node>, live: string)
    requires Tidy(ns) && TidyPrefix(live)
    ensures Registrable(ns) && AllNormal(LiveIn(ns, live))
    decreases ns, 1
  {
    TidyRegistrable(ns);
    if ns != [] {
      TidyNodeIsNormal(ns[0], live);
      TidyIsAllNormal(ns[1..], live);
      AllNormalConcat(Live(ns[0], live), LiveIn(ns[1..], live));
    }
  }

  lemma {:induction false} TidyNodeIsNormal(n: Node, live: string)
    requires TidyNode(n) && TidyPrefix(live) && RegistrableNode(n)
    ensures AllNormal(Live(n, live))
    decreases n, 1
  {
    match n {
      case Call(_, literal, _, registers, arguments) =>
        if registers {
          TidyBelow(live, literal);
          TidyIsNormal(LiveJoin(live, literal));
        } else {
          TidyIsAllNormal(arguments, live);
        }
      case Group(literal, body) =>
        TidyBelow(live, literal);
        TidyIsAllNormal(body, LiveJoin(live, literal));
      case Other(children) => TidyIsAllNormal(children, live);
    }
  }

  lemma SplitDoubledSlash()
    ensures Split("/a//b", '/') == ["", "a", "", "b"]
  {
    SplitJoin(["", "a", "", "b"], '/');
    assert Join(["", "a", "", "b"], '/') == "/a//b" by {
      assert ["", "a", "", "b"][1..] == ["a", "", "b"];
      assert ["a", "", "b"][1..] == ["", "b"];
      assert ["", "b"][1..] == ["b"];
    }
  }

  lemma DoubledSlashIsNotNormal()
    ensures !Normal(TrimGroupRootSlash("/a//b"))
  {
    SplitDoubledSlash();
    assert TrimGroupRootSlash("/a//b") == "/a//b";
    assert !Plain(["", "a", "", "b"][1..][1]);
  }

  /** One registration below no group. */
  lemma OneCall(selector: string, path: string)
    requires Rooted(path) && ChiMethod(selector).Some?
    ensures var tree := [Call(selector, path, 1, true, [])];
            Registrable(tree) && LiveIn(tree, "") == [Served(ChiMethod(selector).value, path)]
  {
    var node := Call(selector, path, 1, true, []);
    var tree := [node];
    assert tree[1..] == [];
    assert Registrable(tree[1..]) && RegistrableNode(node);
    assert LiveIn(tree, "") == Live(node, "") + LiveIn(tree[1..], "");
  }

  /** The router serves what the scanner's map lacks. */
  ghost predicate Missed(ns: seq<Node>, file: string) {
    Registrable(ns) && !(Elements(LiveKeys(LiveIn(ns, ""))) <= Recorded(map[], FoundIn(ns, "", file)).Keys)
  }

  /** A doubled slash inside a path is served as written and scanned as one, so the scanner misses the route. */
  lemma UntidyLiteralIsMissed(file: string)
    ensures Missed([Call("Get", "/a//b", 1, true, [])], file)
  {
    var tree := [Call("Get", "/a//b", 1, true, [])];
    OneCall("Get", "/a//b");
    DoubledSlashIsNotNormal();
    assert LiveIn(tree, "")[0].route == "/a//b";
    ScanCoversIff(tree, file);
  }

  /** So does it a route of a method it does not know, however clean its path. */
  lemma UnknownMethodIsMissed(path: string, file: string)
    requires Rooted(path)
    ensures Missed([Call("Head", path, 1, true, [])], file)
  {
    var tree := [Call("Head", path, 1, true, [])];
    OneCall("Head", path);
    assert LiveIn(tree, "")[0].verb == "HEAD";
    ScanCoversIff(tree, file);
  }
}
