/**
  How a group's prefix and a sub-path become one path: `path.Join` with the
  static scanner's fallback, and the concatenation chi's live walk reports, with
  its group-root slash trimmed.
*/
module Paths {
  import opened Text

  /** A segment `path.Clean` leaves alone. */
  predicate Plain(seg: string) {
    seg != "" && seg != "." && seg != ".." && '/' !in seg
  }

  predicate AllPlain(segs: seq<string>) {
    forall i | 0 <= i < |segs| :: Plain(segs[i])
  }

  predicate Rooted(p: string) {
    p != "" && p[0] == '/'
  }

  // ------------------------------------------------------------------
  // path.Clean and path.Join
  // ------------------------------------------------------------------

  function Push(rooted: bool, stack: seq<string>, seg: string): seq<string> {
    if seg == "" || seg == "." then stack
    else if seg == ".." then
      if stack != [] && stack[|stack| - 1] != ".." then stack[..|stack| - 1]
      else if rooted then stack
      else stack + [seg]
    else stack + [seg]
  }

  function Reduce(rooted: bool, stack: seq<string>, segs: seq<string>): seq<string>
    decreases segs
  {
    if segs == [] then stack else Reduce(rooted, Push(rooted, stack, segs[0]), segs[1..])
  }

  function Render(rooted: bool, stack: seq<string>): string {
    if stack == [] then (if rooted then "/" else ".")
    else if rooted then "/" + Join(stack, '/')
    else Join(stack, '/')
  }

  /** `path.Clean`. */
  function Clean(p: string): string {
    if p == "" then "." else Render(Rooted(p), Reduce(Rooted(p), [], Split(p, '/')))
  }

  /** `path.Join` of two elements. */
  function PathJoin(a: string, b: string): string {
    if a == "" && b == "" then "" else if a == "" then Clean(b) else Clean(a + "/" + b)
  }

  /** `joinRoutePath`. */
  function JoinRoutePath(prefix: string, p: string): string {
    var joined := PathJoin(prefix, p);
    if joined == "" then "/" else joined
  }

  // ------------------------------------------------------------------
  // The live side
  // ------------------------------------------------------------------

  /** The path chi's walk reports for `p` below a group mounted at `prefix`; patterns begin with "/". */
  function LiveJoin(prefix: string, p: string): string
    requires Rooted(p)
  {
    if prefix == "" then p
    else if prefix[|prefix| - 1] == '/' then prefix + p[1..]
    else prefix + p
  }

  /** `trimGroupRootSlash`. */
  function TrimGroupRootSlash(route: string): string {
    if route != "/" && HasSuffix(route, "/") then route[..|route| - 1] else route
  }

  // ------------------------------------------------------------------
  // Laws of the reduction
  // ------------------------------------------------------------------

  lemma {:induction false} ReduceConcat(rooted: bool, stack: seq<string>, a: seq<string>, b: seq<string>)
    ensures Reduce(rooted, stack, a + b) == Reduce(rooted, Reduce(rooted, stack, a), b)
    decreases a
  {
    if a == [] {
      assert a + b == b;
    } else {
      assert (a + b)[1..] == a[1..] + b;
      ReduceConcat(rooted, Push(rooted, stack, a[0]), a[1..], b);
    }
  }

  lemma {:induction false} ReducePlain(stack: seq<string>, segs: seq<string>)
    requires AllPlain(segs)
    ensures Reduce(true, stack, segs) == stack + segs
    decreases segs
  {
    if segs != [] {
      ReducePlain(stack + [segs[0]], segs[1..]);
      assert stack + [segs[0]] + segs[1..] == stack + segs;
    }
  }

  /** Below a root, reducing leaves plain segments only. */
  lemma {:induction false} ReduceLeavesPlain(stack: seq<string>, segs: seq<string>)
    requires AllPlain(stack) && forall s | s in segs :: '/' !in s
    ensures AllPlain(Reduce(true, stack, segs))
    decreases segs
  {
    if segs != [] {
      ReduceLeavesPlain(Push(true, stack, segs[0]), segs[1..]);
    }
  }

  /** The segments a rooted path stands for. */
  function Stack(p: string): seq<string> {
    Reduce(true, [], Split(p, '/'))
  }

  lemma StackPlain(p: string)
    ensures AllPlain(Stack(p))
  {
    ReduceLeavesPlain([], Split(p, '/'));
  }

  lemma StackConcat(p: string, s: string)
    ensures Stack(p + "/" + s) == Reduce(true, Stack(p), Split(s, '/'))
  {
    assert p + "/" + s == p + ['/'] + s;
    SplitConcat(p, s, '/');
    ReduceConcat(true, [], Split(p, '/'), Split(s, '/'));
  }

  /** A rendered path splits back into its segments. */
  lemma SplitRender(stack: seq<string>)
    requires AllPlain(stack)
    ensures Split(Render(true, stack), '/') == if stack == [] then ["", ""] else [""] + stack
  {
    if stack == [] {
      SplitJoin(["", ""], '/');
      assert Join(["", ""], '/') == "/" by {
        assert ["", ""][1..] == [""];
      }
    } else {
      var pieces := [""] + stack;
      assert pieces[1..] == stack;
      assert Join(pieces, '/') == Render(true, stack);
      assert forall p | p in stack :: '/' !in p;
      SplitJoin(pieces, '/');
    }
  }

  lemma StackRender(stack: seq<string>)
    requires AllPlain(stack)
    ensures Stack(Render(true, stack)) == stack
  {
    SplitRender(stack);
    if stack == [] {
      assert Reduce(true, [], ["", ""]) == Reduce(true, [], ["", ""][1..]);
      assert ["", ""][1..] == [""];
    } else {
      assert ([""] + stack)[1..] == stack;
      ReducePlain([], stack);
      assert [] + stack == stack;
    }
  }

  lemma RenderRooted(stack: seq<string>)
    ensures Rooted(Render(true, stack))
  {
  }

  /** Cleaning a rooted path twice is cleaning it once, and keeps it rooted. */
  lemma CleanIdempotent(p: string)
    requires Rooted(p)
    ensures Rooted(Clean(p)) && Clean(Clean(p)) == Clean(p) && Stack(Clean(p)) == Stack(p)
  {
    StackPlain(p);
    StackRender(Stack(p));
    RenderRooted(Stack(p));
  }

  lemma JoinRouteIs(prefix: string, p: string)
    requires prefix == "" || Rooted(prefix)
    requires Rooted(p)
    ensures JoinRoutePath(prefix, p) ==
            Render(true, Reduce(true, if prefix == "" then [] else Stack(prefix), Split(p, '/')))
    ensures Rooted(JoinRoutePath(prefix, p))
  {
    if prefix != "" {
      assert Rooted(prefix + "/" + p);
      StackConcat(prefix, p);
    }
  }

  /** Without "..", reducing only appends. */
  lemma {:induction false} ReduceAppends(stack: seq<string>, segs: seq<string>)
    requires ".." !in segs
    ensures Reduce(true, stack, segs) == stack + Reduce(true, [], segs)
    decreases segs
  {
    if segs == [] {
      assert stack + [] == stack;
    } else {
      ReduceAppends(Push(true, stack, segs[0]), segs[1..]);
      ReduceAppends(Push(true, [], segs[0]), segs[1..]);
    }
  }

  /** Reducing onto a rendered path appends its segments. */
  lemma ReduceRendered(stack: seq<string>, more: seq<string>)
    requires AllPlain(more)
    ensures Reduce(true, stack, Split(Render(true, more), '/')) == stack + more
  {
    SplitRender(more);
    if more == [] {
      assert ["", ""][1..] == [""];
      assert Reduce(true, stack, ["", ""]) == stack;
    } else {
      ReduceRooted(stack, more);
    }
  }

  /** The segments a join ends with. */
  lemma JoinAppends(a: string, b: string)
    requires Rooted(a) && Rooted(b) && ".." !in Split(b, '/')
    ensures JoinRoutePath(a, b) == Render(true, Stack(a) + Stack(b))
    ensures AllPlain(Stack(a) + Stack(b)) && Stack(JoinRoutePath(a, b)) == Stack(a) + Stack(b)
  {
    JoinRouteIs(a, b);
    ReduceAppends(Stack(a), Split(b, '/'));
    StackPlain(a);
    StackPlain(b);
    StackRender(Stack(a) + Stack(b));
  }

  lemma JoinToTheLeft(a: string, b: string, c: string)
    requires Rooted(a) && Rooted(b) && Rooted(c)
    requires ".." !in Split(b, '/') && ".." !in Split(c, '/')
    ensures JoinRoutePath(JoinRoutePath(a, b), c) == Render(true, Stack(a) + Stack(b) + Stack(c))
  {
    JoinAppends(a, b);
    JoinRouteIs(a, b);
    var ab := JoinRoutePath(a, b);
    JoinAppends(ab, c);
  }

  lemma JoinToTheRight(a: string, b: string, c: string)
    requires Rooted(a) && Rooted(b) && Rooted(c)
    requires ".." !in Split(b, '/') && ".." !in Split(c, '/')
    ensures JoinRoutePath(a, JoinRoutePath(b, c)) == Render(true, Stack(a) + (Stack(b) + Stack(c)))
  {
    JoinAppends(b, c);
    JoinRouteIs(b, c);
    var bc := JoinRoutePath(b, c);
    JoinRouteIs(a, bc);
    ReduceRendered(Stack(a), Stack(b) + Stack(c));
  }

  /** Joining is associative on sub-paths without "..", so where a tree is cut into groups does not matter. */
  lemma JoinRoutePathAssociative(a: string, b: string, c: string)
    requires Rooted(a) && Rooted(b) && Rooted(c)
    requires ".." !in Split(b, '/') && ".." !in Split(c, '/')
    ensures JoinRoutePath(JoinRoutePath(a, b), c) == JoinRoutePath(a, JoinRoutePath(b, c))
  {
    JoinToTheLeft(a, b, c);
    JoinToTheRight(a, b, c);
    ConcatAssociative(Stack(a), Stack(b), Stack(c));
  }

  lemma SplitRooted(p: string)
    requires Rooted(p)
    ensures Split(p, '/') == [""] + Split(p[1..], '/')
  {
  }

  lemma ReduceRooted(stack: seq<string>, segs: seq<string>)
    requires AllPlain(segs)
    ensures Reduce(true, stack, [""] + segs) == stack + segs
  {
    assert ([""] + segs)[1..] == segs;
    ReducePlain(stack, segs);
  }

  // ------------------------------------------------------------------
  // The two sides agree
  // ------------------------------------------------------------------

  /** The static prefix that corresponds to a live one. */
  function StaticPrefix(live: string): string {
    if live == "" then "" else Clean(live)
  }

  lemma TrailingSlash(p: string)
    ensures Stack(p + "/") == Stack(p)
  {
    StackConcat(p, "");
    assert p + "/" + "" == p + "/";
    assert Reduce(true, Stack(p), [""]) == Reduce(true, Stack(p), [""][1..]);
  }

  lemma ReduceLeadingBlank(stack: seq<string>, segs: seq<string>)
    ensures Reduce(true, stack, [""] + segs) == Reduce(true, stack, segs)
  {
    assert ([""] + segs)[1..] == segs;
  }

  /** A group's pattern without the slash it may end in. */
  function Base(live: string): string {
    if live != "" && live[|live| - 1] == '/' then live[..|live| - 1] else live
  }

  lemma StackOfSlashed(base: string, live: string)
    requires live == base + "/"
    ensures Stack(base) == Stack(live)
  {
    TrailingSlash(base);
  }

  lemma StackOfBase(live: string)
    ensures Stack(Base(live)) == Stack(live)
  {
    if live != "" && live[|live| - 1] == '/' {
      StackOfSlashed(Base(live), live);
    }
  }

  lemma LiveJoinIs(live: string, p: string)
    requires Rooted(live) && Rooted(p)
    ensures LiveJoin(live, p) == Base(live) + "/" + p[1..]
    ensures Rooted(LiveJoin(live, p))
  {
    assert p == "/" + p[1..];
  }

  lemma StackBelow(base: string, p: string)
    requires Rooted(p)
    ensures Stack(base + "/" + p[1..]) == Reduce(true, Stack(base), Split(p, '/'))
  {
    SplitRooted(p);
    ReduceLeadingBlank(Stack(base), Split(p[1..], '/'));
    StackConcat(base, p[1..]);
  }

  /** The segments of a live path below a group. */
  lemma LiveStack(live: string, p: string)
    requires Rooted(live) && Rooted(p)
    ensures Rooted(LiveJoin(live, p))
    ensures Stack(LiveJoin(live, p)) == Reduce(true, Stack(live), Split(p, '/'))
  {
    LiveJoinIs(live, p);
    StackBelow(Base(live), p);
    StackOfBase(live);
  }

  /** Whatever the literals, the scanner's path is the cleaned form of the path the router serves. */
  lemma StaticIsCleanedLive(live: string, p: string)
    requires live == "" || Rooted(live)
    requires Rooted(p)
    ensures Rooted(LiveJoin(live, p))
    ensures JoinRoutePath(StaticPrefix(live), p) == Clean(LiveJoin(live, p))
  {
    if live == "" {
      JoinRouteIs("", p);
    } else {
      CleanIdempotent(live);
      JoinRouteIs(Clean(live), p);
      LiveStack(live, p);
    }
  }

  /** "/" or "/a/b/c" with plain segments. */
  predicate Normal(p: string) {
    p == "/" || (Rooted(p) && Split(p, '/') != [""] && AllPlain(Split(p, '/')[1..]))
  }

  lemma NormalIsClean(p: string)
    requires Normal(p)
    ensures Clean(p) == p
  {
    SplitRooted(p);
    if p == "/" {
      StackRender([]);
    } else {
      var segs := Split(p, '/')[1..];
      ReduceRooted([], segs);
      assert [] + segs == segs;
      assert Join(Split(p, '/'), '/') == p;
    }
  }

  lemma CleanFixesExactlyNormal(p: string)
    requires Rooted(p)
    ensures Clean(p) == p <==> Normal(p)
  {
    if Normal(p) {
      NormalIsClean(p);
    }
    StackPlain(p);
    SplitRender(Stack(p));
  }

  /** A group-root slash makes no difference to the cleaned path. */
  lemma CleanOfTrimmed(served: string)
    requires Rooted(served)
    ensures Rooted(TrimGroupRootSlash(served)) && Clean(TrimGroupRootSlash(served)) == Clean(served)
  {
    var trimmed := TrimGroupRootSlash(served);
    if trimmed != served {
      assert served == trimmed + "/";
      TrailingSlash(trimmed);
    }
  }

  /**
    The scanner and the router name a route the same way exactly when the live
    path, its group-root slash trimmed, has no empty, "." or ".." segment.
  */
  lemma SidesAgreeIffNormal(live: string, p: string)
    requires live == "" || Rooted(live)
    requires Rooted(p)
    ensures JoinRoutePath(StaticPrefix(live), p) == TrimGroupRootSlash(LiveJoin(live, p))
            <==> Normal(TrimGroupRootSlash(LiveJoin(live, p)))
  {
    StaticIsCleanedLive(live, p);
    CleanOfTrimmed(LiveJoin(live, p));
    CleanFixesExactlyNormal(TrimGroupRootSlash(LiveJoin(live, p)));
  }

  predicate Unslashed(segs: seq<string>) {
    forall i | 0 <= i < |segs| :: segs[i] != "" && '/' !in segs[i]
  }

  /** Reducing an unrooted path leaves no empty segment and no slash. */
  lemma {:induction false} ReduceLeavesSegments(stack: seq<string>, segs: seq<string>)
    requires Unslashed(stack) && forall s | s in segs :: '/' !in s
    ensures Unslashed(Reduce(false, stack, segs))
    decreases segs
  {
    if segs != [] {
      assert segs[0] in segs;
      assert Unslashed(Push(false, stack, segs[0]));
      ReduceLeavesSegments(Push(false, stack, segs[0]), segs[1..]);
    }
  }

  lemma UnrootedStaysUnrooted(p: string)
    requires !Rooted(p)
    ensures !Rooted(Clean(p))
  {
    if p != "" {
      ReduceLeavesSegments([], Split(p, '/'));
      var stack := Reduce(false, [], Split(p, '/'));
      if stack != [] {
        assert Join(stack, '/')[0] == stack[0][0];
      }
    }
  }

  lemma CleanIsNormal(p: string)
    requires Rooted(p)
    ensures Normal(Clean(p))
  {
    CleanIdempotent(p);
    CleanFixesExactlyNormal(Clean(p));
  }

  /** Whatever the prefix and the literal, a rooted path the scanner records is normal. */
  lemma JoinedIsNormal(prefix: string, p: string)
    requires Rooted(JoinRoutePath(prefix, p))
    ensures Normal(JoinRoutePath(prefix, p))
  {
    if PathJoin(prefix, p) != "" {
      var whole := if prefix == "" then p else prefix + "/" + p;
      if !Rooted(whole) {
        UnrootedStaysUnrooted(whole);
      } else {
        CleanIsNormal(whole);
      }
    }
  }

  // ------------------------------------------------------------------
  // What cleaning does to a path
  // ------------------------------------------------------------------

  lemma SplitPlain(seg: string)
    requires '/' !in seg
    ensures Split(seg, '/') == [seg]
  {
    SplitJoin([seg], '/');
  }

  lemma SplitTwo(a: string, b: string)
    requires '/' !in a && '/' !in b
    ensures Split(a + "/" + b, '/') == [a, b]
  {
    assert a + "/" + b == a + ['/'] + b;
    SplitConcat(a, b, '/');
    SplitPlain(a);
    SplitPlain(b);
  }

  lemma ReduceOne(rooted: bool, stack: seq<string>, seg: string)
    ensures Reduce(rooted, stack, [seg]) == Push(rooted, stack, seg)
  {
    assert [seg][1..] == [];
  }

  lemma ReduceTwo(rooted: bool, stack: seq<string>, a: string, b: string)
    ensures Reduce(rooted, stack, [a, b]) == Push(rooted, Push(rooted, stack, a), b)
  {
    assert [a, b][1..] == [b];
    ReduceOne(rooted, Push(rooted, stack, a), b);
  }

  /** A segment is added at the end. */
  lemma CleanAppends(p: string, seg: string)
    requires Rooted(p) && Plain(seg)
    ensures Stack(p + "/" + seg) == Stack(p) + [seg]
  {
    StackConcat(p, seg);
    SplitPlain(seg);
    ReduceOne(true, Stack(p), seg);
  }

  /** ".." takes back the segment before it. */
  lemma DotDotTakesBack(p: string, seg: string)
    requires Rooted(p) && Plain(seg)
    ensures Clean(p + "/" + (seg + "/" + "..")) == Clean(p)
  {
    StackConcat(p, seg + "/" + "..");
    SplitTwo(seg, "..");
    ReduceTwo(true, Stack(p), seg, "..");
    assert (Stack(p) + [seg])[..|Stack(p)|] == Stack(p);
    assert Rooted(p + "/" + (seg + "/" + ".."));
  }

  /** At the root it has nothing to take back, and ".", and a doubled slash, change nothing. */
  lemma DotsAndSlashes(p: string)
    requires Rooted(p)
    ensures Clean("/" + "..") == "/"
    ensures Clean(p + "/" + ".") == Clean(p) && Clean(p + "/" + "") == Clean(p)
  {
    SplitTwo("", "..");
    assert "" + "/" + ".." == "/" + "..";
    ReduceTwo(true, [], "", "..");
    StackConcat(p, ".");
    SplitPlain(".");
    ReduceOne(true, Stack(p), ".");
    StackConcat(p, "");
    SplitPlain("");
    ReduceOne(true, Stack(p), "");
  }

  /** Without a root, ".." at the front is kept, and takes back what precedes it otherwise. */
  lemma UnrootedDotDot(seg: string)
    requires Plain(seg)
    ensures Clean(".." + "/" + seg) == ".." + "/" + seg
    ensures Clean(seg + "/" + "..") == "."
  {
    SplitTwo("..", seg);
    ReduceTwo(false, [], "..", seg);
    assert [".."] + [seg] == ["..", seg] && ["..", seg][1..] == [seg];
    SplitTwo(seg, "..");
    ReduceTwo(false, [], seg, "..");
    assert !Rooted(".." + "/" + seg) && !Rooted(seg + "/" + "..");
  }

  /** A join of nothing is the root; with one part missing it is the other, cleaned. */
  lemma JoinOfNothing(p: string)
    requires p != ""
    ensures JoinRoutePath("", "") == "/" && JoinRoutePath("", p) == PathJoin("", p) == Clean(p)
  {
    if Clean(p) == "" {
      CleanIsNotEmpty(p);
    }
  }

  lemma CleanIsNotEmpty(p: string)
    ensures Clean(p) != ""
  {
    if p != "" && !Rooted(p) {
      ReduceLeavesSegments([], Split(p, '/'));
    }
  }

  /** Exactly one closing slash is taken off, and never the root's own. */
  lemma TrimIs(p: string)
    ensures TrimGroupRootSlash("/") == "/"
    ensures p != "" ==> TrimGroupRootSlash(p + "/") == p
    ensures p == "" || p[|p| - 1] != '/' ==> TrimGroupRootSlash(p) == p
  {
    if p != "" {
      assert p + "/" != "/" && (p + "/")[|p|..] == "/";
      if HasSuffix(p, "/") {
        assert p[|p| - 1..][0] == '/';
      }
    }
  }
}
