/** `CheckMigrationVersions` and `CheckMigrationGaps` over the files of a migrations directory. */
module MigrationChecks {
  import opened Text
  import opened MigrationNames

  /** Files as the loader returns them: each is what its own name parses to. */
  ghost predicate Loaded(files: seq<MigrationFile>) {
    forall f | f in files :: ParseMigrationName(f.name) == Ok(f)
  }

  predicate Matches(f: MigrationFile, version: int, direction: Direction) {
    f.version == version && f.direction == direction
  }

  /** The names of one version's files in one direction, in file order. */
  function Names(files: seq<MigrationFile>, version: int, direction: Direction): seq<string> {
    if files == [] then [] else
      var last := files[|files| - 1];
      Names(files[..|files| - 1], version, direction) + if Matches(last, version, direction) then [last.name] else []
  }

  function Versions(files: seq<MigrationFile>): set<int> {
    if files == [] then {} else Versions(files[..|files| - 1]) + {files[|files| - 1].version}
  }

  lemma {:induction false} VersionsHas(files: seq<MigrationFile>, version: int)
    ensures version in Versions(files) <==> exists f | f in files :: f.version == version
  {
    if files != [] {
      VersionsHas(files[..|files| - 1], version);
      assert files == files[..|files| - 1] + [files[|files| - 1]];
    }
  }

  datatype Problem =
    | TwoUps(version: int, names: seq<string>)
    | TwoDowns(version: int, names: seq<string>)
    | NoUp(version: int)
    | NoDown(version: int)
    | SlugsDiffer(version: int, up: string, down: string)

  function SlugIn(name: string): string {
    var f := ParseMigrationName(name);
    if f.Ok? then f.value.slug else ""
  }

  /** What is wrong with a version that has these files, `slug` being how a name's slug is read. */
  function ProblemsOf(slug: string -> string, version: int, up: seq<string>, down: seq<string>): (ps: seq<Problem>)
    ensures forall i | 0 <= i < |ps| :: ps[i].version == version
    ensures ps == [] <==> |up| == 1 && |down| == 1 && slug(up[0]) == slug(down[0])
  {
    (if |up| > 1 then [TwoUps(version, up)] else [])
    + (if |down| > 1 then [TwoDowns(version, down)] else [])
    + (if up == [] then [NoUp(version)] else [])
    + (if down == [] then [NoDown(version)] else [])
    + (if |up| == 1 && |down| == 1 && slug(up[0]) != slug(down[0])
       then [SlugsDiffer(version, slug(up[0]), slug(down[0]))] else [])
  }

  /** The problem is one of these files. */
  predicate IsProblem(slug: string -> string, version: int, up: seq<string>, down: seq<string>, p: Problem) {
    match p
    case TwoUps(v, names) => v == version && names == up && |up| >= 2
    case TwoDowns(v, names) => v == version && names == down && |down| >= 2
    case NoUp(v) => v == version && |up| == 0
    case NoDown(v) => v == version && |down| == 0
    case SlugsDiffer(v, a, b) =>
      v == version && |up| == 1 && |down| == 1 && a == slug(up[0]) && b == slug(down[0]) && a != b
  }

  /** Each problem there is reported, and nothing else. */
  lemma ProblemsAre(slug: string -> string, version: int, up: seq<string>, down: seq<string>, p: Problem)
    ensures p in ProblemsOf(slug, version, up, down) <==> IsProblem(slug, version, up, down, p)
  {
    var ups := if |up| > 1 then [TwoUps(version, up)] else [];
    var downs := if |down| > 1 then [TwoDowns(version, down)] else [];
    assert p in ups + downs <==> p in ups || p in downs;
  }

  function ProblemsAt(slug: string -> string, files: seq<MigrationFile>, version: int): seq<Problem> {
    ProblemsOf(slug, version, Names(files, version, Up), Names(files, version, Down))
  }

  /** The problems of the given versions, in the order given. */
  function ProblemsIn(slug: string -> string, files: seq<MigrationFile>, versions: seq<int>): seq<Problem> {
    if versions == [] then [] else
      ProblemsIn(slug, files, versions[..|versions| - 1]) + ProblemsAt(slug, files, versions[|versions| - 1])
  }

  datatype Pair = Pair(up: seq<string>, down: seq<string>)

  // ------------------------------------------------------------------
  // Ascending lists of versions
  // ------------------------------------------------------------------

  predicate Ascending(s: seq<int>) {
    forall i, j | 0 <= i < j < |s| :: s[i] < s[j]
  }

  predicate Distinct(s: seq<int>) {
    forall i, j | 0 <= i < j < |s| :: s[i] != s[j]
  }

  function InsertInt(x: int, s: seq<int>): seq<int> {
    if s == [] || x < s[0] then [x] + s else [s[0]] + InsertInt(x, s[1..])
  }

  /** `sort.Ints`. */
  function SortInts(s: seq<int>): seq<int> {
    if s == [] then [] else InsertInt(s[0], SortInts(s[1..]))
  }

  lemma {:induction false} InsertIntHas(x: int, s: seq<int>)
    ensures forall y :: y in InsertInt(x, s) <==> y == x || y in s
  {
    if s != [] && x >= s[0] {
      InsertIntHas(x, s[1..]);
      assert s == [s[0]] + s[1..];
    }
  }

  lemma {:induction false} InsertIntAscends(x: int, s: seq<int>)
    requires Ascending(s) && x !in s
    ensures Ascending(InsertInt(x, s))
  {
    if s != [] && x >= s[0] {
      var rest := InsertInt(x, s[1..]);
      assert s[0] in s;
      InsertIntAscends(x, s[1..]);
      InsertIntHas(x, s[1..]);
      forall i | 0 <= i < |rest|
        ensures s[0] < rest[i]
      {
        assert rest[i] in rest;
      }
    }
  }

  lemma {:induction false} SortIntsAscends(s: seq<int>)
    requires Distinct(s)
    ensures Ascending(SortInts(s)) && forall y :: y in SortInts(s) <==> y in s
  {
    if s != [] {
      SortIntsAscends(s[1..]);
      InsertIntHas(s[0], SortInts(s[1..]));
      assert s == [s[0]] + s[1..];
      assert s[0] !in s[1..];
      InsertIntAscends(s[0], SortInts(s[1..]));
    }
  }

  /** An ascending list is determined by its members. */
  lemma {:induction false} AscendingUnique(a: seq<int>, b: seq<int>)
    requires Ascending(a) && Ascending(b) && forall y :: y in a <==> y in b
    ensures a == b
  {
    assert a != [] ==> a[0] in a;
    assert b != [] ==> b[0] in b;
    if a != [] {
      forall y
        ensures y in a[1..] <==> y in b[1..]
      {
        TailHas(a, y);
        TailHas(b, y);
      }
      AscendingUnique(a[1..], b[1..]);
      assert a == [a[0]] + a[1..] && b == [b[0]] + b[1..];
    }
  }

  lemma TailHas(s: seq<int>, y: int)
    requires s != [] && Ascending(s)
    ensures y in s[1..] <==> y in s && y != s[0]
  {
    assert s == [s[0]] + s[1..];
  }

  /** The versions present, each once, in ascending order. */
  function VersionList(files: seq<MigrationFile>): seq<int> {
    if files == [] then [] else
      var before, v := VersionList(files[..|files| - 1]), files[|files| - 1].version;
      if v in before then before else InsertInt(v, before)
  }

  lemma {:induction false} VersionListIs(files: seq<MigrationFile>)
    ensures Ascending(VersionList(files)) && forall v :: v in VersionList(files) <==> v in Versions(files)
  {
    if files != [] {
      var before, v := VersionList(files[..|files| - 1]), files[|files| - 1].version;
      VersionListIs(files[..|files| - 1]);
      if v !in before {
        InsertIntAscends(v, before);
        InsertIntHas(v, before);
      }
    }
  }

  // ------------------------------------------------------------------
  // The check
  // ------------------------------------------------------------------

  /** The map and the versions, each once, that the first loop of the check builds. */
  ghost predicate Grouped(files: seq<MigrationFile>, byVersion: map<int, Pair>, order: seq<int>) {
    && Distinct(order)
    && (forall v :: v in order <==> v in byVersion)
    && byVersion.Keys == Versions(files)
    && (forall v | v in byVersion :: byVersion[v] == Pair(Names(files, v, Up), Names(files, v, Down)))
  }

  lemma {:induction false} NamesEmpty(files: seq<MigrationFile>, version: int, direction: Direction)
    ensures Names(files, version, direction) == [] <==> forall f | f in files :: !Matches(f, version, direction)
  {
    if files != [] {
      NamesEmpty(files[..|files| - 1], version, direction);
      assert files == files[..|files| - 1] + [files[|files| - 1]];
    }
  }

  lemma NoNamesYet(files: seq<MigrationFile>, version: int)
    requires version !in Versions(files)
    ensures Names(files, version, Up) == [] && Names(files, version, Down) == []
  {
    VersionsHas(files, version);
    NamesEmpty(files, version, Up);
    NamesEmpty(files, version, Down);
  }

  function AddName(p: Pair, f: MigrationFile): Pair {
    if f.direction == Up then p.(up := p.up + [f.name]) else p.(down := p.down + [f.name])
  }

  lemma GroupedAdd(files: seq<MigrationFile>, f: MigrationFile, byVersion: map<int, Pair>, order: seq<int>)
    requires Grouped(files, byVersion, order)
    ensures f.version in byVersion ==>
              Grouped(files + [f], byVersion[f.version := AddName(byVersion[f.version], f)], order)
    ensures f.version !in byVersion ==>
              Grouped(files + [f], byVersion[f.version := AddName(Pair([], []), f)], order + [f.version])
  {
    if f.version !in byVersion {
      NoNamesYet(files, f.version);
    }
    assert (files + [f])[..|files|] == files;
  }

  method GroupByVersion(files: seq<MigrationFile>) returns (byVersion: map<int, Pair>, order: seq<int>)
    ensures Grouped(files, byVersion, order)
  {
    byVersion, order := map[], [];
    for i := 0 to |files|
      invariant Grouped(files[..i], byVersion, order)
    {
      var f := files[i];
      GroupedAdd(files[..i], f, byVersion, order);
      assert files[..i + 1] == files[..i] + [f];
      if f.version !in byVersion {
        byVersion := byVersion[f.version := AddName(Pair([], []), f)];
        order := order + [f.version];
      } else {
        byVersion := byVersion[f.version := AddName(byVersion[f.version], f)];
      }
    }
    assert files[..|files|] == files;
  }

  /** The second loop: one version after the other. */
  method CheckPairs(files: seq<MigrationFile>, slug: string -> string, byVersion: map<int, Pair>, order: seq<int>)
    returns (problems: seq<Problem>)
    requires forall i | 0 <= i < |order| ::
               order[i] in byVersion
               && byVersion[order[i]] == Pair(Names(files, order[i], Up), Names(files, order[i], Down))
    ensures problems == ProblemsIn(slug, files, order)
  {
    problems := [];
    for i := 0 to |order|
      invariant problems == ProblemsIn(slug, files, order[..i])
    {
      var p := byVersion[order[i]];
      problems := problems + ProblemsOf(slug, order[i], p.up, p.down);
      assert order[..i + 1][..i] == order[..i];
    }
    assert order[..|order|] == order;
  }

  /** The problems of each version present, version by version in ascending order, and nothing else. */
  method CheckMigrationVersions(files: seq<MigrationFile>) returns (problems: seq<Problem>)
    ensures problems == ProblemsIn(SlugIn, files, VersionList(files))
  {
    var byVersion, order := GroupByVersion(files);
    SortIntsAscends(order);
    VersionListIs(files);
    AscendingUnique(SortInts(order), VersionList(files));
    order := SortInts(order);
    forall i | 0 <= i < |order|
      ensures order[i] in byVersion
    {
      assert order[i] in order;
    }
    problems := CheckPairs(files, SlugIn, byVersion, order);
  }

  lemma {:induction false} ProblemsInNone(slug: string -> string, files: seq<MigrationFile>, versions: seq<int>)
    ensures ProblemsIn(slug, files, versions) == [] <==> forall v | v in versions :: ProblemsAt(slug, files, v) == []
  {
    if versions != [] {
      ProblemsInNone(slug, files, versions[..|versions| - 1]);
      assert versions == versions[..|versions| - 1] + [versions[|versions| - 1]];
    }
  }

  /** Exactly one file goes up and exactly one comes down, and they share a slug. */
  ghost predicate PairedAt(files: seq<MigrationFile>, version: int) {
    exists i, j | 0 <= i < |files| && 0 <= j < |files| :: PairOf(files, version, i, j)
  }

  ghost predicate PairOf(files: seq<MigrationFile>, version: int, i: nat, j: nat)
    requires i < |files| && j < |files|
  {
    && Matches(files[i], version, Up) && Matches(files[j], version, Down)
    && files[i].slug == files[j].slug
    && forall k | 0 <= k < |files| && files[k].version == version :: k == i || k == j
  }

  lemma {:induction false} OneName(files: seq<MigrationFile>, version: int, direction: Direction) returns (i: nat)
    requires |Names(files, version, direction)| == 1
    ensures i < |files| && Matches(files[i], version, direction) && Names(files, version, direction) == [files[i].name]
    ensures forall k | 0 <= k < |files| && Matches(files[k], version, direction) :: k == i
  {
    var before := files[..|files| - 1];
    if Matches(files[|files| - 1], version, direction) {
      i := |files| - 1;
      NamesEmpty(before, version, direction);
      forall k | 0 <= k < i
        ensures !Matches(files[k], version, direction)
      {
        assert before[k] in before;
      }
    } else {
      i := OneName(before, version, direction);
      forall k | 0 <= k < |files| && Matches(files[k], version, direction)
        ensures k == i
      {
        assert k < |before| && before[k] == files[k];
      }
    }
  }

  lemma {:induction false} OnlyMatch(files: seq<MigrationFile>, version: int, direction: Direction, i: nat)
    requires i < |files| && Matches(files[i], version, direction)
    requires forall k | 0 <= k < |files| && Matches(files[k], version, direction) :: k == i
    ensures Names(files, version, direction) == [files[i].name]
  {
    var before := files[..|files| - 1];
    if i == |files| - 1 {
      forall f | f in before
        ensures !Matches(f, version, direction)
      {
        var k :| 0 <= k < |before| && before[k] == f;
        assert files[k] == f;
      }
      NamesEmpty(before, version, direction);
    } else {
      assert before[i] == files[i];
      OnlyMatch(before, version, direction, i);
    }
  }

  /** A paired version has exactly one name each way, of one slug. */
  lemma PairedNames(files: seq<MigrationFile>, version: int)
    requires PairedAt(files, version)
    ensures |Names(files, version, Up)| == 1 && |Names(files, version, Down)| == 1
    ensures exists f, g | f in files && g in files ::
              Names(files, version, Up) == [f.name] && Names(files, version, Down) == [g.name] && f.slug == g.slug
  {
    var i, j :| 0 <= i < |files| && 0 <= j < |files| && PairOf(files, version, i, j);
    OnlyMatch(files, version, Up, i);
    OnlyMatch(files, version, Down, j);
    assert files[i] in files && files[j] in files;
  }

  lemma NamesPaired(files: seq<MigrationFile>, slug: string -> string, version: int)
    requires forall f | f in files :: slug(f.name) == f.slug
    ensures ProblemsAt(slug, files, version) == [] <==> PairedAt(files, version)
  {
    if ProblemsAt(slug, files, version) == [] {
      var i := OneName(files, version, Up);
      var j := OneName(files, version, Down);
      assert files[i] in files && files[j] in files;
      assert PairOf(files, version, i, j);
    }
    if PairedAt(files, version) {
      PairedNames(files, version);
    }
  }

  lemma LoadedSlugs(files: seq<MigrationFile>)
    requires Loaded(files)
    ensures forall f | f in files :: SlugIn(f.name) == f.slug
  {
  }

  /** The check is silent exactly when every version present has one up and one down file of one slug. */
  lemma VersionsSoundIff(files: seq<MigrationFile>)
    requires Loaded(files)
    ensures ProblemsIn(SlugIn, files, VersionList(files)) == [] <==>
            forall v | v in Versions(files) :: PairedAt(files, v)
  {
    LoadedSlugs(files);
    SilentIffPaired(files, SlugIn);
  }

  lemma SilentIffPaired(files: seq<MigrationFile>, slug: string -> string)
    requires forall f | f in files :: slug(f.name) == f.slug
    ensures ProblemsIn(slug, files, VersionList(files)) == [] <==> forall v | v in Versions(files) :: PairedAt(files, v)
  {
    VersionListIs(files);
    ProblemsInNone(slug, files, VersionList(files));
    forall v
      ensures ProblemsAt(slug, files, v) == [] <==> PairedAt(files, v)
    {
      NamesPaired(files, slug, v);
    }
  }

  ghost predicate GapFree(versions: set<int>) {
    forall a, b, v | a in versions && b in versions && a <= v <= b :: v in versions
  }

  /** Every version missing between the lowest and the highest present, in ascending order. */
  method CheckMigrationGaps(files: seq<MigrationFile>) returns (missing: seq<int>)
    ensures forall v :: v in missing <==>
              v !in Versions(files) && exists a, b | a in Versions(files) && b in Versions(files) :: a <= v <= b
    ensures forall i, j | 0 <= i < j < |missing| :: missing[i] < missing[j]
  {
    missing := [];
    if files == [] {
      return;
    }
    var present: set<int> := {};
    var minVersion, maxVersion := files[0].version, files[0].version;
    VersionsHas(files, files[0].version);
    for i := 0 to |files|
      invariant present == Versions(files[..i])
      invariant minVersion in Versions(files) && maxVersion in Versions(files)
      invariant forall w | w in present :: minVersion <= w <= maxVersion
    {
      var f := files[i];
      assert files[..i + 1][..i] == files[..i];
      VersionsHas(files, f.version);
      present := present + {f.version};
      if f.version < minVersion {
        minVersion := f.version;
      }
      if f.version > maxVersion {
        maxVersion := f.version;
      }
    }
    assert files[..|files|] == files;
    var v := minVersion;
    while v <= maxVersion
      invariant minVersion <= v
      invariant v <= maxVersion + 1
      invariant forall w :: w in missing <==> minVersion <= w < v && w !in present
      invariant forall i | 0 <= i < |missing| :: missing[i] < v
      invariant forall i, j | 0 <= i < j < |missing| :: missing[i] < missing[j]
    {
      if v !in present {
        missing := missing + [v];
      }
      v := v + 1;
    }
  }

  lemma GapsSilentIff(files: seq<MigrationFile>, missing: seq<int>)
    requires forall v :: v in missing <==>
               v !in Versions(files) && exists a, b | a in Versions(files) && b in Versions(files) :: a <= v <= b
    ensures missing == [] <==> GapFree(Versions(files))
  {
    if missing != [] {
      var v := missing[0];
      assert v in missing;
      var a, b :| a in Versions(files) && b in Versions(files) && a <= v <= b;
      assert !GapFree(Versions(files));
    } else {
      forall a, b, v | a in Versions(files) && b in Versions(files) && a <= v <= b
        ensures v in Versions(files)
      {
        assert v !in missing;
      }
    }
  }

  // ------------------------------------------------------------------
  // Both checks together
  // ------------------------------------------------------------------

  /** How many files have a version from `lo` up to but not including `hi`. */
  function CountIn(files: seq<MigrationFile>, lo: int, hi: int): nat {
    if files == [] then 0 else
      CountIn(files[..|files| - 1], lo, hi) + if lo <= files[|files| - 1].version < hi then 1 else 0
  }

  lemma {:induction false} CountSplits(files: seq<MigrationFile>, lo: int, v: int)
    requires lo <= v
    ensures CountIn(files, lo, v + 1) == CountIn(files, lo, v) + |Names(files, v, Up)| + |Names(files, v, Down)|
  {
    if files != [] {
      CountSplits(files[..|files| - 1], lo, v);
    }
  }

  lemma {:induction false} CountAll(files: seq<MigrationFile>, lo: int, hi: int)
    requires forall f | f in files :: lo <= f.version < hi
    ensures CountIn(files, lo, hi) == |files|
  {
    if files != [] {
      CountAll(files[..|files| - 1], lo, hi);
    }
  }

  lemma {:induction false} CountNone(files: seq<MigrationFile>, lo: int)
    ensures CountIn(files, lo, lo) == 0
  {
    if files != [] {
      CountNone(files[..|files| - 1], lo);
    }
  }

  lemma {:induction false} CountPaired(files: seq<MigrationFile>, lo: int, n: nat)
    requires forall v | lo <= v < lo + n :: PairedAt(files, v)
    ensures CountIn(files, lo, lo + n) == 2 * n
  {
    if n == 0 {
      CountNone(files, lo);
    } else {
      CountPaired(files, lo, n - 1);
      CountSplits(files, lo, lo + n - 1);
      PairedNames(files, lo + n - 1);
    }
  }

  /** A non-empty directory that passes both checks holds exactly two files for each version of an interval. */
  lemma BothChecksFixTheFileCount(files: seq<MigrationFile>, low: int, high: int)
    requires low in Versions(files) && high in Versions(files)
    requires forall v | v in Versions(files) :: low <= v <= high
    requires forall v | v in Versions(files) :: PairedAt(files, v)
    requires GapFree(Versions(files))
    ensures forall v :: v in Versions(files) <==> low <= v <= high
    ensures |files| == 2 * (high - low + 1)
  {
    forall v | low <= v <= high
      ensures v in Versions(files) && PairedAt(files, v)
    {
    }
    forall f | f in files
      ensures low <= f.version < high + 1
    {
      VersionsHas(files, f.version);
    }
    CountAll(files, low, high + 1);
    CountPaired(files, low, high - low + 1);
  }
}
