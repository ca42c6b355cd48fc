/**
  Warm-boot seeding of the agent-owned git-dirs and the two boot fingerprints that
  read them: `bootFingerprintAndSeed`, `seedWarmBootRepos`, the order of steps in
  `gitdir.Seed` and the gates of `DiscoverRepoSHAs`. Worktrees do not change
  between the two fingerprints; git-dirs may be left over from any earlier boot.
*/
module WarmBoot {
  import opened Text

  datatype Repo = Repo(name: string, url: string)

  /** How one `Seed` call goes once the URL is accepted. Only the last two reach a configured git-dir. */
  datatype Attempt = RemoveFails | Refused | InitFails(left: bool) | LaterStepFails | Succeeds

  /** One entry of the workspace directory. */
  datatype Entry = Entry(name: string, isDir: bool)

  /** What a boot finds: the validators, the workspace, where <name>/.git exists, and how seeding goes by position. */
  datatype World = World(
    validName: string -> bool,
    validUrl: string -> bool,
    workspace: seq<Entry>,
    git: set<string>,
    attempt: nat -> Attempt,
    head: string -> Option<string>)

  datatype Warning = InvalidName(repo: string) | SecondaryFailed(repo: string)

  datatype Line = Fingerprint(shas: map<string, string>) | Warned(warning: Warning)

  datatype Error = RootRejected | PrimarySeedFailed(repo: string)

  // ------------------------------------------------------------------
  // One seed
  // ------------------------------------------------------------------

  predicate SeedOk(w: World, r: Repo, i: nat) {
    w.validUrl(r.url) && w.attempt(i).Succeeds?
  }

  /** Whether a git-dir is there after seeding: the URL check comes before the removal. */
  predicate Present(w: World, r: Repo, i: nat, before: bool) {
    if !w.validUrl(r.url) then before
    else match w.attempt(i)
      case RemoveFails => before
      case Refused => false
      case InitFails(left) => left
      case LaterStepFails => true
      case Succeeds => true
  }

  function Put(dirs: set<string>, name: string, present: bool): set<string> {
    if present then dirs + {name} else dirs - {name}
  }

  // ------------------------------------------------------------------
  // The loop over the session's repos
  // ------------------------------------------------------------------

  datatype Seeding = Seeding(dirs: set<string>, seeded: set<string>, warnings: seq<Warning>, error: Option<Error>)

  predicate Attempted(w: World, r: Repo) {
    w.validName(r.name) && r.name in w.git
  }

  function SeedStep(w: World, st: Seeding, r: Repo, i: nat): Seeding {
    if st.error.Some? then st
    else if !w.validName(r.name) then st.(warnings := st.warnings + [InvalidName(r.name)])
    else if r.name !in w.git then st
    else
      var dirs := Put(st.dirs, r.name, Present(w, r, i, r.name in st.dirs));
      if SeedOk(w, r, i) then st.(dirs := dirs, seeded := st.seeded + {r.name})
      else if i == 0 then st.(dirs := dirs, error := Some(PrimarySeedFailed(r.name)))
      else st.(dirs := dirs, warnings := st.warnings + [SecondaryFailed(r.name)])
  }

  /** The state after the first `n` positions. */
  function SeedRepos(w: World, repos: seq<Repo>, n: nat, leftover: set<string>): Seeding
    requires n <= |repos|
  {
    if n == 0 then Seeding(leftover, {}, [], None)
    else SeedStep(w, SeedRepos(w, repos, n - 1, leftover), repos[n - 1], n - 1)
  }

  function Seeded(w: World, repos: seq<Repo>, leftover: set<string>): Seeding {
    SeedRepos(w, repos, |repos|, leftover)
  }

  // ------------------------------------------------------------------
  // Discovery
  // ------------------------------------------------------------------

  /** Both gates hold: the entry is a directory with a .git, and is a name discovery may look at. */
  ghost predicate Visible(w: World, name: string) {
    Entry(name, true) in w.workspace && name in w.git
  }

  predicate Allowed(allowed: Option<set<string>>, name: string) {
    allowed.None? || name in allowed.value
  }

  class Agent {
    var gitDirs: set<string>
    var log: seq<Line>

    constructor ()
      ensures gitDirs == {} && log == []
    {
      gitDirs, log := {}, [];
    }

    /** `gitdir.Seed`, step by step; returns whether it succeeded. */
    method Seed(w: World, r: Repo, i: nat) returns (ok: bool)
      modifies this`gitDirs
      ensures ok == SeedOk(w, r, i)
      ensures gitDirs == Put(old(gitDirs), r.name, Present(w, r, i, r.name in old(gitDirs)))
    {
      if !w.validUrl(r.url) {
        return false;
      }
      var a := w.attempt(i);
      if a.RemoveFails? {
        return false;
      }
      gitDirs := gitDirs - {r.name};
      if a.Refused? {
        return false;
      }
      if a.InitFails? {
        if a.left {
          gitDirs := gitDirs + {r.name};
        }
        return false;
      }
      gitDirs := gitDirs + {r.name};
      return a.Succeeds?;
    }

    method SeedWarmBootRepos(w: World, repos: seq<Repo>)
      returns (seeded: set<string>, warnings: seq<Warning>, error: Option<Error>)
      modifies this`gitDirs
      ensures Seeding(gitDirs, seeded, warnings, error) == Seeded(w, repos, old(gitDirs))
    {
      seeded, warnings := {}, [];
      for i := 0 to |repos|
        invariant Seeding(gitDirs, seeded, warnings, None) == SeedRepos(w, repos, i, old(gitDirs))
      {
        var r := repos[i];
        if !w.validName(r.name) {
          warnings := warnings + [InvalidName(r.name)];
        } else if r.name in w.git {
          var ok := Seed(w, r, i);
          if ok {
            seeded := seeded + {r.name};
          } else if i == 0 {
            StopsAtPrimary(w, repos, old(gitDirs));
            return seeded, warnings, Some(PrimarySeedFailed(r.name));
          } else {
            warnings := warnings + [SecondaryFailed(r.name)];
          }
        }
      }
      return seeded, warnings, None;
    }

    /** `DiscoverRepoSHAs`: also returns every name whose git-dir git was run against. */
    method DiscoverRepoSHAs(w: World, allowed: Option<set<string>>)
      returns (shas: map<string, string>, read: set<string>)
      ensures forall n :: n in read <==> Visible(w, n) && Allowed(allowed, n) && n in gitDirs
      ensures forall n :: n in shas <==> n in read && w.head(n).Some?
      ensures forall n | n in shas :: w.head(n) == Some(shas[n])
    {
      shas, read := map[], {};
      for i := 0 to |w.workspace|
        invariant forall n :: n in read <==>
          Entry(n, true) in w.workspace[..i] && n in w.git && Allowed(allowed, n) && n in gitDirs
        invariant forall n :: n in shas <==> n in read && w.head(n).Some?
        invariant forall n | n in shas :: w.head(n) == Some(shas[n])
      {
        var entry := w.workspace[i];
        assert w.workspace[..i + 1] == w.workspace[..i] + [entry];
        if entry.isDir && Allowed(allowed, entry.name) && entry.name in w.git && entry.name in gitDirs {
          read := read + {entry.name};
          var sha := w.head(entry.name);
          if sha.Some? {
            shas := shas[entry.name := sha.value];
          }
        }
      }
      assert w.workspace[..|w.workspace|] == w.workspace;
    }

    /**
      `bootFingerprintAndSeed`; `session` is None when the boot has no session
      configuration, and `rootOk` is `EnsureRoot`'s verdict.
    */
    method BootFingerprintAndSeed(w: World, session: Option<seq<Repo>>, rootOk: bool)
      returns (error: Option<Error>, read: set<string>, seeded: set<string>)
      modifies this
      ensures session.Some? && rootOk ==>
        var st := Seeded(w, session.value, old(gitDirs));
        && gitDirs == st.dirs && error == st.error && seeded == st.seeded
        && read <= st.seeded
        && forall n :: n in read <==> n in st.seeded && Visible(w, n) && n in st.dirs
      ensures session.Some? && !rootOk ==> error == Some(RootRejected) && read == {} && seeded == {}
      ensures session.None? || !rootOk ==> gitDirs == old(gitDirs)
      ensures session.None? ==> error == None && forall n :: n in read <==> Visible(w, n) && n in gitDirs
      ensures |log| > |old(log)| && log[..|old(log)|] == old(log) && log[|old(log)|].Fingerprint?
      ensures forall n :: n in log[|old(log)|].shas <==> n in read && w.head(n).Some?
      ensures forall k | |old(log)| < k < |log| :: log[k].Warned?
      ensures var warnings := if session.Some? && rootOk then Seeded(w, session.value, old(gitDirs)).warnings else [];
        && |log| == |old(log)| + 1 + |warnings|
        && forall k | 0 <= k < |warnings| :: log[|old(log)| + 1 + k] == Warned(warnings[k])
    {
      var warnings := [];
      var allowed: Option<set<string>> := None;
      var rootRejected := false;
      error, read, seeded := None, {}, {};
      if session.Some? {
        if !rootOk {
          error := Some(RootRejected);
          rootRejected := true;
        } else {
          seeded, warnings, error := SeedWarmBootRepos(w, session.value);
          allowed := Some(seeded);
        }
      }

      var shas := map[];
      if !rootRejected {
        shas, read := DiscoverRepoSHAs(w, allowed);
      }
      log := log + [Fingerprint(shas)];

      for i := 0 to |warnings|
        modifies this`log
        invariant |log| == |old(log)| + 1 + i
        invariant forall k | |old(log)| < k < |log| :: log[k].Warned?
        invariant log[..|old(log)|] == old(log) && log[|old(log)|] == Fingerprint(shas)
        invariant forall k | 0 <= k < i :: log[|old(log)| + 1 + k] == Warned(warnings[k])
      {
        log := log + [Warned(warnings[i])];
      }
    }

    /**
      A session's boot up to the fingerprint after the runtime has started: an error
      ends it before that one; otherwise its reads are within what was seeded exactly
      when nothing survives.
    */
    method BootUntilSpawned(w: World, repos: seq<Repo>, rootOk: bool)
      returns (error: Option<Error>, first: set<string>, second: set<string>, seeded: set<string>)
      requires Distinct(repos)
      modifies this
      ensures forall n :: n in first <==> n in seeded && Visible(w, n)
      ensures forall n | n in seeded ::
        exists i: nat | i < |repos| :: repos[i].name == n && Attempted(w, repos[i]) && SeedOk(w, repos[i], i)
      ensures error.Some? <==> !rootOk || (repos != [] && Attempted(w, repos[0]) && !SeedOk(w, repos[0], 0))
      ensures error.Some? ==> first == {} && second == {} && seeded == {}
      ensures error.None? ==> (second <= seeded <==> NothingSurvives(w, repos, old(gitDirs)))
    {
      second := {};
      error, first, seeded := BootFingerprintAndSeed(w, Some(repos), rootOk);
      ErrorOnlyFromPrimary(w, repos, |repos|, old(gitDirs));
      SeededArePresent(w, repos, |repos|, old(gitDirs));
      if error.None? {
        var _, read := DiscoverRepoSHAs(w, None);
        second := read;
        forall n ensures n in seeded <==>
          exists i: nat | i < |repos| :: repos[i].name == n && Attempted(w, repos[i]) && SeedOk(w, repos[i], i)
        {
          SeededExactly(w, repos, |repos|, old(gitDirs), n);
        }
        SecondReadsOnlySeededIff(w, repos, old(gitDirs));
      }
    }
  }

  // ------------------------------------------------------------------
  // What the loop guarantees
  // ------------------------------------------------------------------

  /** A fatal error is settled at position 0: nothing was seeded, and no later repo is attempted. */
  lemma {:induction false} ErrorOnlyFromPrimary(w: World, repos: seq<Repo>, n: nat, leftover: set<string>)
    requires n <= |repos|
    ensures var st := SeedRepos(w, repos, n, leftover);
      && (st.error.Some? <==> n > 0 && Attempted(w, repos[0]) && !SeedOk(w, repos[0], 0))
      && (st.error.Some? ==>
          && st.error == Some(PrimarySeedFailed(repos[0].name)) && st.seeded == {} && st.warnings == []
          && st == SeedRepos(w, repos, 1, leftover))
  {
    if n > 1 {
      ErrorOnlyFromPrimary(w, repos, n - 1, leftover);
    } else if n == 1 {
      assert SeedRepos(w, repos, 0, leftover) == Seeding(leftover, {}, [], None);
    }
  }

  lemma StopsAtPrimary(w: World, repos: seq<Repo>, leftover: set<string>)
    requires repos != [] && Attempted(w, repos[0]) && !SeedOk(w, repos[0], 0)
    ensures Seeded(w, repos, leftover) == SeedRepos(w, repos, 1, leftover)
  {
    ErrorOnlyFromPrimary(w, repos, |repos|, leftover);
  }

  /** Without a fatal error, exactly the repos whose own seed succeeded are vouched for. */
  lemma {:induction false} SeededExactly(w: World, repos: seq<Repo>, n: nat, leftover: set<string>, name: string)
    requires n <= |repos| && SeedRepos(w, repos, n, leftover).error.None?
    ensures name in SeedRepos(w, repos, n, leftover).seeded
      <==> exists i: nat | i < n :: repos[i].name == name && Attempted(w, repos[i]) && SeedOk(w, repos[i], i)
  {
    if n > 0 {
      SeededExactly(w, repos, n - 1, leftover, name);
    }
  }

  /** What is warned about at a position, if anything: an invalid name, or a secondary whose seed failed. */
  function WarningAt(w: World, r: Repo, i: nat): Option<Warning> {
    if !w.validName(r.name) then Some(InvalidName(r.name))
    else if r.name in w.git && i > 0 && !(w.validUrl(r.url) && w.attempt(i).Succeeds?) then
      Some(SecondaryFailed(r.name))
    else None
  }

  /** The positions that are warned about, in list order. */
  function WarnedPositions(w: World, repos: seq<Repo>, n: nat): seq<nat>
    requires n <= |repos|
  {
    if n == 0 then [] else
      WarnedPositions(w, repos, n - 1) + if WarningAt(w, repos[n - 1], n - 1).Some? then [n - 1] else []
  }

  /** They are the positions below `n` with a warning, each once and ascending. */
  lemma {:induction false} WarnedPositionsAre(w: World, repos: seq<Repo>, n: nat)
    requires n <= |repos|
    ensures var ps := WarnedPositions(w, repos, n);
      && (forall k | 0 <= k < |ps| :: ps[k] < n && WarningAt(w, repos[ps[k]], ps[k]).Some?)
      && (forall k, l | 0 <= k < l < |ps| :: ps[k] < ps[l])
      && forall i: nat | i < n && WarningAt(w, repos[i], i).Some? :: i in ps
  {
    if n > 0 {
      WarnedPositionsAre(w, repos, n - 1);
      var before, ps := WarnedPositions(w, repos, n - 1), WarnedPositions(w, repos, n);
      assert forall i | i in before :: i in ps;
      if WarningAt(w, repos[n - 1], n - 1).Some? {
        assert ps[|before|] == n - 1;
      }
    }
  }

  /** Without a fatal error there is one warning per such position, of that kind, in list order. */
  lemma {:induction false} WarningsAre(w: World, repos: seq<Repo>, n: nat, leftover: set<string>)
    requires n <= |repos| && SeedRepos(w, repos, n, leftover).error.None?
    ensures var ps, warnings := WarnedPositions(w, repos, n), SeedRepos(w, repos, n, leftover).warnings;
      && |warnings| == |ps|
      && forall k | 0 <= k < |ps| :: ps[k] < n && WarningAt(w, repos[ps[k]], ps[k]) == Some(warnings[k])
  {
    if n > 0 {
      WarningsAre(w, repos, n - 1, leftover);
    }
  }

  predicate Distinct(repos: seq<Repo>) {
    forall i, j | 0 <= i < j < |repos| :: repos[i].name != repos[j].name
  }

  /** Which git-dirs are there after the loop: each attempted repo's own seed decides, everything else stays. */
  lemma {:induction false} PresentAfter(w: World, repos: seq<Repo>, n: nat, leftover: set<string>, name: string)
    requires Distinct(repos) && n <= |repos| && SeedRepos(w, repos, n, leftover).error.None?
    ensures forall i: nat | i < n && repos[i].name == name && Attempted(w, repos[i]) ::
      name in SeedRepos(w, repos, n, leftover).dirs <==> Present(w, repos[i], i, name in leftover)
    ensures (forall i: nat | i < n && repos[i].name == name :: !Attempted(w, repos[i])) ==>
      (name in SeedRepos(w, repos, n, leftover).dirs <==> name in leftover)
  {
    if n > 0 {
      PresentAfter(w, repos, n - 1, leftover, name);
      if repos[n - 1].name == name {
        assert forall i: nat | i < n - 1 :: repos[i].name != name;
      }
    }
  }

  /** Every repo that was vouched for has its git-dir, so the first fingerprint reads all of them it can see. */
  lemma {:induction false} SeededArePresent(w: World, repos: seq<Repo>, n: nat, leftover: set<string>)
    requires Distinct(repos) && n <= |repos|
    ensures SeedRepos(w, repos, n, leftover).seeded <= SeedRepos(w, repos, n, leftover).dirs
    ensures forall name | name in SeedRepos(w, repos, n, leftover).seeded ::
              exists i: nat | i < n :: repos[i].name == name
  {
    if n > 0 {
      SeededArePresent(w, repos, n - 1, leftover);
    }
  }

  // ------------------------------------------------------------------
  // The second fingerprint
  // ------------------------------------------------------------------

  /**
    The fingerprint taken after the runtime has started has no allowlist. This is what
    it is meant to guarantee all the same: whatever git-dir it reads, this boot seeded.
  */
  ghost predicate SecondReadsOnlySeeded(w: World, repos: seq<Repo>, leftover: set<string>) {
    var st := Seeded(w, repos, leftover);
    forall name | Visible(w, name) && name in st.dirs :: name in st.seeded
  }

  /** A repo listed in this session whose seed is attempted and fails but a git-dir is there afterwards. */
  predicate Survives(w: World, r: Repo, i: nat, leftover: set<string>) {
    if !w.validUrl(r.url) then r.name in leftover
    else match w.attempt(i)
      case RemoveFails => r.name in leftover
      case Refused => false
      case InitFails(left) => left
      case LaterStepFails => true
      case Succeeds => false
  }

  ghost predicate AttemptedName(w: World, repos: seq<Repo>, name: string) {
    exists i: nat | i < |repos| :: repos[i].name == name && Attempted(w, repos[i])
  }

  /** Nothing is left over in a visible worktree this session does not seed, and no failed seed leaves a git-dir. */
  ghost predicate NothingSurvives(w: World, repos: seq<Repo>, leftover: set<string>) {
    && (forall name | name in leftover && Visible(w, name) :: AttemptedName(w, repos, name))
    && (forall i: nat | i < |repos| && Attempted(w, repos[i]) && Visible(w, repos[i].name) ::
          !Survives(w, repos[i], i, leftover))
  }

  /** The guarantee holds exactly when nothing survives. */
  lemma SecondReadsOnlySeededIff(w: World, repos: seq<Repo>, leftover: set<string>)
    requires Distinct(repos) && Seeded(w, repos, leftover).error.None?
    ensures SecondReadsOnlySeeded(w, repos, leftover) <==> NothingSurvives(w, repos, leftover)
  {
    var st := Seeded(w, repos, leftover);
    if NothingSurvives(w, repos, leftover) {
      forall name | Visible(w, name) && name in st.dirs ensures name in st.seeded {
        VouchedFor(w, repos, leftover, name);
      }
    }
    if SecondReadsOnlySeeded(w, repos, leftover) {
      forall name | name in leftover && Visible(w, name) ensures AttemptedName(w, repos, name) {
        PresentAfter(w, repos, |repos|, leftover, name);
        SeededExactly(w, repos, |repos|, leftover, name);
      }
      forall i: nat | i < |repos| && Attempted(w, repos[i]) && Visible(w, repos[i].name)
        ensures !Survives(w, repos[i], i, leftover)
      {
        PresentAfter(w, repos, |repos|, leftover, repos[i].name);
        SeededExactly(w, repos, |repos|, leftover, repos[i].name);
      }
    }
  }

  lemma VouchedFor(w: World, repos: seq<Repo>, leftover: set<string>, name: string)
    requires Distinct(repos) && Seeded(w, repos, leftover).error.None? && NothingSurvives(w, repos, leftover)
    requires Visible(w, name) && name in Seeded(w, repos, leftover).dirs
    ensures name in Seeded(w, repos, leftover).seeded
  {
    PresentAfter(w, repos, |repos|, leftover, name);
    SeededExactly(w, repos, |repos|, leftover, name);
    assert AttemptedName(w, repos, name);
    var i: nat :| i < |repos| && repos[i].name == name && Attempted(w, repos[i]);
    assert !Survives(w, repos[i], i, leftover);
  }

  /** A secondary whose URL is refused keeps the git-dir of an earlier boot, and the second fingerprint reads it. */
  lemma RefusedUrlKeepsGitDir(w: World, primary: Repo, secondary: Repo)
    requires primary.name != secondary.name && Visible(w, secondary.name) && w.validName(secondary.name)
    requires Attempted(w, primary) && SeedOk(w, primary, 0) && !w.validUrl(secondary.url)
    ensures !SecondReadsOnlySeeded(w, [primary, secondary], {secondary.name})
    ensures Seeded(w, [primary, secondary], {secondary.name}).error.None?
  {
    var repos := [primary, secondary];
    ErrorOnlyFromPrimary(w, repos, 2, {secondary.name});
    assert Survives(w, repos[1], 1, {secondary.name});
    SecondReadsOnlySeededIff(w, repos, {secondary.name});
  }

  /** A secondary that fails after `git init` is read too, even on a disk without leftovers. */
  lemma HalfSeededIsRead(w: World, primary: Repo, secondary: Repo)
    requires primary.name != secondary.name && Visible(w, secondary.name) && w.validName(secondary.name)
    requires Attempted(w, primary) && SeedOk(w, primary, 0)
    requires w.validUrl(secondary.url) && w.attempt(1).LaterStepFails?
    ensures !SecondReadsOnlySeeded(w, [primary, secondary], {})
    ensures Seeded(w, [primary, secondary], {}).error.None?
  {
    var repos := [primary, secondary];
    ErrorOnlyFromPrimary(w, repos, 2, {});
    assert Survives(w, repos[1], 1, {});
    SecondReadsOnlySeededIff(w, repos, {});
  }

  // ------------------------------------------------------------------
  // Every lineage of boots over one repo list
  // ------------------------------------------------------------------

  /** A listed repo that passes both validators, the only kind whose git-dir is ever created. */
  ghost predicate Seedable(validName: string -> bool, validUrl: string -> bool, repos: seq<Repo>, name: string) {
    exists i: nat | i < |repos| :: repos[i].name == name && validName(name) && validUrl(repos[i].url)
  }

  ghost predicate OnlySeedable(
    validName: string -> bool, validUrl: string -> bool, repos: seq<Repo>, dirs: set<string>)
  {
    forall name | name in dirs :: Seedable(validName, validUrl, repos, name)
  }

  /** One boot: what it found, whether its root was accepted, and the git-dirs when it ended. */
  datatype Boot = Boot(world: World, rootOk: bool, atEnd: set<string>)

  function AfterLoop(b: Boot, repos: seq<Repo>, leftover: set<string>): set<string> {
    if b.rootOk then Seeded(b.world, repos, leftover).dirs else leftover
  }

  function LeftoverOf(boots: seq<Boot>): set<string> {
    if boots == [] then {} else boots[|boots| - 1].atEnd
  }

  /** After the loop, clone and sync may still remove git-dirs or create those of seedable repos. */
  ghost predicate Lineage(validName: string -> bool, validUrl: string -> bool, repos: seq<Repo>, boots: seq<Boot>) {
    forall k | 0 <= k < |boots| ::
      && boots[k].world.validName == validName && boots[k].world.validUrl == validUrl
      && forall name | name in boots[k].atEnd ::
           name in AfterLoop(boots[k], repos, LeftoverOf(boots[..k])) || Seedable(validName, validUrl, repos, name)
  }

  lemma {:induction false} LoopKeepsSeedable(w: World, repos: seq<Repo>, n: nat, leftover: set<string>)
    requires n <= |repos| && OnlySeedable(w.validName, w.validUrl, repos, leftover)
    ensures OnlySeedable(w.validName, w.validUrl, repos, SeedRepos(w, repos, n, leftover).dirs)
  {
    if n > 0 {
      LoopKeepsSeedable(w, repos, n - 1, leftover);
      var st := SeedRepos(w, repos, n - 1, leftover);
      forall name | name in SeedRepos(w, repos, n, leftover).dirs
        ensures Seedable(w.validName, w.validUrl, repos, name)
      {
        if name !in st.dirs {
          assert repos[n - 1].name == name;
        }
      }
    }
  }

  /** From an empty disk, every git-dir any boot ever finds belongs to a listed repo with a valid name and URL. */
  lemma {:induction false} LeftoversAreSeedable(
    validName: string -> bool, validUrl: string -> bool, repos: seq<Repo>, boots: seq<Boot>)
    requires Lineage(validName, validUrl, repos, boots)
    ensures OnlySeedable(validName, validUrl, repos, LeftoverOf(boots))
  {
    if boots != [] {
      var init := boots[..|boots| - 1];
      var last := boots[|boots| - 1];
      forall k | 0 <= k < |init|
        ensures forall name | name in init[k].atEnd ::
          name in AfterLoop(init[k], repos, LeftoverOf(init[..k])) || Seedable(validName, validUrl, repos, name)
      {
        assert init[..k] == boots[..k];
      }
      LeftoversAreSeedable(validName, validUrl, repos, init);
      if last.rootOk {
        LoopKeepsSeedable(last.world, repos, |repos|, LeftoverOf(init));
      }
    }
  }

  /** A seed that leaves a git-dir without vouching for it, once refused URLs are out of the question. */
  predicate HalfDone(a: Attempt, found: bool) {
    match a
    case RemoveFails => found
    case InitFails(left) => left
    case LaterStepFails => true
    case Refused => false
    case Succeeds => false
  }

  /**
    In every boot of every lineage from an empty disk that gets as far as the second
    fingerprint, that fingerprint reads only git-dirs seeded in the same boot, if and
    only if no seed of the boot stopped half-way: a removal that failed over a found
    git-dir, an init that failed and left one, or a failure after the init. A refused
    URL does no harm here, because such a repo never got a git-dir.
  */
  lemma LineageReadsOnlySeededIff(
    validName: string -> bool, validUrl: string -> bool, repos: seq<Repo>, boots: seq<Boot>, w: World)
    requires Distinct(repos) && Lineage(validName, validUrl, repos, boots)
    requires w.validName == validName && w.validUrl == validUrl
    requires Seeded(w, repos, LeftoverOf(boots)).error.None?
    ensures SecondReadsOnlySeeded(w, repos, LeftoverOf(boots)) <==>
      forall i: nat | i < |repos| && Attempted(w, repos[i]) && Visible(w, repos[i].name) && validUrl(repos[i].url) ::
        !HalfDone(w.attempt(i), repos[i].name in LeftoverOf(boots))
  {
    var leftover := LeftoverOf(boots);
    LeftoversAreSeedable(validName, validUrl, repos, boots);
    SecondReadsOnlySeededIff(w, repos, leftover);
    forall name | name in leftover && Visible(w, name) ensures AttemptedName(w, repos, name) {
      assert Seedable(validName, validUrl, repos, name);
    }
    forall i: nat | i < |repos| && Attempted(w, repos[i])
      ensures Survives(w, repos[i], i, leftover) <==>
        validUrl(repos[i].url) && HalfDone(w.attempt(i), repos[i].name in leftover)
    {
      assert repos[i].name in leftover ==> Seedable(validName, validUrl, repos, repos[i].name);
    }
  }
}
