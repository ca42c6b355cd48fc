# Models of the sandbox agent's protocols and of the repository's own checks

This project models, in Dafny, the parts of narvi whose correctness depends on
interleavings, on state that survives a call, or on whole documents:

- the **checkout / turn / boot protocol** of the sandbox agent, as a transition system with
  any number of turns and checkouts (`CheckoutProtocol`, `CheckoutLifecycle`), and the sequential code
  each of its goroutines runs (`CheckoutCommand`);
- the **shutdown of `run()`**, as infinite fair runs with a ranking function, for the grouping
  the code uses and for the two groupings its comments reject (`Shutdown`, `ShutdownHistory`);
- the **guide scanner** `extractCommandBlocks`, proved against a definition of how a document
  may be cut into segments (`GuideCommands`, `GuideScanner`, `GuideScannerLaws`, `GuideLines`,
  `GuideExtraction`);
- the **guide drift check** and its register of exemptions (`GuideDrift`, `GuideDriftLaws`,
  `GuideReports`, `ExemptionRules`, `StockReasons`, `ReasonLaws`);
- the **static route scan** against the live route table (`Paths`, `RouteScan`), and what both say
  together (`LiveRoutes`);
- **state across ticks, boots and deployments**: the cloud-identity token file (`TokenRefresh`),
  the OpenCode configuration documents (`OpenCodeConfig`), the agent git-dirs read by the boot
  fingerprints (`WarmBoot`), the environment layers (`SpawnEnv`), and migrations (`MigrationNames`,
  `MigrationChecks`, `Deployments`);
- the **decision register's** two heading checks (`DecisionHeadings`).

`Text` and `Sorting` hold the part of Go's `strings` and `sort` that these use.

Loops and objects of the source are methods and classes proved against specification
functions; the theorems are lemmas about those functions. `dafny verify dfyconfig.toml`
checks everything.

## Where the code does less than it promises

Each of these is kept as the code has it, shown by a lemma with a concrete failing input, and
accompanied by the exact condition under which the promise holds.

- **Checkout exclusion** rests on an `atomic.Int32`: it holds if and only if fewer than 2^31 turns
  are active at once (`WrappedRun`, `ExclusionHoldsIffCounterCannotWrap`).
- **Fingerprint after the runtime start.** `bootFingerprintAndSeed`'s comment says that `Seed`
  removes the git-dir as its very first action, so that a failed seed always leaves it absent.
  `Seed` checks the URL before that, and can also fail after `git init` (`RefusedUrlKeepsGitDir`,
  `HalfSeededIsRead`). The guarantee holds if and only if no seed ends in one of those ways over a
  visible worktree (`SecondReadsOnlySeededIff`); a refused URL is harmless along every lineage that
  starts from an empty disk (`LineageReadsOnlySeededIff`).
- **Token file.** A failed write leaves the old token in place, and a single one is enough to leave
  an expired token (`FailedWritesLeaveExpiredToken`, `OneFailedWriteIsTooMany`). For any number m of
  failed operations in a row the condition is exact (`AlwaysFreshIff`); without failures it is
  `FreshWithoutFailuresIff`.
- **OpenCode configuration.** A write that fails after truncating the file leaves a truncated
  document, which the next boot with a failed fetch announces as last known good
  (`TruncatedDocumentIsAnnounced`); a boot that cannot prepare the runtime home does not announce a
  good document that is on disk (`NoHomeHidesDocument`). `CurrentIffLanded` and `AnnouncedIffOnDisk`
  say exactly when document and entry are right.
- **Route scan.** The scanner names every live route if and only if every served path is normal, which
  clean literals guarantee (`TidyIsAllNormal`), and every served method is one of the five it knows
  (`ScanCoversIff`). A literal with a doubled slash inside and a route of another method are missed
  (`UntidyLiteralIsMissed`, `UnknownMethodIsMissed`), and escape a silent drift check
  (`SilentCheckCoversLiveRoutesIff`).

One comment differs from the code without a failure: that on the wait for the turns speaks of ctx as
cancelled by then, and the fatal-status path never cancels it, as the comment on the refresh group
says. The convergence proof does not need ctx to be cancelled.

## Model

| member | source | states |
|---|---|---|
| `CheckoutProtocol.InvStep` | cmd/sandbox-agent/checkout.go:58-110 | every action of every goroutine keeps: mutex owner, flag and counter agree with where each goroutine is, the counter up to 32-bit wrap-around |
| `CheckoutProtocol.InvAfter` | cmd/sandbox-agent/checkout.go:58-110 | the invariant holds after every legal run, any interleaving, any number of turns and checkouts |
| `CheckoutProtocol.ExclusionStep` | cmd/sandbox-agent/checkout.go:58-110 | no action starts a checkout beside a turn, another checkout or the boot, or a turn beside a checkout, while the counter has not wrapped |
| `CheckoutProtocol.ExclusionInEveryRun` | cmd/sandbox-agent/main.go:371-380 | in every state of every run with fewer than 2^31 simultaneous turns, a working checkout excludes turns, other checkouts, the boot and the re-own pass |
| `CheckoutProtocol.ExclusionHoldsIffCounterCannotWrap` | cmd/sandbox-agent/main.go:379-379 | the exclusion holds for a bound on simultaneous turns if and only if the bound is below 2^31, the range of the `Int32` counter |
| `CheckoutProtocol.WrappedRun` | cmd/sandbox-agent/main.go:426-433 | a legal run with exactly 2^31 active turns in which the counter reads -2^31 and a checkout works beside them |
| `CheckoutProtocol.FlagVouchesForBoot` | cmd/sandbox-agent/main.go:2677-2701 | in every run the flag is up exactly when boot, re-own and the boot_duration report all happened, successfully and in that order, and the flag was stored before any announcement |
| `CheckoutProtocol.NeverBootingOnceAnnounced` | cmd/sandbox-agent/checkout.go:24-27 | a flag read after the announcement is never answered "still booting" |
| `CheckoutProtocol.HolderReleases` | cmd/sandbox-agent/checkout.go:58-110 | no deadlock on the mutex: from every reachable state its holder releases it within two actions, all of them its own |
| `CheckoutLifecycle.CheckoutActionsAre` | cmd/sandbox-agent/checkout.go:58-110 | in every run a checkout's own actions are launch, flag read and, if it goes on, lock, counter read and finish, each once and in order, and where it stands is what it has done |
| `CheckoutLifecycle.TurnActionsAre` | cmd/sandbox-agent/main.go:426-433 | likewise a turn launches, locks, counts in, unlocks and counts out |
| `CheckoutLifecycle.FlagReadIs` | cmd/sandbox-agent/checkout.go:69-83 | in every run a flag read goes on exactly when the flag was stored before it, and is answered "still booting" otherwise |
| `CheckoutLifecycle.CounterReadIs` | cmd/sandbox-agent/checkout.go:72-77 | a counter read finds a turn exactly when the 32-bit count of active turns is positive, and goes to work otherwise |
| `CheckoutLifecycle.FinishAnswers` | cmd/sandbox-agent/checkout.go:72-110 | finishing answers the checkout and gives the mutex back |
| `CheckoutLifecycle.AnsweredIsFinal` | cmd/sandbox-agent/checkout.go:58-110 | an answered checkout stays so and takes no further action |
| `CheckoutLifecycle.CanBeAnswered` | cmd/sandbox-agent/checkout.go:58-110 | from every reachable state every launched checkout can be answered within six actions |
| `CheckoutLifecycle.CanReturn` | cmd/sandbox-agent/main.go:426-433 | from every reachable state every launched turn can be brought to its return within six actions |
| `CheckoutCommand.RepoResult` | cmd/sandbox-agent/checkout.go:127-140 | an entry's error is null exactly on checked_out, and each SHA exactly when it is empty |
| `CheckoutCommand.FindSessionRepo` | cmd/sandbox-agent/checkout.go:113-120 | finds the first session repo of that name, or reports none |
| `CheckoutCommand.CommandHandler.Checkout` | cmd/sandbox-agent/checkout.go:58-110 | one entry per requested repo in order; either all busy and git never called, or none busy and git called once per known repo, in request order, unknown names failed |
| `CheckoutCommand.CommandHandler.AnswerBusy` | cmd/sandbox-agent/checkout.go:68-83 | every requested repo answered busy with the reason and no SHAs |
| `CheckoutCommand.CommandHandler.TryEach` | cmd/sandbox-agent/checkout.go:85-109 | each requested repo tried in order; the git calls made are exactly those of the repos the session has |
| `CheckoutCommand.ResolvedConcat` | cmd/sandbox-agent/checkout.go:92-108 | the git calls for a request are those for its parts, in order |
| `CheckoutCommand.ResolvedOne` | cmd/sandbox-agent/checkout.go:92-108 | one repo leads to one call with the session's own entry for it, or to none if the session lacks it |
| `CheckoutCommand.CompleteBoot` | cmd/sandbox-agent/main.go:2677-2701 | for every mix of present and absent steps the flag is stored exactly on overall success with a live session, the events are in order, and with a live session they are a boot trail of the protocol |
| `CheckoutCommand.EventsInOrder` | cmd/sandbox-agent/main.go:2677-2701 | whatever steps are present, boot, re-own, timing, flag and announcement come in that order, each at most once |
| `CheckoutCommand.EventsPresent` | cmd/sandbox-agent/main.go:2677-2701 | which events there are: timing always and with the right outcome and duration, flag and announcement exactly on overall success with a live session |
| `Shutdown.InvStep` | cmd/sandbox-agent/main.go:2204-2305 | each phase of the shutdown tail keeps what the earlier phases waited for |
| `Shutdown.InvHolds` | cmd/sandbox-agent/main.go:1957-2031 | the invariant holds at every point of every infinite run |
| `Shutdown.StepLowersRank` | cmd/sandbox-agent/main.go:2204-2305 | once the bridge is back no step of anybody raises the rank, and the helpful goroutine's step lowers it |
| `Shutdown.HoldsUntilServed` | cmd/sandbox-agent/main.go:2204-2305 | until the helpful goroutine is served the rank has dropped or neither it nor the helpful goroutine has changed |
| `Shutdown.ReturnsOnceBridgeIsBack` | cmd/sandbox-agent/main.go:2204-2305 | in every fair run, once the bridge has returned for any reason, ctx cancelled or not, `run` returns and no refresh, turn or server goroutine is left |
| `Shutdown.ReturnsOnceCancelled` | cmd/sandbox-agent/main.go:2204-2305 | once ctx is done, the bridge comes back and every fair run returns with nothing left running |
| `Shutdown.RefreshInGroupHangs` | cmd/sandbox-agent/main.go:1957-1994 | with the refresh loop in the bridge's group, a fatal status and no signal, `run` never gets past its first wait |
| `Shutdown.ServerInGroupHangs` | cmd/sandbox-agent/main.go:2008-2031 | the same with the budget server and a ctx-watcher in that group |
| `Shutdown.SeparateNeverHangs` | cmd/sandbox-agent/main.go:1957-2031 | no fair run of the grouping the code uses hangs after a fatal status |
| `Shutdown.HangsExactlyWhenGrouped` | cmd/sandbox-agent/main.go:1957-2031 | a fair run that never returns after a fatal status exists if and only if the grouping is one of the two rejected ones |
| `ShutdownHistory.CancelledIffStopped` | cmd/sandbox-agent/main.go:2204-2212 | ctx is done exactly when a signal came or the boot failed |
| `ShutdownHistory.BridgeBackIffReturned` | cmd/sandbox-agent/main.go:1996-2012 | the bridge is back exactly when it returned |
| `ShutdownHistory.ReturnsOnceStopped` | cmd/sandbox-agent/main.go:2204-2305 | after a signal or a failed boot every fair run returns with nothing left running |
| `ShutdownHistory.ReturnsOnceBridgeReturns` | cmd/sandbox-agent/main.go:2204-2305 | so it does after the bridge's own return, whatever its reason |
| `ShutdownHistory.PhaseByPhase` | cmd/sandbox-agent/main.go:2204-2305 | the main goroutine goes through its waits and steps one by one, skipping only the close of a server that was never started |
| `ShutdownHistory.RefreshCancelledIff` | cmd/sandbox-agent/main.go:2225-2230 | the refresh context is cancelled at its own phase and not before |
| `ShutdownHistory.ServerOutlivesTurns` | cmd/sandbox-agent/main.go:2232-2270 | a server that is closing or closed means that refresh loops and turns are gone and the processes stopped |
| `ShutdownHistory.WorkIsConserved` | cmd/sandbox-agent/main.go:426-433 | every launched turn or checkout is accounted for: what it has done and what it has left is its work |
| `ShutdownHistory.MintTakesItsTime` | cmd/sandbox-agent/cloudidentity.go:528-554 | a mint is under way until it has taken the steps it has |
| `ShutdownHistory.MintEnds` | cmd/sandbox-agent/cloudidentity.go:528-554 | and then the refresh goroutine waits for its next tick |
| `ShutdownHistory.GoneIffLeft` | cmd/sandbox-agent/cloudidentity.go:502-554 | a refresh goroutine is gone exactly when it left, and leaves only once its context is done |
| `ShutdownHistory.BootTakesItsTime` | cmd/sandbox-agent/main.go:2677-2701 | the boot ends after exactly the steps it has |
| `ShutdownHistory.SignalLetsEveryGroupingReturn` | cmd/sandbox-agent/main.go:1957-2031 | after a signal each of the three groupings can return with nothing left running, so what the rejected ones hang on is the fatal status |
| `GuideCommands.Validate` | internal/ops/guide.go:89-108 | no problem exactly when the name is not blank, exactly one binding is given, a route reads METHOD /path and a classifier names a surface |
| `GuideCommands.ValidateIs` | internal/ops/guide.go:89-108 | exactly the loadable commands pass, and otherwise the problem is the first test that fails |
| `GuideCommands.RouteShape` | internal/ops/guide.go:89-108 | a method and a path make a route exactly when the method is one of the five and the path begins with a slash |
| `GuideCommands.NotARoute` | internal/ops/guide.go:89-108 | one word, or three and more, make none |
| `GuideScanner.LeadingBacktickRun` | internal/ops/guide.go:208-214 | the length of the leading run of backticks |
| `GuideScanner.IsBareFenceCloseLine` | internal/ops/guide.go:228-238 | true exactly on a non-empty line of backticks only, at least as long as needed |
| `GuideScanner.Classify` | internal/ops/guide.go:335-349 | what a line outside every comment and fence opens |
| `GuideScanner.TakeCommand` | internal/ops/guide.go:351-380 | a command block's decoded body and the line after it, or the error that nothing completes it to a segment |
| `GuideScanner.ScanLines` | internal/ops/guide.go:309-397 | the outcome over a document's lines is what they mean, for any way of reading a block |
| `GuideExtraction.ExtractCommandBlocks` | internal/ops/guide.go:309-397 | the outcome is what the document means; every returned command is what decoding the text between its two fence lines gives and is loadable; a refused block is refused for the first thing wrong with it |
| `GuideExtraction.ReturnedAreLoaded` | internal/ops/guide.go:351-380 | each returned command decodes from a block of the document, has a name and exactly one well-formed binding |
| `GuideExtraction.RefusalIsRight` | internal/ops/guide.go:368-378 | a block is malformed exactly when it does not decode, and invalid for a problem exactly when it decodes and that is the first test that fails |
| `GuideExtraction.EncodesLoadable` | internal/ops/guide.go:368-378 | a loadable command printed by an encoder the decoder inverts reads back |
| `GuideLines.OpensCommentIff` | internal/ops/guide.go:335-341 | a comment opens exactly on a line that begins with its mark and does not hold the closing one |
| `GuideLines.OpensCommandIff` | internal/ops/guide.go:343-351 | a command block opens exactly on its own fence line |
| `GuideLines.OpensFenceIff` | internal/ops/guide.go:343-349 | a fence of n backticks opens exactly on any other line of n >= 3 backticks and an info string without one |
| `GuideLines.ClosesCommentIff` | internal/ops/guide.go:321-326 | a comment ends exactly on a line that holds its closing mark |
| `GuideLines.ClosesFenceIff` | internal/ops/guide.go:328-333 | a fence ends exactly on a line of backticks only, at least as many as opened it |
| `GuideLines.ClosesCommandIff` | internal/ops/guide.go:356-360 | a command block ends exactly on a line of three backticks |
| `GuideScannerLaws.FirstSegmentUnique` | internal/ops/guide.go:309-397 | where a segment ends is decided by the lines alone |
| `GuideScannerLaws.SegmentationUnique` | internal/ops/guide.go:309-397 | a document has at most one segmentation |
| `GuideScannerLaws.OutcomeUnique` | internal/ops/guide.go:309-397 | a document means exactly one outcome, commands or error |
| `GuideScannerLaws.EveryDocumentMeans` | internal/ops/guide.go:309-397 | every document means an outcome |
| `GuideScannerLaws.SucceedsIffSegmented` | internal/ops/guide.go:309-397 | scanning succeeds if and only if a segmentation exists |
| `GuideScannerLaws.ExtractedFromCommandSegments` | internal/ops/guide.go:351-380 | every extracted command is a command segment's body with the 1-based number of its opening line |
| `GuideScannerLaws.HiddenTextHasNoInfluence` | internal/ops/guide.go:321-349 | rewriting the inside of comments and enclosing fences, line for line, changes nothing that is returned, neither commands nor the error of a later part |
| `GuideScannerLaws.ScanConcat` | internal/ops/guide.go:309-397 | scanning A then B gives A's commands and B's outcome with line numbers, errors included, shifted |
| `GuideScannerLaws.ScanInvertsPrint` | internal/ops/guide.go:309-397 | printing any valid commands among any closed text and scanning gives back exactly those commands |
| `Paths.CleanIdempotent` | internal/ops/routes.go:204-210 | cleaning a rooted path twice is cleaning it once, and keeps its segments |
| `Paths.JoinRoutePathAssociative` | internal/ops/routes.go:204-210 | joining prefixes is associative for rooted paths without `..` |
| `Paths.StaticIsCleanedLive` | internal/ops/routes.go:204-210 | for every literal, the scanner's path is the cleaned form of the path the router serves |
| `Paths.CleanFixesExactlyNormal` | internal/ops/routes.go:204-210 | cleaning leaves a rooted path alone if and only if it is normal |
| `Paths.SidesAgreeIffNormal` | controlplane/routes.go:57-62 | scanner and router agree on a path below a group if and only if the trimmed live path is normal |
| `Paths.JoinedIsNormal` | internal/ops/routes.go:204-210 | whatever prefix and literal, a rooted path the scanner records is normal |
| `Paths.CleanAppends` | internal/ops/routes.go:204-210 | a plain segment is added at the end |
| `Paths.DotDotTakesBack` | internal/ops/routes.go:204-210 | a parent segment takes back the one before it |
| `Paths.DotsAndSlashes` | internal/ops/routes.go:204-210 | at the root it takes nothing back; a dot and a doubled slash change nothing |
| `Paths.UnrootedDotDot` | internal/ops/routes.go:204-210 | without a root a leading parent segment is kept |
| `Paths.JoinOfNothing` | internal/ops/routes.go:204-210 | a join of nothing is the root, and with one part missing the other, cleaned |
| `Paths.TrimIs` | controlplane/routes.go:57-62 | exactly one closing slash is taken off, and never the root's own |
| `RouteScan.ScanRouterNode` | internal/ops/routes.go:141-179 | the map after the walk is the given one with the subtree's registrations written in, in order |
| `RouteScan.ScanNodes` | internal/ops/routes.go:141-179 | the same for a list of siblings, each under the same prefix |
| `RouteScan.UpperIsChi` | internal/ops/routes.go:165-174 | the selector's name upper-cased, character by character, is the method chi serves for that call |
| `RouteScan.MethodNamesCall` | internal/ops/routes.go:26-32 | each method comes from one selector only, and the five scanned ones from the five names |
| `RouteScan.FoundFromCalls` | internal/ops/routes.go:165-175 | each registration is one recorded call's: chi's method for it, the joined path, the scanned file and the call's line |
| `RouteScan.KeyNamesCall` | internal/ops/routes.go:165-175 | a method and a path are a scanned key exactly when a call by that method's own name records that path |
| `RouteScan.FiveMethods` | internal/ops/routes.go:165-175 | the same spelled out for the five methods |
| `RouteScan.LastIsRecorded` | internal/ops/routes.go:174-175 | under each key the map holds the last registration that has it |
| `RouteScan.RecordedKeys` | internal/ops/routes.go:141-179 | the map's keys are the earlier ones and the method-and-path keys of the registrations |
| `RouteScan.ScanIsCleanedWalk` | internal/ops/routes.go:128-179 | below any prefix, every registering call of a known method is recorded exactly once, under chi's method and the cleaned full path it is served at, and besides only the unrelated calls are |
| `RouteScan.ScannedKeys` | internal/ops/routes.go:33-38 | the scanned keys are the cleaned live routes of known methods and those of unrelated calls: these can only enlarge the set |
| `RouteScan.Routes` | controlplane/routes.go:37-51 | a sorted permutation of the walked routes, each with its method and its group slash trimmed |
| `RouteScan.ListedIff` | controlplane/routes.go:43-44 | a route is listed exactly when the router serves that method at that path, group slash trimmed |
| `RouteScan.ScanCoversIff` | internal/ops/routes.go:96-210 | every live route is among the scanned keys if and only if every served path, group slash trimmed, is normal and every served method one of the five, whatever unrelated calls there are |
| `RouteScan.StaticTableIsLiveTable` | controlplane/routes.go:37-62 | for every tree, the scanned key set is the set of live routes if and only if, besides, every unrelated call names a served route |
| `RouteScan.TidyIsAllNormal` | internal/ops/routes.go:197-210 | a tree of clean literals, with or without closing slashes, serves normal paths only |
| `RouteScan.UntidyLiteralIsMissed` | internal/ops/routes.go:204-210 | a literal with a doubled slash inside is a live route the scanner misses |
| `RouteScan.UnknownMethodIsMissed` | internal/ops/routes.go:39-50 | a route of a method the scanner does not know is a live route it misses |
| `LiveRoutes.SilentCheckCoversLiveRoutesIff` | internal/ops/guidedrift.go:69-268 | when the check over the scanned table is silent, no route is both documented and exempted, and every live route is one of the two if and only if every served path is normal and every method one of the five |
| `TokenRefresh.Binding.Serve` | cmd/sandbox-agent/cloudidentity.go:528-554 | any number of ticks leaves the file the timed specification says |
| `TokenRefresh.FiringOnGrid` | cmd/sandbox-agent/cloudidentity.go:528-540 | the ticker fires at whole half-lifetimes after its start, whenever the last tick was received |
| `TokenRefresh.ReceivedIs` | cmd/sandbox-agent/cloudidentity.go:528-540 | the first tick is received one interval after the start, and each later one when it has fired and the mint before it is over, whichever is later |
| `TokenRefresh.FileIsLastTouch` | cmd/sandbox-agent/cloudidentity.go:528-554 | the file is what the last tick that touched it left: nothing after a failed mint, that tick's token after a write, a truncated file after a write cut short, the boot's token if none did |
| `TokenRefresh.AlwaysFreshIff` | cmd/sandbox-agent/main.go:1987-1994 | with at most m ticks in a row that leave the file alone, the file never holds an expired token, over all runs and mint outcomes, if and only if a mint fits in half a lifetime and startup delay, m+1 intervals and a mint fit in a lifetime |
| `TokenRefresh.FreshWithoutFailuresIff` | cmd/sandbox-agent/cloudidentity.go:528-554 | the case in which every file operation works |
| `TokenRefresh.SlowMintExpires` | cmd/sandbox-agent/cloudidentity.go:240-257 | a mint longer than half a lifetime leaves an expired token even when every file operation works |
| `TokenRefresh.AgeAfterFailures` | cmd/sandbox-agent/cloudidentity.go:528-554 | with at most m ticks in a row that leave the file alone, a token on file is at most m+1 intervals and a mint old, counted from the tick that minted it, the boot's own token older by the startup delay |
| `TokenRefresh.FailedWritesLeaveExpiredToken` | cmd/sandbox-agent/cloudidentity.go:528-554 | whenever that sum exceeds the lifetime, m failed writes in a row leave the boot's own token on file expired |
| `TokenRefresh.OneFailedWriteIsTooMany` | cmd/sandbox-agent/cloudidentity.go:528-554 | a single failed write can leave an expired token as soon as delay and mint time come to two nanoseconds |
| `TokenRefresh.SuccessfulTickRestores` | cmd/sandbox-agent/cloudidentity.go:528-554 | any later tick that mints and writes leaves a token no older than its own mint |
| `MigrationNames.ParsePrint` | internal/ops/migrationversions.go:57-87 | parsing a printed name gives back version, slug and direction for every version in 0..999999 and every non-empty slug |
| `MigrationNames.PrintInjective` | internal/ops/migrationversions.go:57-87 | no two migrations print to the same name |
| `MigrationNames.ParseParts` | internal/ops/migrationversions.go:57-87 | a name with a prefix and a slug is read exactly when the prefix is a number of six characters and the slug is not empty, and is otherwise refused for the first of these that fails |
| `MigrationNames.NoUnderscoreIsRefused` | internal/ops/migrationversions.go:57-87 | without an underscore, or with nothing before it, there is no version |
| `MigrationNames.DirectionIsFound` | internal/ops/migrationversions.go:57-87 | a name is refused for its ending only if it has no direction |
| `MigrationNames.DirectionIsEnough` | internal/ops/migrationversions.go:57-87 | and one that has a direction is not |
| `MigrationNames.AtoiDigits` | internal/ops/migrationversions.go:57-87 | a number is digits that fit in 64 bits |
| `MigrationNames.AtoiSigned` | internal/ops/migrationversions.go:57-87 | or a sign and such digits |
| `MigrationNames.AtoiRefuses` | internal/ops/migrationversions.go:57-87 | and nothing else |
| `MigrationChecks.CheckMigrationVersions` | internal/ops/migrationversions.go:131-185 | exactly the problems of each version present, each once, version by version in strictly ascending order |
| `MigrationChecks.GroupByVersion` | internal/ops/migrationversions.go:131-151 | the map holds each version's up and down names in file order, and the version list each version exactly once |
| `MigrationChecks.ProblemsAre` | internal/ops/migrationversions.go:153-184 | which problem a version is reported for: two or no files of a direction, or one of each with different slugs, with the names and slugs in question |
| `MigrationChecks.VersionsSoundIff` | internal/ops/migrationversions.go:131-185 | silent if and only if every version has exactly one up and one down file sharing a slug |
| `MigrationChecks.CheckMigrationGaps` | internal/ops/migrationversions.go:227-253 | reports exactly the versions missing between the lowest and the highest, in ascending order |
| `MigrationChecks.GapsSilentIff` | internal/ops/migrationversions.go:227-253 | silent if and only if the versions have no gap |
| `MigrationChecks.BothChecksFixTheFileCount` | internal/ops/migrationversions.go:131-253 | a non-empty set passing both checks is an interval of versions with exactly 2*(max-min+1) files |
| `Deployments.UpToDateIff` | internal/ops/migrationversions.go:116-130 | over every sequence of growing trees, each tree is fully applied throughout if and only if each adds versions only above the last |
| `Deployments.GapFreeTreesAreApplied` | internal/ops/migrationversions.go:187-197 | growing gap-free trees with one lowest version are fully applied after each deployment |
| `Deployments.PassedOverForever` | internal/ops/migrationversions.go:187-197 | a version the stored one has passed is never applied in any continuation |
| `Deployments.BackfilledGapIsLost` | internal/ops/migrationversions.go:187-197 | deploying 1 and 3 and then filling in 2 leaves 2 unapplied for ever |
| `Deployments.RefusedOrNothingAhead` | internal/ops/migrationversions.go:187-197 | a tree without the stored version, or with nothing ahead of it, changes nothing, and no deployment undoes a migration |
| `ExemptionRules.ReasonClausesAllVacuous` | internal/ops/guideomission.go:288-302 | true exactly when no clause has substance and some clause is not blank |
| `ExemptionRules.JudgeReason` | internal/ops/guidedrift.go:184-210 | the first problem of a reason: empty, vacuous as a whole or clause by clause, or too short |
| `ExemptionRules.ClausesOfGlue` | internal/ops/guideomission.go:254-254 | splitting undoes gluing separator-free pieces with separator runs |
| `ExemptionRules.GlueOfClauses` | internal/ops/guideomission.go:254-254 | every text is the gluing of its clauses |
| `ExemptionRules.ClauseCheckIff` | internal/ops/guideomission.go:288-302 | the clause check fires if and only if the reason is stock phrases and blanks glued with separators |
| `StockReasons.SpellingNormalizes` | internal/ops/guideomission.go:222-231 | a phrase in any case, with any space runs inside and around and any closing stops, normalises to itself |
| `StockReasons.SpelledStockIsStock` | internal/ops/guideomission.go:197-231 | every entry of the denylist, in every such spelling, is recognised |
| `StockReasons.ClauseCheckTrimmed` | internal/ops/guideomission.go:288-302 | spaces around a reason do not change the verdict of the clause check |
| `StockReasons.GluedStockIsRefused` | internal/ops/guideomission.go:254-302 | a reason of any length glued together from spelled stock phrases and blanks with separator punctuation is refused after trimming |
| `StockReasons.StockIsRefused` | internal/ops/guidedrift.go:184-201 | a reason that is one stock phrase, hyphenated ones included, is refused in every spelling |
| `StockReasons.PhraseSpellsItself` | internal/ops/guideomission.go:197-220 | every entry of the denylist is among its own spellings |
| `ReasonLaws.GoodReasonIsAccepted` | internal/ops/guidedrift.go:184-210 | a reason of thirty characters or more that is no stock phrase and says something in some clause is accepted |
| `ReasonLaws.ShortReasonIsRefused` | internal/ops/guidedrift.go:202-209 | every reason of fewer than thirty bytes is refused |
| `ReasonLaws.ShortAsciiReasonIsRefused` | internal/ops/guideomission.go:186-186 | in ASCII, of fewer than thirty characters |
| `ReasonLaws.ReasonProblemIs` | internal/ops/guidedrift.go:184-210 | which of the three problems is reported: empty, then stock, then short |
| `ReasonLaws.LongClauseIsAccepted` | internal/ops/guideomission.go:288-302 | a clause of plain words longer than any stock phrase is an acceptable reason |
| `ReasonLaws.ShoutedStockIsStock` | internal/ops/guideomission.go:222-231 | a stock phrase in capitals, with any gaps and closing stops, is still one |
| `ReasonLaws.SeparatorsAre` | internal/ops/guideomission.go:254-254 | nine punctuation marks split a reason into clauses, and nothing else does |
| `ReasonLaws.TwoStockPhrasesAreRefused` | internal/ops/guideomission.go:254-302 | two stock phrases with any run of such marks between them are refused |
| `ExemptionRules.WellFormedIff` | internal/ops/guideomission.go:312-327 | a route is well formed exactly when it reads METHOD /path |
| `ExemptionRules.WildcardIff` | internal/ops/guideomission.go:340-342 | a wildcard is a star or three dots, anywhere |
| `ReasonLaws.GoodEntryExempts` | internal/ops/guidedrift.go:212-265 | a well-formed entry for a real route with a good reason keeps the route out of the whole check's undocumented reports |
| `GuideDrift.CheckGuides` | internal/ops/guidedrift.go:73-132 | the guides' reports in order and the set of documented routes |
| `GuideDrift.CheckExemption` | internal/ops/guidedrift.go:142-247 | following the code's branches, an entry exempts its route if and only if route and reason are acceptable and the route exists |
| `GuideDrift.CheckExemptions` | internal/ops/guidedrift.go:140-247 | the register's reports in order, and as exempted the routes of exactly the effective entries |
| `GuideDrift.CheckCompleteness` | internal/ops/guidedrift.go:254-266 | one report per route covered by nothing, in key order |
| `GuideDrift.CheckGuideDrift` | internal/ops/guidedrift.go:69-268 | all reports in order, whatever order the route map is read in |
| `GuideDriftLaws.GuidesSilentIff` | internal/ops/guidedrift.go:73-132 | the guides' part is silent if and only if all vocabulary is registered and every documented route exists |
| `GuideDriftLaws.RegisterSilentIff` | internal/ops/guidedrift.go:140-247 | the register's part is silent if and only if entries are distinct and acceptable and name undocumented real routes only |
| `GuideDriftLaws.CodeSilentIffPartitioned` | internal/ops/guidedrift.go:69-268 | no error if and only if vocabulary and register are sound and the registered routes are the disjoint union of documented and exempted ones |
| `GuideDriftLaws.MapOrderDoesNotMatter` | internal/ops/guidedrift.go:249-253 | the order in which the route map is read does not change the sorted keys |
| `GuideDriftLaws.BadEntriesSilenceNothing` | internal/ops/guidedrift.go:212-265 | dropping every malformed, wildcard, stale or badly reasoned entry leaves the undocumented-route reports of the whole check unchanged, in order |
| `GuideDriftLaws.ReportedIff` | internal/ops/guidedrift.go:212-265 | the whole check reports a route as undocumented if and only if no guide documents it and every entry that names it is unacceptable |
| `GuideDriftLaws.CodeAcceptsIff` | internal/ops/guidedrift.go:158-210 | an entry is acceptable exactly when its route reads METHOD /path without a star or three dots and its reason passes |
| `GuideDriftLaws.CodeReportedIff` | internal/ops/guidedrift.go:142-265 | the same with the code's own rules spelled out |
| `GuideDriftLaws.StockReasonExemptsNothing` | internal/ops/guidedrift.go:184-237 | an entry whose reason is a stock phrase, or stock phrases glued together, is never acceptable |
| `GuideReports.GuideDefectReportedIff` | internal/ops/guidedrift.go:73-132 | the whole check reports each kind of defect of a guide or a command exactly when some guide has it, under its path and name |
| `GuideReports.DocumentedHas` | internal/ops/guidedrift.go:83-85 | a route is documented exactly when some command of some guide names it |
| `GuideReports.EntryDefectReportedIff` | internal/ops/guidedrift.go:140-247 | the whole check reports each kind of defect of an exemption exactly when some entry has it, under that entry's route |
| `GuideReports.PartsInOrder` | internal/ops/guidedrift.go:69-268 | guides' reports come first, then the register's, then the undocumented routes |
| `SpawnEnv.DropInvalid` | cmd/sandbox-agent/sandboxsecrets.go:176-181 | exactly the entries with a valid name remain, whatever order the map is read in |
| `SpawnEnv.BuildLayer` | cmd/sandbox-agent/automationenvvars.go:158-173 | the entries of the map in sorted name order, whatever order the map is read in |
| `SpawnEnv.LayerUnique` | cmd/sandbox-agent/sandboxsecrets.go:204-219 | the layer of a map does not depend on map iteration order |
| `SpawnEnv.LayerReadsBack` | cmd/sandbox-agent/sandboxsecrets.go:204-219 | with names free of `=`, last-wins lookup over a layer gives back exactly the map |
| `SpawnEnv.SecretsWin` | cmd/sandbox-agent/automationenvvars.go:203-206 | lookup over both layers gives the secret if present, otherwise the automation value |
| `SpawnEnv.AutomationAndSandboxSecretEnv` | cmd/sandbox-agent/automationenvvars.go:203-206 | from delivered maps to lookup: invalid names dropped, secrets win, everything else absent |
| `SpawnEnv.HomeAlwaysWins` | cmd/sandbox-agent/main.go:1788-1790 | HOME resolves to the runtime home whatever the earlier layers hold |
| `SpawnEnv.OneOwner` | internal/domain/providercredential/provider.go:48-52 | every credential variable belongs to exactly one provider and is free of `=` |
| `SpawnEnv.ProviderCredentialSpawnEnv` | cmd/sandbox-agent/main.go:1162-1173 | in any map order, lookup gives a variable's owner's API key if there is one and nothing for any other name |
| `SpawnEnv.OnlyApiKeysAreSet` | cmd/sandbox-agent/main.go:1162-1173 | an API key is set under every name of its provider; any other kind of credential sets nothing |
| `SpawnEnv.HomeOfTheProcess` | internal/sandboxagent/opencodeproc/spawn.go:223-227 | the process reads the runtime home as HOME, whatever it inherits, whatever the layers hold and whatever credentials were resolved, in any map order |
| `SpawnEnv.CredentialsComeLast` | internal/sandboxagent/opencodeproc/spawn.go:223-227 | of every variable the process reads the credential first and otherwise what the lists before it say |
| `OpenCodeConfig.FetchOpenCodeConfig` | cmd/sandbox-agent/opencodeconfig.go:123-149 | succeeds if and only if an attempt within the budget is answered after retryable failures and completed waits only; otherwise the delivery is empty |
| `OpenCodeConfig.Disk.ApplyOpenCodeConfig` | cmd/sandbox-agent/opencodeconfig.go:216-255 | each slot written, removed or kept, with every way a file operation can fail; an emitted entry implies the document is on disk |
| `OpenCodeConfig.Disk.BootConfig` | cmd/sandbox-agent/main.go:1669-1687 | the boot block is one event of the model: no home, a fetch, or a failed fetch |
| `OpenCodeConfig.CurrentIffLanded` | cmd/sandbox-agent/opencodeconfig.go:262-292 | after every run with any faults, a slot holds the last fetch's document if and only if that fetch landed in it |
| `OpenCodeConfig.SlotsFollowLastFetch` | cmd/sandbox-agent/opencodeconfig.go:216-255 | with working file operations each slot is what the last successful fetch had, absent if it had none, or untouched if there was none |
| `OpenCodeConfig.AnnouncedIffOnDisk` | cmd/sandbox-agent/opencodeconfig.go:232-254 | in every boot of every run the entry is emitted if and only if the document is on disk, except exactly in one described family of faults |
| `OpenCodeConfig.AnnouncedIffOnDiskWhenWorking` | cmd/sandbox-agent/opencodeconfig.go:232-254 | with a home and working file operations there is no exception |
| `OpenCodeConfig.TruncatedDocumentIsAnnounced` | cmd/sandbox-agent/opencodeconfig.go:242-254 | a write cut short is announced by the next failed fetch |
| `OpenCodeConfig.NoHomeHidesDocument` | cmd/sandbox-agent/main.go:1669-1672 | a boot that cannot prepare the runtime home leaves a good document unannounced |
| `WarmBoot.Agent.Seed` | internal/sandboxagent/gitdir/seed.go:64-185 | success and presence of the git-dir after each way the step sequence can end, the URL check coming before the removal |
| `WarmBoot.Agent.SeedWarmBootRepos` | cmd/sandbox-agent/main.go:2496-2534 | seeded set, warnings in order, error and git-dirs are those of the step specification |
| `WarmBoot.Agent.DiscoverRepoSHAs` | internal/sandboxagent/boot/fingerprint.go:84-122 | exactly the allowed, visible entries with a git-dir are read, and those with a head are reported with it |
| `WarmBoot.Agent.BootFingerprintAndSeed` | cmd/sandbox-agent/main.go:2414-2460 | reads only seeded repos, nothing under a rejected root; the log gets the fingerprint first, then the warnings in order |
| `WarmBoot.Agent.BootUntilSpawned` | cmd/sandbox-agent/main.go:1819-1819 | the first fingerprint reads exactly the seeded repos it can see; without an error the second reads only seeded ones if and only if nothing survives |
| `WarmBoot.ErrorOnlyFromPrimary` | cmd/sandbox-agent/main.go:2496-2534 | a loop error arises only from position 0, and then nothing was seeded or warned about and no later repo attempted |
| `WarmBoot.SeededExactly` | cmd/sandbox-agent/main.go:2496-2534 | exactly the repos whose own seed succeeded are vouched for |
| `WarmBoot.WarningsAre` | cmd/sandbox-agent/main.go:2496-2534 | without a fatal error there is one warning per position with an invalid name or a failed secondary, of that kind, in list order |
| `WarmBoot.WarnedPositionsAre` | cmd/sandbox-agent/main.go:2496-2534 | those positions are exactly the ones with such a defect, ascending |
| `WarmBoot.PresentAfter` | cmd/sandbox-agent/main.go:2496-2534 | which git-dirs exist after the loop: each attempted repo's own seed decides, the others stay |
| `WarmBoot.SeededArePresent` | cmd/sandbox-agent/main.go:2496-2534 | every repo that was vouched for has its git-dir |
| `WarmBoot.SecondReadsOnlySeededIff` | cmd/sandbox-agent/main.go:2384-2409 | for any leftovers, the second fingerprint reads only seeded git-dirs if and only if nothing is left over in an unattempted visible worktree and no failed seed leaves a git-dir |
| `WarmBoot.RefusedUrlKeepsGitDir` | internal/sandboxagent/gitdir/seed.go:64-67 | a secondary whose URL is refused keeps an old git-dir, and the second fingerprint reads it |
| `WarmBoot.HalfSeededIsRead` | internal/sandboxagent/gitdir/seed.go:116-185 | a secondary that fails after git init is read by the second fingerprint, even without leftovers |
| `WarmBoot.LeftoversAreSeedable` | cmd/sandbox-agent/main.go:2384-2409 | along every lineage from an empty disk, every git-dir belongs to a listed repo with a valid name and URL |
| `WarmBoot.LineageReadsOnlySeededIff` | cmd/sandbox-agent/main.go:2384-2409 | along such a lineage the second fingerprint reads only seeded git-dirs if and only if no seed of the boot stopped half-way |
| `DecisionHeadings.CheckContiguous` | internal/ops/decisionheadings.go:82-102 | silent if and only if the headings are exactly 1..n |
| `DecisionHeadings.FindingsAreTheBreaks` | internal/ops/decisionheadings.go:82-102 | the findings are exactly the misplaced numbers and the repetitions, each with its first position |
| `DecisionHeadings.FindingsInFileOrder` | internal/ops/decisionheadings.go:82-102 | findings come from the top of the file down |
| `DecisionHeadings.ReferencedIds` | internal/ops/decisionheadings.go:115-131 | the citations of all rows with each id kept at its first place only |
| `DecisionHeadings.CitationsAre` | internal/ops/decisionheadings.go:115-131 | every citation of every row is there, rows in order and each in its own |
| `DecisionHeadings.CitationsHas` | internal/ops/decisionheadings.go:115-131 | and nothing else is |
| `DecisionHeadings.FirstsHas` | internal/ops/decisionheadings.go:115-131 | that list holds exactly the cited ids, each once |
| `DecisionHeadings.FirstsInOrder` | internal/ops/decisionheadings.go:115-131 | and in order of first citation: further citations only append to it |
| `DecisionHeadings.CheckCoverage` | internal/ops/decisionheadings.go:145-160 | the sorted messages of exactly the cited ids without a heading; silent if and only if every cited id has one |
| `DecisionHeadings.UncoveredIs` | internal/ops/decisionheadings.go:145-160 | the report is exactly the cited ids without a heading |
| `DecisionHeadings.LossIsNoticed` | internal/ops/decisionheadings.go:133-160 | losing any headings of a register 1..n whose id n is cited makes at least one check speak |
| `DecisionHeadings.TruncationPasses` | internal/ops/decisionheadings.go:69-81 | contiguity alone accepts every truncation |
| `DecisionHeadings.ContiguityNoticesIff` | internal/ops/decisionheadings.go:69-102 | contiguity alone misses a loss if and only if the lost headings are a tail of the register |
| `Sorting.StrLeIff` | controlplane/routes.go:49-49 | the order of sorted lists is the dictionary's: a prefix first, otherwise the first difference decides |

## Left out

- Shutdown.ReturnsOnceBridgeIsBack: assumes that each turn, checkout, mint, boot step and server call
  returns, and that a `select` which finds a tick and a cancelled context ready takes the tick only
  finitely often; both numbers are arbitrary.
- RouteScan.StaticTableIsLiveTable: chi is represented by its contract, a walk that concatenates
  group patterns, with patterns that begin with `/`; `go/ast` parsing is a given tree of calls. Routes
  registered without a literal path (constants, `Handle`, `Mount`, helpers elsewhere), which the
  scanner's comment lists as a gap, are not in the tree.
- StockReasons.SpellingNormalizes: `strings.ToLower` is modelled as far as a comparison with an ASCII
  phrase can tell. Normalising is not idempotent and is not claimed to be.
- WarmBoot.LineageReadsOnlySeededIff: what clone and sync do between two boots is any change that
  creates git-dirs of listed repos with valid names and URLs only.
- Deployments.UpToDateIff: the migrator is the forward walk its documentation describes: one stored
  version, everything above it applied; failures half-way through a migration are not modelled.
- The JSON decoder, the regular expressions and the file loaders are arbitrary functions or given
  values; `clauseSplitRE` is modelled as splitting at maximal runs of its character class.
- Message texts, log output other than the order of the warm-boot lines, metrics, file permissions
  and real clocks.
- `gitclone.CheckoutPullRef` (an arbitrary function of repo and request), the inside of git
  subprocesses, `wsbridge`, `opencodeproc` beyond the order of its environment, retry delays.
- Prompt placeholders, kubeconfig and GCP JSON rendering, the review-cost endpoint, and the other
  files of `internal/ops`: formatting, single-branch logic or plain set comparisons.
- Goroutine-level atomicity below one mutex, atomic or file operation.
