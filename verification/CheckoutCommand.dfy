/**
  What one goroutine of the checkout protocol does on its own: the answer a
  checkout builds, and the order in which the boot reports itself.
  `CheckoutProtocol` interleaves these; here each runs alone.
*/
module CheckoutCommand {
  import opened CheckoutProtocol
  import opened Text

  /** One repo a "checkout" command names. */
  datatype Wanted = Wanted(name: string, ref: string, sha: string)

  /** One repo of SESSION_CONFIG. */
  datatype SessionRepo = SessionRepo(name: string, url: string)

  datatype Outcome = Busy | CheckedOut | ShaAbsent | FetchFailed | Failed

  /** What `gitclone.CheckoutPullRef` reports; it never reports busy. */
  datatype GitResult = GitResult(outcome: Outcome, headSha: string, refSha: string, err: string)

  type CheckoutPullRef = f: (SessionRepo, Wanted) -> GitResult | forall r, w :: f(r, w).outcome != Busy
    witness (r: SessionRepo, w: Wanted) => GitResult(Failed, "", "", "")

  datatype Entry = Entry(
    name: string, outcome: Outcome, headSha: Option<string>, refSha: Option<string>, error: Option<string>)

  datatype BusyReason = StillBooting | TurnRunning(n: int)

  function NonEmpty(s: string): Option<string> {
    if s == "" then None else Some(s)
  }

  /** `checkoutRepoResult`: an error is null exactly on checked_out, a SHA exactly when there is none. */
  function RepoResult(name: string, outcome: Outcome, headSha: string, refSha: string, err: string): (e: Entry)
    ensures e.error.None? <==> outcome == CheckedOut
    ensures e.headSha.None? <==> headSha == ""
    ensures e.refSha.None? <==> refSha == ""
    ensures e.outcome == outcome && e.name == name
  {
    Entry(name, outcome, NonEmpty(headSha), NonEmpty(refSha), if outcome == CheckedOut then None else Some(err))
  }

  predicate Has(repos: seq<SessionRepo>, name: string) {
    exists i | 0 <= i < |repos| :: repos[i].name == name
  }

  /** The repo a name stands for when several share it: no repo before it has the name. */
  function ByName(repos: seq<SessionRepo>, name: string): (r: SessionRepo)
    requires Has(repos, name)
    ensures exists i | 0 <= i < |repos| ::
      repos[i] == r && r.name == name && forall j | 0 <= j < i :: repos[j].name != name
  {
    if repos[0].name == name then repos[0] else
      var r := ByName(repos[1..], name);
      assert exists i | 0 < i < |repos| :: repos[i] == r && forall j | 0 <= j < i :: repos[j].name != name by {
        var k :| 0 <= k < |repos| - 1 && repos[1..][k] == r && forall j | 0 <= j < k :: repos[1..][j].name != name;
        assert repos[k + 1] == r;
        assert forall j | 0 < j < k + 1 :: repos[j] == repos[1..][j - 1];
      }
      r
  }

  lemma ByNameIs(repos: seq<SessionRepo>, name: string, i: nat)
    requires i < |repos| && repos[i].name == name && forall j | 0 <= j < i :: repos[j].name != name
    ensures Has(repos, name) && ByName(repos, name) == repos[i]
  {
    var k :| 0 <= k < |repos| && repos[k] == ByName(repos, name) && repos[k].name == name
           && forall j | 0 <= j < k :: repos[j].name != name;
    assert k == i;
  }

  /** `sessionRepo`: a linear search. */
  method FindSessionRepo(repos: seq<SessionRepo>, name: string) returns (found: Option<SessionRepo>)
    ensures found == if Has(repos, name) then Some(ByName(repos, name)) else None
  {
    for i := 0 to |repos|
      invariant forall j | 0 <= j < i :: repos[j].name != name
    {
      if repos[i].name == name {
        ByNameIs(repos, name, i);
        return Some(repos[i]);
      }
    }
    return None;
  }

  /** One call into git, in the order the calls were made. */
  datatype Attempt = Attempt(repo: SessionRepo, wanted: Wanted)

  /** The answer to one wanted repo when the checkout went ahead. */
  predicate Tried(repos: seq<SessionRepo>, w: Wanted, git: CheckoutPullRef, e: Entry) {
    && e.name == w.name && e.outcome != Busy
    && if !Has(repos, w.name) then
         e.outcome == Failed && e.headSha.None? && e.refSha.None? && e.error.Some?
       else
         var g := git(ByName(repos, w.name), w);
         && e.outcome == g.outcome
         && e.headSha == NonEmpty(g.headSha) && e.refSha == NonEmpty(g.refSha)
         && e.error == if g.outcome == CheckedOut then None else Some(g.err)
  }

  /** The git calls the wanted repos lead to, in request order, unknown names left out. */
  function Resolved(repos: seq<SessionRepo>, wanted: seq<Wanted>): seq<Attempt> {
    if wanted == [] then [] else
      var last := wanted[|wanted| - 1];
      Resolved(repos, wanted[..|wanted| - 1])
      + if Has(repos, last.name) then [Attempt(ByName(repos, last.name), last)] else []
  }

  /** Each wanted repo the session has leads to one call, in order, and no other does. */
  lemma {:induction false} ResolvedConcat(repos: seq<SessionRepo>, a: seq<Wanted>, b: seq<Wanted>)
    ensures Resolved(repos, a + b) == Resolved(repos, a) + Resolved(repos, b)
  {
    if b == [] {
      assert a + b == a;
    } else {
      assert (a + b)[..|a + b| - 1] == a + b[..|b| - 1];
      ResolvedConcat(repos, a, b[..|b| - 1]);
    }
  }

  lemma ResolvedOne(repos: seq<SessionRepo>, w: Wanted)
    ensures Has(repos, w.name) ==> Resolved(repos, [w]) == [Attempt(ByName(repos, w.name), w)]
    ensures !Has(repos, w.name) ==> Resolved(repos, [w]) == []
  {
    assert [w][..0] == [];
  }

  class CommandHandler {
    const sessionRepos: seq<SessionRepo>
    var bootComplete: bool
    var runningTurns: int
    var attempts: seq<Attempt>

    constructor (sessionRepos: seq<SessionRepo>)
      ensures this.sessionRepos == sessionRepos
      ensures !bootComplete && runningTurns == 0 && attempts == []
    {
      this.sessionRepos := sessionRepos;
      bootComplete, runningTurns, attempts := false, 0, [];
    }

    /**
      `checkout`: one entry per requested repo, in order. Either every entry is
      busy and git is not called, or no entry is busy and git is called once for
      each repo the session has, in request order, and for nothing else.
    */
    method Checkout(wanted: seq<Wanted>, git: CheckoutPullRef, describe: BusyReason -> string)
      returns (result: seq<Entry>)
      modifies this`attempts
      ensures |result| == |wanted|
      ensures forall i | 0 <= i < |wanted| :: result[i].name == wanted[i].name
      ensures !bootComplete || runningTurns > 0 ==>
                && attempts == old(attempts)
                && (forall i | 0 <= i < |wanted| ::
                      && result[i].outcome == Busy && result[i].headSha.None? && result[i].refSha.None?
                      && result[i].error ==
                           Some(describe(if bootComplete then TurnRunning(runningTurns) else StillBooting)))
      ensures bootComplete && runningTurns <= 0 ==>
                && attempts == old(attempts) + Resolved(sessionRepos, wanted)
                && (forall i | 0 <= i < |wanted| :: Tried(sessionRepos, wanted[i], git, result[i]))
    {
      if !bootComplete {
        result := AnswerBusy(wanted, describe(StillBooting));
      } else if runningTurns > 0 {
        result := AnswerBusy(wanted, describe(TurnRunning(runningTurns)));
      } else {
        result := TryEach(wanted, git);
      }
    }

    static method AnswerBusy(wanted: seq<Wanted>, why: string) returns (result: seq<Entry>)
      ensures |result| == |wanted|
      ensures forall j | 0 <= j < |wanted| :: result[j] == Entry(wanted[j].name, Busy, None, None, Some(why))
    {
      result := [];
      for i := 0 to |wanted|
        invariant |result| == i
        invariant forall j | 0 <= j < i :: result[j] == Entry(wanted[j].name, Busy, None, None, Some(why))
      {
        result := result + [RepoResult(wanted[i].name, Busy, "", "", why)];
      }
    }

    method TryEach(wanted: seq<Wanted>, git: CheckoutPullRef) returns (result: seq<Entry>)
      modifies this`attempts
      ensures |result| == |wanted|
      ensures attempts == old(attempts) + Resolved(sessionRepos, wanted)
      ensures forall i | 0 <= i < |wanted| :: Tried(sessionRepos, wanted[i], git, result[i])
    {
      result := [];
      for i := 0 to |wanted|
        invariant |result| == i
        invariant attempts == old(attempts) + Resolved(sessionRepos, wanted[..i])
        invariant forall j | 0 <= j < i :: Tried(sessionRepos, wanted[j], git, result[j])
      {
        var entry := TryOne(wanted[i], git);
        assert wanted[..i + 1][..i] == wanted[..i];
        result := result + [entry];
      }
      assert wanted[..|wanted|] == wanted;
    }

    method TryOne(w: Wanted, git: CheckoutPullRef) returns (entry: Entry)
      modifies this`attempts
      ensures attempts == old(attempts)
                + if Has(sessionRepos, w.name) then [Attempt(ByName(sessionRepos, w.name), w)] else []
      ensures Tried(sessionRepos, w, git, entry)
    {
      var found := FindSessionRepo(sessionRepos, w.name);
      if found.None? {
        entry := RepoResult(w.name, Failed, "", "", "this session has no such repo");
      } else {
        var g := git(found.value, w);
        attempts := attempts + [Attempt(found.value, w)];
        entry := RepoResult(w.name, g.outcome, g.headSha, g.refSha, g.err);
      }
    }
  }

  // ------------------------------------------------------------------
  // completeBoot
  // ------------------------------------------------------------------

  /** What the outside world can see of a boot, in order. */
  datatype BootEvent =
    | ReportedStart
    | RanBoot(ok: bool)
    | RanReown(ok: bool)
    | SentTiming(failed: bool, seconds: int)
    | StoredFlag
    | AnnouncedComplete

  /** The protocol action an event stands for. */
  function AsAction(e: BootEvent): Action {
    match e
    case ReportedStart => StartBoot
    case RanBoot(ok) => EndBoot(ok)
    case RanReown(ok) => EndReown(ok)
    case SentTiming(_, _) => SendTiming
    case StoredFlag => StoreFlag
    case AnnouncedComplete => Announce
  }

  function AsActions(events: seq<BootEvent>): seq<Action> {
    seq(|events|, i requires 0 <= i < |events| => AsAction(events[i]))
  }

  /** The steps `run` hands to `completeBoot`, with the outcome each would have. */
  datatype BootSteps = BootSteps(hasSignals: bool, runBoot: bool, hasReown: bool, reown: bool, started: int, ended: int)

  /** When an event has its turn. */
  function Stage(e: BootEvent): nat {
    match e
    case ReportedStart => 0
    case RanBoot(_) => 1
    case RanReown(_) => 2
    case SentTiming(_, _) => 3
    case StoredFlag => 4
    case AnnouncedComplete => 5
  }

  /** Each event at most once, and each in its turn. */
  predicate InOrder(events: seq<BootEvent>) {
    forall i, j | 0 <= i < j < |events| :: Stage(events[i]) < Stage(events[j])
  }

  predicate Succeeds(steps: BootSteps) {
    steps.runBoot && (steps.hasReown ==> steps.reown)
  }

  function Only(condition: bool, e: BootEvent): seq<BootEvent> {
    if condition then [e] else []
  }

  function UntilReown(steps: BootSteps): seq<BootEvent> {
    Only(steps.hasSignals, ReportedStart)
    + Only(true, RanBoot(steps.runBoot))
    + Only(steps.runBoot && steps.hasReown, RanReown(steps.reown))
  }

  /** The report of a boot. */
  function EventsOf(steps: BootSteps): seq<BootEvent> {
    var ok := Succeeds(steps);
    UntilReown(steps)
    + Only(true, SentTiming(!ok, steps.ended - steps.started))
    + Only(ok && steps.hasSignals, StoredFlag)
    + Only(ok && steps.hasSignals, AnnouncedComplete)
  }

  /** In order, and nothing of that stage or a later one yet. */
  predicate Before(events: seq<BootEvent>, stage: nat) {
    InOrder(events) && forall i | 0 <= i < |events| :: Stage(events[i]) < stage
  }

  lemma AddEvent(events: seq<BootEvent>, condition: bool, e: BootEvent)
    requires Before(events, Stage(e))
    ensures Before(events + Only(condition, e), Stage(e) + 1)
  {
    assert events + [] == events;
  }

  lemma UntilReownInOrder(steps: BootSteps)
    ensures Before(UntilReown(steps), 3)
  {
    var one := Only(steps.hasSignals, ReportedStart);
    assert Before(one, 1);
    TwoInOrder(one, RanBoot(steps.runBoot), steps.runBoot && steps.hasReown, RanReown(steps.reown));
  }

  lemma TwoInOrder(one: seq<BootEvent>, ran: BootEvent, condition: bool, reowned: BootEvent)
    requires Before(one, 1) && ran.RanBoot? && reowned.RanReown?
    ensures Before(one + Only(true, ran) + Only(condition, reowned), 3)
  {
    AddEvent(one, true, ran);
    AddEvent(one + Only(true, ran), condition, reowned);
  }

  lemma RestInOrder(soFar: seq<BootEvent>, timing: BootEvent, done: bool)
    requires Before(soFar, 3) && timing.SentTiming?
    ensures InOrder(soFar + Only(true, timing) + Only(done, StoredFlag) + Only(done, AnnouncedComplete))
  {
    AddEvent(soFar, true, timing);
    AddEvent(soFar + Only(true, timing), done, StoredFlag);
    AddEvent(soFar + Only(true, timing) + Only(done, StoredFlag), done, AnnouncedComplete);
  }

  /** Whatever steps are present: timing after boot and re-own, flag after timing, announcement after the flag. */
  lemma EventsInOrder(steps: BootSteps)
    ensures InOrder(EventsOf(steps))
  {
    var ok := Succeeds(steps);
    UntilReownInOrder(steps);
    RestInOrder(UntilReown(steps), SentTiming(!ok, steps.ended - steps.started), ok && steps.hasSignals);
  }

  /** Which events there are. */
  lemma EventsPresent(steps: BootSteps)
    ensures var events, ok := EventsOf(steps), Succeeds(steps);
      && RanBoot(steps.runBoot) in events && SentTiming(!ok, steps.ended - steps.started) in events
      && (ReportedStart in events <==> steps.hasSignals)
      && (RanReown(steps.reown) in events <==> steps.runBoot && steps.hasReown)
      && (StoredFlag in events <==> steps.hasSignals && ok)
      && (AnnouncedComplete in events <==> steps.hasSignals && ok)
  {
  }

  /** With a live session the events are exactly a boot trail of the protocol. */
  lemma EventsAreTrail(steps: BootSteps)
    requires steps.hasSignals && steps.hasReown
    ensures BootTrail(AsActions(EventsOf(steps)), if Succeeds(steps) then Announced else TimingSent(false))
  {
  }

  /**
    `completeBoot` for any mixture of present and absent steps. The timing is sent after
    the boot and the re-own pass and before the flag, the flag is stored before the
    announcement, and both only on overall success; with a live session everything
    `CheckoutProtocol` proves of the boot's actions holds of this code.
  */
  method CompleteBoot(steps: BootSteps, h: CommandHandler) returns (ok: bool, events: seq<BootEvent>)
    modifies h`bootComplete
    ensures ok == Succeeds(steps)
    ensures h.bootComplete == (old(h.bootComplete) || (steps.hasSignals && ok))
    ensures events == EventsOf(steps) && InOrder(events)
    ensures steps.hasSignals && steps.hasReown ==>
            BootTrail(AsActions(events), if ok then Announced else TimingSent(false))
  {
    EventsInOrder(steps);
    if steps.hasSignals && steps.hasReown {
      EventsAreTrail(steps);
    }
    events := [];
    if steps.hasSignals {
      events := events + [ReportedStart];
    }
    ok := steps.runBoot;
    events := events + [RanBoot(ok)];
    var seconds := steps.ended - steps.started;
    if ok && steps.hasReown {
      ok := steps.reown;
      events := events + [RanReown(ok)];
    }
    events := events + [SentTiming(!ok, seconds)];
    if ok && steps.hasSignals {
      h.bootComplete := true;
      events := events + [StoredFlag];
      events := events + [AnnouncedComplete];
    }
  }
}
