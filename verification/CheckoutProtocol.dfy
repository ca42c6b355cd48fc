/**
  The protocol that keeps a checkout, a turn and the boot off one worktree:
  `checkoutMu`, `runningTurns` and `bootComplete` of `commandHandler`.

  Turns and checkouts run on goroutines of their own, so the model is a
  transition system: an action is one atomic step of one goroutine, a run is
  any legal sequence of actions, and the number of turns and checkouts is
  unbounded. The counter is decremented outside the mutex, and the flag is read
  before the mutex is taken, as in the code.
*/
module CheckoutProtocol {

  /** One more than the largest value an `atomic.Int32` holds. */
  const HALF: nat := 0x8000_0000

  /** What an `atomic.Int32` holds after a net count of `n`: two's complement wrap-around. */
  function Wrap32(n: int): int {
    var m := n % (2 * HALF);
    if m < HALF then m else m - 2 * HALF
  }

  /** Where `completeBoot` is, for a live session. */
  datatype BootPc =
    | Idle
    | Booting
    | Reowning
    | BootEnded(ok: bool)
    | TimingSent(ok: bool)
    | FlagStored
    | Announced

  /** A turn's goroutine: `Counted` has added itself in and still holds the mutex. */
  datatype TurnPc = TurnWaiting | TurnLocked | Counted | Running | TurnReturned

  /** A checkout's goroutine: `Working` is between its counter read and its unlock. */
  datatype CheckoutPc =
    | Requested
    | AnsweredBooting
    | SawFlag
    | CheckoutLocked
    | Working
    | FoundTurn
    | CheckoutAnswered

  datatype Owner = Nobody | TurnOwner(t: nat) | CheckoutOwner(c: nat)

  datatype State = State(
    boot: BootPc,
    bootComplete: bool,
    mutex: Owner,
    runningTurns: int,
    turns: map<nat, TurnPc>,
    checkouts: map<nat, CheckoutPc>)

  datatype Action =
    | StartBoot
    | EndBoot(ok: bool)
    | EndReown(ok: bool)
    | SendTiming
    | StoreFlag
    | Announce
    | LaunchTurn(t: nat)
    | LockTurn(t: nat)
    | CountIn(t: nat)
    | UnlockTurn(t: nat)
    | CountOut(t: nat)
    | LaunchCheckout(c: nat)
    | ReadFlag(c: nat)
    | LockCheckout(c: nat)
    | ReadCounter(c: nat)
    | FinishCheckout(c: nat)

  const INITIAL := State(Idle, false, Nobody, 0, map[], map[])

  predicate TurnAt(s: State, t: nat, pc: TurnPc) {
    t in s.turns && s.turns[t] == pc
  }

  predicate CheckoutAt(s: State, c: nat, pc: CheckoutPc) {
    c in s.checkouts && s.checkouts[c] == pc
  }

  predicate Enabled(s: State, a: Action) {
    match a
    case StartBoot => s.boot == Idle
    case EndBoot(_) => s.boot == Booting
    case EndReown(_) => s.boot == Reowning
    case SendTiming => s.boot.BootEnded?
    case StoreFlag => s.boot == TimingSent(true)
    case Announce => s.boot == FlagStored
    case LaunchTurn(t) => t !in s.turns
    case LockTurn(t) => TurnAt(s, t, TurnWaiting) && s.mutex == Nobody
    case CountIn(t) => TurnAt(s, t, TurnLocked)
    case UnlockTurn(t) => TurnAt(s, t, Counted)
    case CountOut(t) => TurnAt(s, t, Running)
    case LaunchCheckout(c) => c !in s.checkouts
    case ReadFlag(c) => CheckoutAt(s, c, Requested)
    case LockCheckout(c) => CheckoutAt(s, c, SawFlag) && s.mutex == Nobody
    case ReadCounter(c) => CheckoutAt(s, c, CheckoutLocked)
    case FinishCheckout(c) => CheckoutAt(s, c, Working) || CheckoutAt(s, c, FoundTurn)
  }

  function Apply(s: State, a: Action): State {
    match a
    case StartBoot => s.(boot := Booting)
    case EndBoot(ok) => s.(boot := if ok then Reowning else BootEnded(false))
    case EndReown(ok) => s.(boot := BootEnded(ok))
    case SendTiming => s.(boot := TimingSent(s.boot == BootEnded(true)))
    case StoreFlag => s.(boot := FlagStored, bootComplete := true)
    case Announce => s.(boot := Announced)
    case LaunchTurn(t) => s.(turns := s.turns[t := TurnWaiting])
    case LockTurn(t) => s.(turns := s.turns[t := TurnLocked], mutex := TurnOwner(t))
    case CountIn(t) => s.(turns := s.turns[t := Counted], runningTurns := Wrap32(s.runningTurns + 1))
    case UnlockTurn(t) => s.(turns := s.turns[t := Running], mutex := Nobody)
    case CountOut(t) => s.(turns := s.turns[t := TurnReturned], runningTurns := Wrap32(s.runningTurns - 1))
    case LaunchCheckout(c) => s.(checkouts := s.checkouts[c := Requested])
    case ReadFlag(c) => s.(checkouts := s.checkouts[c := if s.bootComplete then SawFlag else AnsweredBooting])
    case LockCheckout(c) => s.(checkouts := s.checkouts[c := CheckoutLocked], mutex := CheckoutOwner(c))
    case ReadCounter(c) => s.(checkouts := s.checkouts[c := if s.runningTurns > 0 then FoundTurn else Working])
    case FinishCheckout(c) => s.(checkouts := s.checkouts[c := CheckoutAnswered], mutex := Nobody)
  }

  /** The state a sequence of actions leads to. */
  function After(run: seq<Action>): State {
    if run == [] then INITIAL else Apply(After(run[..|run| - 1]), run[|run| - 1])
  }

  /** Each action was enabled when it was taken. */
  predicate Legal(run: seq<Action>) {
    run == [] || (Legal(run[..|run| - 1]) && Enabled(After(run[..|run| - 1]), run[|run| - 1]))
  }

  /** The turns between their increment and their decrement. */
  function Active(s: State): set<nat> {
    set t | t in s.turns && s.turns[t] in {Counted, Running}
  }

  /** No checkout works beside a turn, another checkout, or an unfinished boot. */
  ghost predicate Exclusive(s: State) {
    forall c | CheckoutAt(s, c, Working) ::
      && Active(s) == {}
      && (s.boot == FlagStored || s.boot == Announced)
      && forall d | CheckoutAt(s, d, Working) :: d == c
  }

  /** No state the run passes through has more than `limit` active turns. */
  ghost predicate NeverMoreActive(run: seq<Action>, limit: nat) {
    forall i | 0 <= i <= |run| :: |Active(After(run[..i]))| <= limit
  }

  // ------------------------------------------------------------------
  // The inductive invariant
  // ------------------------------------------------------------------

  ghost predicate MutexAgrees(s: State) {
    && (forall t | t in s.turns :: s.mutex == TurnOwner(t) <==> s.turns[t] in {TurnLocked, Counted})
    && (forall c | c in s.checkouts ::
          s.mutex == CheckoutOwner(c) <==> s.checkouts[c] in {CheckoutLocked, Working, FoundTurn})
    && (s.mutex.TurnOwner? ==> s.mutex.t in s.turns)
    && (s.mutex.CheckoutOwner? ==> s.mutex.c in s.checkouts)
  }

  ghost predicate FlagAgrees(s: State) {
    && (s.bootComplete <==> (s.boot == FlagStored || s.boot == Announced))
    && (forall c | c in s.checkouts && s.checkouts[c] !in {Requested, AnsweredBooting} :: s.bootComplete)
  }

  ghost predicate Inv(s: State) {
    && MutexAgrees(s)
    && FlagAgrees(s)
    && s.runningTurns == Wrap32(|Active(s)|)
  }

  lemma ActiveAfterStep(s: State, a: Action)
    requires Enabled(s, a)
    ensures a.CountIn? ==> Active(Apply(s, a)) == Active(s) + {a.t} && a.t !in Active(s)
    ensures a.CountOut? ==> Active(Apply(s, a)) == Active(s) - {a.t} && a.t in Active(s)
    ensures !a.CountIn? && !a.CountOut? ==> Active(Apply(s, a)) == Active(s)
  {
  }

  lemma WrapStep(n: int, delta: int)
    ensures Wrap32(Wrap32(n) + delta) == Wrap32(n + delta)
  {
    var k := n / (2 * HALF);
    assert n == k * (2 * HALF) + n % (2 * HALF);
    var j := (n + delta) / (2 * HALF);
    assert n + delta == j * (2 * HALF) + (n + delta) % (2 * HALF);
  }

  lemma MutexStep(s: State, a: Action)
    requires MutexAgrees(s) && Enabled(s, a)
    ensures MutexAgrees(Apply(s, a))
  {
  }

  lemma FlagStep(s: State, a: Action)
    requires FlagAgrees(s) && Enabled(s, a)
    ensures FlagAgrees(Apply(s, a))
  {
  }

  lemma CounterStep(s: State, a: Action)
    requires s.runningTurns == Wrap32(|Active(s)|) && Enabled(s, a)
    ensures Apply(s, a).runningTurns == Wrap32(|Active(Apply(s, a))|)
  {
    ActiveAfterStep(s, a);
    WrapStep(|Active(s)|, 1);
    WrapStep(|Active(s)|, -1);
  }

  /** Every action keeps the invariant. */
  lemma InvStep(s: State, a: Action)
    requires Inv(s) && Enabled(s, a)
    ensures Inv(Apply(s, a))
  {
    MutexStep(s, a);
    FlagStep(s, a);
    CounterStep(s, a);
  }

  lemma {:induction false} InvAfter(run: seq<Action>)
    requires Legal(run)
    ensures Inv(After(run))
  {
    if run == [] {
      assert Active(INITIAL) == {};
    } else {
      InvAfter(run[..|run| - 1]);
      InvStep(After(run[..|run| - 1]), run[|run| - 1]);
    }
  }

  // ------------------------------------------------------------------
  // Exclusion
  // ------------------------------------------------------------------

  /** A working checkout holds the mutex, so it is the only one, and it saw the flag. */
  lemma WorkingAlone(s: State, c: nat)
    requires Inv(s) && CheckoutAt(s, c, Working)
    ensures s.boot == FlagStored || s.boot == Announced
    ensures forall d | CheckoutAt(s, d, Working) :: d == c
  {
    assert s.mutex == CheckoutOwner(c);
  }

  lemma NoTurnBeside(s: State, a: Action, c: nat)
    requires Inv(s) && Exclusive(s) && Enabled(s, a) && |Active(s)| < HALF
    requires CheckoutAt(Apply(s, a), c, Working)
    ensures Active(Apply(s, a)) == {}
  {
    ActiveAfterStep(s, a);
    if a == ReadCounter(c) {
      assert |Active(s)| == 0;
    } else {
      assert CheckoutAt(s, c, Working);
      assert s.mutex == CheckoutOwner(c);
    }
  }

  lemma ExclusionStep(s: State, a: Action)
    requires Inv(s) && Exclusive(s) && Enabled(s, a)
    requires |Active(s)| < HALF
    ensures Exclusive(Apply(s, a))
  {
    InvStep(s, a);
    var s' := Apply(s, a);
    forall c | CheckoutAt(s', c, Working)
      ensures Active(s') == {} && (s'.boot == FlagStored || s'.boot == Announced)
      ensures forall d | CheckoutAt(s', d, Working) :: d == c
    {
      NoTurnBeside(s, a, c);
      WorkingAlone(s', c);
    }
  }

  lemma {:induction false} ExclusionInEveryRun(run: seq<Action>, limit: nat)
    requires Legal(run) && NeverMoreActive(run, limit)
    requires limit < HALF
    ensures forall i | 0 <= i <= |run| :: Exclusive(After(run[..i]))
  {
    if run != [] {
      var before := run[..|run| - 1];
      forall i | 0 <= i <= |before|
        ensures before[..i] == run[..i]
      {
      }
      ExclusionInEveryRun(before, limit);
      InvAfter(before);
      assert before[..|before|] == before;
      ExclusionStep(After(before), run[|run| - 1]);
      assert run[..|run|] == run;
      forall i | 0 <= i <= |run|
        ensures Exclusive(After(run[..i]))
      {
        if i < |run| {
          assert before[..i] == run[..i];
        }
      }
    }
  }

  /** Every run in which at most `limit` turns are ever active keeps checkouts apart. */
  ghost predicate SafeUpTo(limit: nat) {
    forall run | Legal(run) && NeverMoreActive(run, limit) :: Exclusive(After(run))
  }

  /**
    The protocol is safe for a bound on simultaneous turns exactly when the
    counter cannot wrap: at 2^31 active turns the `Int32` reads negative, and a
    checkout goes ahead beside all of them.
  */
  lemma ExclusionHoldsIffCounterCannotWrap(limit: nat)
    ensures SafeUpTo(limit) <==> limit < 2147483648
  {
    if limit < HALF {
      forall run | Legal(run) && NeverMoreActive(run, limit)
        ensures Exclusive(After(run))
      {
        ExclusionInEveryRun(run, limit);
        assert run[..|run|] == run;
      }
    } else {
      var run := WrappedRun(limit);
    }
  }

  lemma TakeAction(run: seq<Action>, a: Action)
    requires Legal(run) && Enabled(After(run), a)
    ensures Legal(run + [a]) && After(run + [a]) == Apply(After(run), a)
  {
    assert (run + [a])[..|run|] == run;
  }

  lemma Extend(run: seq<Action>, a: Action, limit: nat)
    requires Legal(run) && NeverMoreActive(run, limit)
    requires Enabled(After(run), a)
    requires |Active(Apply(After(run), a))| <= limit
    ensures Legal(run + [a])
    ensures After(run + [a]) == Apply(After(run), a)
    ensures NeverMoreActive(run + [a], limit)
  {
    TakeAction(run, a);
    var longer := run + [a];
    forall i | 0 <= i <= |longer|
      ensures |Active(After(longer[..i]))| <= limit
    {
      if i <= |run| {
        assert longer[..i] == run[..i];
      } else {
        assert longer[..i] == longer;
      }
    }
  }

  /** Boot finished, mutex free, no checkout yet, and `n` turns, all of them running. */
  ghost predicate ManyRunning(s: State, n: nat) {
    && s.boot == Announced && s.bootComplete && s.mutex == Nobody
    && s.checkouts == map[]
    && (forall t | t in s.turns :: t < n && s.turns[t] == Running)
    && |Active(s)| == n
  }

  lemma BootedRun(limit: nat) returns (run: seq<Action>)
    ensures Legal(run) && NeverMoreActive(run, limit) && ManyRunning(After(run), 0)
  {
    run := [];
    assert Active(INITIAL) == {};
    Extend(run, StartBoot, limit); run := run + [StartBoot];
    Extend(run, EndBoot(true), limit); run := run + [EndBoot(true)];
    Extend(run, EndReown(true), limit); run := run + [EndReown(true)];
    Extend(run, SendTiming, limit); run := run + [SendTiming];
    Extend(run, StoreFlag, limit); run := run + [StoreFlag];
    Extend(run, Announce, limit); run := run + [Announce];
  }

  lemma {:induction false} ManyTurnsRun(n: nat, limit: nat) returns (run: seq<Action>)
    requires n <= limit
    ensures Legal(run) && NeverMoreActive(run, limit) && ManyRunning(After(run), n)
  {
    if n == 0 {
      run := BootedRun(limit);
    } else {
      var t := n - 1;
      run := ManyTurnsRun(t, limit);
      run := StepOf(run, LaunchTurn(t), limit);
      run := StepOf(run, LockTurn(t), limit);
      run := StepOf(run, CountIn(t), limit);
      run := StepOf(run, UnlockTurn(t), limit);
    }
  }

  /** Takes one more action that keeps the number of active turns within the limit. */
  lemma StepOf(run: seq<Action>, a: Action, limit: nat) returns (longer: seq<Action>)
    requires Legal(run) && NeverMoreActive(run, limit)
    requires Enabled(After(run), a)
    requires a.CountIn? ==> |Active(After(run))| < limit
    ensures Legal(longer) && NeverMoreActive(longer, limit)
    ensures After(longer) == Apply(After(run), a)
    ensures !a.CountOut? ==> |Active(After(longer))| == |Active(After(run))| + if a.CountIn? then 1 else 0
  {
    ActiveAfterStep(After(run), a);
    assert run[..|run|] == run;
    Extend(run, a, limit);
    longer := run + [a];
  }

  /** A checkout goes ahead whenever the counter does not read positive. */
  lemma CheckoutGoesAhead(run: seq<Action>, limit: nat) returns (longer: seq<Action>)
    requires Legal(run) && NeverMoreActive(run, limit)
    requires After(run).bootComplete && After(run).mutex == Nobody && After(run).checkouts == map[]
    requires After(run).runningTurns <= 0
    ensures Legal(longer) && NeverMoreActive(longer, limit)
    ensures CheckoutAt(After(longer), 0, Working) && |Active(After(longer))| == |Active(After(run))|
  {
    longer := StepOf(run, LaunchCheckout(0), limit);
    longer := StepOf(longer, ReadFlag(0), limit);
    longer := StepOf(longer, LockCheckout(0), limit);
    longer := StepOf(longer, ReadCounter(0), limit);
  }

  lemma WrapsAtHalf()
    ensures Wrap32(HALF) == 0 - HALF
  {
  }

  /** With 2^31 turns the counter reads negative. */
  lemma WrappedRun(limit: nat) returns (run: seq<Action>)
    requires HALF <= limit
    ensures Legal(run) && NeverMoreActive(run, limit)
    ensures |Active(After(run))| == 2147483648 && After(run).runningTurns == -2147483648
    ensures CheckoutAt(After(run), 0, Working) && !Exclusive(After(run))
  {
    run := ManyTurnsRun(HALF, limit);
    InvAfter(run);
    WrapsAtHalf();
    run := CheckoutGoesAhead(run, limit);
    InvAfter(run);
  }

  // ------------------------------------------------------------------
  // What the boot flag vouches for
  // ------------------------------------------------------------------

  predicate IsBootAction(a: Action) {
    a.StartBoot? || a.EndBoot? || a.EndReown? || a.SendTiming? || a.StoreFlag? || a.Announce?
  }

  /** The boot's own actions of a run, in order. */
  function BootActions(run: seq<Action>): seq<Action> {
    if run == [] then [] else
      var rest := BootActions(run[..|run| - 1]);
      if IsBootAction(run[|run| - 1]) then rest + [run[|run| - 1]] else rest
  }

  /** `trail` is a history of boot actions that ends with the boot at `pc`. */
  predicate BootTrail(trail: seq<Action>, pc: BootPc) {
    match pc
    case Idle => trail == []
    case Booting => trail == [StartBoot]
    case Reowning => trail == [StartBoot, EndBoot(true)]
    case BootEnded(true) => trail == [StartBoot, EndBoot(true), EndReown(true)]
    case BootEnded(false) =>
      trail == [StartBoot, EndBoot(false)] || trail == [StartBoot, EndBoot(true), EndReown(false)]
    case TimingSent(true) => trail == [StartBoot, EndBoot(true), EndReown(true), SendTiming]
    case TimingSent(false) =>
      || trail == [StartBoot, EndBoot(false), SendTiming]
      || trail == [StartBoot, EndBoot(true), EndReown(false), SendTiming]
    case FlagStored => trail == [StartBoot, EndBoot(true), EndReown(true), SendTiming, StoreFlag]
    case Announced => trail == [StartBoot, EndBoot(true), EndReown(true), SendTiming, StoreFlag, Announce]
  }

  lemma BootTrailStep(trail: seq<Action>, s: State, a: Action)
    requires BootTrail(trail, s.boot) && Enabled(s, a)
    ensures BootTrail(if IsBootAction(a) then trail + [a] else trail, Apply(s, a).boot)
  {
  }

  lemma {:induction false} BootTrailOf(run: seq<Action>)
    requires Legal(run)
    ensures BootTrail(BootActions(run), After(run).boot)
  {
    if run != [] {
      BootTrailOf(run[..|run| - 1]);
      BootTrailStep(BootActions(run[..|run| - 1]), After(run[..|run| - 1]), run[|run| - 1]);
    }
  }

  /**
    The flag is up exactly when the boot and its re-own pass both succeeded,
    `boot_duration` was sent with failed=false, and the store followed, in that
    order; a run that has announced completion stored the flag first.
  */
  lemma {:induction false} FlagVouchesForBoot(run: seq<Action>)
    requires Legal(run)
    ensures BootTrail(BootActions(run), After(run).boot)
    ensures After(run).bootComplete <==>
            [StartBoot, EndBoot(true), EndReown(true), SendTiming, StoreFlag] <= BootActions(run)
  {
    InvAfter(run);
    BootTrailOf(run);
  }

  /** Once completion has been announced, no later flag read is answered "still booting". */
  lemma {:induction false} NeverBootingOnceAnnounced(run: seq<Action>, i: nat, j: nat, c: nat)
    requires Legal(run) && i <= j < |run|
    requires After(run[..i]).boot == Announced
    requires run[j] == ReadFlag(c)
    ensures CheckoutAt(After(run[..j + 1]), c, SawFlag)
  {
    LegalPrefix(run, j);
    LegalPrefix(run, i);
    AnnouncedStays(run, i, j);
    InvAfter(run[..j]);
    assert run[..j + 1][..j] == run[..j];
    assert run[..j + 1][j] == run[j];
  }

  lemma {:induction false} LegalPrefix(run: seq<Action>, i: nat)
    requires Legal(run) && i <= |run|
    ensures Legal(run[..i])
  {
    if i < |run| {
      var before := run[..|run| - 1];
      LegalPrefix(before, i);
      assert before[..i] == run[..i];
    } else {
      assert run[..i] == run;
    }
  }

  lemma {:induction false} AnnouncedStays(run: seq<Action>, i: nat, j: nat)
    requires Legal(run) && i <= j <= |run|
    requires After(run[..i]).boot == Announced
    ensures After(run[..j]).boot == Announced
  {
    if i < j {
      AnnouncedStays(run, i, j - 1);
      LegalPrefix(run, j);
      assert run[..j][..j - 1] == run[..j - 1];
    }
  }

  /** The action is one the owner of the mutex takes. */
  predicate TakenBy(owner: Owner, a: Action) {
    match owner
    case Nobody => false
    case TurnOwner(t) => a == CountIn(t) || a == UnlockTurn(t)
    case CheckoutOwner(c) => a == ReadCounter(c) || a == FinishCheckout(c)
  }

  /** No deadlock: whoever holds the mutex releases it in at most two actions of its own. */
  lemma HolderReleases(run: seq<Action>) returns (release: seq<Action>)
    requires Legal(run)
    ensures Legal(run + release) && |release| <= 2
    ensures forall a | a in release :: TakenBy(After(run).mutex, a)
    ensures After(run + release).mutex == Nobody
  {
    InvAfter(run);
    var s := After(run);
    match s.mutex {
      case Nobody =>
        release := [];
        assert run + release == run;
      case TurnOwner(t) =>
        release := TurnReleases(run, t);
      case CheckoutOwner(c) =>
        release := CheckoutReleases(run, c);
    }
  }

  lemma TurnReleases(run: seq<Action>, t: nat) returns (release: seq<Action>)
    requires Legal(run) && (TurnAt(After(run), t, TurnLocked) || TurnAt(After(run), t, Counted))
    ensures forall a | a in release :: TakenBy(TurnOwner(t), a)
    ensures Legal(run + release) && |release| <= 2
    ensures After(run + release).mutex == Nobody
  {
    if TurnAt(After(run), t, TurnLocked) {
      TakeAction(run, CountIn(t));
      TakeAction(run + [CountIn(t)], UnlockTurn(t));
      release := [CountIn(t), UnlockTurn(t)];
      assert run + release == run + [CountIn(t)] + [UnlockTurn(t)];
    } else {
      TakeAction(run, UnlockTurn(t));
      release := [UnlockTurn(t)];
    }
  }

  lemma CheckoutReleases(run: seq<Action>, c: nat) returns (release: seq<Action>)
    requires Legal(run) && c in After(run).checkouts
    requires After(run).checkouts[c] in {CheckoutLocked, Working, FoundTurn}
    ensures forall a | a in release :: TakenBy(CheckoutOwner(c), a)
    ensures Legal(run + release) && |release| <= 2
    ensures After(run + release).mutex == Nobody
  {
    if CheckoutAt(After(run), c, CheckoutLocked) {
      TakeAction(run, ReadCounter(c));
      TakeAction(run + [ReadCounter(c)], FinishCheckout(c));
      release := [ReadCounter(c), FinishCheckout(c)];
      assert run + release == run + [ReadCounter(c)] + [FinishCheckout(c)];
    } else {
      TakeAction(run, FinishCheckout(c));
      release := [FinishCheckout(c)];
    }
  }
}
