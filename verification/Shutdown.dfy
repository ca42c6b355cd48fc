/**
  How `run` converges: the bridge's group, the cloud-identity refresh group with
  its own cancelled context, the turns' group and the budget server's group, and
  the tail of `run` that waits for each in turn.

  An action is one step of one goroutine. A run is an infinite sequence of
  states, any interleaving, and fairness says only that a goroutine which can
  move is not passed over for ever. Work whose length the agent does not control
  (the boot, a turn, a checkout, a mint) carries the number of steps it has left,
  which is arbitrary but finite: that is the assumption that each of them returns.
  A `select` that finds both a tick and a cancelled context ready may take either;
  the number of times it takes the tick is likewise arbitrary but finite.
*/
module Shutdown {

  /** One refresh goroutine: `pending` is a tick waiting in the ticker's channel. */
  datatype Refresh = Waiting(pending: bool) | Minting(left: nat) | Gone

  datatype Server = NoServer | Serving | Closing | Closed

  /** Where the main goroutine is, from `completeBoot` to the end of `run`. */
  datatype MainPc =
    | Booting(left: nat)
    | WaitBridge
    | CancelRefresh
    | WaitRefresh
    | WaitTurns
    | StopAll
    | CloseServer
    | WaitServer
    | Returned

  datatype State = State(
    ctxDone: bool,
    refreshCancelled: bool,
    bridgeBack: bool,
    refresh: seq<Refresh>,
    lateTicks: nat,         // ticks the refresh loops may still prefer to their cancelled context
    turns: seq<nat>,        // steps each turn or checkout still has to take
    server: Server,
    main: MainPc)

  /** How goroutines are grouped: as the code does it, or the two ways its comments reject. */
  datatype Design = Separate | RefreshInGroup | ServerInGroup

  datatype Action =
    | Pause
    | Signal                        // an OS signal cancels ctx
    | Tick(i: nat)
    | BridgeReturns                 // shutdown command, fatal status, or ctx observed
    | Launch(work: nat)             // the bridge hands a prompt or a checkout to the handler
    | TakeTick(i: nat, work: nat)
    | MintStep(i: nat)
    | Leave(i: nat)
    | Work(i: nat)
    | ServeReturns
    | WatcherCloses                 // only in the rejected design
    | BootStep
    | FinishBoot(ok: bool)
    | MainStep

  datatype Actor = Environment | Bridge | Refresher(i: nat) | Turn(i: nat) | ServeLoop | Main

  function ActorOf(a: Action): Actor {
    match a
    case Pause | Signal | Tick(_) | WatcherCloses => Environment
    case BridgeReturns | Launch(_) => Bridge
    case TakeTick(i, _) => Refresher(i)
    case MintStep(i) => Refresher(i)
    case Leave(i) => Refresher(i)
    case Work(i) => Turn(i)
    case ServeReturns => ServeLoop
    case BootStep | FinishBoot(_) | MainStep => Main
  }

  /** The refresh loop's derived context. */
  predicate RefreshDone(s: State) {
    s.ctxDone || s.refreshCancelled
  }

  predicate AllGone(s: State) {
    forall i | 0 <= i < |s.refresh| :: s.refresh[i] == Gone
  }

  predicate AllReturned(s: State) {
    forall i | 0 <= i < |s.turns| :: s.turns[i] == 0
  }

  /** What `group.Wait()` waits for. */
  predicate GroupDone(d: Design, s: State) {
    && s.bridgeBack
    && (d == RefreshInGroup ==> AllGone(s))
    && (d == ServerInGroup ==> s.server == NoServer || s.server == Closed)
  }

  predicate MainReady(d: Design, s: State) {
    match s.main
    case Booting(_) => true
    case WaitBridge => GroupDone(d, s)
    case CancelRefresh => true
    case WaitRefresh => AllGone(s)
    case WaitTurns => AllReturned(s)
    case StopAll => true
    case CloseServer => true
    case WaitServer => s.server == Closed
    case Returned => false
  }

  predicate Enabled(d: Design, s: State, a: Action) {
    match a
    case Pause => true
    case Signal => true
    case Tick(i) => i < |s.refresh| && s.refresh[i] == Waiting(false) && (RefreshDone(s) ==> s.lateTicks > 0)
    case BridgeReturns => !s.bridgeBack
    case Launch(_) => !s.bridgeBack
    case TakeTick(i, _) => i < |s.refresh| && s.refresh[i] == Waiting(true)
    case MintStep(i) => i < |s.refresh| && s.refresh[i].Minting?
    case Leave(i) => i < |s.refresh| && s.refresh[i].Waiting? && RefreshDone(s)
    case Work(i) => i < |s.turns| && s.turns[i] > 0
    case ServeReturns => s.server == Closing
    case WatcherCloses => d == ServerInGroup && s.ctxDone && s.server == Serving
    case BootStep => s.main.Booting? && s.main.left > 0
    case FinishBoot(_) => s.main == Booting(0)
    case MainStep => !s.main.Booting? && MainReady(d, s)
  }

  function Apply(d: Design, s: State, a: Action): State
    requires Enabled(d, s, a)
  {
    match a
    case Pause => s
    case Signal => s.(ctxDone := true)
    case Tick(i) =>
      s.(refresh := s.refresh[i := Waiting(true)], lateTicks := if RefreshDone(s) then s.lateTicks - 1 else s.lateTicks)
    case BridgeReturns => s.(bridgeBack := true)
    case Launch(work) => s.(turns := s.turns + [work])
    case TakeTick(i, work) => s.(refresh := s.refresh[i := Minting(work)])
    case MintStep(i) =>
      var left := s.refresh[i].left;
      s.(refresh := s.refresh[i := if left == 0 then Waiting(false) else Minting(left - 1)])
    case Leave(i) => s.(refresh := s.refresh[i := Gone])
    case Work(i) => s.(turns := s.turns[i := s.turns[i] - 1])
    case ServeReturns => s.(server := Closed)
    case WatcherCloses => s.(server := Closing)
    case BootStep => s.(main := Booting(s.main.left - 1))
    case FinishBoot(ok) => s.(main := WaitBridge, ctxDone := s.ctxDone || !ok)
    case MainStep => MainNext(s)
  }

  function MainNext(s: State): State {
    match s.main
    case Booting(_) => s
    case WaitBridge => s.(main := CancelRefresh)
    case CancelRefresh => s.(main := WaitRefresh, refreshCancelled := true)
    case WaitRefresh => s.(main := WaitTurns)
    case WaitTurns => s.(main := StopAll)
    case StopAll => s.(main := CloseServer)
    case CloseServer => if s.server == NoServer then s.(main := Returned) else s.(main := WaitServer, server := Closing)
    case WaitServer => s.(main := Returned)
    case Returned => s
  }

  /** Whether a goroutine can move. */
  predicate CanMove(d: Design, s: State, p: Actor) {
    match p
    case Environment => true
    case Bridge => !s.bridgeBack && s.ctxDone
    case Refresher(i) =>
      && i < |s.refresh|
      && (s.refresh[i].Minting? || s.refresh[i] == Waiting(true) || (s.refresh[i].Waiting? && RefreshDone(s)))
    case Turn(i) => i < |s.turns| && s.turns[i] > 0
    case ServeLoop => s.server == Closing
    case Main => MainReady(d, s)
  }

  /** A run begins with nothing but the boot, the refresh goroutines and the server under way. */
  predicate Initial(s: State) {
    && !s.ctxDone && !s.refreshCancelled && !s.bridgeBack
    && s.turns == []
    && s.main.Booting?
    && (s.server == NoServer || s.server == Serving)
    && forall i | 0 <= i < |s.refresh| :: s.refresh[i] == Waiting(false)
  }

  ghost predicate Run(d: Design, st: nat -> State, act: nat -> Action) {
    && Initial(st(0))
    && forall n: nat :: StepAt(d, st, act, n)
  }

  ghost predicate StepAt(d: Design, st: nat -> State, act: nat -> Action, n: nat) {
    Enabled(d, st(n), act(n)) && st(n + 1) == Apply(d, st(n), act(n))
  }

  /** Actor `p` is served at step `n`: it cannot move there, or it is the one that moves. */
  predicate Served(d: Design, st: nat -> State, act: nat -> Action, p: Actor, n: nat) {
    !CanMove(d, st(n), p) || (ActorOf(act(n)) == p && !act(n).Launch?)
  }

  /** Nobody is passed over for ever; the bridge's turn, once ctx is done, is to return. */
  ghost predicate Fair(d: Design, st: nat -> State, act: nat -> Action) {
    forall p: Actor, n: nat :: ServedAfter(d, st, act, p, n)
  }

  ghost predicate ServedAfter(d: Design, st: nat -> State, act: nat -> Action, p: Actor, n: nat) {
    exists m: nat :: n <= m && Served(d, st, act, p, m)
  }

  /** No refresh, turn, checkout or server goroutine is left. */
  predicate Quiet(s: State) {
    AllGone(s) && AllReturned(s) && (s.server == NoServer || s.server == Closed)
  }

  // ------------------------------------------------------------------
  // Invariant
  // ------------------------------------------------------------------

  function Phase(pc: MainPc): nat {
    match pc
    case Booting(_) => 0
    case WaitBridge => 1
    case CancelRefresh => 2
    case WaitRefresh => 3
    case WaitTurns => 4
    case StopAll => 5
    case CloseServer => 6
    case WaitServer => 7
    case Returned => 8
  }

  ghost predicate Inv(s: State) {
    && (Phase(s.main) >= 2 ==> s.bridgeBack)
    && (Phase(s.main) >= 3 ==> s.refreshCancelled)
    && (Phase(s.main) >= 4 ==> AllGone(s))
    && (Phase(s.main) >= 5 ==> AllReturned(s))
    && (Phase(s.main) <= 6 ==> s.server == NoServer || s.server == Serving)
    && (Phase(s.main) == 7 ==> s.server == Closing || s.server == Closed)
    && (Phase(s.main) == 8 ==> s.server == NoServer || s.server == Closed)
  }

  lemma InvStep(s: State, a: Action)
    requires Inv(s) && Enabled(Separate, s, a)
    ensures Inv(Apply(Separate, s, a))
  {
  }

  lemma {:induction false} InvHolds(st: nat -> State, act: nat -> Action, n: nat)
    requires Run(Separate, st, act)
    ensures Inv(st(n))
  {
    if n > 0 {
      InvHolds(st, act, n - 1);
      assert StepAt(Separate, st, act, n - 1);
      InvStep(st(n - 1), act(n - 1));
    }
  }

  // ------------------------------------------------------------------
  // Ranking
  // ------------------------------------------------------------------

  function Sum(work: seq<nat>): nat {
    if work == [] then 0 else work[0] + Sum(work[1..])
  }

  lemma {:induction false} SumUpdate(work: seq<nat>, i: nat, w: nat)
    requires i < |work|
    ensures Sum(work[i := w]) == Sum(work) - work[i] + w
  {
    if i == 0 {
      assert work[i := w][1..] == work[1..];
    } else {
      assert work[i := w][1..] == work[1..][i - 1 := w];
      SumUpdate(work[1..], i - 1, w);
    }
  }

  /** How far a refresh goroutine is from leaving, once its context is done. */
  function Distance(r: Refresh): nat {
    match r
    case Gone => 0
    case Waiting(false) => 1
    case Minting(_) => 2
    case Waiting(true) => 3
  }

  function MintLeft(r: Refresh): nat {
    if r.Minting? then r.left else 0
  }

  function Distances(rs: seq<Refresh>): seq<nat> {
    seq(|rs|, i requires 0 <= i < |rs| => Distance(rs[i]))
  }

  function MintsLeft(rs: seq<Refresh>): seq<nat> {
    seq(|rs|, i requires 0 <= i < |rs| => MintLeft(rs[i]))
  }

  function ServerRank(server: Server): nat {
    match server
    case NoServer | Closed => 0
    case Closing => 1
    case Serving => 2
  }

  /** Lexicographic: the main goroutine, the turns and the server first; then the refresh goroutines. */
  datatype Rank = Rank(outer: nat, late: nat, distance: nat, mints: nat)

  function RankOf(s: State): Rank {
    var outer := 8 - Phase(s.main) + (if s.main.Booting? then s.main.left else 0) + Sum(s.turns) + ServerRank(s.server);
    if s.main == WaitRefresh
    then Rank(outer, s.lateTicks, Sum(Distances(s.refresh)), Sum(MintsLeft(s.refresh)))
    else Rank(outer, 0, 0, 0)
  }

  predicate Below(r: Rank, q: Rank) {
    || r.outer < q.outer
    || (r.outer == q.outer && r.late < q.late)
    || (r.outer == q.outer && r.late == q.late && r.distance < q.distance)
    || (r.outer == q.outer && r.late == q.late && r.distance == q.distance && r.mints < q.mints)
  }

  /** The least index of a goroutine that is still there. */
  function FirstPresent(rs: seq<Refresh>): (i: nat)
    ensures i <= |rs| && (i < |rs| ==> rs[i] != Gone)
    ensures i == |rs| ==> forall j | 0 <= j < |rs| :: rs[j] == Gone
  {
    if rs == [] || rs[0] != Gone then 0 else 1 + FirstPresent(rs[1..])
  }

  function FirstBusy(work: seq<nat>): (i: nat)
    ensures i <= |work| && (i < |work| ==> work[i] > 0)
    ensures i == |work| ==> forall j | 0 <= j < |work| :: work[j] == 0
  {
    if work == [] || work[0] > 0 then 0 else 1 + FirstBusy(work[1..])
  }

  /** The goroutine whose next step brings `run` closer to its return. */
  function Helpful(s: State): Actor {
    match s.main
    case WaitRefresh => if AllGone(s) then Main else Refresher(FirstPresent(s.refresh))
    case WaitTurns => if AllReturned(s) then Main else Turn(FirstBusy(s.turns))
    case WaitServer => if s.server == Closed then Main else ServeLoop
    case _ => Main
  }

  lemma HelpfulCanMove(s: State)
    requires Inv(s) && s.bridgeBack && s.main != Returned
    ensures CanMove(Separate, s, Helpful(s))
  {
  }

  lemma RefreshRank(s: State, i: nat, r: Refresh)
    requires i < |s.refresh|
    ensures Sum(Distances(s.refresh[i := r])) == Sum(Distances(s.refresh)) - Distance(s.refresh[i]) + Distance(r)
    ensures Sum(MintsLeft(s.refresh[i := r])) == Sum(MintsLeft(s.refresh)) - MintLeft(s.refresh[i]) + MintLeft(r)
  {
    assert Distances(s.refresh[i := r]) == Distances(s.refresh)[i := Distance(r)];
    assert MintsLeft(s.refresh[i := r]) == MintsLeft(s.refresh)[i := MintLeft(r)];
    SumUpdate(Distances(s.refresh), i, Distance(r));
    SumUpdate(MintsLeft(s.refresh), i, MintLeft(r));
  }

  /** The step lowers the rank, or it is somebody else's and leaves the helpful goroutine where it was. */
  predicate Advances(s: State, a: Action, s': State) {
    || Below(RankOf(s'), RankOf(s))
    || (RankOf(s') == RankOf(s) && Helpful(s') == Helpful(s) && ActorOf(a) != Helpful(s) && s'.main != Returned)
  }

  predicate IsRefreshStep(a: Action) {
    a.Tick? || a.TakeTick? || a.MintStep? || a.Leave?
  }

  lemma RefreshStepAdvances(s: State, a: Action)
    requires Inv(s) && s.bridgeBack && Enabled(Separate, s, a) && s.main != Returned && IsRefreshStep(a)
    ensures Advances(s, a, Apply(Separate, s, a))
  {
    match a {
      case Tick(i) => RefreshRank(s, i, Waiting(true));
      case TakeTick(i, work) => RefreshRank(s, i, Minting(work));
      case MintStep(i) =>
        RefreshRank(s, i, if s.refresh[i].left == 0 then Waiting(false) else Minting(s.refresh[i].left - 1));
      case Leave(i) => RefreshRank(s, i, Gone);
    }
  }

  lemma OtherStepAdvances(s: State, a: Action)
    requires Inv(s) && s.bridgeBack && Enabled(Separate, s, a) && s.main != Returned && !IsRefreshStep(a)
    ensures Advances(s, a, Apply(Separate, s, a))
  {
    if a.Work? {
      SumUpdate(s.turns, a.i, s.turns[a.i] - 1);
    }
  }

  /** Once the bridge is back, no step raises the rank, and the helpful goroutine's step lowers it. */
  lemma StepLowersRank(s: State, a: Action)
    requires Inv(s) && s.bridgeBack && Enabled(Separate, s, a) && s.main != Returned
    ensures Advances(s, a, Apply(Separate, s, a))
  {
    if IsRefreshStep(a) {
      RefreshStepAdvances(s, a);
    } else {
      OtherStepAdvances(s, a);
    }
  }

  /** Until the helpful goroutine is served, the rank drops or nothing about it changes. */
  lemma {:induction false} HoldsUntilServed(st: nat -> State, act: nat -> Action, n: nat, k: nat) returns (j: nat)
    requires Run(Separate, st, act) && n <= k
    requires st(n).bridgeBack && st(n).main != Returned
    ensures n <= j <= k && st(j).bridgeBack
    ensures || Below(RankOf(st(j)), RankOf(st(n)))
            || (j == k && RankOf(st(k)) == RankOf(st(n)) && Helpful(st(k)) == Helpful(st(n)) && st(k).main != Returned)
  {
    if n == k {
      j := n;
    } else {
      j := HoldsUntilServed(st, act, n, k - 1);
      if !Below(RankOf(st(j)), RankOf(st(n))) {
        InvHolds(st, act, k - 1);
        assert StepAt(Separate, st, act, k - 1);
        StepLowersRank(st(k - 1), act(k - 1));
        j := k;
      }
    }
  }

  /** In a fair run the helpful goroutine is served, and with that the rank drops. */
  lemma RankDrops(st: nat -> State, act: nat -> Action, n: nat) returns (j: nat)
    requires Run(Separate, st, act) && Fair(Separate, st, act)
    requires st(n).bridgeBack && st(n).main != Returned
    ensures n <= j && st(j).bridgeBack && Below(RankOf(st(j)), RankOf(st(n)))
  {
    var p := Helpful(st(n));
    assert ServedAfter(Separate, st, act, p, n);
    var k: nat :| n <= k && Served(Separate, st, act, p, k);
    j := HoldsUntilServed(st, act, n, k);
    if !Below(RankOf(st(j)), RankOf(st(n))) {
      InvHolds(st, act, k);
      HelpfulCanMove(st(k));
      assert StepAt(Separate, st, act, k);
      StepLowersRank(st(k), act(k));
      j := k + 1;
    }
  }

  /**
    Once the bridge is back, for whatever reason and whether or not ctx was
    cancelled, every fair run returns, and nothing is left running when it does.
  */
  lemma {:induction false} ReturnsOnceBridgeIsBack(st: nat -> State, act: nat -> Action, n: nat) returns (m: nat)
    requires Run(Separate, st, act) && Fair(Separate, st, act)
    requires st(n).bridgeBack
    ensures n <= m && st(m).main == Returned && Quiet(st(m))
    decreases RankOf(st(n)).outer, RankOf(st(n)).late, RankOf(st(n)).distance, RankOf(st(n)).mints
  {
    InvHolds(st, act, n);
    if st(n).main == Returned {
      m := n;
    } else {
      var j := RankDrops(st, act, n);
      m := ReturnsOnceBridgeIsBack(st, act, j);
    }
  }

  /** Once ctx is done the bridge comes back, and that ends the run. */
  lemma ReturnsOnceCancelled(st: nat -> State, act: nat -> Action, n: nat) returns (m: nat)
    requires Run(Separate, st, act) && Fair(Separate, st, act)
    requires st(n).ctxDone
    ensures n <= m && st(m).main == Returned && Quiet(st(m))
  {
    assert ServedAfter(Separate, st, act, Bridge, n);
    var k: nat :| n <= k && Served(Separate, st, act, Bridge, k);
    StaysCancelled(Separate, st, act, n, k);
    assert StepAt(Separate, st, act, k);
    m := ReturnsOnceBridgeIsBack(st, act, if st(k).bridgeBack then k else k + 1);
  }

  lemma {:induction false} StaysCancelled(d: Design, st: nat -> State, act: nat -> Action, n: nat, k: nat)
    requires Run(d, st, act) && n <= k && st(n).ctxDone
    ensures st(k).ctxDone
  {
    if n < k {
      StaysCancelled(d, st, act, n, k - 1);
      assert StepAt(d, st, act, k - 1);
      CancelledStep(d, st(k - 1), act(k - 1));
    }
  }

  lemma CancelledStep(d: Design, s: State, a: Action)
    requires Enabled(d, s, a) && s.ctxDone
    ensures Apply(d, s, a).ctxDone
  {
  }

  // ------------------------------------------------------------------
  // Why the groups are separate
  // ------------------------------------------------------------------

  /** The bridge has given up on a fatal status: it is back and ctx was never cancelled. */
  predicate FatalStatus(s: State) {
    s.bridgeBack && !s.ctxDone && s.main == WaitBridge
  }

  /** With the refresh loop in the bridge's own group, a fatal status and no signal means `run` never returns. */
  lemma {:induction false} RefreshInGroupHangs(st: nat -> State, act: nat -> Action, n: nat, m: nat)
    requires Run(RefreshInGroup, st, act) && n <= m
    requires FatalStatus(st(n)) && !st(n).refreshCancelled && !AllGone(st(n))
    requires forall k: nat | n <= k :: act(k) != Signal
    ensures FatalStatus(st(m)) && !st(m).refreshCancelled && !AllGone(st(m))
  {
    if n < m {
      RefreshInGroupHangs(st, act, n, m - 1);
      var s := st(m - 1);
      assert StepAt(RefreshInGroup, st, act, m - 1);
      var i: nat :| i < |s.refresh| && s.refresh[i] != Gone;
      assert st(m).refresh[i] != Gone;
    }
  }

  /** With the budget server and its ctx-watcher in the bridge's own group, likewise. */
  lemma {:induction false} ServerInGroupHangs(st: nat -> State, act: nat -> Action, n: nat, m: nat)
    requires Run(ServerInGroup, st, act) && n <= m
    requires FatalStatus(st(n)) && st(n).server == Serving
    requires forall k: nat | n <= k :: act(k) != Signal
    ensures FatalStatus(st(m)) && st(m).server == Serving
  {
    if n < m {
      ServerInGroupHangs(st, act, n, m - 1);
      assert StepAt(ServerInGroup, st, act, m - 1);
    }
  }

  const BOOTING := State(false, false, false, [Waiting(false)], 0, [], Serving, Booting(0))
  const BOOTED := BOOTING.(main := WaitBridge)
  const STUCK := BOOTED.(bridgeBack := true)

  function StuckState(n: nat): State {
    if n == 0 then BOOTING else if n == 1 then BOOTED else STUCK
  }

  function StuckAction(n: nat): Action {
    if n == 0 then FinishBoot(true) else if n == 1 then BridgeReturns else Pause
  }

  /** A fair run whose bridge comes back with a fatal status and whose main goroutine never returns. */
  ghost predicate HangsForever(d: Design, st: nat -> State, act: nat -> Action) {
    && Run(d, st, act) && Fair(d, st, act)
    && (exists n: nat :: FatalStatus(st(n)))
    && forall m: nat :: st(m).main != Returned
  }

  /** The grouping the code uses has no such run. */
  lemma SeparateNeverHangs(st: nat -> State, act: nat -> Action)
    ensures !HangsForever(Separate, st, act)
  {
    if HangsForever(Separate, st, act) {
      var n: nat :| FatalStatus(st(n));
      var m := ReturnsOnceBridgeIsBack(st, act, n);
    }
  }

  lemma StuckIsRun(d: Design, n: nat)
    requires d != Separate
    ensures Enabled(d, StuckState(n), StuckAction(n)) && StuckState(n + 1) == Apply(d, StuckState(n), StuckAction(n))
  {
  }

  /** Where the run is stuck nobody can move but the environment, and it does. */
  lemma NobodyCanMove(d: Design, p: Actor)
    requires d != Separate
    ensures p == Environment || !CanMove(d, STUCK, p)
  {
    assert STUCK.refresh[0] != Gone;
  }

  /** Either rejected grouping has a fair run in which the bridge is back and `run` never returns. */
  lemma RejectedDesignsHang(d: Design)
    requires d != Separate
    ensures exists st, act :: HangsForever(d, st, act)
  {
    var st: nat -> State := StuckState;
    var act: nat -> Action := StuckAction;
    forall p: Actor, n: nat
      ensures ServedAfter(d, st, act, p, n)
    {
      NobodyCanMove(d, p);
      assert Served(d, st, act, p, n + 2);
    }
    forall n: nat
      ensures StepAt(d, st, act, n)
    {
      StuckIsRun(d, n);
    }
    assert FatalStatus(st(2));
    assert HangsForever(d, st, act);
  }

  /** A fair run that never returns exists for a grouping exactly when it is not the code's. */
  lemma HangsExactlyWhenGrouped(d: Design)
    ensures (exists st, act :: HangsForever(d, st, act)) <==> d != Separate
  {
    if d == Separate {
      forall st, act
        ensures !HangsForever(d, st, act)
      {
        SeparateNeverHangs(st, act);
      }
    } else {
      RejectedDesignsHang(d);
    }
  }
}
