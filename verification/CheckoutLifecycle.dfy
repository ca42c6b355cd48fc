/**
  What each goroutine of the checkout protocol goes through, told from the actions of a
  run alone: the order of its own actions, which answer a checkout gets, and that every
  checkout and every turn can be brought to its end from wherever the others are.
*/
module CheckoutLifecycle {
  import opened CheckoutProtocol

  // ------------------------------------------------------------------
  // One goroutine's own actions
  // ------------------------------------------------------------------

  predicate OfCheckout(a: Action, c: nat) {
    || a == LaunchCheckout(c) || a == ReadFlag(c) || a == LockCheckout(c)
    || a == ReadCounter(c) || a == FinishCheckout(c)
  }

  predicate OfTurn(a: Action, t: nat) {
    a == LaunchTurn(t) || a == LockTurn(t) || a == CountIn(t) || a == UnlockTurn(t) || a == CountOut(t)
  }

  function CheckoutActions(run: seq<Action>, c: nat): seq<Action> {
    if run == [] then [] else
      CheckoutActions(run[..|run| - 1], c) + if OfCheckout(run[|run| - 1], c) then [run[|run| - 1]] else []
  }

  function TurnActions(run: seq<Action>, t: nat): seq<Action> {
    if run == [] then [] else
      TurnActions(run[..|run| - 1], t) + if OfTurn(run[|run| - 1], t) then [run[|run| - 1]] else []
  }

  /** The actions of checkout `c` that lead to `pc`, and no others do. */
  function CheckoutTrail(c: nat, pc: CheckoutPc): seq<Action> {
    match pc
    case Requested => [LaunchCheckout(c)]
    case AnsweredBooting => [LaunchCheckout(c), ReadFlag(c)]
    case SawFlag => [LaunchCheckout(c), ReadFlag(c)]
    case CheckoutLocked => [LaunchCheckout(c), ReadFlag(c), LockCheckout(c)]
    case Working => [LaunchCheckout(c), ReadFlag(c), LockCheckout(c), ReadCounter(c)]
    case FoundTurn => [LaunchCheckout(c), ReadFlag(c), LockCheckout(c), ReadCounter(c)]
    case CheckoutAnswered => [LaunchCheckout(c), ReadFlag(c), LockCheckout(c), ReadCounter(c), FinishCheckout(c)]
  }

  function TurnTrail(t: nat, pc: TurnPc): seq<Action> {
    match pc
    case TurnWaiting => [LaunchTurn(t)]
    case TurnLocked => [LaunchTurn(t), LockTurn(t)]
    case Counted => [LaunchTurn(t), LockTurn(t), CountIn(t)]
    case Running => [LaunchTurn(t), LockTurn(t), CountIn(t), UnlockTurn(t)]
    case TurnReturned => [LaunchTurn(t), LockTurn(t), CountIn(t), UnlockTurn(t), CountOut(t)]
  }

  function CheckoutHistory(s: State, c: nat): seq<Action> {
    if c in s.checkouts then CheckoutTrail(c, s.checkouts[c]) else []
  }

  function TurnHistory(s: State, t: nat): seq<Action> {
    if t in s.turns then TurnTrail(t, s.turns[t]) else []
  }

  lemma CheckoutHistoryStep(s: State, a: Action, c: nat)
    requires Enabled(s, a)
    ensures CheckoutHistory(Apply(s, a), c) == CheckoutHistory(s, c) + if OfCheckout(a, c) then [a] else []
  {
  }

  lemma TurnHistoryStep(s: State, a: Action, t: nat)
    requires Enabled(s, a)
    ensures TurnHistory(Apply(s, a), t) == TurnHistory(s, t) + if OfTurn(a, t) then [a] else []
  {
  }

  /**
    In every run a checkout launches, reads the flag, and either stops there or locks,
    reads the counter and finishes, each once and in that order, and where it stands is
    what it has done so far.
  */
  lemma {:induction false} CheckoutActionsAre(run: seq<Action>, c: nat)
    requires Legal(run)
    ensures CheckoutActions(run, c) == CheckoutHistory(After(run), c)
  {
    if run != [] {
      CheckoutActionsAre(run[..|run| - 1], c);
      CheckoutHistoryStep(After(run[..|run| - 1]), run[|run| - 1], c);
    }
  }

  /** Likewise for a turn: launch, lock, count in, unlock, count out. */
  lemma {:induction false} TurnActionsAre(run: seq<Action>, t: nat)
    requires Legal(run)
    ensures TurnActions(run, t) == TurnHistory(After(run), t)
  {
    if run != [] {
      TurnActionsAre(run[..|run| - 1], t);
      TurnHistoryStep(After(run[..|run| - 1]), run[|run| - 1], t);
    }
  }

  // ------------------------------------------------------------------
  // Which answer
  // ------------------------------------------------------------------

  lemma {:induction false} FlagUpIffStored(run: seq<Action>)
    requires Legal(run)
    ensures After(run).bootComplete <==> StoreFlag in run
  {
    if run != [] {
      var before := run[..|run| - 1];
      FlagUpIffStored(before);
      assert run == before + [run[|run| - 1]];
    }
  }

  /** The state just after action `j`. */
  lemma Taken(run: seq<Action>, j: nat)
    requires Legal(run) && j < |run|
    ensures Legal(run[..j]) && Enabled(After(run[..j]), run[j])
    ensures After(run[..j + 1]) == Apply(After(run[..j]), run[j])
  {
    LegalPrefix(run, j);
    LegalPrefix(run, j + 1);
    assert run[..j + 1][..j] == run[..j];
  }

  /** A flag read goes on if the flag was stored before it, and is answered "still booting" otherwise. */
  lemma FlagReadIs(run: seq<Action>, j: nat, c: nat)
    requires Legal(run) && j < |run| && run[j] == ReadFlag(c)
    ensures StoreFlag in run[..j] ==> CheckoutAt(After(run[..j + 1]), c, SawFlag)
    ensures StoreFlag !in run[..j] ==> CheckoutAt(After(run[..j + 1]), c, AnsweredBooting)
  {
    Taken(run, j);
    FlagUpIffStored(run[..j]);
  }

  /** A counter read finds a turn, or goes to work, by what the 32-bit count of active turns says. */
  lemma CounterReadIs(run: seq<Action>, j: nat, c: nat)
    requires Legal(run) && j < |run| && run[j] == ReadCounter(c)
    ensures var active := |Active(After(run[..j]))|;
      && (Wrap32(active) > 0 ==> CheckoutAt(After(run[..j + 1]), c, FoundTurn))
      && (Wrap32(active) <= 0 ==> CheckoutAt(After(run[..j + 1]), c, Working))
  {
    Taken(run, j);
    InvAfter(run[..j]);
  }

  /** Finishing answers the checkout and gives the mutex back. */
  lemma FinishAnswers(run: seq<Action>, j: nat, c: nat)
    requires Legal(run) && j < |run| && run[j] == FinishCheckout(c)
    ensures CheckoutAt(After(run[..j + 1]), c, CheckoutAnswered) && After(run[..j + 1]).mutex == Nobody
  {
    Taken(run, j);
  }

  predicate IsAnswer(pc: CheckoutPc) {
    pc == AnsweredBooting || pc == CheckoutAnswered
  }

  predicate Answered(s: State, c: nat) {
    c in s.checkouts && IsAnswer(s.checkouts[c])
  }

  lemma AnsweredStep(s: State, a: Action, c: nat, pc: CheckoutPc)
    requires Enabled(s, a) && CheckoutAt(s, c, pc) && IsAnswer(pc)
    ensures !OfCheckout(a, c) && CheckoutAt(Apply(s, a), c, pc)
  {
  }

  lemma AnsweredOneMore(run: seq<Action>, j: nat, c: nat, pc: CheckoutPc)
    requires Legal(run) && j < |run| && CheckoutAt(After(run[..j]), c, pc) && IsAnswer(pc)
    ensures CheckoutAt(After(run[..j + 1]), c, pc) && !OfCheckout(run[j], c)
  {
    Taken(run, j);
    AnsweredStep(After(run[..j]), run[j], c, pc);
  }

  lemma {:induction false} StaysAnswered(run: seq<Action>, i: nat, j: nat, c: nat, pc: CheckoutPc)
    requires Legal(run) && i <= j <= |run| && CheckoutAt(After(run[..i]), c, pc) && IsAnswer(pc)
    ensures CheckoutAt(After(run[..j]), c, pc)
  {
    if i < j {
      StaysAnswered(run, i, j - 1, c, pc);
      AnsweredOneMore(run, j - 1, c, pc);
    }
  }

  /** An answered checkout stays as it is and takes no further action. */
  lemma AnsweredIsFinal(run: seq<Action>, i: nat, j: nat, c: nat, pc: CheckoutPc)
    requires Legal(run) && i <= j < |run| && CheckoutAt(After(run[..i]), c, pc) && IsAnswer(pc)
    ensures CheckoutAt(After(run[..j + 1]), c, pc) && !OfCheckout(run[j], c)
  {
    StaysAnswered(run, i, j, c, pc);
    AnsweredOneMore(run, j, c, pc);
  }

  // ------------------------------------------------------------------
  // Everybody can get to the end
  // ------------------------------------------------------------------

  lemma Take(run: seq<Action>, more: seq<Action>, a: Action)
    requires Legal(run + more) && Enabled(After(run + more), a)
    ensures Legal(run + (more + [a])) && After(run + (more + [a])) == Apply(After(run + more), a)
  {
    TakeAction(run + more, a);
    assert run + (more + [a]) == run + more + [a];
  }

  lemma OthersWaitStep(s: State, owner: Owner, a: Action, c: nat, t: nat)
    requires TakenBy(owner, a)
    ensures owner != CheckoutOwner(c) && c in s.checkouts ==> CheckoutAt(Apply(s, a), c, s.checkouts[c])
    ensures owner != TurnOwner(t) && t in s.turns ==> TurnAt(Apply(s, a), t, s.turns[t])
  {
  }

  /** Freeing the mutex moves nobody who does not hold it. */
  lemma {:induction false} OthersWait(run: seq<Action>, owner: Owner, more: seq<Action>, c: nat, t: nat)
    requires forall i | 0 <= i < |more| :: TakenBy(owner, more[i])
    ensures owner != CheckoutOwner(c) && c in After(run).checkouts ==>
            CheckoutAt(After(run + more), c, After(run).checkouts[c])
    ensures owner != TurnOwner(t) && t in After(run).turns ==> TurnAt(After(run + more), t, After(run).turns[t])
  {
    if more == [] {
      assert run + more == run;
    } else {
      var init, a := more[..|more| - 1], more[|more| - 1];
      assert (run + more)[..|run + more| - 1] == run + init;
      OthersWait(run, owner, init, c, t);
      OthersWaitStep(After(run + init), owner, a, c, t);
    }
  }

  /** From every reachable state, a checkout that has seen the flag can be answered. */
  lemma SeenCanBeAnswered(run: seq<Action>, c: nat) returns (more: seq<Action>)
    requires Legal(run) && CheckoutAt(After(run), c, SawFlag)
    ensures Legal(run + more) && Answered(After(run + more), c) && |more| <= 5
  {
    InvAfter(run);
    more := HolderReleases(run);
    OthersWait(run, After(run).mutex, more, c, 0);
    Take(run, more, LockCheckout(c));
    more := more + [LockCheckout(c)];
    Take(run, more, ReadCounter(c));
    more := more + [ReadCounter(c)];
    Take(run, more, FinishCheckout(c));
    more := more + [FinishCheckout(c)];
  }

  lemma LockedCanBeAnswered(run: seq<Action>, c: nat) returns (more: seq<Action>)
    requires Legal(run) && c in After(run).checkouts && After(run).checkouts[c] in {CheckoutLocked, Working, FoundTurn}
    ensures Legal(run + more) && Answered(After(run + more), c) && |more| <= 2
  {
    more := [];
    assert run + more == run;
    if CheckoutAt(After(run), c, CheckoutLocked) {
      Take(run, more, ReadCounter(c));
      more := more + [ReadCounter(c)];
    }
    Take(run, more, FinishCheckout(c));
    more := more + [FinishCheckout(c)];
  }

  /** No checkout is ever stuck: from every reachable state it can be answered within six actions. */
  lemma CanBeAnswered(run: seq<Action>, c: nat) returns (more: seq<Action>)
    requires Legal(run) && c in After(run).checkouts
    ensures Legal(run + more) && Answered(After(run + more), c) && |more| <= 6
  {
    match After(run).checkouts[c] {
      case Requested =>
        TakeAction(run, ReadFlag(c));
        more := [ReadFlag(c)];
        if CheckoutAt(After(run + more), c, SawFlag) {
          var rest := SeenCanBeAnswered(run + more, c);
          assert run + more + rest == run + (more + rest);
          more := more + rest;
        }
      case SawFlag =>
        more := SeenCanBeAnswered(run, c);
      case AnsweredBooting =>
        more := [];
        assert run + more == run;
      case CheckoutAnswered =>
        more := [];
        assert run + more == run;
      case _ =>
        more := LockedCanBeAnswered(run, c);
    }
  }

  /** Neither is a turn: from every reachable state it can be brought to its return within six actions. */
  lemma CanReturn(run: seq<Action>, t: nat) returns (more: seq<Action>)
    requires Legal(run) && t in After(run).turns
    ensures Legal(run + more) && TurnAt(After(run + more), t, TurnReturned) && |more| <= 6
  {
    InvAfter(run);
    more := [];
    assert run + more == run;
    if TurnAt(After(run), t, TurnWaiting) {
      more := HolderReleases(run);
      OthersWait(run, After(run).mutex, more, 0, t);
      Take(run, more, LockTurn(t));
      more := more + [LockTurn(t)];
    }
    more := CountsAndReturns(run, more, t);
  }

  lemma CountsAndReturns(run: seq<Action>, sofar: seq<Action>, t: nat) returns (more: seq<Action>)
    requires Legal(run + sofar) && t in After(run + sofar).turns && After(run + sofar).turns[t] != TurnWaiting
    ensures Legal(run + more) && TurnAt(After(run + more), t, TurnReturned) && |more| <= |sofar| + 3
  {
    more := sofar;
    if TurnAt(After(run + more), t, TurnLocked) {
      Take(run, more, CountIn(t));
      more := more + [CountIn(t)];
    }
    if TurnAt(After(run + more), t, Counted) {
      Take(run, more, UnlockTurn(t));
      more := more + [UnlockTurn(t)];
    }
    if TurnAt(After(run + more), t, Running) {
      Take(run, more, CountOut(t));
      more := more + [CountOut(t)];
    }
  }
}
