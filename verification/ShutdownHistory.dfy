/**
  The shutdown model told from the actions of a run alone: what cancels ctx, what brings
  the bridge back, how long work takes, and in which order the tail of `run` goes.
*/
module ShutdownHistory {
  import opened Shutdown

  /** An action that cancels ctx: a signal, or a failed boot, on which `run` calls `stop()`. */
  predicate Stops(a: Action) {
    a == Signal || a == FinishBoot(false)
  }

  ghost predicate StoppedBefore(act: nat -> Action, n: nat) {
    exists k: nat :: k < n && Stops(act(k))
  }

  ghost predicate TakenBefore(act: nat -> Action, a: Action, n: nat) {
    exists k: nat :: k < n && act(k) == a
  }

  lemma Next(d: Design, st: nat -> State, act: nat -> Action, n: nat)
    requires Run(d, st, act)
    ensures Enabled(d, st(n), act(n)) && st(n + 1) == Apply(d, st(n), act(n))
  {
    assert StepAt(d, st, act, n);
  }

  /** ctx is done exactly when a signal came or the boot failed. */
  lemma {:induction false} CancelledIffStopped(d: Design, st: nat -> State, act: nat -> Action, n: nat)
    requires Run(d, st, act)
    ensures st(n).ctxDone <==> StoppedBefore(act, n)
  {
    if n > 0 {
      CancelledIffStopped(d, st, act, n - 1);
      Next(d, st, act, n - 1);
      if Stops(act(n - 1)) {
        assert StoppedBefore(act, n);
      }
      if st(n - 1).ctxDone {
        var k: nat :| k < n - 1 && Stops(act(k));
        assert StoppedBefore(act, n);
      }
    }
  }

  /** The bridge is back exactly when it returned. */
  lemma {:induction false} BridgeBackIffReturned(d: Design, st: nat -> State, act: nat -> Action, n: nat)
    requires Run(d, st, act)
    ensures st(n).bridgeBack <==> TakenBefore(act, BridgeReturns, n)
  {
    if n > 0 {
      BridgeBackIffReturned(d, st, act, n - 1);
      Next(d, st, act, n - 1);
      TakenStep(act, BridgeReturns, n);
    }
  }

  /** A signal or a failed boot ends every fair run, with nothing left running. */
  lemma ReturnsOnceStopped(st: nat -> State, act: nat -> Action, n: nat) returns (m: nat)
    requires Run(Separate, st, act) && Fair(Separate, st, act) && Stops(act(n))
    ensures n < m && st(m).main == Returned && Quiet(st(m))
  {
    CancelledIffStopped(Separate, st, act, n + 1);
    assert StoppedBefore(act, n + 1);
    m := ReturnsOnceCancelled(st, act, n + 1);
  }

  /** So does the bridge's own return, whatever its reason. */
  lemma ReturnsOnceBridgeReturns(st: nat -> State, act: nat -> Action, n: nat) returns (m: nat)
    requires Run(Separate, st, act) && Fair(Separate, st, act) && act(n) == BridgeReturns
    ensures n < m && st(m).main == Returned && Quiet(st(m))
  {
    BridgeBackIffReturned(Separate, st, act, n + 1);
    assert TakenBefore(act, BridgeReturns, n + 1);
    m := ReturnsOnceBridgeIsBack(st, act, n + 1);
  }

  // ------------------------------------------------------------------
  // The tail of run
  // ------------------------------------------------------------------

  /** Moves of the main goroutine that bring it to its next wait. */
  predicate Proceeds(a: Action) {
    a == MainStep || a.FinishBoot?
  }

  /**
    The main goroutine goes through its phases one by one: the end of the boot, the wait
    for the bridge, the cancellation, the three further waits and the stop of the
    processes between them. Only closing a server that was never started is skipped.
  */
  lemma PhaseByPhase(d: Design, s: State, a: Action)
    requires Enabled(d, s, a)
    ensures var s' := Apply(d, s, a);
      if !Proceeds(a) then Phase(s'.main) == Phase(s.main)
      else if s.main == CloseServer && s.server == NoServer then s'.main == Returned
      else Phase(s'.main) == Phase(s.main) + 1
  {
  }

  /** The refresh context is cancelled at its own phase and not before. */
  lemma {:induction false} RefreshCancelledIff(st: nat -> State, act: nat -> Action, n: nat)
    requires Run(Separate, st, act)
    ensures st(n).refreshCancelled <==> Phase(st(n).main) >= 3
  {
    if n > 0 {
      RefreshCancelledIff(st, act, n - 1);
      Next(Separate, st, act, n - 1);
      PhaseByPhase(Separate, st(n - 1), act(n - 1));
    }
  }

  /** The server is closed only after the turns are drained and the processes stopped. */
  lemma ServerOutlivesTurns(st: nat -> State, act: nat -> Action, n: nat)
    requires Run(Separate, st, act) && (st(n).server == Closing || st(n).server == Closed)
    ensures AllGone(st(n)) && AllReturned(st(n)) && Phase(st(n).main) >= 7
  {
    InvHolds(st, act, n);
  }

  // ------------------------------------------------------------------
  // Work takes the steps it takes
  // ------------------------------------------------------------------

  /** The work of the turns and checkouts launched in the first `n` actions, in order. */
  function Launched(act: nat -> Action, n: nat): seq<nat> {
    if n == 0 then []
    else Launched(act, n - 1) + if act(n - 1).Launch? then [act(n - 1).work] else []
  }

  /** How often an action is taken among those from `from` up to `n`. */
  function Times(act: nat -> Action, a: Action, from: nat, n: nat): nat {
    if n <= from then 0 else Times(act, a, from, n - 1) + if act(n - 1) == a then 1 else 0
  }

  /** Every launched turn or checkout is there, and its work is what it has done and what it has left. */
  lemma {:induction false} WorkIsConserved(d: Design, st: nat -> State, act: nat -> Action, n: nat)
    requires Run(d, st, act)
    ensures |st(n).turns| == |Launched(act, n)|
    ensures forall i | 0 <= i < |st(n).turns| :: st(n).turns[i] + Times(act, Work(i), 0, n) == Launched(act, n)[i]
  {
    if n > 0 {
      WorkIsConserved(d, st, act, n - 1);
      Next(d, st, act, n - 1);
      forall i | 0 <= i < |st(n).turns|
        ensures st(n).turns[i] + Times(act, Work(i), 0, n) == Launched(act, n)[i]
      {
        if i == |st(n - 1).turns| {
          NotYetWorked(d, st, act, n - 1, i);
        }
      }
    }
  }

  lemma {:induction false} TurnsStay(d: Design, st: nat -> State, act: nat -> Action, k: nat, n: nat)
    requires Run(d, st, act) && k <= n
    ensures |st(k).turns| <= |st(n).turns|
  {
    if k < n {
      TurnsStay(d, st, act, k, n - 1);
      Next(d, st, act, n - 1);
    }
  }

  /** Nothing works that has not been launched. */
  lemma {:induction false} NotYetWorked(d: Design, st: nat -> State, act: nat -> Action, n: nat, i: nat)
    requires Run(d, st, act) && |st(n).turns| <= i
    ensures Times(act, Work(i), 0, n) == 0
  {
    if n > 0 {
      TurnsStay(d, st, act, n - 1, n);
      NotYetWorked(d, st, act, n - 1, i);
      Next(d, st, act, n - 1);
    }
  }

  /** A mint begun with so much work is under way until it has taken one step more than that. */
  lemma {:induction false} MintTakesItsTime(
    d: Design, st: nat -> State, act: nat -> Action, k: nat, n: nat, i: nat, work: nat)
    requires Run(d, st, act) && act(k) == TakeTick(i, work) && k < n
    requires Times(act, MintStep(i), k + 1, n) <= work
    ensures i < |st(n).refresh| && st(n).refresh[i] == Minting(work - Times(act, MintStep(i), k + 1, n))
  {
    Next(d, st, act, n - 1);
    if n > k + 1 {
      MintTakesItsTime(d, st, act, k, n - 1, i, work);
    }
  }

  /** With that step the refresh goroutine waits for its next tick. */
  lemma MintEnds(d: Design, st: nat -> State, act: nat -> Action, k: nat, n: nat, i: nat, work: nat)
    requires Run(d, st, act) && act(k) == TakeTick(i, work) && k < n && act(n) == MintStep(i)
    requires Times(act, MintStep(i), k + 1, n) == work
    ensures i < |st(n + 1).refresh| && st(n + 1).refresh[i] == Waiting(false)
  {
    MintTakesItsTime(d, st, act, k, n, i, work);
    Next(d, st, act, n);
  }

  lemma {:induction false} RefreshersStay(d: Design, st: nat -> State, act: nat -> Action, n: nat)
    requires Run(d, st, act)
    ensures |st(n).refresh| == |st(0).refresh|
  {
    if n > 0 {
      RefreshersStay(d, st, act, n - 1);
      Next(d, st, act, n - 1);
    }
  }

  lemma GoneStep(d: Design, s: State, a: Action, i: nat)
    requires Enabled(d, s, a) && i < |s.refresh|
    ensures var s' := Apply(d, s, a);
      i < |s'.refresh| && (s'.refresh[i] == Gone <==> s.refresh[i] == Gone || a == Leave(i))
    ensures a == Leave(i) ==> RefreshDone(s)
  {
  }

  /** A refresh goroutine is gone exactly when it left, and it leaves only once its context is done. */
  lemma {:induction false} GoneIffLeft(d: Design, st: nat -> State, act: nat -> Action, n: nat, i: nat)
    requires Run(d, st, act) && i < |st(0).refresh|
    ensures i < |st(n).refresh| && (st(n).refresh[i] == Gone <==> TakenBefore(act, Leave(i), n))
    ensures act(n) == Leave(i) ==> RefreshDone(st(n))
  {
    RefreshersStay(d, st, act, n);
    Next(d, st, act, n);
    GoneStep(d, st(n), act(n), i);
    if n > 0 {
      RefreshersStay(d, st, act, n - 1);
      GoneIffLeft(d, st, act, n - 1, i);
      Next(d, st, act, n - 1);
      GoneStep(d, st(n - 1), act(n - 1), i);
      TakenStep(act, Leave(i), n);
    }
  }

  lemma TakenStep(act: nat -> Action, a: Action, n: nat)
    requires n > 0
    ensures TakenBefore(act, a, n) <==> TakenBefore(act, a, n - 1) || act(n - 1) == a
  {
    if TakenBefore(act, a, n - 1) {
      var k: nat :| k < n - 1 && act(k) == a;
      assert TakenBefore(act, a, n);
    }
    if TakenBefore(act, a, n) {
      var k: nat :| k < n && act(k) == a;
      assert k == n - 1 || TakenBefore(act, a, n - 1);
    }
  }

  /** The boot ends after exactly the steps it has. */
  lemma {:induction false} BootTakesItsTime(d: Design, st: nat -> State, act: nat -> Action, n: nat)
    requires Run(d, st, act) && st(n).main.Booting?
    ensures st(0).main.Booting? && st(n).main.left + Times(act, BootStep, 0, n) == st(0).main.left
  {
    if n > 0 {
      Next(d, st, act, n - 1);
      PhaseByPhase(d, st(n - 1), act(n - 1));
      BootTakesItsTime(d, st, act, n - 1);
    }
  }

  // ------------------------------------------------------------------
  // A run in which everything happens
  // ------------------------------------------------------------------

  /** Each action can be taken where the ones before it lead. */
  predicate LegalFrom(d: Design, s: State, acts: seq<Action>)
    decreases |acts|
  {
    acts == [] || (Enabled(d, s, acts[0]) && LegalFrom(d, Apply(d, s, acts[0]), acts[1..]))
  }

  function Leads(d: Design, s: State, acts: seq<Action>): State
    requires LegalFrom(d, s, acts)
    decreases |acts|
  {
    if acts == [] then s else Leads(d, Apply(d, s, acts[0]), acts[1..])
  }

  lemma {:induction false} LegalConcat(d: Design, s: State, a: seq<Action>, b: seq<Action>)
    requires LegalFrom(d, s, a) && LegalFrom(d, Leads(d, s, a), b)
    ensures LegalFrom(d, s, a + b) && Leads(d, s, a + b) == Leads(d, Leads(d, s, a), b)
    decreases |a|
  {
    if a == [] {
      assert a + b == b;
    } else {
      assert (a + b)[1..] == a[1..] + b;
      LegalConcat(d, Apply(d, s, a[0]), a[1..], b);
    }
  }

  lemma One(d: Design, s: State, a: Action)
    requires Enabled(d, s, a)
    ensures LegalFrom(d, s, [a]) && Leads(d, s, [a]) == Apply(d, s, a)
  {
    assert [a][1..] == [];
    assert LegalFrom(d, Apply(d, s, a), []);
  }

  /** One action more. */
  lemma Then(d: Design, s: State, acts: seq<Action>, a: Action) returns (longer: seq<Action>)
    requires LegalFrom(d, s, acts) && Enabled(d, Leads(d, s, acts), a)
    ensures LegalFrom(d, s, longer) && Leads(d, s, longer) == Apply(d, Leads(d, s, acts), a)
    ensures longer == acts + [a]
  {
    One(d, Leads(d, s, acts), a);
    LegalConcat(d, s, acts, [a]);
    longer := acts + [a];
  }

  /** One refresh goroutine, one late tick, a server, and a boot of one step. */
  const LIVELY := State(false, false, false, [Waiting(false)], 1, [], Serving, Booting(1))

  /** A tick and its mint during the boot, and a turn. */
  lemma Booted(d: Design) returns (acts: seq<Action>)
    ensures LegalFrom(d, LIVELY, acts) && Leads(d, LIVELY, acts) == LIVELY.(turns := [1], main := WaitBridge)
  {
    acts := [];
    acts := Then(d, LIVELY, acts, Pause);
    acts := Then(d, LIVELY, acts, Tick(0));
    acts := Then(d, LIVELY, acts, TakeTick(0, 1));
    acts := Then(d, LIVELY, acts, MintStep(0));
    acts := Then(d, LIVELY, acts, MintStep(0));
    acts := Then(d, LIVELY, acts, BootStep);
    acts := Then(d, LIVELY, acts, FinishBoot(true));
    acts := Then(d, LIVELY, acts, Launch(1));
  }

  /** Then a signal, and a tick taken after it. */
  lemma Busy(d: Design) returns (acts: seq<Action>)
    ensures LegalFrom(d, LIVELY, acts) && Signal in acts
    ensures Leads(d, LIVELY, acts) ==
            LIVELY.(ctxDone := true, refresh := [Minting(0)], lateTicks := 0, turns := [1], main := WaitBridge)
  {
    acts := Booted(d);
    acts := Then(d, LIVELY, acts, Signal);
    acts := Then(d, LIVELY, acts, Tick(0));
    acts := Then(d, LIVELY, acts, TakeTick(0, 0));
  }

  /** From there everything comes to an end, in the code's grouping and, with its watcher, in the rejected ones. */
  lemma Drained(d: Design, s: State) returns (acts: seq<Action>)
    requires s == LIVELY.(ctxDone := true, refresh := [Minting(0)], lateTicks := 0, turns := [1], main := WaitBridge)
    ensures LegalFrom(d, s, acts)
    ensures Leads(d, s, acts) ==
            s.(bridgeBack := true, refresh := [Gone], turns := [0],
               server := if d == ServerInGroup then Closed else Serving)
  {
    acts := [];
    acts := Then(d, s, acts, MintStep(0));
    acts := Then(d, s, acts, Work(0));
    acts := Then(d, s, acts, BridgeReturns);
    acts := Then(d, s, acts, Leave(0));
    if d == ServerInGroup {
      acts := Then(d, s, acts, WatcherCloses);
      acts := Then(d, s, acts, ServeReturns);
    }
  }

  lemma WaitsAreOver(d: Design, s: State) returns (acts: seq<Action>)
    requires s.main == WaitBridge && GroupDone(d, s) && AllGone(s) && AllReturned(s)
    ensures LegalFrom(d, s, acts) && Leads(d, s, acts) == s.(refreshCancelled := true, main := StopAll)
  {
    acts := [];
    acts := Then(d, s, acts, MainStep);
    acts := Then(d, s, acts, MainStep);
    acts := Then(d, s, acts, MainStep);
    acts := Then(d, s, acts, MainStep);
  }

  lemma ServerIsClosed(d: Design, s: State) returns (acts: seq<Action>)
    requires s.main == StopAll && s.server != NoServer
    ensures LegalFrom(d, s, acts) && Leads(d, s, acts) == s.(server := Closed, main := Returned)
  {
    acts := [];
    acts := Then(d, s, acts, MainStep);
    acts := Then(d, s, acts, MainStep);
    acts := Then(d, s, acts, ServeReturns);
    acts := Then(d, s, acts, MainStep);
  }

  lemma Converges(d: Design, s: State) returns (acts: seq<Action>)
    requires s.main == WaitBridge && GroupDone(d, s) && AllGone(s) && AllReturned(s) && s.server != NoServer
    ensures LegalFrom(d, s, acts)
    ensures Leads(d, s, acts) == s.(refreshCancelled := true, server := Closed, main := Returned)
  {
    acts := WaitsAreOver(d, s);
    var more := ServerIsClosed(d, Leads(d, s, acts));
    LegalConcat(d, s, acts, more);
    acts := acts + more;
  }

  /** With a signal every one of the three groupings can return: the rejected ones hang on a fatal status only. */
  lemma SignalLetsEveryGroupingReturn(d: Design) returns (acts: seq<Action>)
    ensures Signal in acts && LegalFrom(d, LIVELY, acts)
    ensures Leads(d, LIVELY, acts).main == Returned && Quiet(Leads(d, LIVELY, acts))
  {
    acts := Busy(d);
    var more := Drained(d, Leads(d, LIVELY, acts));
    LegalConcat(d, LIVELY, acts, more);
    acts := acts + more;
    more := Converges(d, Leads(d, LIVELY, acts));
    LegalConcat(d, LIVELY, acts, more);
    acts := acts + more;
  }
}
