/**
  The OpenCode configuration documents across boots of one disk lineage: the
  bounded fetch, the two files the boot writes, removes or keeps, and the
  OPENCODE_CONFIG entry that tells the agent runtime where the environment
  document is. Every file operation may fail, in each way that matters later.
*/
module OpenCodeConfig {
  import opened Text

  type Doc = string

  /** An empty document means that nothing is configured in that scope. */
  datatype Delivery = Delivery(global: Doc, environment: Doc)

  const NOTHING := Delivery("", "")

  // ------------------------------------------------------------------
  // The fetch
  // ------------------------------------------------------------------

  datatype Reply = Delivered(delivery: Delivery) | Retryable | Terminal

  /** The reply to attempt `k` is the one the fetch ends with. */
  predicate Reached(reply: nat -> Reply, cancelled: nat -> bool, k: nat) {
    forall j: nat | j < k :: reply(j).Retryable? && !cancelled(j)
  }

  /** Some attempt within the budget is answered, and only retryable failures with completed waits precede it. */
  ghost predicate AnsweredWith(attempts: int, reply: nat -> Reply, cancelled: nat -> bool, d: Delivery) {
    exists k: nat :: Reached(reply, cancelled, k) && (k == 0 || k < attempts) && reply(k) == Delivered(d)
  }

  /**
    `fetchOpenCodeConfig` over `platform.Retry`: `cancelled(k)` says that the context
    ends during the wait after attempt `k`.
  */
  method FetchOpenCodeConfig(clientBuilt: bool, attempts: int, reply: nat -> Reply, cancelled: nat -> bool)
    returns (delivery: Delivery, fetchOK: bool)
    ensures fetchOK <==> clientBuilt && exists d :: AnsweredWith(attempts, reply, cancelled, d)
    ensures fetchOK ==> AnsweredWith(attempts, reply, cancelled, delivery)
    ensures !fetchOK ==> delivery == NOTHING
  {
    if !clientBuilt {
      return NOTHING, false;
    }
    var n := if attempts < 1 then 1 else attempts;
    var k: nat := 0;
    while true
      invariant k < n
      invariant Reached(reply, cancelled, k)
      decreases n - k
    {
      match reply(k) {
        case Delivered(d) =>
          assert AnsweredWith(attempts, reply, cancelled, d);
          return d, true;
        case Terminal =>
          OnlyAttempt(attempts, reply, cancelled, k);
          return NOTHING, false;
        case Retryable =>
          if k + 1 == n || cancelled(k) {
            OnlyAttempt(attempts, reply, cancelled, k);
            return NOTHING, false;
          }
      }
      k := k + 1;
    }
  }

  /** A fetch that stops at attempt `k` without an answer was not answered at all. */
  lemma OnlyAttempt(attempts: int, reply: nat -> Reply, cancelled: nat -> bool, k: nat)
    requires Reached(reply, cancelled, k) && !reply(k).Delivered?
    requires reply(k).Terminal? || cancelled(k) || k + 1 >= attempts
    ensures !exists d :: AnsweredWith(attempts, reply, cancelled, d)
  {
    forall d ensures !AnsweredWith(attempts, reply, cancelled, d) {
      forall m: nat | Reached(reply, cancelled, m) && reply(m).Delivered?
        ensures m != 0 && m >= attempts
      {
        assert m > k;
        assert reply(k).Retryable? && !cancelled(k);
      }
    }
  }

  // ------------------------------------------------------------------
  // One file
  // ------------------------------------------------------------------

  /** Writing fails before the file is touched, or after it was truncated and `kept` characters went in. */
  datatype Write = Wrote | LeftAlone | CutTo(kept: nat)

  /** How the file operations of one slot go, should the boot use them. */
  datatype Ops = Ops(write: Write, removes: bool, stats: bool)

  predicate Working(ops: Ops) {
    ops.write.Wrote? && ops.removes && ops.stats
  }

  function Wanted(doc: Doc): Option<Doc> {
    if doc == "" then None else Some(doc)
  }

  function AfterWrite(slot: Option<Doc>, doc: Doc, w: Write): Option<Doc> {
    match w
    case Wrote => Some(doc)
    case LeftAlone => slot
    case CutTo(kept) => Some(if kept < |doc| then doc[..kept] else doc)
  }

  /** What becomes of one slot: written, removed, or kept when nobody could be asked. */
  function Applied(slot: Option<Doc>, doc: Doc, fetchOK: bool, ops: Ops): Option<Doc> {
    if doc != "" then AfterWrite(slot, doc, ops.write) else if fetchOK && ops.removes then None else slot
  }

  /** Exactly when a slot ends up holding what the fetch asked for. */
  predicate Lands(slot: Option<Doc>, doc: Doc, ops: Ops) {
    if doc == "" then ops.removes || slot.None?
    else match ops.write
      case Wrote => true
      case LeftAlone => slot == Some(doc)
      case CutTo(kept) => kept >= |doc|
  }

  // ------------------------------------------------------------------
  // One boot
  // ------------------------------------------------------------------

  datatype Slots = Slots(global: Option<Doc>, environment: Option<Doc>)

  /** A boot whose runtime home cannot be prepared neither fetches nor touches the documents. */
  datatype Boot =
    | NoHome
    | Fetched(delivery: Delivery, globalOps: Ops, environmentOps: Ops)
    | FetchFailed(environmentStats: bool)

  function AfterBoot(s: Slots, b: Boot): Slots {
    match b
    case Fetched(d, g, e) => Slots(Applied(s.global, d.global, true, g), Applied(s.environment, d.environment, true, e))
    case NoHome => s
    case FetchFailed(_) => s
  }

  /** The boot hands OPENCODE_CONFIG to the runtime. */
  predicate Announces(s: Slots, b: Boot) {
    match b
    case NoHome => false
    case Fetched(d, _, e) => d.environment != "" && e.write.Wrote?
    case FetchFailed(stats) => stats && s.environment.Some?
  }

  function EventOf(fetchOK: bool, delivery: Delivery, g: Ops, e: Ops): Boot {
    if fetchOK then Fetched(delivery, g, e) else FetchFailed(e.stats)
  }

  class Disk {
    var global: Option<Doc>
    var environment: Option<Doc>

    function Contents(): Slots
      reads this
    {
      Slots(global, environment)
    }

    constructor ()
      ensures Contents() == Slots(None, None)
    {
      global, environment := None, None;
    }

    /** `applyOpenCodeConfig`; the result is empty or the one environment entry. */
    method ApplyOpenCodeConfig(delivery: Delivery, fetchOK: bool, environmentPath: string, g: Ops, e: Ops)
      returns (entries: seq<string>)
      modifies this
      ensures global == Applied(old(global), delivery.global, fetchOK, g)
      ensures environment == Applied(old(environment), delivery.environment, fetchOK, e)
      ensures entries == [] || (entries == ["OPENCODE_CONFIG=" + environmentPath] && environment.Some?)
      ensures entries != [] <==>
        if delivery.environment != "" then e.write.Wrote?
        else !fetchOK && e.stats && old(environment).Some?
    {
      if |delivery.global| > 0 {
        global := AfterWrite(global, delivery.global, g.write);
      } else if fetchOK {
        if g.removes {
          global := None;
        }
      }

      if |delivery.environment| > 0 {
        environment := AfterWrite(environment, delivery.environment, e.write);
        if e.write.Wrote? {
          return ["OPENCODE_CONFIG=" + environmentPath];
        }
        return [];
      } else if fetchOK {
        if e.removes {
          environment := None;
        }
        return [];
      } else {
        if e.stats && environment.Some? {
          return ["OPENCODE_CONFIG=" + environmentPath];
        }
        return [];
      }
    }

    /** The block of `run` that prepares the home, fetches and applies. */
    method BootConfig(homeReady: bool, clientBuilt: bool, attempts: int, reply: nat -> Reply, cancelled: nat -> bool,
                      environmentPath: string, g: Ops, e: Ops) returns (entries: seq<string>, ghost event: Boot)
      modifies this
      ensures Contents() == AfterBoot(old(Contents()), event)
      ensures entries == if Announces(old(Contents()), event) then ["OPENCODE_CONFIG=" + environmentPath] else []
      ensures event.NoHome? <==> !homeReady
      ensures event.Fetched? <==> homeReady && clientBuilt && exists d :: AnsweredWith(attempts, reply, cancelled, d)
      ensures event.Fetched? ==> AnsweredWith(attempts, reply, cancelled, event.delivery)
    {
      if !homeReady {
        return [], NoHome;
      }
      var delivery, fetchOK := FetchOpenCodeConfig(clientBuilt, attempts, reply, cancelled);
      event := EventOf(fetchOK, delivery, g, e);
      entries := ApplyOpenCodeConfig(delivery, fetchOK, environmentPath, g, e);
    }
  }

  // ------------------------------------------------------------------
  // Every run of boots
  // ------------------------------------------------------------------

  function After(s: Slots, boots: seq<Boot>): Slots {
    if boots == [] then s else AfterBoot(After(s, boots[..|boots| - 1]), boots[|boots| - 1])
  }

  /** Boot `k` is the last one whose fetch succeeded. */
  predicate LastFetch(boots: seq<Boot>, k: nat) {
    k < |boots| && boots[k].Fetched? && forall j | k < j < |boots| :: !boots[j].Fetched?
  }

  /** Nothing but a successful fetch touches the documents. */
  lemma {:induction false} UntouchedSinceFetch(s: Slots, boots: seq<Boot>, k: nat)
    requires k <= |boots| && forall j | k <= j < |boots| :: !boots[j].Fetched?
    ensures After(s, boots) == After(s, boots[..k])
  {
    if k == |boots| {
      assert boots[..k] == boots;
    } else {
      var init := boots[..|boots| - 1];
      UntouchedSinceFetch(s, init, k);
      assert init[..k] == boots[..k];
    }
  }

  /**
    After any run, with any faults, each slot holds the last fetch's document (and is
    absent if that fetch had none) exactly when the last fetch landed in that slot.
  */
  lemma CurrentIffLanded(s: Slots, boots: seq<Boot>, k: nat)
    requires LastFetch(boots, k)
    ensures var before := After(s, boots[..k]); var b := boots[k];
      && (After(s, boots).global == Wanted(b.delivery.global) <==> Lands(before.global, b.delivery.global, b.globalOps))
      && (After(s, boots).environment == Wanted(b.delivery.environment)
          <==> Lands(before.environment, b.delivery.environment, b.environmentOps))
  {
    UntouchedSinceFetch(s, boots, k + 1);
    var upTo := boots[..k + 1];
    assert upTo[..|upTo| - 1] == boots[..k] && upTo[|upTo| - 1] == boots[k];
    var before := After(s, boots[..k]);
    LandsIff(before.global, boots[k].delivery.global, boots[k].globalOps);
    LandsIff(before.environment, boots[k].delivery.environment, boots[k].environmentOps);
  }

  lemma LandsIff(slot: Option<Doc>, doc: Doc, ops: Ops)
    ensures Applied(slot, doc, true, ops) == Wanted(doc) <==> Lands(slot, doc, ops)
  {
    if doc != "" && ops.write.CutTo? && ops.write.kept < |doc| {
      assert |doc[..ops.write.kept]| < |doc|;
    }
  }

  predicate AllWorking(boots: seq<Boot>) {
    forall i | 0 <= i < |boots| ::
      match boots[i]
      case NoHome => true
      case Fetched(_, g, e) => Working(g) && Working(e)
      case FetchFailed(stats) => stats
  }

  /**
    With working file operations each slot follows the last successful fetch, so a
    document removed by its owner does not outlive the next successful fetch, and a
    run without one leaves the restored disk as it was.
  */
  lemma {:induction false} SlotsFollowLastFetch(s: Slots, boots: seq<Boot>)
    requires AllWorking(boots)
    ensures forall k: nat | LastFetch(boots, k) ::
      After(s, boots) == Slots(Wanted(boots[k].delivery.global), Wanted(boots[k].delivery.environment))
    ensures (forall i | 0 <= i < |boots| :: !boots[i].Fetched?) ==> After(s, boots) == s
  {
    forall k: nat | LastFetch(boots, k)
      ensures After(s, boots) == Slots(Wanted(boots[k].delivery.global), Wanted(boots[k].delivery.environment))
    {
      CurrentIffLanded(s, boots, k);
    }
    if forall i | 0 <= i < |boots| :: !boots[i].Fetched? {
      UntouchedSinceFetch(s, boots, 0);
    }
  }

  // ------------------------------------------------------------------
  // The environment entry
  // ------------------------------------------------------------------

  /** The one family of boots that leaves an environment document on disk and does not announce it. */
  predicate LeavesUnannounced(s: Slots, b: Boot) {
    match b
    case NoHome => s.environment.Some?
    case FetchFailed(stats) => !stats && s.environment.Some?
    case Fetched(d, _, e) =>
      if d.environment == "" then !e.removes && s.environment.Some?
      else e.write.CutTo? || (e.write.LeftAlone? && s.environment.Some?)
  }

  /**
    In every boot of every run: an announced document is on disk, and the entry is
    emitted if and only if the document is on disk, unless the boot is of that family.
  */
  lemma AnnouncedIffOnDisk(s: Slots, boots: seq<Boot>, i: nat)
    requires i < |boots|
    ensures var before := After(s, boots[..i]); var after := After(s, boots[..i + 1]);
      && (Announces(before, boots[i]) ==> after.environment.Some?)
      && ((Announces(before, boots[i]) <==> after.environment.Some?) <==> !LeavesUnannounced(before, boots[i]))
  {
    var upTo := boots[..i + 1];
    assert upTo[..|upTo| - 1] == boots[..i] && upTo[|upTo| - 1] == boots[i];
  }

  /** With working file operations and a home, the entry is there if and only if the document is. */
  lemma AnnouncedIffOnDiskWhenWorking(s: Slots, boots: seq<Boot>, i: nat)
    requires i < |boots| && AllWorking(boots) && !boots[i].NoHome?
    ensures Announces(After(s, boots[..i]), boots[i]) <==> After(s, boots[..i + 1]).environment.Some?
  {
    AnnouncedIffOnDisk(s, boots, i);
  }

  /**
    A write cut short is remembered: the failed fetch of the next boot announces the
    truncated file. So `keep last known good` holds only for documents that landed.
  */
  lemma TruncatedDocumentIsAnnounced(s: Slots, doc: Doc, kept: nat, g: Ops, removes: bool, stats: bool)
    requires kept < |doc|
    ensures var boots := [Fetched(Delivery("", doc), g, Ops(CutTo(kept), removes, stats)), FetchFailed(true)];
      && Announces(After(s, boots[..1]), boots[1])
      && After(s, boots).environment == Some(doc[..kept])
      && doc[..kept] != doc
  {
    var boots := [Fetched(Delivery("", doc), g, Ops(CutTo(kept), removes, stats)), FetchFailed(true)];
    assert |doc[..kept]| < |doc|;
    assert boots[..1] == [boots[0]] && boots[..1][..0] == [];
    assert boots[..|boots| - 1] == boots[..1];
  }

  /** A boot without a usable home leaves a good document on disk and does not announce it. */
  lemma NoHomeHidesDocument(s: Slots, doc: Doc, g: Ops, e: Ops)
    requires doc != "" && Working(e)
    ensures var boots := [Fetched(Delivery("", doc), g, e), NoHome];
      && After(s, boots).environment == Some(doc)
      && !Announces(After(s, boots[..1]), boots[1])
  {
    var boots := [Fetched(Delivery("", doc), g, e), NoHome];
    assert boots[..1] == [boots[0]] && boots[..1][..0] == [];
    assert boots[..|boots| - 1] == boots[..1];
  }
}
