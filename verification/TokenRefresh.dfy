/**
  The cloud-identity refresh loop: a ticker at half the token's lifetime, one mint
  per tick, and a token file that each tick overwrites, removes or leaves alone.

  Time is in nanoseconds. The ticker is Go's: its channel holds one tick, so a
  tick that falls while a mint is still running is received when the mint is
  over, and further ones are dropped. Mint outcomes and durations are arbitrary.
*/
module TokenRefresh {

  datatype File = Absent | Token(issued: int) | Truncated

  /** What writing the refreshed token did: failing before or after the file was truncated are different. */
  datatype Write = Written | Untouched | CutShort

  /** One tick: how long the mint took, and what it left behind. */
  datatype Tick =
    | MintFailed(took: nat, removed: bool)
    | Minted(took: nat, issuedAfter: nat, write: Write)

  predicate WellTimed(t: Tick) {
    t.Minted? ==> t.issuedAfter <= t.took
  }

  function AfterTick(file: File, at: int, t: Tick): File {
    match t
    case MintFailed(_, removed) => if removed then Absent else file
    case Minted(_, issuedAfter, Written) => Token(at + issuedAfter)
    case Minted(_, _, Untouched) => file
    case Minted(_, _, CutShort) => Truncated
  }

  /** The body of `refreshOneBinding`'s loop. */
  class Binding {
    var file: File

    constructor (issued: int)
      ensures file == Token(issued)
    {
      file := Token(issued);
    }

    method OnTick(at: int, t: Tick)
      modifies this
      ensures file == AfterTick(old(file), at, t)
    {
      match t {
        case MintFailed(_, removed) =>
          if removed {
            file := Absent;
          }
        case Minted(_, issuedAfter, write) =>
          match write {
            case Written => file := Token(at + issuedAfter);
            case CutShort => file := Truncated;
            case Untouched =>
          }
      }
    }

    /** Any number of ticks, one after the other. */
    method Serve(life: Life, ticks: seq<Tick>)
      requires life.Valid() && file == Token(life.issued)
      modifies this
      ensures file == FileAfter(life, ticks, |ticks|)
    {
      for k := 0 to |ticks|
        invariant file == FileAfter(life, ticks, k)
      {
        OnTick(Received(life, ticks, k), ticks[k]);
      }
    }
  }

  // ------------------------------------------------------------------
  // Runs
  // ------------------------------------------------------------------

  /** A token's lifetime, when the boot's own token was issued, and when the ticker was started. */
  datatype Life = Life(lifetime: nat, issued: int, start: int) {
    /** A ticker needs a positive interval, and the loop starts after the first mint. */
    predicate Valid() {
      lifetime >= 2 && issued <= start
    }

    function Interval(): nat {
      lifetime / 2
    }
  }

  /** The next moment after `r` at which the ticker fires. */
  function NextFiring(life: Life, r: int): int
    requires life.Valid()
  {
    r + life.Interval() - (r - life.start) % life.Interval()
  }

  /** When tick `k` is received: as soon as it has fired and the mint before it is over. */
  function Received(life: Life, ticks: seq<Tick>, k: nat): int
    requires life.Valid() && k <= |ticks|
  {
    if k == 0 then life.start + life.Interval()
    else
      var before := Received(life, ticks, k - 1);
      var over := before + ticks[k - 1].took;
      var firing := NextFiring(life, before);
      if over <= firing then firing else over
  }

  /** When tick `k`'s mint, and the write or removal that follows it, is over. */
  function Over(life: Life, ticks: seq<Tick>, k: nat): int
    requires life.Valid() && k < |ticks|
  {
    Received(life, ticks, k) + ticks[k].took
  }

  /** The file after `k` ticks. */
  function FileAfter(life: Life, ticks: seq<Tick>, k: nat): File
    requires life.Valid() && k <= |ticks|
  {
    if k == 0 then Token(life.issued)
    else AfterTick(FileAfter(life, ticks, k - 1), Received(life, ticks, k - 1), ticks[k - 1])
  }

  /** The file holds no token, or one no older than its lifetime. */
  predicate FreshAt(file: File, lifetime: nat, now: int) {
    file.Token? ==> now - file.issued <= lifetime
  }

  /** At no moment up to the end of tick `k` is the file, as `k` ticks left it, an expired token. */
  ghost predicate FreshThrough(life: Life, ticks: seq<Tick>, k: nat)
    requires life.Valid() && k < |ticks|
  {
    forall now: int | now <= Over(life, ticks, k) :: FreshAt(FileAfter(life, ticks, k), life.lifetime, now)
  }

  ghost predicate NeverExpired(life: Life, ticks: seq<Tick>)
    requires life.Valid()
  {
    forall k | 0 <= k < |ticks| :: FreshThrough(life, ticks, k)
  }

  /** A tick that leaves the file as it was: a failed write, or a failed removal after a failed mint. */
  predicate LeavesFile(t: Tick) {
    match t
    case MintFailed(_, removed) => !removed
    case Minted(_, _, write) => write == Untouched
  }

  /** How many ticks in a row, up to but not including tick `k`, left the file alone. */
  function Idle(ticks: seq<Tick>, k: nat): (n: nat)
    requires k <= |ticks|
    ensures n <= k
  {
    if k == 0 || !LeavesFile(ticks[k - 1]) then 0 else 1 + Idle(ticks, k - 1)
  }

  /** Every mint takes at most `longest`, and at most `m` ticks in a row leave the file alone. */
  ghost predicate Tolerable(ticks: seq<Tick>, longest: nat, m: nat) {
    && (forall k | 0 <= k < |ticks| :: WellTimed(ticks[k]) && ticks[k].took <= longest)
    && (forall k: nat | k <= |ticks| :: Idle(ticks, k) <= m)
  }

  /**
    Over every run with this lifetime, startup delay and mint time, and at most `m`
    ticks in a row that leave the file alone, the file never holds an expired token.
  */
  ghost predicate AlwaysFresh(lifetime: nat, delay: nat, longest: nat, m: nat)
    requires lifetime >= 2
  {
    forall life: Life, ticks: seq<Tick> | RunWithin(life, ticks, lifetime, delay, longest, m) ::
      NeverExpired(life, ticks)
  }

  ghost predicate RunWithin(life: Life, ticks: seq<Tick>, lifetime: nat, delay: nat, longest: nat, m: nat) {
    && life.Valid() && life.lifetime == lifetime && life.start - life.issued <= delay
    && Tolerable(ticks, longest, m)
  }

  // ------------------------------------------------------------------
  // Ages
  // ------------------------------------------------------------------

  lemma FiringIsNear(life: Life, r: int)
    requires life.Valid()
    ensures r < NextFiring(life, r) <= r + life.Interval()
  {
  }

  /** The ticker keeps to its grid: it fires at whole intervals after its start, whenever the last tick was received. */
  lemma FiringOnGrid(life: Life, r: int) returns (n: int)
    requires life.Valid()
    ensures NextFiring(life, r) == life.start + n * life.Interval()
  {
    var d, i := r - life.start, life.Interval();
    n := d / i + 1;
    assert d == d / i * i + d % i;
    assert n * i == d / i * i + i;
  }

  /** A tick is received when it has fired and the mint before it is over, whichever is later. */
  lemma ReceivedIs(life: Life, ticks: seq<Tick>, k: nat)
    requires life.Valid() && k < |ticks|
    ensures var fires, over := NextFiring(life, Received(life, ticks, k)), Over(life, ticks, k);
      && Received(life, ticks, k + 1) >= fires && Received(life, ticks, k + 1) >= over
      && (Received(life, ticks, k + 1) == fires || Received(life, ticks, k + 1) == over)
    ensures Received(life, ticks, 0) == life.start + life.Interval()
  {
  }

  lemma NextReceived(life: Life, ticks: seq<Tick>, k: nat)
    requires life.Valid() && k < |ticks| && ticks[k].took <= life.Interval()
    ensures Received(life, ticks, k) <= Received(life, ticks, k + 1) <= Received(life, ticks, k) + life.Interval()
  {
    FiringIsNear(life, Received(life, ticks, k));
  }

  lemma OneMore(n: nat, d: nat)
    ensures (n + 1) * d == n * d + d
  {
  }

  lemma Monotone(n: nat, m: nat, d: nat)
    requires n <= m
    ensures n * d <= m * d
  {
    assert m * d == n * d + (m - n) * d;
  }

  /** How old a token may be when tick `k` is received, counted from the tick that minted it or from the boot's mint. */
  function AgeLimit(life: Life, ticks: seq<Tick>, k: nat): int
    requires k <= |ticks|
  {
    (Idle(ticks, k) + 1) * life.Interval() + if Idle(ticks, k) == k then life.start - life.issued else 0
  }

  lemma AgeLimitGrows(life: Life, ticks: seq<Tick>, k: nat)
    requires 0 < k <= |ticks| && LeavesFile(ticks[k - 1])
    ensures AgeLimit(life, ticks, k) == AgeLimit(life, ticks, k - 1) + life.Interval()
  {
    OneMore(Idle(ticks, k - 1) + 1, life.Interval());
  }

  /** Whatever the mints and the file operations do, a token on file when tick `k` is received is within its limit. */
  lemma {:induction false} AgeWithinLimit(life: Life, ticks: seq<Tick>, k: nat)
    requires life.Valid() && k <= |ticks|
    requires forall i | 0 <= i < |ticks| :: WellTimed(ticks[i]) && ticks[i].took <= life.Interval()
    ensures var file := FileAfter(life, ticks, k);
            file.Token? ==> Received(life, ticks, k) - file.issued <= AgeLimit(life, ticks, k)
  {
    if k > 0 {
      NextReceived(life, ticks, k - 1);
      if LeavesFile(ticks[k - 1]) {
        AgeWithinLimit(life, ticks, k - 1);
        AgeLimitGrows(life, ticks, k);
      }
    }
  }

  /**
    With `m` ticks in a row that leave the file alone before tick `k`, the token still
    there is at most m+1 intervals and a mint old when tick `k` is over, the boot's own
    token older by the startup delay.
  */
  lemma AgeAfterFailures(life: Life, ticks: seq<Tick>, longest: nat, m: nat, k: nat)
    requires life.Valid() && k < |ticks| && longest <= life.Interval() && Tolerable(ticks, longest, m)
    ensures var file := FileAfter(life, ticks, k);
            file.Token? ==>
              Over(life, ticks, k) - file.issued <=
              (m + 1) * life.Interval() + longest + if Idle(ticks, k) == k then life.start - life.issued else 0
  {
    AgeWithinLimit(life, ticks, k);
    Monotone(Idle(ticks, k) + 1, m + 1, life.Interval());
  }

  lemma TolerableIsFresh(life: Life, ticks: seq<Tick>, delay: nat, longest: nat, m: nat, k: nat)
    requires life.Valid() && Tolerable(ticks, longest, m) && k < |ticks|
    requires life.start - life.issued <= delay
    requires longest <= life.Interval() && delay + (m + 1) * life.Interval() + longest <= life.lifetime
    ensures FreshThrough(life, ticks, k)
  {
    AgeAfterFailures(life, ticks, longest, m, k);
  }

  // ------------------------------------------------------------------
  // Runs that expire
  // ------------------------------------------------------------------

  /** A tick received on the grid, whose mint fits in the interval, is followed by the next grid point. */
  lemma OnTime(life: Life, ticks: seq<Tick>, k: nat, n: nat)
    requires life.Valid() && k < |ticks| && ticks[k].took <= life.Interval()
    requires Received(life, ticks, k) == life.start + n * life.Interval()
    ensures Received(life, ticks, k + 1) == life.start + (n + 1) * life.Interval()
  {
    MultipleHasNoRemainder(n, life.Interval());
    OneMore(n, life.Interval());
  }

  lemma MultipleHasNoRemainder(n: nat, d: nat)
    requires d > 0
    ensures (n * d) % d == 0
  {
    var q, r := (n * d) / d, (n * d) % d;
    assert n * d == q * d + r;
    assert (n - q) * d == r;
    ProductBound(n - q, d);
  }

  lemma ProductBound(x: int, d: nat)
    ensures x >= 1 ==> x * d >= d
    ensures x <= -1 ==> x * d <= 0 - d
  {
  }

  const FAILED_WRITE := Minted(0, 0, Untouched)

  /** `m` failed writes in a row, then a mint that takes as long as it may. */
  function FailingRun(m: nat, longest: nat): seq<Tick> {
    seq(m, _ => FAILED_WRITE) + [Minted(longest, 0, Written)]
  }

  lemma {:induction false} FailingRunSoFar(life: Life, m: nat, longest: nat, k: nat)
    requires life.Valid() && k <= m
    ensures var ticks := FailingRun(m, longest);
      && Idle(ticks, k) == k
      && FileAfter(life, ticks, k) == Token(life.issued)
      && Received(life, ticks, k) == life.start + (k + 1) * life.Interval()
  {
    if k > 0 {
      FailingRunSoFar(life, m, longest, k - 1);
      OnTime(life, FailingRun(m, longest), k - 1, k);
    }
  }

  lemma FailingRunIsTolerable(life: Life, m: nat, longest: nat)
    requires life.Valid()
    ensures Tolerable(FailingRun(m, longest), longest, m)
  {
    var ticks := FailingRun(m, longest);
    forall k: nat | k <= |ticks|
      ensures Idle(ticks, k) <= m
    {
      if k <= m {
        FailingRunSoFar(life, m, longest, k);
      }
    }
  }

  /** The boot's own token outlives its lifetime when `m` writes fail and the sum is too large. */
  lemma FailedWritesLeaveExpiredToken(lifetime: nat, delay: nat, longest: nat, m: nat)
    requires lifetime >= 2 && delay + (m + 1) * (lifetime / 2) + longest > lifetime
    ensures var life := Life(lifetime, 0, delay);
      && RunWithin(life, FailingRun(m, longest), lifetime, delay, longest, m)
      && !FreshThrough(life, FailingRun(m, longest), m)
  {
    var life, ticks := Life(lifetime, 0, delay), FailingRun(m, longest);
    FailingRunIsTolerable(life, m, longest);
    FailingRunSoFar(life, m, longest, m);
    assert Over(life, ticks, m) == delay + (m + 1) * (lifetime / 2) + longest;
    assert !FreshAt(FileAfter(life, ticks, m), lifetime, Over(life, ticks, m));
  }

  /** A mint longer than the interval holds up the next tick, so that the token it wrote expires on file. */
  lemma SlowMintExpires(lifetime: nat, delay: nat, longest: nat)
    requires lifetime >= 2 && longest > lifetime / 2
    ensures var life := Life(lifetime, 0, delay);
            var ticks := [Minted(longest, 0, Written), Minted(longest, 0, Written)];
      && RunWithin(life, ticks, lifetime, delay, longest, 0)
      && !FreshThrough(life, ticks, 1)
  {
    var life := Life(lifetime, 0, delay);
    var tick := Minted(longest, 0, Written);
    var ticks := [tick, tick];
    var first := Received(life, ticks, 0);
    assert FileAfter(life, ticks, 0) == Token(0);
    assert FileAfter(life, ticks, 1) == Token(first);
    FiringIsNear(life, first);
    assert Received(life, ticks, 1) == first + longest;
    assert !FreshAt(FileAfter(life, ticks, 1), lifetime, Over(life, ticks, 1));
  }

  /**
    The file never holds an expired token, whatever the mints do and with at most `m`
    ticks in a row that leave it alone, exactly when a mint fits in half a lifetime and
    the startup delay, m+1 intervals and a mint fit in a lifetime.
  */
  lemma AlwaysFreshIff(lifetime: nat, delay: nat, longest: nat, m: nat)
    requires lifetime >= 2
    ensures AlwaysFresh(lifetime, delay, longest, m) <==>
            longest <= lifetime / 2 && delay + (m + 1) * (lifetime / 2) + longest <= lifetime
  {
    if longest > lifetime / 2 {
      SlowMintExpires(lifetime, delay, longest);
      var ticks := [Minted(longest, 0, Written), Minted(longest, 0, Written)];
      StaysWithin(Life(lifetime, 0, delay), ticks, lifetime, delay, longest, m);
    } else if delay + (m + 1) * (lifetime / 2) + longest > lifetime {
      FailedWritesLeaveExpiredToken(lifetime, delay, longest, m);
      assert !NeverExpired(Life(lifetime, 0, delay), FailingRun(m, longest));
    } else {
      forall life: Life, ticks: seq<Tick> | RunWithin(life, ticks, lifetime, delay, longest, m)
        ensures NeverExpired(life, ticks)
      {
        forall k | 0 <= k < |ticks|
          ensures FreshThrough(life, ticks, k)
        {
          TolerableIsFresh(life, ticks, delay, longest, m, k);
        }
      }
    }
  }

  /** A run that expires without a failed operation expires for every tolerance. */
  lemma StaysWithin(life: Life, ticks: seq<Tick>, lifetime: nat, delay: nat, longest: nat, m: nat)
    requires RunWithin(life, ticks, lifetime, delay, longest, 0) && |ticks| == 2 && !FreshThrough(life, ticks, 1)
    ensures RunWithin(life, ticks, lifetime, delay, longest, m) && !NeverExpired(life, ticks)
  {
    forall k: nat | k <= |ticks|
      ensures Idle(ticks, k) <= m
    {
    }
  }

  /** When every file operation works: startup delay, half a lifetime and a mint must fit in a lifetime. */
  lemma FreshWithoutFailuresIff(lifetime: nat, delay: nat, longest: nat)
    requires lifetime >= 2
    ensures AlwaysFresh(lifetime, delay, longest, 0) <==>
            longest <= lifetime / 2 && delay + lifetime / 2 + longest <= lifetime
  {
    AlwaysFreshIff(lifetime, delay, longest, 0);
  }

  /** One failed write is too many as soon as delay and mint time come to two nanoseconds. */
  lemma OneFailedWriteIsTooMany(lifetime: nat, delay: nat, longest: nat)
    requires lifetime >= 2 && delay + longest >= 2
    ensures !AlwaysFresh(lifetime, delay, longest, 1)
  {
    AlwaysFreshIff(lifetime, delay, longest, 1);
  }

  /** However long it has been failing, a tick that mints and writes leaves a token no older than its own mint. */
  lemma SuccessfulTickRestores(life: Life, ticks: seq<Tick>, k: nat)
    requires life.Valid() && k < |ticks| && WellTimed(ticks[k])
    requires ticks[k].Minted? && ticks[k].write == Written
    ensures var file := FileAfter(life, ticks, k + 1);
            file.Token? && Received(life, ticks, k) <= file.issued <= Over(life, ticks, k)
  {
  }

  /** What the last tick that touched the file left there. */
  function LeftBy(life: Life, ticks: seq<Tick>, k: nat): File
    requires life.Valid() && k < |ticks|
  {
    if ticks[k].MintFailed? then Absent
    else if ticks[k].write == CutShort then Truncated
    else Token(Received(life, ticks, k) + ticks[k].issuedAfter)
  }

  /**
    The file is what the last tick that touched it left: nothing after a failed mint whose
    removal worked, the tick's own token after a written one, a truncated file after a
    write cut short, and the boot's token if no tick has touched it.
  */
  lemma {:induction false} FileIsLastTouch(life: Life, ticks: seq<Tick>, k: nat)
    requires life.Valid() && k <= |ticks|
    ensures var touched := k - Idle(ticks, k);
      FileAfter(life, ticks, k) == if touched == 0 then Token(life.issued) else LeftBy(life, ticks, touched - 1)
  {
    if k > 0 && LeavesFile(ticks[k - 1]) {
      FileIsLastTouch(life, ticks, k - 1);
    }
  }
}
