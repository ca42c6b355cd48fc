/**
  The two checks on the numbering of the decision register: contiguity of the
  headings, and coverage of the ids the Deferred table cites. Headings and the
  citations of each table row are given as the numbers the patterns capture.
*/
module DecisionHeadings {
  import opened Sorting

  datatype Finding =
    | Misplaced(position: nat, number: int)
    | Repeated(number: int, first: nat, position: nat)

  /** The intact register of `n` entries. */
  function Numbered(n: nat): (s: seq<int>)
    ensures |s| == n && forall i | 0 <= i < n :: s[i] == i + 1
  {
    seq(n, i => i + 1)
  }

  /** `n` stands at 1-based position `p` and nowhere above it. */
  predicate FirstAt(h: seq<int>, n: int, p: nat)
    requires p <= |h|
  {
    0 < p && h[p - 1] == n && forall i | 0 <= i < p - 1 :: h[i] != n
  }

  /** What is wrong with the first `k` headings: a number off its position, or one that stands higher up already. */
  predicate IsBreak(h: seq<int>, k: nat, f: Finding)
    requires k <= |h|
  {
    match f
    case Misplaced(p, n) => 0 < p <= k && h[p - 1] == n && n != p
    case Repeated(n, p, q) => p < q <= k && h[q - 1] == n && FirstAt(h, n, p)
  }

  /** The first position among the first `k` that holds `n`, or 0. */
  function FirstPosition(h: seq<int>, k: nat, n: int): (p: nat)
    requires k <= |h|
    ensures p <= k
    ensures p > 0 ==> FirstAt(h, n, p)
    ensures p == 0 ==> forall i | 0 <= i < k :: h[i] != n
  {
    if k == 0 then 0 else
      var p := FirstPosition(h, k - 1, n);
      if p == 0 && h[k - 1] == n then k else p
  }

  function FindingsAt(h: seq<int>, k: nat): seq<Finding>
    requires k < |h|
  {
    var p := FirstPosition(h, k, h[k]);
    (if h[k] != k + 1 then [Misplaced(k + 1, h[k])] else []) + (if p > 0 then [Repeated(h[k], p, k + 1)] else [])
  }

  function Findings(h: seq<int>, k: nat): seq<Finding>
    requires k <= |h|
  {
    if k == 0 then [] else Findings(h, k - 1) + FindingsAt(h, k - 1)
  }

  /** What the loop's map holds: each number met so far, with its first position. */
  ghost predicate Seen(h: seq<int>, k: nat, seen: map<int, nat>)
    requires k <= |h|
  {
    && (forall n :: n in seen <==> FirstPosition(h, k, n) > 0)
    && (forall n | n in seen :: seen[n] == FirstPosition(h, k, n))
  }

  lemma SeenStep(h: seq<int>, k: nat, seen: map<int, nat>)
    requires k < |h| && Seen(h, k, seen)
    ensures Seen(h, k + 1, if h[k] in seen then seen else seen[h[k] := k + 1])
  {
  }

  /** `CheckDecisionHeadingsContiguous`: silent exactly on 1..n. */
  method CheckContiguous(headings: seq<int>) returns (bad: seq<Finding>)
    ensures bad == Findings(headings, |headings|)
    ensures bad == [] <==> headings == Numbered(|headings|)
  {
    bad := [];
    var seen: map<int, nat> := map[];
    for k := 0 to |headings|
      invariant bad == Findings(headings, k)
      invariant Seen(headings, k, seen)
    {
      var n, pos := headings[k], k + 1;
      SeenStep(headings, k, seen);
      if n != pos {
        bad := bad + [Misplaced(pos, n)];
      }
      if n in seen {
        bad := bad + [Repeated(n, seen[n], pos)];
      } else {
        seen := seen[n := pos];
      }
    }
    SilentIffNumbered(headings);
  }

  lemma SilentAt(h: seq<int>, k: nat)
    requires k < |h| && forall i | 0 <= i < k :: h[i] == i + 1
    ensures FindingsAt(h, k) == [] <==> h[k] == k + 1
  {
  }

  lemma {:induction false} SilentUpTo(h: seq<int>, k: nat)
    requires k <= |h|
    ensures Findings(h, k) == [] <==> forall i | 0 <= i < k :: h[i] == i + 1
  {
    if k > 0 {
      SilentUpTo(h, k - 1);
      if Findings(h, k - 1) == [] {
        SilentAt(h, k - 1);
      }
    }
  }

  /** No finding at all means exactly 1..n: a number that repeats is off its position too. */
  lemma SilentIffNumbered(h: seq<int>)
    ensures Findings(h, |h|) == [] <==> h == Numbered(|h|)
  {
    SilentUpTo(h, |h|);
  }

  /** The findings are exactly the breaks. */
  lemma {:induction false} FindingsAreTheBreaks(h: seq<int>, k: nat, f: Finding)
    requires k <= |h|
    ensures f in Findings(h, k) <==> IsBreak(h, k, f)
  {
    if k > 0 {
      FindingsAreTheBreaks(h, k - 1, f);
      FindingsAtAre(h, k - 1, f);
    }
  }

  lemma FindingsAtAre(h: seq<int>, k: nat, f: Finding)
    requires k < |h|
    ensures f in FindingsAt(h, k) <==> f.position == k + 1 && IsBreak(h, k + 1, f)
  {
    var p := FirstPosition(h, k, h[k]);
    if f.Repeated? && IsBreak(h, k + 1, f) && f.position == k + 1 {
      assert p > 0;
      assert p == f.first;
    }
  }

  /** They come from the top of the file down, so the first divergence is reported first. */
  lemma {:induction false} FindingsInFileOrder(h: seq<int>, k: nat)
    requires k <= |h|
    ensures forall f | f in Findings(h, k) :: f.position <= k
    ensures forall i, j | 0 <= i < j < |Findings(h, k)| :: Findings(h, k)[i].position <= Findings(h, k)[j].position
  {
    if k > 0 {
      FindingsInFileOrder(h, k - 1);
      assert forall f | f in FindingsAt(h, k - 1) :: f.position == k;
    }
  }

  // ------------------------------------------------------------------
  // Cited ids
  // ------------------------------------------------------------------

  /** All citations, row by row. */
  function Citations(rows: seq<seq<int>>): seq<int> {
    if rows == [] then [] else Citations(rows[..|rows| - 1]) + rows[|rows| - 1]
  }

  /** Every citation of every row is there, rows in order and each in its own. */
  lemma {:induction false} CitationsAre(rows: seq<seq<int>>, r: nat, c: nat)
    requires r < |rows| && c < |rows[r]|
    ensures var before := |Citations(rows[..r])|;
      before + c < |Citations(rows)| && Citations(rows)[before + c] == rows[r][c]
  {
    if r == |rows| - 1 {
    } else {
      CitationsAre(rows[..|rows| - 1], r, c);
      assert rows[..|rows| - 1][..r] == rows[..r];
    }
  }

  lemma {:induction false} CitationsHas(rows: seq<seq<int>>, n: int)
    ensures n in Citations(rows) <==> exists r | 0 <= r < |rows| :: n in rows[r]
  {
    if rows != [] {
      var before := rows[..|rows| - 1];
      CitationsHas(before, n);
      assert forall r | 0 <= r < |before| :: before[r] == rows[r];
    }
  }

  /** Each member at its first place. */
  function Firsts(s: seq<int>): seq<int> {
    if s == [] then [] else
      var before, last := Firsts(s[..|s| - 1]), s[|s| - 1];
      if last in before then before else before + [last]
  }

  /** `ReferencedDecisionIDs`: every cited id once, in order of first citation. */
  method ReferencedIds(rows: seq<seq<int>>) returns (out: seq<int>)
    ensures out == Firsts(Citations(rows))
  {
    out := [];
    var seen: set<int> := {};
    for r := 0 to |rows|
      invariant out == Firsts(Citations(rows[..r]))
      invariant forall n :: n in seen <==> n in out
    {
      ghost var before := Citations(rows[..r]);
      assert before + rows[r][..0] == before;
      for c := 0 to |rows[r]|
        invariant out == Firsts(before + rows[r][..c])
        invariant forall n :: n in seen <==> n in out
      {
        var n := rows[r][c];
        assert (before + rows[r][..c + 1])[..|before| + c] == before + rows[r][..c];
        if n !in seen {
          seen := seen + {n};
          out := out + [n];
        }
      }
      assert before + rows[r][..|rows[r]|] == before + rows[r];
      assert rows[..r + 1][..r] == rows[..r];
    }
    assert rows[..|rows|] == rows;
  }

  /** The members are those of the list, each once. */
  lemma {:induction false} FirstsHas(s: seq<int>)
    ensures forall n :: n in Firsts(s) <==> n in s
    ensures forall i, j | 0 <= i < j < |Firsts(s)| :: Firsts(s)[i] != Firsts(s)[j]
  {
    if s != [] {
      FirstsHas(s[..|s| - 1]);
      assert s == s[..|s| - 1] + [s[|s| - 1]];
    }
  }

  /** They come in the order in which they are first met: what precedes a prefix's members are its own. */
  lemma {:induction false} FirstsInOrder(s: seq<int>, k: nat)
    requires k <= |s|
    ensures Firsts(s[..k]) <= Firsts(s)
  {
    if k < |s| {
      FirstsInOrder(s[..|s| - 1], k);
      assert s[..|s| - 1][..k] == s[..k];
    } else {
      assert s[..k] == s;
    }
  }

  // ------------------------------------------------------------------
  // Coverage
  // ------------------------------------------------------------------

  function Described(describe: int -> string, ns: seq<int>): seq<string> {
    seq(|ns|, i requires 0 <= i < |ns| => describe(ns[i]))
  }

  /** `CheckDecisionHeadingsCoverReferencedIDs`: one message for each cited id without a heading, sorted. */
  method CheckCoverage(headings: seq<int>, referenced: seq<int>, describe: int -> string) returns (bad: seq<string>)
    ensures Sorted(bad) && multiset(bad) == multiset(Described(describe, Uncovered(headings, referenced)))
    ensures bad == [] <==> forall n | n in referenced :: n in headings
  {
    var have: set<int> := {};
    for k := 0 to |headings|
      invariant forall n :: n in have <==> n in headings[..k]
    {
      have := have + {headings[k]};
    }
    assert headings[..|headings|] == headings;
    bad := [];
    for k := 0 to |referenced|
      invariant bad == Described(describe, Uncovered(headings, referenced[..k]))
    {
      assert referenced[..k + 1][..k] == referenced[..k];
      if referenced[k] !in have {
        bad := bad + [describe(referenced[k])];
      }
    }
    assert referenced[..|referenced|] == referenced;
    CoverageSilentIff(headings, referenced);
    SortStringsSorts(bad);
    SortingNothing(bad);
    bad := SortStrings(bad);
  }

  lemma SortingNothing(s: seq<string>)
    ensures SortStrings(s) == [] <==> s == []
  {
    SortStringsSorts(s);
    assert |multiset(s)| == |s| && |multiset(SortStrings(s))| == |SortStrings(s)|;
  }

  function Uncovered(headings: seq<int>, referenced: seq<int>): seq<int> {
    if referenced == [] then [] else
      var n := referenced[|referenced| - 1];
      Uncovered(headings, referenced[..|referenced| - 1]) + (if n in headings then [] else [n])
  }

  lemma {:induction false} UncoveredIs(headings: seq<int>, referenced: seq<int>)
    ensures forall n :: n in Uncovered(headings, referenced) <==> n in referenced && n !in headings
  {
    if referenced != [] {
      UncoveredIs(headings, referenced[..|referenced| - 1]);
    }
  }

  lemma CoverageSilentIff(headings: seq<int>, referenced: seq<int>)
    ensures Uncovered(headings, referenced) == [] <==> forall n | n in referenced :: n in headings
  {
    UncoveredIs(headings, referenced);
    var u := Uncovered(headings, referenced);
    forall n | n in referenced && n !in headings ensures u != [] {
      assert n in u;
    }
    if u != [] {
      assert u[0] in u;
    }
  }

  // ------------------------------------------------------------------
  // Lost headings
  // ------------------------------------------------------------------

  /** The headings that remain when those at the `lost` positions are dropped. */
  function Remaining(h: seq<int>, lost: set<nat>): seq<int> {
    if h == [] then [] else
      Remaining(h[..|h| - 1], lost) + (if |h| - 1 in lost then [] else [h[|h| - 1]])
  }

  lemma {:induction false} RemainingOf(n: nat, lost: set<nat>)
    ensures |Remaining(Numbered(n), lost)| <= n
    ensures (exists p | p in lost :: p < n) ==> |Remaining(Numbered(n), lost)| < n
    ensures (forall p: nat | p < n :: p !in lost) ==> Remaining(Numbered(n), lost) == Numbered(n)
    ensures forall x | x in Remaining(Numbered(n), lost) :: 0 < x <= n
  {
    if n > 0 {
      assert Numbered(n)[..n - 1] == Numbered(n - 1);
      RemainingOf(n - 1, lost);
    }
  }

  /**
    Lose any headings of a register 1..n whose last id is cited, and one of the two
    checks speaks: what remains is not 1..m, or the last id has no heading.
  */
  lemma LossIsNoticed(n: nat, lost: set<nat>, referenced: seq<int>)
    requires n in referenced && exists p | p in lost :: p < n
    ensures var h := Remaining(Numbered(n), lost);
      h != Numbered(|h|) || Uncovered(h, referenced) != []
  {
    var h := Remaining(Numbered(n), lost);
    RemainingOf(n, lost);
    UncoveredIs(h, referenced);
    if h == Numbered(|h|) {
      assert n !in h;
      assert n in Uncovered(h, referenced);
    }
  }

  /** The contiguity check alone accepts every truncation, so it never sees a lost tail. */
  lemma TruncationPasses(n: nat, m: nat)
    requires m <= n
    ensures Numbered(n)[..m] == Numbered(|Numbered(n)[..m]|)
  {
  }

  /** What is lost of the first `n` headings is a tail of them. */
  ghost predicate TailLost(n: nat, lost: set<nat>) {
    forall p: nat, q: nat | p < q < n && p in lost :: q in lost
  }

  ghost predicate NothingLost(n: nat, lost: set<nat>) {
    forall p: nat | p < n :: p !in lost
  }

  lemma TailLostStep(n: nat, lost: set<nat>)
    requires n > 0
    ensures n - 1 in lost ==> (TailLost(n, lost) <==> TailLost(n - 1, lost))
    ensures n - 1 !in lost ==> (TailLost(n, lost) <==> NothingLost(n - 1, lost))
  {
  }

  lemma RemainingStep(n: nat, lost: set<nat>)
    requires n > 0
    ensures Remaining(Numbered(n), lost) == Remaining(Numbered(n - 1), lost) + if n - 1 in lost then [] else [n]
  {
    assert Numbered(n)[..n - 1] == Numbered(n - 1);
  }

  /** Contiguity alone misses a loss exactly when the lost headings are a tail of the register. */
  lemma {:induction false} ContiguityNoticesIff(n: nat, lost: set<nat>)
    ensures var h := Remaining(Numbered(n), lost); h == Numbered(|h|) <==> TailLost(n, lost)
  {
    if n > 0 {
      var init := Remaining(Numbered(n - 1), lost);
      RemainingStep(n, lost);
      TailLostStep(n, lost);
      if n - 1 in lost {
        ContiguityNoticesIff(n - 1, lost);
        assert init + [] == init;
      } else {
        LastKept(n, init);
        RemainingOf(n - 1, lost);
      }
    }
  }

  /** With `n` kept at the end, the list counts up exactly when nothing before it is missing. */
  lemma LastKept(n: nat, init: seq<int>)
    requires n > 0
    ensures init + [n] == Numbered(|init| + 1) <==> init == Numbered(n - 1)
  {
    var h := init + [n];
    if h == Numbered(|init| + 1) {
      assert h[|init|] == |init| + 1;
      assert h[..|init|] == init;
    }
  }
}
