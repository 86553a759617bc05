/** No-progress detection for the review/fix loop: the consecutive-repeat test
    (budgets/policy.py) and its generalization to a history window
    (reliability/policy.py). Iterations are numbered from 1. */
module NoProgress {
  import opened Sequences

  /** One iteration's fingerprint. Hashes are plain strings here. */
  datatype LoopSnapshot = LoopSnapshot(patchFingerprint: string, findingKeys: seq<string>)

  /** Iteration `current` reproduced iteration `earlier`. */
  datatype Repeat =
    | IdenticalPatchAndFindings(current: nat, earlier: nat)
    | OscillatingFixes(current: nat, earlier: nat)

  predicate DetectNoProgress(previous: Option<LoopSnapshot>, current: LoopSnapshot) {
    match previous
    case None => false
    case Some(p) => p.patchFingerprint == current.patchFingerprint && p.findingKeys == current.findingKeys
  }

  function Report(n: nat, j: nat): Repeat {
    if j + 1 == n then IdenticalPatchAndFindings(n, j) else OscillatingFixes(n, j)
  }

  /** The latest iteration in low..j that equals iteration |history|. */
  function ScanBack(history: seq<LoopSnapshot>, j: int, low: int): Option<Repeat>
    requires 1 <= low && j < |history|
    decreases j
  {
    if j < low then None
    else if history[j - 1] == history[|history| - 1] then Some(Report(|history|, j))
    else ScanBack(history, j - 1, low)
  }

  function Earliest(n: int, window: int): int {
    if n - window < 1 then 1 else n - window
  }

  function DetectWindow(history: seq<LoopSnapshot>, window: int): Option<Repeat> {
    ScanBack(history, |history| - 1, Earliest(|history|, window))
  }

  /** The scan as the module runs it: most recent snapshot first. */
  method DetectNoProgressWindow(history: seq<LoopSnapshot>, window: int) returns (r: Option<Repeat>)
    ensures r == DetectWindow(history, window)
  {
    var n := |history|;
    var low := if n - window < 1 then 1 else n - window;
    var j := n - 1;
    while j >= low
      invariant j < n
      invariant DetectWindow(history, window) == ScanBack(history, j, low)
    {
      if history[j - 1] == history[n - 1] {
        return Some(if j + 1 == n then IdenticalPatchAndFindings(n, j) else OscillatingFixes(n, j));
      }
      j := j - 1;
    }
    return None;
  }

  // ---------- What one detection means ----------

  /** Iteration `k` is an earlier one that showed the newest snapshot. */
  ghost predicate Repeats(history: seq<LoopSnapshot>, k: int) {
    1 <= k < |history| && history[k - 1] == history[|history| - 1]
  }

  /** The latest earlier occurrence of the newest snapshot is iteration `j`. */
  ghost predicate LastSeenAt(history: seq<LoopSnapshot>, j: int) {
    Repeats(history, j) && forall k :: j < k ==> !Repeats(history, k)
  }

  lemma {:induction false} ScanBackFinds(history: seq<LoopSnapshot>, top: int, low: int)
    requires 1 <= low && top < |history| && forall k :: top < k ==> !Repeats(history, k)
    ensures var r := ScanBack(history, top, low);
            && (r.None? <==> forall k :: low <= k ==> !Repeats(history, k))
            && (r.Some? ==> exists j: nat :: low <= j && LastSeenAt(history, j) && r.value == Report(|history|, j))
    decreases top
  {
    if top >= low {
      if Repeats(history, top) {
        assert LastSeenAt(history, top);
      } else {
        ScanBackFinds(history, top - 1, low);
      }
    }
  }

  /** The detector names iteration j exactly when j is where the newest snapshot was last seen
      and j lies within the window: as identical when j is the iteration just before, as
      oscillating when others lie between. */
  lemma {:induction false} DetectWindowExact(history: seq<LoopSnapshot>, window: int, j: nat)
    ensures var n := |history|;
            && (DetectWindow(history, window) == Some(IdenticalPatchAndFindings(n, j))
                <==> LastSeenAt(history, j) && n - j <= window && j == n - 1)
            && (DetectWindow(history, window) == Some(OscillatingFixes(n, j))
                <==> LastSeenAt(history, j) && n - j <= window && j < n - 1)
  {
    ScanBackFinds(history, |history| - 1, Earliest(|history|, window));
  }

  lemma {:induction false} NothingSeenNothingReported(history: seq<LoopSnapshot>, window: int)
    ensures DetectWindow(history, window).None?
            <==> forall k :: |history| - k <= window ==> !Repeats(history, k)
  {
    ScanBackFinds(history, |history| - 1, Earliest(|history|, window));
  }

  /** With a window of one the detector is the consecutive-repeat test. */
  lemma {:induction false} WindowOneIsConsecutiveTest(earlier: seq<LoopSnapshot>, current: LoopSnapshot)
    ensures DetectWindow(earlier + [current], 1).Some?
            <==> DetectNoProgress(if earlier == [] then None else Some(earlier[|earlier| - 1]), current)
  {
    var history := earlier + [current];
    NothingSeenNothingReported(history, 1);
    assert Repeats(history, |earlier|) <==> earlier != [] && earlier[|earlier| - 1] == current;
  }

  // ---------- The detector run after every iteration ----------

  /** The first n snapshots of a history without end. */
  function Prefix(h: nat -> LoopSnapshot, n: nat): (r: seq<LoopSnapshot>)
    ensures |r| == n && forall i :: 0 <= i < n ==> r[i] == h(i)
  {
    seq(n, i requires 0 <= i < n => h(i))
  }

  ghost predicate FiresBy(h: nat -> LoopSnapshot, window: int, last: nat) {
    exists n: nat :: n <= last && DetectWindow(Prefix(h, n), window).Some?
  }

  /** By iteration `last` the detector has fired exactly when two equal snapshots at most
      `window` apart have been seen. */
  lemma {:induction false} FiresExactlyOnCloseRepeat(h: nat -> LoopSnapshot, window: int, last: nat)
    ensures FiresBy(h, window, last)
            <==> exists i: nat, j: nat :: i < j < last && j - i <= window && h(i) == h(j)
  {
    hide DetectWindow;
    if FiresBy(h, window, last) {
      var n: nat :| n <= last && DetectWindow(Prefix(h, n), window).Some?;
      NothingSeenNothingReported(Prefix(h, n), window);
      var k :| n - k <= window && Repeats(Prefix(h, n), k);
      assert h(k - 1) == h(n - 1);
    }
    if i: nat, j: nat :| i < j < last && j - i <= window && h(i) == h(j) {
      var history := Prefix(h, j + 1);
      NothingSeenNothingReported(history, window);
      assert Repeats(history, i + 1);
    }
  }

  /** A loop that only ever shows `window` different snapshots is stopped by iteration
      window + 1. */
  lemma {:induction false} FewSnapshotsFire(h: nat -> LoopSnapshot, window: nat, seen: seq<LoopSnapshot>)
    requires |seen| <= window && forall i: nat :: i <= window ==> h(i) in seen
    ensures FiresBy(h, window, window + 1)
  {
    var history := Prefix(h, window + 1);
    var at := seq(window + 1, i requires 0 <= i < window + 1 => Index(seen, h(i)));
    var i, j := Pigeonhole(at, |seen|);
    assert h(i) == seen[at[i]] == h(j);
    FiresExactlyOnCloseRepeat(h, window, window + 1);
  }

  ghost function Index<T(!new)>(s: seq<T>, x: T): (k: nat)
    requires x in s
    ensures k < |s| && s[k] == x
  {
    var k :| 0 <= k < |s| && s[k] == x;
    k
  }

  // ---------- Deterministic loops ----------

  ghost predicate Follows(h: nat -> LoopSnapshot, step: LoopSnapshot -> LoopSnapshot, i: nat) {
    h(i + 1) == step(h(i))
  }

  /** Each snapshot is a function of the one before; the first tail + period snapshots
      differ and the next one is the snapshot after the tail again. */
  ghost predicate Cycles(h: nat -> LoopSnapshot, step: LoopSnapshot -> LoopSnapshot, tail: nat, period: nat) {
    period > 0
    && (forall i: nat :: Follows(h, step, i))
    && (forall i: nat, j: nat :: i < j < tail + period ==> h(i) != h(j))
    && h(tail + period) == h(tail)
  }

  lemma {:induction false} CyclesForever(
      h: nat -> LoopSnapshot, step: LoopSnapshot -> LoopSnapshot, tail: nat, period: nat, i: nat)
    requires Cycles(h, step, tail, period) && i >= tail
    ensures h(i + period) == h(i)
  {
    if i > tail {
      CyclesForever(h, step, tail, period, i - 1);
      assert Follows(h, step, i - 1) && Follows(h, step, i - 1 + period);
    }
  }

  /** Snapshots less than a period apart always differ. */
  lemma {:induction false} CloserThanPeriodDiffer(
      h: nat -> LoopSnapshot, step: LoopSnapshot -> LoopSnapshot, tail: nat, period: nat, i: nat, j: nat)
    requires Cycles(h, step, tail, period) && i < j < i + period
    ensures h(i) != h(j)
    decreases j
  {
    if j >= tail + period {
      CyclesForever(h, step, tail, period, j - period);
      if i >= tail + period {
        CyclesForever(h, step, tail, period, i - period);
        CloserThanPeriodDiffer(h, step, tail, period, i - period, j - period);
      }
    }
  }

  /** On a deterministic loop whose period fits the window the detector first fires at
      iteration tail + period + 1, and names iteration tail + 1: as identical when the loop
      stands still, as oscillating when it goes round. */
  lemma {:induction false} CycleWithinWindowFires(
      h: nat -> LoopSnapshot, step: LoopSnapshot -> LoopSnapshot, tail: nat, period: nat, window: int)
    requires Cycles(h, step, tail, period) && period <= window
    ensures !FiresBy(h, window, tail + period)
    ensures var now := tail + period + 1;
            DetectWindow(Prefix(h, now), window)
            == Some(if period == 1 then IdenticalPatchAndFindings(now, tail + 1) else OscillatingFixes(now, tail + 1))
  {
    FiresExactlyOnCloseRepeat(h, window, tail + period);
    var history := Prefix(h, tail + period + 1);
    assert Repeats(history, tail + 1);
    forall k | tail + 1 < k ensures !Repeats(history, k) {
      if k < |history| { assert h(k - 1) != h(tail); }
    }
    DetectWindowExact(history, window, tail + 1);
  }

  /** On a deterministic loop whose period exceeds the window the detector never fires. */
  lemma {:induction false} CycleBeyondWindowNeverFires(
      h: nat -> LoopSnapshot, step: LoopSnapshot -> LoopSnapshot, tail: nat, period: nat, window: int, last: nat)
    requires Cycles(h, step, tail, period) && period > window
    ensures !FiresBy(h, window, last)
  {
    FiresExactlyOnCloseRepeat(h, window, last);
    forall i: nat, j: nat | i < j < last && j - i <= window ensures h(i) != h(j) {
      CloserThanPeriodDiffer(h, step, tail, period, i, j);
    }
  }
}
