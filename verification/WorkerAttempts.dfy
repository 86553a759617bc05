/** Retrying one worker invocation under a new attempt number each time
    (run_worker_attempts in reliability/controller.py). */
module WorkerAttempts {
  import opened Sequences
  import opened Failures
  import opened Recovery
  import opened RecoveryRuns
  import opened RetryPolicy

  datatype Try<+T> = Finished(result: T) | Threw(exception: Exception)

  /** The worker's result and the retries it took, or the last exception raised again. */
  datatype WorkerEnding<+T> =
    | Succeeded(result: T, attempt: nat, decisions: seq<RetryDecision>)
    | Reraised(exception: Exception, attempt: nat)

  type Counts = map<Boundary, nat>

  /** The breaker's counts after a classified failure; without a breaker nothing is counted. */
  function Counted(threshold: Option<nat>, counts: Counts, e: Exception): Counts {
    var b := ClassifyException(e).boundary;
    if threshold.None? then counts else counts[b := CountOf(counts, b) + 1]
  }

  /** Whether the `tries`-th try, having thrown `e`, is followed by another. */
  predicate GoesOn(policy: Policy, threshold: Option<nat>, counts: Counts, e: Exception, tries: nat) {
    var c := ClassifyException(e);
    && !Discipline(e)
    && DecideRetry(policy, c, tries, false).action.Retry?
    && (threshold.Some? ==> CountOf(Counted(threshold, counts, e), c.boundary) < threshold.value)
  }

  lemma {:induction false} GoingOnIsWithin(
      policy: Policy, threshold: Option<nat>, counts: Counts, e: Exception, tries: nat, m: int)
    requires AttemptsWithin(policy, m) && GoesOn(policy, threshold, counts, e, tries)
    ensures tries < m
    ensures threshold.Some? ==>
              TotalRoom(Counted(threshold, counts, e), threshold.value) == TotalRoom(counts, threshold.value) - 1
  {
    hide TotalRoom;
    RetriedIff(policy, ClassifyException(e), tries, false);
    CrashIsNoDenial(e);
    if threshold.Some? {
      FailureTakesRoom(counts, ClassifyException(e).boundary, threshold.value);
    }
  }

  /** The tries from the `tries`-th on, the first being attempt `start`. */
  function Tries<T>(
      policy: Policy, threshold: Option<nat>, invoke: nat -> Try<T>, start: nat,
      tries: nat, counts: Counts, decisions: seq<RetryDecision>, m: int): (WorkerEnding<T>, Counts)
    requires tries >= 1 && AttemptsWithin(policy, m)
    decreases if tries <= m then m - tries else 0
  {
    var attempt := start + tries - 1;
    match invoke(attempt)
    case Finished(result) => (Succeeded(result, attempt, decisions), counts)
    case Threw(e) =>
      if Discipline(e) then (Reraised(e, attempt), counts)
      else if !GoesOn(policy, threshold, counts, e, tries) then (Reraised(e, attempt), Counted(threshold, counts, e))
      else
        GoingOnIsWithin(policy, threshold, counts, e, tries, m);
        Tries(policy, threshold, invoke, start, tries + 1, Counted(threshold, counts, e),
              decisions + [DecideRetry(policy, ClassifyException(e), tries, false)], m)
  }

  lemma {:induction false} BoundExists(policy: Policy, classes: set<FailureClass>) returns (m: int)
    requires classes <= policy.Keys
    ensures forall c :: c in classes ==> policy[c].maxAttempts <= m
    decreases |classes|
  {
    if classes == {} {
      m := 0;
    } else {
      var c :| c in classes;
      var rest := BoundExists(policy, classes - {c});
      m := if rest < policy[c].maxAttempts then policy[c].maxAttempts else rest;
      assert forall d :: d in classes ==> d == c || d in classes - {c};
    }
  }

  method RunWorkerAttempts<T>(invoke: nat -> Try<T>, policy: Policy, breaker: CircuitBreaker?, start: nat)
    returns (ending: WorkerEnding<T>)
    modifies breaker
    ensures breaker != null ==>
              exists m | AttemptsWithin(policy, m) ::
                Tries(policy, Some(breaker.threshold), invoke, start, 1, old(breaker.consecutive), [], m)
                == (ending, breaker.consecutive)
    ensures breaker == null ==>
              exists m | AttemptsWithin(policy, m) :: Tries(policy, None, invoke, start, 1, map[], [], m).0 == ending
  {
    hide TotalRoom, AttemptsWithin, Discipline, DecideRetry, ClassifyException;
    ghost var m := BoundOf(policy);
    ghost var threshold := if breaker == null then None else Some(breaker.threshold);
    ghost var counts: Counts := if breaker == null then map[] else breaker.consecutive;
    ghost var first := counts;
    var tries, decisions := 1, [];
    while true
      invariant tries >= 1 && (breaker != null ==> counts == breaker.consecutive)
      invariant Tries(policy, threshold, invoke, start, 1, first, [], m)
                == Tries(policy, threshold, invoke, start, tries, counts, decisions, m)
      decreases if tries <= m then m - tries else 0
    {
      var attempt := start + tries - 1;
      var outcome := invoke(attempt);
      if outcome.Finished? { return Succeeded(outcome.result, attempt, decisions); }
      var e := outcome.exception;
      if Discipline(e) { return Reraised(e, attempt); }
      var c := ClassifyException(e);
      if breaker != null { breaker.RecordFailure(c.boundary); }
      var d := DecideRetry(policy, c, tries, false);
      ghost var before := counts;
      counts := Counted(threshold, counts, e);
      if d.action.Escalate? || (breaker != null && breaker.IsOpen(c.boundary)) { return Reraised(e, attempt); }
      GoingOnIsWithin(policy, threshold, before, e, tries, m);
      tries, decisions := tries + 1, decisions + [d];
    }
  }

  lemma {:induction false} BoundOf(policy: Policy) returns (m: int)
    ensures AttemptsWithin(policy, m)
  {
    m := BoundExists(policy, policy.Keys);
  }

  // ---------- The tries, told from the outcomes ----------

  /** How many of the attempts n, ..., m - 1 threw a failure at `b`. */
  function FailedTries<T>(invoke: nat -> Try<T>, n: nat, m: nat, b: Boundary): nat
    decreases m - n
  {
    if n >= m then 0
    else
      var failed := invoke(n).Threw? && !Discipline(invoke(n).exception)
                    && ClassifyException(invoke(n).exception).boundary == b;
      (if failed then 1 else 0) + FailedTries(invoke, n + 1, m, b)
  }

  /** Attempt `start + j` threw something that the policy retries on try `j` + 1, and its boundary
      is still closed with the failures since attempt `start + i`. */
  ghost predicate Retried<T>(
      policy: Policy, threshold: Option<nat>, counts: Counts, invoke: nat -> Try<T>, start: nat, i: nat, j: nat)
  {
    && invoke(start + j).Threw?
    && var e := invoke(start + j).exception;
       var c := ClassifyException(e);
       && !Discipline(e)
       && DecideRetry(policy, c, j + 1, false).action.Retry?
       && (threshold.Some? ==>
             CountOf(counts, c.boundary) + FailedTries(invoke, start + i, start + j + 1, c.boundary) < threshold.value)
  }

  /** From attempt `start + i` on: the tries end at the first that is not to be retried, with its
      result or its own exception, and a success hands over the policy's decision on every try
      before it. */
  ghost predicate EndsAtTheFirst<T>(
      policy: Policy, threshold: Option<nat>, counts: Counts, invoke: nat -> Try<T>, start: nat, i: nat,
      decisions: seq<RetryDecision>, ending: WorkerEnding<T>)
  {
    var k := ending.attempt - start;
    && k >= i
    && (forall j: nat | i <= j < k :: Retried(policy, threshold, counts, invoke, start, i, j))
    && !Retried(policy, threshold, counts, invoke, start, i, k)
    && invoke(ending.attempt) == (if ending.Succeeded? then Finished(ending.result) else Threw(ending.exception))
    && (ending.Succeeded? ==>
          && |ending.decisions| == |decisions| + k - i && decisions <= ending.decisions
          && forall q: nat | |decisions| <= q < |ending.decisions| ::
               Decided(policy, invoke, start, i + q - |decisions|, ending.decisions[q]))
  }

  /** What the policy decided about attempt `start + j`, try `j` + 1. */
  ghost predicate Decided<T>(policy: Policy, invoke: nat -> Try<T>, start: nat, j: nat, d: RetryDecision) {
    && invoke(start + j).Threw?
    && d == DecideRetry(policy, ClassifyException(invoke(start + j).exception), j + 1, false)
  }

  /** The breaker, if there is one, has counted every failure at `b` since attempt `start + i`. */
  ghost predicate FailuresCounted<T>(
      threshold: Option<nat>, before: Counts, invoke: nat -> Try<T>, start: nat, i: nat, last: nat, after: Counts,
      b: Boundary)
  {
    CountOf(after, b)
    == CountOf(before, b) + if threshold.None? then 0 else FailedTries(invoke, start + i, last + 1, b)
  }

  lemma {:induction false} CountedOne(threshold: Option<nat>, counts: Counts, e: Exception, b: Boundary)
    ensures CountOf(Counted(threshold, counts, e), b)
            == CountOf(counts, b) + if threshold.Some? && ClassifyException(e).boundary == b then 1 else 0
  {
    hide ClassifyException;
  }

  lemma {:induction false} FailedTriesFirst<T>(invoke: nat -> Try<T>, n: nat, m: nat, b: Boundary)
    requires n < m
    ensures var failed := invoke(n).Threw? && !Discipline(invoke(n).exception)
                          && ClassifyException(invoke(n).exception).boundary == b;
            FailedTries(invoke, n, m, b) == (if failed then 1 else 0) + FailedTries(invoke, n + 1, m, b)
    ensures FailedTries(invoke, m, m, b) == 0
  {
    hide Discipline, ClassifyException;
  }

  lemma {:induction false} GoesOnIsRetried<T>(
      policy: Policy, threshold: Option<nat>, counts: Counts, invoke: nat -> Try<T>, start: nat, i: nat)
    ensures Retried(policy, threshold, counts, invoke, start, i, i)
            <==> && invoke(start + i).Threw?
                 && GoesOn(policy, threshold, counts, invoke(start + i).exception, i + 1)
  {
    hide Discipline, ClassifyException, DecideRetry, Counted, CountOf, FailedTries;
    if invoke(start + i).Threw? {
      var e := invoke(start + i).exception;
      CountedOne(threshold, counts, e, ClassifyException(e).boundary);
      FailedTriesFirst(invoke, start + i, start + i + 1, ClassifyException(e).boundary);
    }
  }

  /** Counting from the next attempt on, with this one's failure counted, comes to the same. */
  lemma {:induction false} RetriedLater<T>(
      policy: Policy, threshold: Option<nat>, counts: Counts, invoke: nat -> Try<T>, start: nat, i: nat, j: nat)
    requires i < j && invoke(start + i).Threw? && !Discipline(invoke(start + i).exception)
    ensures var now := Counted(threshold, counts, invoke(start + i).exception);
            Retried(policy, threshold, counts, invoke, start, i, j)
            <==> Retried(policy, threshold, now, invoke, start, i + 1, j)
  {
    hide Discipline, ClassifyException, DecideRetry, Counted, CountOf, FailedTries;
    if invoke(start + j).Threw? {
      assert start + i + 1 == start + (i + 1);
      var b := ClassifyException(invoke(start + j).exception).boundary;
      CountedOne(threshold, counts, invoke(start + i).exception, b);
      FailedTriesFirst(invoke, start + i, start + j + 1, b);
    }
  }

  lemma {:induction false} TriesStop<T>(
      policy: Policy, threshold: Option<nat>, counts: Counts, invoke: nat -> Try<T>, start: nat, i: nat,
      decisions: seq<RetryDecision>, m: int)
    requires AttemptsWithin(policy, m)
    requires invoke(start + i).Threw? ==> !GoesOn(policy, threshold, counts, invoke(start + i).exception, i + 1)
    ensures Tries(policy, threshold, invoke, start, i + 1, counts, decisions, m)
            == match invoke(start + i)
               case Finished(result) => (Succeeded(result, start + i, decisions), counts)
               case Threw(e) =>
                 (Reraised(e, start + i), if Discipline(e) then counts else Counted(threshold, counts, e))
  {
    hide Discipline, ClassifyException, DecideRetry, Counted, GoesOn, AttemptsWithin;
  }

  lemma {:induction false} TriesEndNow<T>(
      policy: Policy, threshold: Option<nat>, counts: Counts, invoke: nat -> Try<T>, start: nat, i: nat,
      decisions: seq<RetryDecision>, m: int, b: Boundary)
    requires AttemptsWithin(policy, m) && !Retried(policy, threshold, counts, invoke, start, i, i)
    ensures var (ending, after) := Tries(policy, threshold, invoke, start, i + 1, counts, decisions, m);
            && ending.attempt == start + i
            && EndsAtTheFirst(policy, threshold, counts, invoke, start, i, decisions, ending)
            && FailuresCounted(threshold, counts, invoke, start, i, start + i, after, b)
  {
    hide Discipline, ClassifyException, DecideRetry, Counted, CountOf, FailedTries, Retried, GoesOn, AttemptsWithin,
      Tries;
    GoesOnIsRetried(policy, threshold, counts, invoke, start, i);
    TriesStop(policy, threshold, counts, invoke, start, i, decisions, m);
    FailedTriesFirst(invoke, start + i, start + i + 1, b);
    if invoke(start + i).Threw? { CountedOne(threshold, counts, invoke(start + i).exception, b); }
  }

  lemma {:induction false} TriesGoOn<T>(
      policy: Policy, threshold: Option<nat>, counts: Counts, invoke: nat -> Try<T>, start: nat, i: nat,
      decisions: seq<RetryDecision>, m: int)
    requires AttemptsWithin(policy, m) && Retried(policy, threshold, counts, invoke, start, i, i)
    ensures var e := invoke(start + i).exception;
            var now := Counted(threshold, counts, e);
            && i + 1 < m && !Discipline(e)
            && (threshold.Some? ==> TotalRoom(now, threshold.value) == TotalRoom(counts, threshold.value) - 1)
            && Tries(policy, threshold, invoke, start, i + 1, counts, decisions, m)
               == Tries(policy, threshold, invoke, start, i + 2, now,
                        decisions + [DecideRetry(policy, ClassifyException(e), i + 1, false)], m)
  {
    hide Discipline, ClassifyException, DecideRetry, Counted, CountOf, FailedTries, Retried, TotalRoom, AttemptsWithin;
    GoesOnIsRetried(policy, threshold, counts, invoke, start, i);
    GoingOnIsWithin(policy, threshold, counts, invoke(start + i).exception, i + 1, m);
  }

  lemma {:induction false} EndsLater<T>(
      policy: Policy, threshold: Option<nat>, counts: Counts, invoke: nat -> Try<T>, start: nat, i: nat,
      decisions: seq<RetryDecision>, ending: WorkerEnding<T>)
    requires Retried(policy, threshold, counts, invoke, start, i, i) && invoke(start + i).Threw?
    requires var e := invoke(start + i).exception;
             EndsAtTheFirst(policy, threshold, Counted(threshold, counts, e), invoke, start, i + 1,
                            decisions + [DecideRetry(policy, ClassifyException(e), i + 1, false)], ending)
    ensures EndsAtTheFirst(policy, threshold, counts, invoke, start, i, decisions, ending)
  {
    hide ClassifyException, DecideRetry, Counted, Retried, Discipline;
    RetriedThrew(policy, threshold, counts, invoke, start, i);
    var e := invoke(start + i).exception;
    var all := decisions + [DecideRetry(policy, ClassifyException(e), i + 1, false)];
    forall j: nat | i < j
      ensures Retried(policy, threshold, counts, invoke, start, i, j)
              <==> Retried(policy, threshold, Counted(threshold, counts, e), invoke, start, i + 1, j)
    {
      RetriedLater(policy, threshold, counts, invoke, start, i, j);
    }
    if ending.Succeeded? {
      assert ending.decisions[|decisions|] == all[|decisions|] && decisions <= all;
      assert Decided(policy, invoke, start, i, ending.decisions[|decisions|]);
    }
  }

  lemma {:induction false} RetriedThrew<T>(
      policy: Policy, threshold: Option<nat>, counts: Counts, invoke: nat -> Try<T>, start: nat, i: nat)
    requires Retried(policy, threshold, counts, invoke, start, i, i)
    ensures invoke(start + i).Threw? && !Discipline(invoke(start + i).exception)
  {
  }

  lemma {:induction false} CountedLater<T>(
      threshold: Option<nat>, counts: Counts, invoke: nat -> Try<T>, start: nat, i: nat, last: nat, after: Counts,
      b: Boundary)
    requires invoke(start + i).Threw? && !Discipline(invoke(start + i).exception) && start + i < last
    requires FailuresCounted(threshold, Counted(threshold, counts, invoke(start + i).exception), invoke, start, i + 1,
                             last, after, b)
    ensures FailuresCounted(threshold, counts, invoke, start, i, last, after, b)
  {
    hide Discipline, ClassifyException, Counted, CountOf, FailedTries;
    CountedOne(threshold, counts, invoke(start + i).exception, b);
    FailedTriesFirst(invoke, start + i, last + 1, b);
  }

  lemma {:induction false} TriesFrom<T>(
      policy: Policy, threshold: Option<nat>, counts: Counts, invoke: nat -> Try<T>, start: nat,
      i: nat, decisions: seq<RetryDecision>, m: int, b: Boundary)
    requires AttemptsWithin(policy, m)
    ensures var (ending, after) := Tries(policy, threshold, invoke, start, i + 1, counts, decisions, m);
            var k := ending.attempt - start;
            && EndsAtTheFirst(policy, threshold, counts, invoke, start, i, decisions, ending)
            && FailuresCounted(threshold, counts, invoke, start, i, ending.attempt, after, b)
            && k >= i && (k == i || k < m) && (threshold.Some? ==> k - i <= TotalRoom(counts, threshold.value))
    decreases if i + 1 <= m then m - (i + 1) else 0
  {
    hide Tries, Retried, TotalRoom, AttemptsWithin, EndsAtTheFirst, FailuresCounted, Counted, DecideRetry, Discipline;
    if Retried(policy, threshold, counts, invoke, start, i, i) {
      RetriedThrew(policy, threshold, counts, invoke, start, i);
      TriesGoOn(policy, threshold, counts, invoke, start, i, decisions, m);
      var e := invoke(start + i).exception;
      var now := Counted(threshold, counts, e);
      var more := decisions + [DecideRetry(policy, ClassifyException(e), i + 1, false)];
      TriesFrom(policy, threshold, now, invoke, start, i + 1, more, m, b);
      var (ending, after) := Tries(policy, threshold, invoke, start, i + 2, now, more, m);
      EndsLater(policy, threshold, counts, invoke, start, i, decisions, ending);
      CountedLater(threshold, counts, invoke, start, i, ending.attempt, after, b);
    } else {
      TriesEndNow(policy, threshold, counts, invoke, start, i, decisions, m, b);
    }
  }

  /** The attempts are numbered start, start + 1, ... and end at the first that is not to be
      retried: its result, or its own exception again. They number at most the largest
      maximum of the table, or one, and with a breaker of threshold t at most 7 (t - 1) + 1;
      and the breaker has counted each of their failures. */
  lemma {:induction false} EveryTryHasItsOwnNumber<T>(
      policy: Policy, threshold: Option<nat>, counts: Counts, invoke: nat -> Try<T>, start: nat, m: int,
      b: Boundary)
    requires AttemptsWithin(policy, m) && (threshold.Some? ==> threshold.value >= 1)
    ensures var (ending, after) := Tries(policy, threshold, invoke, start, 1, counts, [], m);
            var k := ending.attempt - start;
            && EndsAtTheFirst(policy, threshold, counts, invoke, start, 0, [], ending)
            && FailuresCounted(threshold, counts, invoke, start, 0, ending.attempt, after, b)
            && k < (if m > 1 then m else 1)
            && (threshold.Some? ==> k <= 7 * (threshold.value - 1))
  {
    hide Tries, EndsAtTheFirst, FailuresCounted, TotalRoom;
    TriesFrom(policy, threshold, counts, invoke, start, 0, [], m, b);
    if threshold.Some? { RoomIsLimited(counts, threshold.value); }
  }
}
