/** The multi-worker stage graph and its review/fix loop (workflows/orchestrator.py), which
    only the termination policy bounds (budgets/policy.py). */
module Orchestrator {
  import opened NoProgress
  import opened Sequences

  datatype Stage =
    | Intake | FanOut | Integrate | Validate | Review | Consolidate | Fix | PrepareResult
    | Completed | Failed | Cancelled | Escalated

  function Allowed(stage: Stage): set<Stage> {
    match stage
    case Intake => {FanOut, Cancelled}
    case FanOut => {Integrate, Failed, Escalated, Cancelled}
    case Integrate => {Validate, Failed, Escalated, Cancelled}
    case Validate => {Review, Failed, Cancelled}
    case Review => {Consolidate, Failed, Escalated, Cancelled}
    case Consolidate => {Fix, PrepareResult, Escalated, Cancelled}
    case Fix => {Validate, Failed, Escalated, Cancelled}
    case PrepareResult => {Completed, Failed, Cancelled}
    case _ => {}
  }

  predicate Terminal(stage: Stage) {
    stage in {Completed, Failed, Cancelled, Escalated}
  }

  // ---------- Termination policy ----------

  datatype TerminationPolicy = TerminationPolicy(
    maxReviewIterations: int,
    maxCostUsd: Option<int>,
    maxWorkers: Option<int>)

  datatype StopReason = IterationLimit | CostLimit | WorkerLimit | NoProgressLimit

  function DecideTermination(
      policy: TerminationPolicy, completed: int, cost: int, workers: int, noProgress: bool): Option<StopReason>
  {
    if completed >= policy.maxReviewIterations then Some(IterationLimit)
    else if policy.maxCostUsd.Some? && cost >= policy.maxCostUsd.value then Some(CostLimit)
    else if policy.maxWorkers.Some? && workers >= policy.maxWorkers.value then Some(WorkerLimit)
    else if noProgress then Some(NoProgressLimit)
    else None
  }

  // ---------- One stage ----------

  /** How the work of a stage ended, as its workers and the operator decide it. */
  datatype Ending = Done | Fails | Escalates | Cancels

  /** What a stage reports. At consolidation `findings` are the accepted findings' keys and
      `fingerprint` the integrated patch. */
  datatype Outcome = Outcome(
    ending: Ending,
    fingerprint: string,
    findings: seq<string>,
    conflicting: bool,
    cost: nat,
    workers: nat)

  /** The fields of the orchestrator the stage decisions depend on, and the limit that ended
      the loop if one did. */
  datatype Progress = Progress(
    stage: Stage,
    iteration: nat,
    previous: Option<LoopSnapshot>,
    cost: nat,
    workers: nat,
    limit: Option<StopReason>)

  const INITIAL := Progress(Intake, 0, None, 0, 0, None)

  /** Why a consolidation with accepted findings and without conflict goes no further. */
  function LimitReached(policy: TerminationPolicy, s: Progress, o: Outcome): Option<StopReason> {
    var repeated := DetectNoProgress(s.previous, LoopSnapshot(o.fingerprint, o.findings));
    DecideTermination(policy, s.iteration, s.cost + o.cost, s.workers + o.workers, repeated)
  }

  /** The stage a consolidation leads to. */
  function AfterConsolidation(policy: TerminationPolicy, s: Progress, o: Outcome): Stage {
    if o.conflicting then Escalated
    else if o.findings == [] then PrepareResult
    else if LimitReached(policy, s, o).Some? then Escalated
    else Fix
  }

  function Target(policy: TerminationPolicy, s: Progress, o: Outcome): Stage {
    match o.ending
    case Cancels => Cancelled
    case Fails => Failed
    case Escalates => Escalated
    case Done =>
      match s.stage
      case Intake => FanOut
      case FanOut => Integrate
      case Integrate => Validate
      case Validate => Review
      case Review => Consolidate
      case Consolidate => AfterConsolidation(policy, s, o)
      case Fix => Validate
      case PrepareResult => Completed
      case _ => s.stage
  }

  /** The state after one stage; None when the transition table refuses the target. A
      review round is counted when it starts. */
  function Next(policy: TerminationPolicy, s: Progress, o: Outcome): Option<Progress> {
    var target := Target(policy, s, o);
    if target !in Allowed(s.stage) then None
    else
      Some(Progress(
             target,
             if target == Review then s.iteration + 1 else s.iteration,
             if s.stage == Consolidate then Some(LoopSnapshot(o.fingerprint, o.findings)) else s.previous,
             s.cost + o.cost,
             s.workers + o.workers,
             if s.stage == Consolidate && o.ending.Done? && !o.conflicting && o.findings != []
             then LimitReached(policy, s, o) else None))
  }

  // ---------- Runs ----------

  ghost predicate IsStep(policy: TerminationPolicy, tr: seq<Progress>, os: seq<Outcome>, i: nat)
    requires |os| + 1 == |tr| && i < |os|
  {
    Next(policy, tr[i], os[i]) == Some(tr[i + 1])
  }

  /** `tr` lists the states of a run and `os` what each of its stages reported. */
  ghost predicate IsRun(policy: TerminationPolicy, tr: seq<Progress>, os: seq<Outcome>) {
    |os| + 1 == |tr| && tr[0] == INITIAL && forall i :: 0 <= i < |os| ==> IsStep(policy, tr, os, i)
  }

  lemma {:induction false} RunGrows(policy: TerminationPolicy, tr: seq<Progress>, os: seq<Outcome>, o: Outcome)
    requires IsRun(policy, tr, os) && Next(policy, tr[|tr| - 1], o).Some?
    ensures IsRun(policy, tr + [Next(policy, tr[|tr| - 1], o).value], os + [o])
  {
    var tr', os' := tr + [Next(policy, tr[|tr| - 1], o).value], os + [o];
    forall i | 0 <= i < |os'| ensures IsStep(policy, tr', os', i) {
      if i < |os| { assert IsStep(policy, tr, os, i); }
    }
  }

  class MultiWorkerOrchestrator {
    const policy: TerminationPolicy
    var state: Progress
    ghost var states: seq<Progress>
    ghost var reports: seq<Outcome>

    ghost predicate Valid()
      reads this
    {
      IsRun(policy, states, reports) && states[|states| - 1] == state
    }

    constructor (policy: TerminationPolicy)
      ensures Valid() && this.policy == policy && state == INITIAL
    {
      this.policy := policy;
      state := INITIAL;
      states, reports := [INITIAL], [];
    }

    /** The transition table refuses where this outcome leads. */
    ghost predicate Refused(o: Outcome)
      reads this
    {
      Target(policy, state, o) !in Allowed(state.stage)
    }

    /** Drives the workflow to a terminal stage. `outcomes` says how each stage in turn
        ends; `raised` tells that the workflow was over already or that a stage ended as
        the table does not allow. */
    method Run(outcomes: nat -> Outcome) returns (raised: bool)
      requires Valid()
      modifies this
      ensures Valid() && old(states) <= states && old(reports) <= reports
      ensures forall i :: |old(reports)| <= i < |reports| ==> reports[i] == outcomes(i - |old(reports)|)
      ensures if raised then Terminal(old(state.stage)) || Refused(outcomes(|reports| - |old(reports)|))
              else Terminal(state.stage)
      ensures Terminal(old(state.stage)) ==> raised && state == old(state)
      ensures |reports| <= 4 * Rounds(policy) + 3
    {
      hide IsStep, AfterConsolidation, LimitReached;
      RunIsBounded(policy, states, reports);
      if Terminal(state.stage) { return true; }
      var step := 0;
      while !Terminal(state.stage)
        invariant Valid() && old(states) <= states && old(reports) <= reports && |reports| <= 4 * Rounds(policy) + 3
        invariant |reports| == |old(reports)| + step
        invariant forall i :: |old(reports)| <= i < |reports| ==> reports[i] == outcomes(i - |old(reports)|)
        decreases Left(policy, state), !Terminal(state.stage)
      {
        var o := outcomes(step);
        RunKeepsRounds(policy, states, reports, |reports|);
        if Target(policy, state, o) !in Allowed(state.stage) { return true; }
        StepCostsOne(policy, state, o);
        RunGrows(policy, states, reports, o);
        state := Next(policy, state, o).value;
        states, reports := states + [state], reports + [o];
        RunIsBounded(policy, states, reports);
        step := step + 1;
      }
      return false;
    }

    /** A human cancellation, refused on a workflow that is over. */
    method Cancel() returns (refused: bool)
      requires Valid()
      modifies this
      ensures Valid() && refused == Terminal(old(state.stage))
      ensures state.stage == if refused then old(state.stage) else Cancelled
    {
      if Terminal(state.stage) { return true; }
      var o := Outcome(Cancels, "", [], false, 0, 0);
      RunGrows(policy, states, reports, o);
      state := Next(policy, state, o).value;
      states, reports := states + [state], reports + [o];
      return false;
    }
  }

  // ---------- The loop is bounded ----------

  function Rounds(policy: TerminationPolicy): nat {
    if policy.maxReviewIterations < 1 then 1 else policy.maxReviewIterations
  }

  /** How many transitions may still follow: the stage's rank within a round plus four for
      each review round left. */
  function Left(policy: TerminationPolicy, s: Progress): int {
    var rest := 4 * (Rounds(policy) - s.iteration);
    match s.stage
    case Intake => rest + 3
    case FanOut => rest + 2
    case Integrate => rest + 1
    case Validate => rest
    case Review => rest + 3
    case Consolidate => rest + 2
    case Fix => rest + 1
    case PrepareResult => 1
    case _ => 0
  }

  /** How many rounds a stage may have counted. */
  ghost predicate RoundsKept(policy: TerminationPolicy, s: Progress) {
    match s.stage
    case Intake => s.iteration == 0
    case FanOut => s.iteration == 0
    case Integrate => s.iteration == 0
    case Validate => s.iteration < Rounds(policy)
    case Fix => s.iteration < Rounds(policy)
    case Review => 1 <= s.iteration <= Rounds(policy)
    case Consolidate => 1 <= s.iteration <= Rounds(policy)
    case _ => s.iteration <= Rounds(policy)
  }

  lemma {:induction false} StepCostsOne(policy: TerminationPolicy, s: Progress, o: Outcome)
    requires RoundsKept(policy, s) && Next(policy, s, o).Some?
    ensures var t := Next(policy, s, o).value;
            RoundsKept(policy, t) && 0 <= Left(policy, t) < Left(policy, s)
  {
  }

  lemma {:induction false} RunKeepsRounds(policy: TerminationPolicy, tr: seq<Progress>, os: seq<Outcome>, n: nat)
    requires IsRun(policy, tr, os) && n < |tr|
    ensures RoundsKept(policy, tr[n]) && 0 <= Left(policy, tr[n]) <= Left(policy, INITIAL) - n
  {
    if n > 0 {
      RunKeepsRounds(policy, tr, os, n - 1);
      assert IsStep(policy, tr, os, n - 1);
      StepCostsOne(policy, tr[n - 1], os[n - 1]);
    }
  }

  /** Every run takes at most 4 * max(1, max_review_iterations) + 3 transitions and reviews
      at most max(1, max_review_iterations) times. */
  lemma {:induction false} RunIsBounded(policy: TerminationPolicy, tr: seq<Progress>, os: seq<Outcome>)
    requires IsRun(policy, tr, os)
    ensures |os| <= 4 * Rounds(policy) + 3
    ensures tr[|tr| - 1].iteration <= Rounds(policy)
  {
    RunKeepsRounds(policy, tr, os, |os|);
  }

  /** Each round finds something new until the last one finds nothing. */
  function NewFinding(policy: TerminationPolicy, s: Progress): Outcome {
    Outcome(Done, seq(s.iteration, _ => 'x'), if s.iteration < Rounds(policy) then ["k"] else [], false, 0, 0)
  }

  ghost predicate OnCourse(policy: TerminationPolicy, s: Progress) {
    && RoundsKept(policy, s) && (Terminal(s.stage) ==> s.stage == Completed)
    && (s.previous.Some? ==>
          || s.stage in {PrepareResult, Completed}
          || |s.previous.value.patchFingerprint|
             == s.iteration - if s.stage in {Review, Consolidate} then 1 else 0)
  }

  lemma {:induction false} CourseGoesOn(policy: TerminationPolicy, s: Progress)
    requires policy.maxCostUsd.None? && policy.maxWorkers.None? && OnCourse(policy, s) && s.stage != Completed
    ensures Next(policy, s, NewFinding(policy, s)).Some?
    ensures var t := Next(policy, s, NewFinding(policy, s)).value;
            OnCourse(policy, t) && Left(policy, t) == Left(policy, s) - 1
  {
  }

  /** No shorter bound holds: without cost and worker limits a run takes all of them. */
  lemma {:induction false} BoundIsReached(policy: TerminationPolicy) returns (tr: seq<Progress>, os: seq<Outcome>)
    requires policy.maxCostUsd.None? && policy.maxWorkers.None?
    ensures IsRun(policy, tr, os) && |os| == 4 * Rounds(policy) + 3
    ensures tr[|tr| - 1].stage == Completed
  {
    hide IsStep, Next, NewFinding, Rounds;
    tr, os := [INITIAL], [];
    var s := INITIAL;
    while s.stage != Completed
      invariant IsRun(policy, tr, os) && s == tr[|tr| - 1]
      invariant OnCourse(policy, s) && |os| + Left(policy, s) == 4 * Rounds(policy) + 3
      decreases Left(policy, s)
    {
      var o := NewFinding(policy, s);
      CourseGoesOn(policy, s);
      RunGrows(policy, tr, os, o);
      s := Next(policy, s, o).value;
      tr, os := tr + [s], os + [o];
    }
  }

  // ---------- Where each stage leads ----------

  /** The table refuses a step exactly when the workflow is over, or fails where nothing can
      fail, or escalates where nobody escalates. */
  lemma {:induction false} RefusedIff(policy: TerminationPolicy, s: Progress, o: Outcome)
    ensures Next(policy, s, o).None?
            <==> || s.stage in {Completed, Failed, Cancelled, Escalated}
                 || (o.ending == Fails && s.stage in {Intake, Consolidate})
                 || (o.ending == Escalates && s.stage in {Intake, Validate, PrepareResult})
  {
    hide LimitReached;
  }

  /** The stages in the order of a run that needs no fix. */
  const HAPPY_PATH := [Intake, FanOut, Integrate, Validate, Review, Consolidate, PrepareResult, Completed]

  /** What a step does to the state: the happy path one stage further, a fix back to validation,
      a bad ending to its terminal stage; costs and workers add up, and entering a review counts. */
  lemma {:induction false} StepExact(policy: TerminationPolicy, s: Progress, o: Outcome)
    requires Next(policy, s, o).Some?
    ensures var t := Next(policy, s, o).value;
            && (o.ending == Cancels ==> t.stage == Cancelled)
            && (o.ending == Fails ==> t.stage == Failed)
            && (o.ending == Escalates ==> t.stage == Escalated)
            && (o.ending == Done && s.stage == Fix ==> t.stage == Validate)
            && (o.ending == Done && s.stage !in {Fix, Consolidate} ==>
                  exists k :: 0 <= k < 7 && s.stage == HAPPY_PATH[k] && t.stage == HAPPY_PATH[k + 1])
            && t.cost == s.cost + o.cost && t.workers == s.workers + o.workers
            && t.iteration == s.iteration + (if t.stage == Review then 1 else 0)
            && t.previous
               == (if s.stage == Consolidate then Some(LoopSnapshot(o.fingerprint, o.findings)) else s.previous)
  {
    hide LimitReached;
    if o.ending == Done && s.stage !in {Fix, Consolidate} {
      var k := match s.stage
        case Intake => 0
        case FanOut => 1
        case Integrate => 2
        case Validate => 3
        case Review => 4
        case _ => 6;
      assert s.stage == HAPPY_PATH[k] && Next(policy, s, o).value.stage == HAPPY_PATH[k + 1];
    }
  }

  /** What the loop had seen and spent when it came to a decision. */
  datatype Tally = Tally(reviews: nat, cost: nat, workers: nat, repeated: bool)

  /** A consolidation asks for a fix exactly when something is left to fix, nothing conflicts, and
      every limit that is set leaves room for another round. It prepares the result exactly when
      it accepts nothing and nothing conflicts; the rest is handed to a human. Of the limits, the
      first one reached is the reason: rounds, cost, workers, no progress. */
  ghost predicate DecidesAsPromised(policy: TerminationPolicy, o: Outcome, seen: Tally, t: Progress) {
    var more := o.findings != [] && !o.conflicting;
    var rounds := seen.reviews < policy.maxReviewIterations;
    var cost := policy.maxCostUsd.Some? ==> seen.cost < policy.maxCostUsd.value;
    var workers := policy.maxWorkers.Some? ==> seen.workers < policy.maxWorkers.value;
    && (t.stage == Fix <==> more && rounds && cost && workers && !seen.repeated)
    && (t.stage == PrepareResult <==> o.findings == [] && !o.conflicting)
    && (t.stage == Escalated <==> t.stage !in {Fix, PrepareResult})
    && (t.limit == Some(IterationLimit) <==> more && !rounds)
    && (t.limit == Some(CostLimit) <==> more && rounds && !cost)
    && (t.limit == Some(WorkerLimit) <==> more && rounds && cost && !workers)
    && (t.limit == Some(NoProgressLimit) <==> more && rounds && cost && workers && seen.repeated)
  }

  lemma {:induction false} ConsolidationDecides(policy: TerminationPolicy, s: Progress, o: Outcome)
    requires s.stage == Consolidate && o.ending == Done
    ensures Next(policy, s, o).Some?
    ensures var repeated := s.previous == Some(LoopSnapshot(o.fingerprint, o.findings));
            DecidesAsPromised(
              policy, o, Tally(s.iteration, s.cost + o.cost, s.workers + o.workers, repeated),
              Next(policy, s, o).value)
  {
  }

  // ---------- What the loop decides over a run ----------

  function Reviews(tr: seq<Progress>): nat {
    if tr == [] then 0 else Reviews(tr[..|tr| - 1]) + if tr[|tr| - 1].stage == Review then 1 else 0
  }

  function Spent(os: seq<Outcome>): nat {
    if os == [] then 0 else Spent(os[..|os| - 1]) + os[|os| - 1].cost
  }

  function Hired(os: seq<Outcome>): nat {
    if os == [] then 0 else Hired(os[..|os| - 1]) + os[|os| - 1].workers
  }

  /** Stage `j` of the run is the last consolidation before stage `i`. */
  ghost predicate LastConsolidation(tr: seq<Progress>, j: nat, i: nat)
    requires i <= |tr|
  {
    j < i && tr[j].stage == Consolidate && forall k :: j < k < i ==> tr[k].stage != Consolidate
  }

  /** The last consolidation before stage `i` saw the same patch and the same findings. */
  ghost predicate SameAsLast(tr: seq<Progress>, os: seq<Outcome>, i: nat)
    requires i < |os| < |tr|
  {
    exists j: nat :: LastConsolidation(tr, j, i)
                     && os[j].fingerprint == os[i].fingerprint && os[j].findings == os[i].findings
  }

  /** The state keeps the books: rounds begun, and costs and workers so far. */
  lemma {:induction false} RunKeepsBooks(policy: TerminationPolicy, tr: seq<Progress>, os: seq<Outcome>, n: nat)
    requires IsRun(policy, tr, os) && n < |tr|
    ensures tr[n].iteration == Reviews(tr[..n + 1])
    ensures tr[n].cost == Spent(os[..n]) && tr[n].workers == Hired(os[..n])
  {
    hide Next;
    if n == 0 {
      assert tr[..1] == [INITIAL] && tr[..1][..0] == [] && os[..0] == [];
    } else {
      RunKeepsBooks(policy, tr, os, n - 1);
      assert IsStep(policy, tr, os, n - 1);
      StepExact(policy, tr[n - 1], os[n - 1]);
      assert tr[..n + 1][..n] == tr[..n] && os[..n][..n - 1] == os[..n - 1];
    }
  }

  /** The state remembers the snapshot of the last consolidation. */
  lemma {:induction false} RunRemembers(policy: TerminationPolicy, tr: seq<Progress>, os: seq<Outcome>, n: nat)
    requires IsRun(policy, tr, os) && n < |tr|
    ensures tr[n].previous.None? <==> forall j :: 0 <= j < n ==> tr[j].stage != Consolidate
    ensures tr[n].previous.Some? ==>
              exists j: nat :: LastConsolidation(tr, j, n)
                               && tr[n].previous.value == LoopSnapshot(os[j].fingerprint, os[j].findings)
  {
    hide Next;
    if n > 0 {
      var i := n - 1;
      RunRemembers(policy, tr, os, i);
      assert IsStep(policy, tr, os, i);
      StepExact(policy, tr[i], os[i]);
      if tr[i].stage == Consolidate {
        assert LastConsolidation(tr, i, n);
      } else if tr[i].previous.Some? {
        var j: nat :| LastConsolidation(tr, j, i)
                      && tr[i].previous.value == LoopSnapshot(os[j].fingerprint, os[j].findings);
        assert LastConsolidation(tr, j, n);
      }
    }
  }

  /** In every run, each consolidation decides by what the run has shown: the reviews begun, the
      costs and workers reported so far, and whether the last consolidation saw the same. */
  lemma {:induction false} RunDecides(policy: TerminationPolicy, tr: seq<Progress>, os: seq<Outcome>, i: nat)
    requires IsRun(policy, tr, os) && i < |os| && tr[i].stage == Consolidate && os[i].ending == Done
    ensures DecidesAsPromised(
              policy, os[i],
              Tally(Reviews(tr[..i + 1]), Spent(os[..i + 1]), Hired(os[..i + 1]), SameAsLast(tr, os, i)), tr[i + 1])
  {
    hide Next, DecidesAsPromised;
    RunKeepsBooks(policy, tr, os, i);
    RunRemembers(policy, tr, os, i);
    assert IsStep(policy, tr, os, i);
    ConsolidationDecides(policy, tr[i], os[i]);
    assert os[..i + 1][..i] == os[..i];
    var repeated := tr[i].previous == Some(LoopSnapshot(os[i].fingerprint, os[i].findings));
    if SameAsLast(tr, os, i) {
      var j: nat :| LastConsolidation(tr, j, i)
                    && os[j].fingerprint == os[i].fingerprint && os[j].findings == os[i].findings;
      var k: nat :| LastConsolidation(tr, k, i)
                    && tr[i].previous.value == LoopSnapshot(os[k].fingerprint, os[k].findings);
      assert k == j;
    }
  }

  // ---------- Nothing completes unreviewed ----------

  lemma {:induction false} OnlyFrom(policy: TerminationPolicy, tr: seq<Progress>, os: seq<Outcome>, j: nat)
    requires IsRun(policy, tr, os) && 0 < j < |tr|
    ensures tr[j].stage in Allowed(tr[j - 1].stage)
    ensures tr[j].stage == PrepareResult ==> os[j - 1].findings == [] && !os[j - 1].conflicting
  {
    assert IsStep(policy, tr, os, j - 1);
  }

  /** A completed run ended Validate, Review, Consolidate, PrepareResult, Completed, the
      last consolidation accepting nothing, and any Fix came before that Validate. */
  lemma {:induction false} CompletionFollowsCleanReview(
      policy: TerminationPolicy, tr: seq<Progress>, os: seq<Outcome>, i: nat, j: nat)
    requires IsRun(policy, tr, os) && i < j < |tr|
    requires tr[i].stage == Fix && tr[j].stage == Completed
    ensures i < j - 4
    ensures tr[j - 4].stage == Validate && tr[j - 3].stage == Review && tr[j - 2].stage == Consolidate
    ensures os[j - 2].findings == [] && !os[j - 2].conflicting
  {
    CompletionIsReviewed(policy, tr, os, j);
    assert i != j - 1 && i != j - 2 && i != j - 3 && i != j - 4;
  }

  lemma {:induction false} CompletionIsReviewed(policy: TerminationPolicy, tr: seq<Progress>, os: seq<Outcome>, j: nat)
    requires IsRun(policy, tr, os) && j < |tr| && tr[j].stage == Completed
    ensures j >= 7
    ensures tr[j - 4].stage == Validate && tr[j - 3].stage == Review && tr[j - 2].stage == Consolidate
    ensures tr[j - 1].stage == PrepareResult && os[j - 2].findings == [] && !os[j - 2].conflicting
  {
    hide Next;
    OnlyFrom(policy, tr, os, j);
    OnlyFrom(policy, tr, os, j - 1);
    OnlyFrom(policy, tr, os, j - 2);
    OnlyFrom(policy, tr, os, j - 3);
    OnlyFrom(policy, tr, os, j - 4);
    OnlyFrom(policy, tr, os, j - 5);
    if tr[j - 5].stage == Fix {
      OnlyFrom(policy, tr, os, j - 6);
    }
    OnlyFrom(policy, tr, os, j - 6);
  }
}
