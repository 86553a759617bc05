/** Fan-out under a concurrency bound and fan-in in graph order: workers run in any
    interleaving the bound allows, and what the orchestrator records does not depend on it
    (workflows/orchestrator.py). `work` gives each worker's result, which depends on the
    worker alone since each runs against its own adapter and trace; `record` is how one
    result enters the workflow state. */
module FanIn {
  import opened Sequences
  import opened Traces

  /** The log after the first `k` workers run one after the other in graph order. */
  function Sequential<L, R>(work: nat -> R, record: (L, R) -> L, empty: L, k: nat): L {
    if k == 0 then empty else record(Sequential(work, record, empty, k - 1), work(k - 1))
  }

  // ---------- The scheduler as a state machine ----------

  /** `started` workers have been started, in graph order, and of those the first
      `recorded` have been recorded; `done` holds the results of the finished ones. */
  datatype Fan<L, R> = Fan(started: nat, running: set<nat>, done: map<nat, R>, recorded: nat, log: L)

  datatype Step = Start | Finish(worker: nat) | RecordNext

  datatype Setting<!L, !R> = Setting(n: nat, bound: nat, work: nat -> R, record: (L, R) -> L, empty: L)

  function Begin<L, R>(c: Setting<L, R>): Fan<L, R> {
    Fan(0, {}, map[], 0, c.empty)
  }

  predicate Enabled<L, R>(c: Setting<L, R>, s: Fan<L, R>, step: Step) {
    match step
    case Start => s.started < c.n && |s.running| < c.bound
    case Finish(i) => i in s.running
    case RecordNext => s.recorded < c.n && s.recorded in s.done
  }

  function Take<L, R>(c: Setting<L, R>, s: Fan<L, R>, step: Step): Fan<L, R>
    requires Enabled(c, s, step)
  {
    match step
    case Start => s.(started := s.started + 1, running := s.running + {s.started})
    case Finish(i) => s.(running := s.running - {i}, done := s.done[i := c.work(i)])
    case RecordNext => s.(recorded := s.recorded + 1, log := c.record(s.log, s.done[s.recorded]))
  }

  ghost predicate IsMove<L, R>(c: Setting<L, R>, s: Fan<L, R>, step: Step, t: Fan<L, R>) {
    Enabled(c, s, step) && t == Take(c, s, step)
  }

  ghost predicate IsSchedule<L, R>(c: Setting<L, R>, states: seq<Fan<L, R>>, steps: seq<Step>) {
    |states| == |steps| + 1 && states[0] == Begin(c)
    && forall i :: 0 <= i < |steps| ==> IsMove(c, states[i], steps[i], states[i + 1])
  }

  // ---------- What every reachable state keeps ----------

  ghost predicate Begun<L, R>(s: Fan<L, R>, i: nat) {
    i in s.running || i in s.done
  }

  ghost predicate Kept<L, R>(c: Setting<L, R>, s: Fan<L, R>) {
    && s.recorded <= s.started <= c.n
    && |s.running| <= c.bound
    && s.running !! s.done.Keys
    && (forall i: nat :: Begun(s, i) <==> i < s.started)
    && (forall i: nat :: i in s.done ==> s.done[i] == c.work(i))
    && (forall i: nat :: i < s.recorded ==> i in s.done)
    && s.log == Sequential(c.work, c.record, c.empty, s.recorded)
  }

  /** Steps still to come. */
  function Remaining<L, R>(c: Setting<L, R>, s: Fan<L, R>): int {
    (c.n - s.started) + (c.n - |s.done|) + (c.n - s.recorded)
  }

  lemma {:induction false} StartKeeps<L, R>(c: Setting<L, R>, s: Fan<L, R>)
    requires Kept(c, s) && Enabled(c, s, Start)
    ensures Kept(c, Take(c, s, Start))
  {
    var t := Take(c, s, Start);
    assert !Begun(s, s.started);
    forall i: nat ensures Begun(t, i) <==> i < t.started {
      assert Begun(t, i) <==> Begun(s, i) || i == s.started;
    }
  }

  lemma {:induction false} FinishKeeps<L, R>(c: Setting<L, R>, s: Fan<L, R>, i: nat)
    requires Kept(c, s) && Enabled(c, s, Finish(i))
    ensures Kept(c, Take(c, s, Finish(i))) && |Take(c, s, Finish(i)).done| == |s.done| + 1
  {
    var t := Take(c, s, Finish(i));
    assert t.done.Keys == s.done.Keys + {i};
    SubsetCardinality(t.running, s.running);
    forall j: nat ensures Begun(t, j) <==> j < t.started {
      assert Begun(t, j) <==> Begun(s, j);
    }
  }

  lemma {:induction false} RecordKeeps<L, R>(c: Setting<L, R>, s: Fan<L, R>)
    requires Kept(c, s) && Enabled(c, s, RecordNext)
    ensures Kept(c, Take(c, s, RecordNext))
  {
    var t := Take(c, s, RecordNext);
    assert Begun(s, s.recorded);
    forall j: nat ensures Begun(t, j) <==> j < t.started {
      assert Begun(t, j) <==> Begun(s, j);
    }
  }

  lemma {:induction false} MoveKeeps<L, R>(c: Setting<L, R>, s: Fan<L, R>, step: Step)
    requires Kept(c, s) && Enabled(c, s, step)
    ensures Kept(c, Take(c, s, step))
    ensures Remaining(c, Take(c, s, step)) == Remaining(c, s) - 1
  {
    match step
    case Start => StartKeeps(c, s);
    case Finish(i) => FinishKeeps(c, s, i);
    case RecordNext => RecordKeeps(c, s);
  }

  lemma {:induction false} DoneAtMost<L, R>(c: Setting<L, R>, s: Fan<L, R>)
    requires Kept(c, s)
    ensures |s.done| <= s.started
    ensures s.recorded == c.n ==> |s.done| == c.n
  {
    forall i | i in s.done.Keys ensures i < s.started { assert Begun(s, i); }
    SubsetCardinality(s.done.Keys, Below(s.started));
    SubsetCardinality(Below(s.recorded), s.done.Keys);
  }

  lemma {:induction false} ReachableKeeps<L, R>(c: Setting<L, R>, states: seq<Fan<L, R>>, steps: seq<Step>, k: nat)
    requires IsSchedule(c, states, steps) && k <= |steps|
    ensures Kept(c, states[k]) && Remaining(c, states[k]) == 3 * c.n - k
  {
    if k > 0 {
      ReachableKeeps(c, states, steps, k - 1);
      assert IsMove(c, states[k - 1], steps[k - 1], states[k]);
      MoveKeeps(c, states[k - 1], steps[k - 1]);
    }
  }

  /** At every moment of every schedule at most `bound` workers run, and the log is that of
      the sequential graph-order run up to the workers recorded so far. */
  lemma {:induction false} FanInIsGraphOrdered<L, R>(c: Setting<L, R>, states: seq<Fan<L, R>>, steps: seq<Step>, k: nat)
    requires IsSchedule(c, states, steps) && k <= |steps|
    ensures |states[k].running| <= c.bound
    ensures states[k].log == Sequential(c.work, c.record, c.empty, states[k].recorded)
  {
    ReachableKeeps(c, states, steps, k);
  }

  /** Two complete schedules of the same workers, under any bounds, leave the same log, and
      each takes exactly three steps a worker. */
  lemma {:induction false} SchedulesAreConfluent<L, R>(
      c: Setting<L, R>, states: seq<Fan<L, R>>, steps: seq<Step>,
      bound: nat, states': seq<Fan<L, R>>, steps': seq<Step>)
    requires IsSchedule(c, states, steps) && IsSchedule(c.(bound := bound), states', steps')
    requires states[|steps|].recorded == c.n && states'[|steps'|].recorded == c.n
    ensures states[|steps|].log == states'[|steps'|].log == Sequential(c.work, c.record, c.empty, c.n)
    ensures |steps| == |steps'| == 3 * c.n
  {
    ReachableKeeps(c, states, steps, |steps|);
    ReachableKeeps(c.(bound := bound), states', steps', |steps'|);
    DoneAtMost(c, states[|steps|]);
    DoneAtMost(c.(bound := bound), states'[|steps'|]);
  }

  /** With room for one worker no schedule gets stuck before everything is recorded. */
  lemma {:induction false} NeverStuck<L, R>(c: Setting<L, R>, s: Fan<L, R>)
    requires Kept(c, s) && c.bound > 0 && s.recorded < c.n
    ensures s.running != {} || Enabled(c, s, Start) || Enabled(c, s, RecordNext)
  {
    if s.running == {} && s.started == c.n {
      assert Begun(s, s.recorded);
    }
  }

  /** With a bound of one the workers themselves run in graph order: each starts only once
      all earlier ones have finished. */
  lemma {:induction false} BoundOneRunsInOrder<L, R>(c: Setting<L, R>, states: seq<Fan<L, R>>, steps: seq<Step>, k: nat)
    requires c.bound == 1 && IsSchedule(c, states, steps) && k < |steps| && steps[k] == Start
    ensures forall i: nat :: i < states[k].started ==> i in states[k].done
  {
    ReachableKeeps(c, states, steps, k);
    assert IsMove(c, states[k], steps[k], states[k + 1]);
    forall i: nat | i < states[k].started ensures i in states[k].done {
      assert Begun(states[k], i);
    }
  }

  /** The scheduler may take any step that is enabled. */
  method Schedule<L, R>(c: Setting<L, R>, s: Fan<L, R>) returns (step: Step)
    requires Kept(c, s) && c.bound > 0 && s.recorded < c.n
    ensures Enabled(c, s, step)
  {
    NeverStuck(c, s);
    if
    case s.started < c.n && |s.running| < c.bound =>
      step := Start;
    case s.running != {} =>
      var i :| i in s.running;
      step := Finish(i);
    case s.recorded in s.done =>
      step := RecordNext;
  }

  /** The fan-out itself: whichever enabled step the scheduler takes, the log is the
      sequential one. */
  method FanOut<L, R>(c: Setting<L, R>) returns (log: L)
    requires c.bound > 0
    ensures log == Sequential(c.work, c.record, c.empty, c.n)
  {
    var s := Begin(c);
    while s.recorded < c.n
      invariant Kept(c, s)
      decreases Remaining(c, s)
    {
      var step := Schedule(c, s);
      DoneAtMost(c, s);
      MoveKeeps(c, s, step);
      s := Take(c, s, step);
    }
    log := s.log;
  }

  // ---------- What the orchestrator records ----------

  /** `emitted` is how many events the orchestrator writes while recording the result. */
  datatype WorkerResult = WorkerResult(runId: string, patch: string, cost: int, emitted: nat)

  /** The invocations, the patches, the cost folded into the budgets and the ids of the
      orchestrator's own events. */
  datatype Ledger = Ledger(invocations: seq<string>, patches: seq<string>, cost: int, events: seq<string>)

  /** The next `n` ids of a recorder that has given out `first`. */
  function Ids(first: nat, n: nat): (r: seq<string>)
    ensures |r| == n && forall i :: 0 <= i < n ==> r[i] == EngineId(first + i)
  {
    seq(n, i requires 0 <= i < n => EngineId(first + i))
  }

  function RecordResult(l: Ledger, r: WorkerResult): Ledger {
    Ledger(l.invocations + [r.runId], l.patches + [r.patch], l.cost + r.cost, l.events + Ids(|l.events|, r.emitted))
  }

  function TotalCost(work: nat -> WorkerResult, k: nat): int {
    if k == 0 then 0 else TotalCost(work, k - 1) + work(k - 1).cost
  }

  /** The events written for the first `k` workers. */
  function TotalEmitted(work: nat -> WorkerResult, k: nat): nat {
    if k == 0 then 0 else TotalEmitted(work, k - 1) + work(k - 1).emitted
  }

  ghost predicate EntryIs(l: Ledger, work: nat -> WorkerResult, k: nat) {
    var first, next := TotalEmitted(work, k), TotalEmitted(work, k + 1);
    && k < |l.invocations| && k < |l.patches| && next <= |l.events|
    && l.invocations[k] == work(k).runId && l.patches[k] == work(k).patch
    && l.events[first..next] == Ids(first, work(k).emitted)
  }

  /** What any complete fan-out leaves in the workflow state: entry k of the invocations and
      patches is worker k's, its events follow those of the workers before it, and the cost
      is the sum. */
  lemma {:induction false} LedgerIsGraphOrdered(work: nat -> WorkerResult, n: nat)
    ensures var l := Sequential(work, RecordResult, Ledger([], [], 0, []), n);
            && |l.invocations| == |l.patches| == n && |l.events| == TotalEmitted(work, n)
            && l.cost == TotalCost(work, n)
            && forall k: nat :: k < n ==> EntryIs(l, work, k)
  {
    hide Ids, RecordResult, Sequential;
    LedgerStep(work, n);
    if n > 0 {
      LedgerIsGraphOrdered(work, n - 1);
      var before := Sequential(work, RecordResult, Ledger([], [], 0, []), n - 1);
      var now := Sequential(work, RecordResult, Ledger([], [], 0, []), n);
      forall k: nat | k < n ensures EntryIs(now, work, k) {
        if k < n - 1 {
          assert EntryIs(before, work, k);
          EntryStays(before, now, work, k);
        }
      }
    }
  }

  lemma {:induction false} LedgerStep(work: nat -> WorkerResult, n: nat)
    ensures var now := Sequential(work, RecordResult, Ledger([], [], 0, []), n);
            if n == 0 then now == Ledger([], [], 0, [])
            else
              var before, r := Sequential(work, RecordResult, Ledger([], [], 0, []), n - 1), work(n - 1);
              && now.invocations == before.invocations + [r.runId] && now.patches == before.patches + [r.patch]
              && now.cost == before.cost + r.cost && now.events == before.events + Ids(|before.events|, r.emitted)
  {
    hide Ids;
  }

  lemma {:induction false} EntryStays(before: Ledger, now: Ledger, work: nat -> WorkerResult, k: nat)
    requires EntryIs(before, work, k)
    requires before.invocations <= now.invocations && before.patches <= now.patches && before.events <= now.events
    ensures EntryIs(now, work, k)
  {
    hide Ids;
    var first, next := TotalEmitted(work, k), TotalEmitted(work, k + 1);
    assert now.events[first..next] == before.events[first..next];
  }
}
