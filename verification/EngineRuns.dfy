/** The workflow engine's runs: what a stage reads from the results of earlier ones, what is
    persisted at its boundary, and what a resumed engine gets back (workflows/engine.py). */
module EngineRuns {
  import opened Engine
  import opened Sequences
  import W = WorkflowStates

  /** The in-memory stage results: the investigation's answer, the plan, the write result. */
  datatype Slot = InvestigationAnswer | PlanResult | WriteResult

  type Memory = map<Slot, string>

  function Only(m: Memory, slots: set<Slot>): Memory {
    map k | k in m && k in slots :: m[k]
  }

  /** Which results each stage reads and which it produces, and which results are persisted
      as artifacts. */
  datatype Design = Design(inputs: Stage -> set<Slot>, outputs: Stage -> set<Slot>, kept: set<Slot>)

  /** Where a stage leads and what it works out. */
  datatype Outcome = Outcome(target: Stage, produced: Memory)

  /** What a stage does with the results it reads; models, gates and checks are in here. The
      table is loop-free, so no stage is asked twice. */
  type Work = (Stage, Memory) -> Outcome

  datatype WorkflowError =
    | UnknownWorkflow
    | SchemaRefused
    | AlreadyTerminal
    | OtherTask
    | RevisionMoved
    | MissingArtifact
    | InvalidTransition(current: Stage, target: Stage)

  /** What a finished stage leaves for good: what it was given, where it led, and the
      artifacts the snapshot at its boundary refers to. */
  datatype Boundary = Boundary(stage: Stage, seen: Memory, target: Stage, artifacts: Memory)

  /** An engine between two stages: what it holds in memory and what is in the store. */
  datatype Here = Here(stage: Stage, memory: Memory, artifacts: Memory)

  datatype Driven = Driven(boundaries: seq<Boundary>, end: Here, error: Option<WorkflowError>)

  const FRESH := Here(Intake, map[], map[])

  function Seen(d: Design, h: Here): Memory {
    Only(h.memory, d.inputs(h.stage))
  }

  function Target(d: Design, work: Work, h: Here): Stage {
    work(h.stage, Seen(d, h)).target
  }

  function Produced(d: Design, work: Work, h: Here): Memory {
    Only(work(h.stage, Seen(d, h)).produced, d.outputs(h.stage))
  }

  /** Past the stage's boundary. */
  function Advance(d: Design, work: Work, h: Here): Here {
    Here(Target(d, work, h), h.memory + Produced(d, work, h), h.artifacts + Only(Produced(d, work, h), d.kept))
  }

  function Crossed(d: Design, work: Work, h: Here): Boundary {
    Boundary(h.stage, Seen(d, h), Target(d, work, h), Advance(d, work, h).artifacts)
  }

  function Drive(d: Design, work: Work, h: Here, stopAfter: Option<Stage>): Driven
    decreases 7 - Rank(h.stage)
  {
    if h.stage in TERMINAL_STAGES then Driven([], h, None)
    else if !Allowed(h.stage, Target(d, work, h)) then
      Driven([], h, Some(InvalidTransition(h.stage, Target(d, work, h))))
    else if stopAfter == Some(h.stage) then Driven([Crossed(d, work, h)], Advance(d, work, h), None)
    else
      var rest := Drive(d, work, Advance(d, work, h), stopAfter);
      Driven([Crossed(d, work, h)] + rest.boundaries, rest.end, rest.error)
  }

  lemma {:induction false} DriveStep(d: Design, work: Work, h: Here, stopAfter: Option<Stage>)
    ensures Drive(d, work, h, stopAfter)
            == if h.stage in TERMINAL_STAGES then Driven([], h, None)
               else if !Allowed(h.stage, Target(d, work, h)) then
                 Driven([], h, Some(InvalidTransition(h.stage, Target(d, work, h))))
               else if stopAfter == Some(h.stage) then Driven([Crossed(d, work, h)], Advance(d, work, h), None)
               else
                 var rest := Drive(d, work, Advance(d, work, h), stopAfter);
                 Driven([Crossed(d, work, h)] + rest.boundaries, rest.end, rest.error)
  {
  }

  lemma {:induction false} AdvanceMovesOn(d: Design, work: Work, h: Here)
    requires Allowed(h.stage, Target(d, work, h))
    ensures h.stage !in TERMINAL_STAGES
    ensures Rank(h.stage) < Rank(Advance(d, work, h).stage) <= 7
  {
    RankGrows(h.stage, Target(d, work, h));
    RankGrows(Target(d, work, h), h.stage);
  }

  // ---------- Runs walk the table ----------

  function Stages(start: Stage, boundaries: seq<Boundary>): (r: seq<Stage>)
    ensures |r| == |boundaries| + 1 && r[0] == start
    ensures forall i :: 0 <= i < |boundaries| ==> r[i + 1] == boundaries[i].target
  {
    [start] + seq(|boundaries|, i requires 0 <= i < |boundaries| => boundaries[i].target)
  }

  /** The boundaries follow a path of the table from `start` to `end`, each one crossed at the
      stage the path was at. */
  ghost predicate Walks(start: Stage, boundaries: seq<Boundary>, end: Stage) {
    var path := Stages(start, boundaries);
    && IsPath(path) && path[|boundaries|] == end
    && forall i :: 0 <= i < |boundaries| ==> boundaries[i].stage == path[i]
  }

  lemma {:induction false} WalksOn(b: Boundary, boundaries: seq<Boundary>, end: Stage)
    requires Allowed(b.stage, b.target) && Walks(b.target, boundaries, end)
    ensures Walks(b.stage, [b] + boundaries, end)
  {
    hide Allowed, Stages;
    var all := [b] + boundaries;
    var path, later := Stages(b.stage, all), Stages(b.target, boundaries);
    forall i | 0 <= i < |all| ensures path[i + 1] == later[i] {
      assert path[i + 1] == all[i].target;
      if i > 0 { assert all[i] == boundaries[i - 1] && later[i - 1 + 1] == boundaries[i - 1].target; }
    }
    forall i | 0 <= i < |all| ensures all[i].stage == path[i] && Allowed(path[i], path[i + 1]) {
      if i > 0 { assert all[i] == boundaries[i - 1] && path[i] == later[i - 1]; }
    }
  }

  /** A run walks a path of the table and, without an error, ends at a terminal stage. */
  lemma {:induction false} DriveWalksTheTable(d: Design, work: Work, h: Here)
    ensures var run := Drive(d, work, h, None);
            && Walks(h.stage, run.boundaries, run.end.stage)
            && (run.error.None? ==> run.end.stage in TERMINAL_STAGES)
    decreases 7 - Rank(h.stage)
  {
    hide Drive, Advance, Rank, Target, Allowed, Crossed, Walks;
    DriveStep(d, work, h, None);
    if h.stage !in TERMINAL_STAGES && Allowed(h.stage, Target(d, work, h)) {
      AdvanceMovesOn(d, work, h);
      AdvanceTarget(d, work, h);
      DriveWalksTheTable(d, work, Advance(d, work, h));
      var rest := Drive(d, work, Advance(d, work, h), None);
      WalksOn(Crossed(d, work, h), rest.boundaries, rest.end.stage);
    } else {
      assert Walks(h.stage, [], h.stage) by { WalksNowhere(h.stage); }
    }
  }

  lemma {:induction false} WalksNowhere(s: Stage)
    ensures Walks(s, [], s)
  {
  }

  lemma {:induction false} AdvanceTarget(d: Design, work: Work, h: Here)
    ensures Advance(d, work, h).stage == Target(d, work, h) == Crossed(d, work, h).target
    ensures Crossed(d, work, h).stage == h.stage
  {
  }

  // ---------- What a stage is given ----------

  /** What the stage finished at `b` had to say about `x`. */
  function Said(d: Design, work: Work, b: Boundary, x: Slot): Option<string> {
    var produced := work(b.stage, b.seen).produced;
    if x in d.outputs(b.stage) && x in produced then Some(produced[x]) else None
  }

  /** What was last said about `x` up to the first `n` boundaries, or before them. */
  function LastSaid(d: Design, work: Work, before: Memory, bs: seq<Boundary>, n: nat, x: Slot): Option<string>
    requires n <= |bs|
  {
    if n == 0 then (if x in before then Some(before[x]) else None)
    else if Said(d, work, bs[n - 1], x).Some? then Said(d, work, bs[n - 1], x)
    else LastSaid(d, work, before, bs, n - 1, x)
  }

  function Holds(m: Memory, x: Slot): Option<string> {
    if x in m then Some(m[x]) else None
  }

  /** Boundary `i` and the result `x`: the stage was given it, if it is one of its inputs, as it
      was last produced, and the store holds the last of it, if it is persisted. */
  ghost predicate CrossesWith(d: Design, work: Work, h: Here, bs: seq<Boundary>, i: nat, x: Slot)
    requires i < |bs|
  {
    && Holds(bs[i].seen, x) == (if x in d.inputs(bs[i].stage) then LastSaid(d, work, h.memory, bs, i, x) else None)
    && Holds(bs[i].artifacts, x)
       == (if x in d.kept then LastSaid(d, work, h.artifacts, bs, i + 1, x) else Holds(h.artifacts, x))
  }

  /** Boundary `i` of the run is as the workflow promises, and leads where the stage said. */
  ghost predicate Crosses(d: Design, work: Work, h: Here, bs: seq<Boundary>, i: nat)
    requires i < |bs|
  {
    bs[i].target == work(bs[i].stage, bs[i].seen).target && forall x :: CrossesWith(d, work, h, bs, i, x)
  }

  lemma {:induction false} FirstCrosses(d: Design, work: Work, h: Here, rest: seq<Boundary>)
    ensures Crosses(d, work, h, [Crossed(d, work, h)] + rest, 0)
  {
    var bs := [Crossed(d, work, h)] + rest;
    forall x ensures CrossesWith(d, work, h, bs, 0, x) {
      assert LastSaid(d, work, h.artifacts, bs, 0, x) == Holds(h.artifacts, x);
      assert LastSaid(d, work, h.artifacts, bs, 1, x)
             == if Said(d, work, bs[0], x).Some? then Said(d, work, bs[0], x) else Holds(h.artifacts, x);
    }
  }

  /** What the first stage said is what the others start from. */
  lemma {:induction false} LastSaidFrom(
      d: Design, work: Work, before: Memory, now: Memory, b: Boundary, rest: seq<Boundary>, n: nat, x: Slot)
    requires n <= |rest|
    requires Holds(now, x) == if Said(d, work, b, x).Some? then Said(d, work, b, x) else Holds(before, x)
    ensures LastSaid(d, work, before, [b] + rest, n + 1, x) == LastSaid(d, work, now, rest, n, x)
  {
    hide Said;
    if n > 0 {
      LastSaidFrom(d, work, before, now, b, rest, n - 1, x);
    } else {
      assert LastSaid(d, work, before, [b] + rest, 0, x) == Holds(before, x);
    }
  }

  lemma {:induction false} AdvanceSays(d: Design, work: Work, h: Here, x: Slot)
    ensures var next, b := Advance(d, work, h), Crossed(d, work, h);
            && Holds(next.memory, x) == (if Said(d, work, b, x).Some? then Said(d, work, b, x) else Holds(h.memory, x))
            && Holds(next.artifacts, x)
               == (if x in d.kept && Said(d, work, b, x).Some? then Said(d, work, b, x) else Holds(h.artifacts, x))
  {
  }

  lemma {:induction false} LaterCrosses(d: Design, work: Work, h: Here, rest: seq<Boundary>, i: nat)
    requires i < |rest| && Crosses(d, work, Advance(d, work, h), rest, i)
    ensures Crosses(d, work, h, [Crossed(d, work, h)] + rest, i + 1)
  {
    hide Advance, Crossed, Said, LastSaid;
    var next, b := Advance(d, work, h), Crossed(d, work, h);
    var bs, k := [b] + rest, i + 1;
    assert bs[k] == rest[i];
    forall x ensures CrossesWith(d, work, h, bs, k, x) {
      assert CrossesWith(d, work, next, rest, i, x);
      AdvanceSays(d, work, h, x);
      LastSaidFrom(d, work, h.memory, next.memory, b, rest, i, x);
      if x in d.kept {
        LastSaidFrom(d, work, h.artifacts, next.artifacts, b, rest, i + 1, x);
      }
    }
  }

  /** Wherever a run starts and stops, every boundary it crosses is as promised; and it fails
      only on a transition that the table does not have. */
  lemma {:induction false} StagesGetTheLatest(d: Design, work: Work, h: Here, stopAfter: Option<Stage>)
    ensures var run := Drive(d, work, h, stopAfter);
            && (forall i :: 0 <= i < |run.boundaries| ==> Crosses(d, work, h, run.boundaries, i))
            && (run.error.Some? ==>
                  exists t :: run.error == Some(InvalidTransition(run.end.stage, t)) && !Allowed(run.end.stage, t))
    decreases 7 - Rank(h.stage)
  {
    hide Drive, Advance, Rank, Target, Allowed, Crossed, Crosses;
    DriveStep(d, work, h, stopAfter);
    var run := Drive(d, work, h, stopAfter);
    if h.stage !in TERMINAL_STAGES && Allowed(h.stage, Target(d, work, h)) {
      AdvanceMovesOn(d, work, h);
      var next := Advance(d, work, h);
      var rest := if stopAfter == Some(h.stage) then [] else Drive(d, work, next, stopAfter).boundaries;
      assert run.boundaries == [Crossed(d, work, h)] + rest;
      FirstCrosses(d, work, h, rest);
      if stopAfter != Some(h.stage) {
        StagesGetTheLatest(d, work, next, stopAfter);
      }
      forall i | 0 <= i < |run.boundaries| ensures Crosses(d, work, h, run.boundaries, i) {
        if i > 0 { LaterCrosses(d, work, h, rest, i - 1); }
      }
    }
  }

  /** A run goes no further than the boundary it is to stop after, and without an error it stops
      nowhere else before the workflow is over. */
  lemma {:induction false} StopsWhereTold(d: Design, work: Work, h: Here, stopAfter: Option<Stage>)
    ensures var Driven(bs, end, error) := Drive(d, work, h, stopAfter);
            && (forall i :: 0 <= i < |bs| - 1 ==> stopAfter != Some(bs[i].stage))
            && (error.None? && end.stage !in TERMINAL_STAGES ==> bs != [] && stopAfter == Some(bs[|bs| - 1].stage))
            && (bs != [] && stopAfter == Some(bs[|bs| - 1].stage) ==> error.None?)
    decreases 7 - Rank(h.stage)
  {
    hide Drive, Advance, Rank, Target, Allowed;
    DriveStep(d, work, h, stopAfter);
    if h.stage !in TERMINAL_STAGES && Allowed(h.stage, Target(d, work, h)) {
      AdvanceMovesOn(d, work, h);
      AdvanceTarget(d, work, h);
      StopsWhereTold(d, work, Advance(d, work, h), stopAfter);
    }
  }

  // ---------- Resuming ----------

  /** What the snapshot at a boundary was taken for. */
  datatype BoundarySnapshot =
    BoundarySnapshot(schema: string, task: string, revision: string, stage: Stage, references: set<Slot>)

  /** What a resumed engine starts from: only what is in the store. */
  function Reloaded(stage: Stage, references: set<Slot>, artifacts: Memory): Here {
    Here(stage, Only(artifacts, references), artifacts)
  }

  /** The checks of `resume`, in order: a snapshot of another schema version, a workflow that
      is over, another task, a repository that moved on, an artifact that is gone. */
  function ResumeFrom(latest: Option<BoundarySnapshot>, artifacts: Memory, task: string, head: string)
    : Result<Here, WorkflowError>
  {
    if latest.None? then Err(UnknownWorkflow)
    else
      var s := latest.value;
      if s.schema != W.SCHEMA_VERSION then Err(SchemaRefused)
      else if s.stage in TERMINAL_STAGES then Err(AlreadyTerminal)
      else if s.task != task then Err(OtherTask)
      else if s.revision != head then Err(RevisionMoved)
      else if !(s.references <= artifacts.Keys) then Err(MissingArtifact)
      else Ok(Reloaded(s.stage, s.references, artifacts))
  }

  /** What `resume` complains about, first complaint first. */
  const RESUME_ERRORS := [SchemaRefused, AlreadyTerminal, OtherTask, RevisionMoved, MissingArtifact]

  /** Which of the complaints the latest snapshot gives reason for. */
  ghost function Complaints(s: BoundarySnapshot, artifacts: Memory, task: string, head: string): (r: seq<bool>)
    ensures |r| == |RESUME_ERRORS|
  {
    [s.schema != W.SCHEMA_VERSION,
     s.stage in {Completed, Failed, Cancelled, Escalated},
     s.task != task,
     s.revision != head,
     exists x :: x in s.references && x !in artifacts]
  }

  /** Resuming answers with the first complaint, and goes on without one. */
  ghost predicate AnswersComplaints(
      latest: Option<BoundarySnapshot>, artifacts: Memory, task: string, head: string, error: Option<WorkflowError>)
  {
    if latest.None? then error == Some(UnknownWorkflow)
    else
      var given := Complaints(latest.value, artifacts, task, head);
      && (error == None <==> forall k :: 0 <= k < |given| ==> !given[k])
      && forall k :: 0 <= k < |given| && given[k] && (forall j :: 0 <= j < k ==> !given[j]) ==>
                       error == Some(RESUME_ERRORS[k])
  }

  lemma {:induction false} ResumeAnswersComplaints(
      latest: Option<BoundarySnapshot>, artifacts: Memory, task: string, head: string)
    ensures var r := ResumeFrom(latest, artifacts, task, head);
            AnswersComplaints(latest, artifacts, task, head, if r.Ok? then None else Some(r.error))
  {
    hide Reloaded;
    if latest.Some? {
      var given := Complaints(latest.value, artifacts, task, head);
      assert given[4] <==> !(latest.value.references <= artifacts.Keys);
      assert !given[0] && !given[1] && !given[2] && !given[3] && !given[4]
             <==> forall k :: 0 <= k < |given| ==> !given[k];
    }
  }

  /** The store holds what memory holds of the persisted slots, and memory holds only what
      earlier stages produce. */
  ghost predicate Consistent(d: Design, h: Here) {
    && h.artifacts == Only(h.memory, d.kept)
    && forall x :: x in h.memory ==> WrittenBefore(d, x, h.stage)
  }

  ghost predicate WrittenBefore(d: Design, x: Slot, s: Stage) {
    exists w: Stage :: Rank(w) < Rank(s) && x in d.outputs(w)
  }

  lemma {:induction false} AdvanceKeepsConsistency(d: Design, work: Work, h: Here)
    requires Consistent(d, h) && Allowed(h.stage, Target(d, work, h))
    ensures Consistent(d, Advance(d, work, h))
  {
    hide Rank, Allowed, Target;
    AdvanceTarget(d, work, h);
    AdvanceMovesOn(d, work, h);
    var next := Advance(d, work, h);
    assert next.artifacts == Only(next.memory, d.kept);
    forall x | x in next.memory ensures WrittenBefore(d, x, next.stage) {
      if x in h.memory {
        var w :| Rank(w) < Rank(h.stage) && x in d.outputs(w);
      } else {
        assert x in d.outputs(h.stage);
      }
    }
  }

  lemma {:induction false} DriveKeepsConsistency(d: Design, work: Work, h: Here, stopAfter: Option<Stage>)
    requires Consistent(d, h)
    ensures Consistent(d, Drive(d, work, h, stopAfter).end)
    decreases 7 - Rank(h.stage)
  {
    hide Drive, Advance, Rank, Target, Allowed, Consistent;
    DriveStep(d, work, h, stopAfter);
    if h.stage !in TERMINAL_STAGES && Allowed(h.stage, Target(d, work, h)) {
      AdvanceMovesOn(d, work, h);
      AdvanceKeepsConsistency(d, work, h);
      DriveKeepsConsistency(d, work, Advance(d, work, h), stopAfter);
    }
  }

  /** Every result that a stage reads and an earlier one produced is persisted. */
  ghost predicate Recoverable(d: Design) {
    forall w, s, x :: Lost(d, w, s, x) ==> s in TERMINAL_STAGES
  }

  ghost predicate Lost(d: Design, w: Stage, s: Stage, x: Slot) {
    Rank(w) < Rank(s) && x in d.outputs(w) && x in d.inputs(s) && x !in d.kept
  }

  /** From here on every stage is given the same by either memory. */
  ghost predicate ReadAlike(d: Design, h: Here, g: Here) {
    && h.stage == g.stage && h.artifacts == g.artifacts
    && forall s :: s !in TERMINAL_STAGES && Rank(h.stage) <= Rank(s) ==>
                     Only(h.memory, d.inputs(s)) == Only(g.memory, d.inputs(s))
  }

  /** Engines that every later stage reads alike run alike. */
  lemma {:induction false} ReadAlikeRunsAlike(d: Design, work: Work, h: Here, g: Here)
    requires ReadAlike(d, h, g)
    ensures SameForGood(Drive(d, work, h, None), Drive(d, work, g, None))
    decreases 7 - Rank(h.stage)
  {
    hide Drive, Rank, Allowed;
    DriveStep(d, work, h, None);
    DriveStep(d, work, g, None);
    if h.stage !in TERMINAL_STAGES {
      assert Seen(d, h) == Seen(d, g);
      assert Crossed(d, work, h) == Crossed(d, work, g);
      if Allowed(h.stage, Target(d, work, h)) {
        AdvanceMovesOn(d, work, h);
        var h', g' := Advance(d, work, h), Advance(d, work, g);
        forall s | s !in TERMINAL_STAGES && Rank(h'.stage) <= Rank(s)
          ensures Only(h'.memory, d.inputs(s)) == Only(g'.memory, d.inputs(s))
        {
          OnlyAdds(h.memory, g.memory, Produced(d, work, h), d.inputs(s));
        }
        ReadAlikeRunsAlike(d, work, h', g');
      }
    }
  }

  lemma {:induction false} OnlyAdds(m: Memory, n: Memory, added: Memory, slots: set<Slot>)
    requires Only(m, slots) == Only(n, slots)
    ensures Only(m + added, slots) == Only(n + added, slots)
  {
    forall x ensures x in Only(m, slots) <==> x in Only(n, slots) {}
    forall x | x in m && x in slots ensures x in n && m[x] == n[x] {
      assert x in Only(m, slots) && Only(m, slots)[x] == Only(n, slots)[x];
    }
    forall x | x in n && x in slots ensures x in m {
      assert x in Only(n, slots);
    }
  }

  /** What a resumed engine holds, when nothing happened to the store. */
  function Resumed(h: Here): Here {
    Reloaded(h.stage, h.artifacts.Keys, h.artifacts)
  }

  lemma {:induction false} ResumedReadsAlike(d: Design, h: Here)
    requires Recoverable(d) && Consistent(d, h)
    ensures ReadAlike(d, h, Resumed(h))
  {
    hide Rank;
    var g := Resumed(h);
    assert g.memory == Only(h.memory, d.kept);
    forall s | s !in TERMINAL_STAGES && Rank(h.stage) <= Rank(s)
      ensures Only(h.memory, d.inputs(s)) == Only(g.memory, d.inputs(s))
    {
      forall x | x in h.memory && x in d.inputs(s) ensures x in d.kept {
        var w :| Rank(w) < Rank(h.stage) && x in d.outputs(w);
        assert !Lost(d, w, s, x);
      }
    }
  }

  /** A run that is stopped after each of these stages in turn and each time resumed from the
      store by a new engine. */
  function RunResumed(d: Design, work: Work, h: Here, stops: seq<Stage>): Driven
    decreases |stops|
  {
    if stops == [] then Drive(d, work, h, None)
    else
      var first := Drive(d, work, h, Some(stops[0]));
      if first.error.Some? then first
      else
        var rest := RunResumed(d, work, Resumed(first.end), stops[1..]);
        Driven(first.boundaries + rest.boundaries, rest.end, rest.error)
  }

  /** Every stage was given the same, led to the same stage and persisted the same, and the
      runs ended alike. */
  ghost predicate SameForGood(a: Driven, b: Driven) {
    && a.boundaries == b.boundaries && a.error == b.error
    && a.end.stage == b.end.stage && a.end.artifacts == b.end.artifacts
  }

  /** However often it is stopped and resumed, the run leaves what the uninterrupted one does. */
  ghost predicate ResumesExactly(d: Design, work: Work, stops: seq<Stage>) {
    SameForGood(RunResumed(d, work, FRESH, stops), Drive(d, work, FRESH, None))
  }

  /** A stopped run and its continuation in the same engine are the uninterrupted run. */
  lemma {:induction false} StopAndContinue(d: Design, work: Work, h: Here, stopAfter: Option<Stage>)
    ensures var first, whole := Drive(d, work, h, stopAfter), Drive(d, work, h, None);
            if first.error.Some? then whole == first
            else
              var rest := Drive(d, work, first.end, None);
              whole == Driven(first.boundaries + rest.boundaries, rest.end, rest.error)
    decreases 7 - Rank(h.stage)
  {
    hide Drive, Advance, Rank, Target, Allowed, Crossed;
    DriveStep(d, work, h, stopAfter);
    DriveStep(d, work, h, None);
    var none := Drive(d, work, h, None).boundaries;
    assert [] + none == none;
    if h.stage !in TERMINAL_STAGES && Allowed(h.stage, Target(d, work, h)) {
      AdvanceMovesOn(d, work, h);
      var next := Advance(d, work, h);
      if stopAfter != Some(h.stage) {
        StopAndContinue(d, work, next, stopAfter);
        var later := Drive(d, work, next, stopAfter);
        ConcatAssociative([Crossed(d, work, h)], later.boundaries, Drive(d, work, later.end, None).boundaries);
      }
    }
  }

  lemma {:induction false} FreshIsConsistent(d: Design)
    ensures Consistent(d, FRESH)
  {
  }

  lemma {:induction false} ResumedIsConsistent(d: Design, h: Here)
    requires Consistent(d, h)
    ensures Consistent(d, Resumed(h))
  {
    hide WrittenBefore;
    var g := Resumed(h);
    assert g.memory == h.artifacts;
    assert Only(h.artifacts, d.kept) == h.artifacts;
    forall x | x in g.memory ensures x in h.memory {}
  }

  lemma {:induction false} RecoverableResumes(d: Design, work: Work, h: Here, stops: seq<Stage>)
    requires Recoverable(d) && Consistent(d, h)
    ensures SameForGood(RunResumed(d, work, h, stops), Drive(d, work, h, None))
    decreases |stops|
  {
    hide Drive, Recoverable, Consistent, ReadAlike, Resumed;
    if stops != [] {
      var first := Drive(d, work, h, Some(stops[0]));
      StopAndContinue(d, work, h, Some(stops[0]));
      if first.error.None? {
        DriveKeepsConsistency(d, work, h, Some(stops[0]));
        ResumedIsConsistent(d, first.end);
        ResumedReadsAlike(d, first.end);
        ReadAlikeRunsAlike(d, work, first.end, Resumed(first.end));
        RecoverableResumes(d, work, Resumed(first.end), stops[1..]);
      }
    }
  }

  // ---------- What is not persisted is missed ----------

  /** Work that goes the happy path; at `w` it puts a value into `x`. */
  function HappyWork(w: Stage, x: Slot): Work {
    (s: Stage, seen: Memory) => Outcome(Next(s), if s == w then map[x := "result"] else map[])
  }

  lemma {:induction false} HappyAdvance(d: Design, w: Stage, x: Slot, h: Here)
    requires h.stage !in TERMINAL_STAGES && x in d.outputs(w) && x !in d.kept
    ensures Target(d, HappyWork(w, x), h) == Next(h.stage)
    ensures var next := Advance(d, HappyWork(w, x), h);
            && next.stage == Next(h.stage) && next.artifacts == h.artifacts
            && (x in next.memory <==> x in h.memory || h.stage == w)
    ensures Crossed(d, HappyWork(w, x), h).stage == h.stage
    ensures x in Crossed(d, HappyWork(w, x), h).seen <==> x in h.memory && x in d.inputs(h.stage)
  {
    hide Next;
    var p := Produced(d, HappyWork(w, x), h);
    assert p.Keys == if h.stage == w then {x} else {};
  }

  /** On the happy path the stage `s` is given `x` exactly when memory has it or it is produced
      on the way. */
  lemma {:induction false} HappyRunGives(d: Design, w: Stage, s: Stage, x: Slot, h: Here)
    requires Lost(d, w, s, x) && s !in TERMINAL_STAGES && Rank(h.stage) <= Rank(s)
    ensures var run := Drive(d, HappyWork(w, x), h, None);
            && run.error == None && (exists b :: b in run.boundaries && b.stage == s)
            && forall b :: b in run.boundaries && b.stage == s ==>
                             (x in b.seen <==> x in h.memory || Rank(h.stage) <= Rank(w))
    decreases 7 - Rank(h.stage)
  {
    hide Drive, Advance, Next, Crossed, Target, HappyWork;
    var work := HappyWork(w, x);
    assert h.stage !in TERMINAL_STAGES && Rank(s) < 7;
    DriveStep(d, work, h, None);
    NextIsAllowed(h.stage);
    HappyAdvance(d, w, x, h);
    var next := Advance(d, work, h);
    var b0 := Crossed(d, work, h);
    if Rank(h.stage) < Rank(s) {
      HappyRunGives(d, w, s, x, next);
      var rest := Drive(d, work, next, None).boundaries;
      assert b0 in [b0] + rest && forall b :: b in [b0] + rest <==> b == b0 || b in rest;
      if h.stage != w && Rank(h.stage) == Rank(w) {
        SameRank(h.stage, w);
      }
      var b :| b in rest && b.stage == s;
      assert b in [b0] + rest;
    } else {
      SameRank(h.stage, s);
      HappyRunEnds(d, w, x, next, Rank(s));
      assert b0 in Drive(d, work, h, None).boundaries;
    }
  }

  /** The happy path goes through without an error and only upwards. */
  lemma {:induction false} HappyRunEnds(d: Design, w: Stage, x: Slot, h: Here, k: nat)
    requires Rank(h.stage) > k
    ensures var run := Drive(d, HappyWork(w, x), h, None);
            run.error == None && forall b :: b in run.boundaries ==> Rank(b.stage) > k
    decreases 7 - Rank(h.stage)
  {
    hide Drive, Advance, Next, Crossed, Target, HappyWork;
    var work := HappyWork(w, x);
    DriveStep(d, work, h, None);
    if h.stage !in TERMINAL_STAGES {
      NextIsAllowed(h.stage);
      AdvanceTarget(d, work, h);
      HappyTarget(d, w, x, h);
      HappyRunEnds(d, w, x, Advance(d, work, h), k);
    }
  }

  lemma {:induction false} HappyTarget(d: Design, w: Stage, x: Slot, h: Here)
    ensures Target(d, HappyWork(w, x), h) == Next(h.stage)
  {
  }

  /** A result that is not persisted is missed: stopped right after the stage that produces
      it, the resumed run gives a later reader less than the uninterrupted run does. */
  lemma {:induction false} LostResultIsMissed(d: Design, w: Stage, s: Stage, x: Slot)
    requires Lost(d, w, s, x) && s !in TERMINAL_STAGES
    ensures !ResumesExactly(d, HappyWork(w, x), [w])
  {
    hide Drive, Advance, Next, Target, Crossed, HappyWork, Lost;
    var work := HappyWork(w, x);
    var first, whole := Drive(d, work, FRESH, Some(w)), Drive(d, work, FRESH, None);
    LostRanks(d, w, s, x);
    HappyRunStops(d, w, s, x, FRESH);
    HappyRunGives(d, w, s, x, FRESH);
    var resumed := Resumed(first.end);
    HappyRunGives(d, w, s, x, resumed);
    var rest := Drive(d, work, resumed, None);
    assert [w][1..] == [] && RunResumed(d, work, resumed, []) == rest;
    var b :| b in rest.boundaries && b.stage == s;
    assert b in first.boundaries + rest.boundaries;
  }

  lemma {:induction false} LostRanks(d: Design, w: Stage, s: Stage, x: Slot)
    requires Lost(d, w, s, x)
    ensures Rank(FRESH.stage) <= Rank(w) < Rank(s)
  {
  }

  /** Stopped after `w` the happy run is past it, with nothing of `x` in the store. */
  lemma {:induction false} HappyRunStops(d: Design, w: Stage, s: Stage, x: Slot, h: Here)
    requires Lost(d, w, s, x) && s !in TERMINAL_STAGES && Rank(h.stage) <= Rank(w) && x !in h.artifacts
    ensures var run := Drive(d, HappyWork(w, x), h, Some(w));
            run.error == None && Rank(run.end.stage) == Rank(w) + 1 && x !in run.end.artifacts
    decreases 7 - Rank(h.stage)
  {
    hide Drive, Advance, Next, Target, Crossed, HappyWork;
    var work := HappyWork(w, x);
    DriveStep(d, work, h, Some(w));
    assert h.stage !in TERMINAL_STAGES && Rank(w) < Rank(s) < 7;
    NextIsAllowed(h.stage);
    HappyAdvance(d, w, x, h);
    if h.stage != w {
      if Rank(h.stage) == Rank(w) { SameRank(h.stage, w); }
      HappyRunStops(d, w, s, x, Advance(d, work, h));
    }
  }

  lemma {:induction false} ResumedFresh(d: Design, work: Work, stops: seq<Stage>)
    ensures ResumesExactly(d, work, stops)
            <==> SameForGood(RunResumed(d, work, FRESH, stops), Drive(d, work, FRESH, None))
  {
  }

  ghost predicate AlwaysResumesExactly(d: Design) {
    forall work: Work, stops: seq<Stage> :: ResumesExactly(d, work, stops)
  }

  /** Whatever the stages do and wherever and however often a run is stopped, resuming is exact if and only if
      every result that a later stage reads is persisted. */
  lemma {:induction false} ResumeIsExactIff(d: Design)
    ensures AlwaysResumesExactly(d) <==> Recoverable(d)
  {
    hide ResumesExactly, Lost;
    if Recoverable(d) {
      FreshIsConsistent(d);
      forall work: Work, stops: seq<Stage> ensures ResumesExactly(d, work, stops) {
        RecoverableResumes(d, work, FRESH, stops);
        assert ResumesExactly(d, work, stops) by { ResumedFresh(d, work, stops); }
      }
    } else {
      var w, s, x :| Lost(d, w, s, x) && s !in TERMINAL_STAGES;
      LostResultIsMissed(d, w, s, x);
    }
  }

  // ---------- The feature-task workflow ----------

  function FeatureInputs(s: Stage): set<Slot> {
    match s
    case Plan => {InvestigationAnswer}
    case PlanApproval | Implement => {PlanResult}
    case Validate => {WriteResult}
    case PrepareResult => {InvestigationAnswer, PlanResult, WriteResult}
    case _ => {}
  }

  function FeatureOutputs(s: Stage): set<Slot> {
    match s
    case Investigate => {InvestigationAnswer}
    case Plan => {PlanResult}
    case Implement => {WriteResult}
    case _ => {}
  }

  /** The engine's stages, with the given results persisted. */
  function FeatureTask(kept: set<Slot>): Design {
    Design(FeatureInputs, FeatureOutputs, kept)
  }

  /** The engine needs all three of its in-memory results back from the store. */
  lemma {:induction false} EveryResultMustBeKept(kept: set<Slot>)
    ensures AlwaysResumesExactly(FeatureTask(kept)) <==> kept == {InvestigationAnswer, PlanResult, WriteResult}
  {
    hide AlwaysResumesExactly;
    var d := FeatureTask(kept);
    ResumeIsExactIff(d);
    forall x | x in kept ensures x in {InvestigationAnswer, PlanResult, WriteResult} {
      match x case InvestigationAnswer => case PlanResult => case WriteResult =>
    }
    if Recoverable(d) {
      assert Lost(d, Investigate, Plan, InvestigationAnswer) || InvestigationAnswer in kept;
      assert Lost(d, Plan, Implement, PlanResult) || PlanResult in kept;
      assert Lost(d, Implement, Validate, WriteResult) || WriteResult in kept;
    }
  }

  // ---------- The engine ----------

  /** The run so far rejoins the specified one: what is left to do is the run from here. */
  ghost predicate Rejoins(
      d: Design, work: Work, start: Here, stopAfter: Option<Stage>, done: seq<Boundary>, here: Here)
  {
    var rest := Drive(d, work, here, stopAfter);
    Drive(d, work, start, stopAfter) == Driven(done + rest.boundaries, rest.end, rest.error)
  }

  lemma {:induction false} RejoinsAtOnce(d: Design, work: Work, start: Here, stopAfter: Option<Stage>)
    ensures Rejoins(d, work, start, stopAfter, [], start)
  {
    hide Drive;
    assert [] + Drive(d, work, start, stopAfter).boundaries == Drive(d, work, start, stopAfter).boundaries;
  }

  lemma {:induction false} RejoinStep(
      d: Design, work: Work, start: Here, stopAfter: Option<Stage>, done: seq<Boundary>, here: Here)
    requires Rejoins(d, work, start, stopAfter, done, here)
    ensures var run, target := Drive(d, work, start, stopAfter), Target(d, work, here);
            if here.stage in TERMINAL_STAGES then run == Driven(done, here, None)
            else if !Allowed(here.stage, target) then
              run == Driven(done, here, Some(InvalidTransition(here.stage, target)))
            else
              var next, now := Advance(d, work, here), done + [Crossed(d, work, here)];
              && Rank(here.stage) < Rank(next.stage) <= 7
              && if stopAfter == Some(here.stage) then run == Driven(now, next, None)
                 else Rejoins(d, work, start, stopAfter, now, next)
  {
    hide Drive, Rank, Allowed, Advance, Crossed, Target;
    DriveStep(d, work, here, stopAfter);
    assert done + [] == done;
    if here.stage !in TERMINAL_STAGES && Allowed(here.stage, Target(d, work, here)) {
      AdvanceMovesOn(d, work, here);
      ConcatAssociative(
        done, [Crossed(d, work, here)], Drive(d, work, Advance(d, work, here), stopAfter).boundaries);
    }
  }

  /** What the store holds of one workflow: its snapshots, its artifacts, and for each resume
      the version of the snapshot it continued from. */
  class WorkflowStore {
    var snapshots: seq<BoundarySnapshot>
    var artifacts: Memory
    var resumes: seq<nat>

    constructor ()
      ensures snapshots == [] && artifacts == map[] && resumes == []
    {
      snapshots, artifacts, resumes := [], map[], [];
    }

    function Latest(): Option<BoundarySnapshot>
      reads this
    {
      if snapshots == [] then None else Some(snapshots[|snapshots| - 1])
    }

    /** The newest snapshot says that the workflow is over. */
    ghost predicate IsOver()
      reads this
    {
      && snapshots != []
      && var s := snapshots[|snapshots| - 1];
         s.schema == W.SCHEMA_VERSION && s.stage in {Completed, Failed, Cancelled, Escalated}
    }
  }

  /** A snapshot as this version of the engine takes it. */
  function Taken(task: string, revision: string, stage: Stage, references: set<Slot>): BoundarySnapshot {
    BoundarySnapshot(W.SCHEMA_VERSION, task, revision, stage, references)
  }

  function SnapshotOf(task: string, revision: string, b: Boundary): BoundarySnapshot {
    Taken(task, revision, b.target, b.artifacts.Keys)
  }

  function SnapshotsOf(task: string, revision: string, boundaries: seq<Boundary>): seq<BoundarySnapshot> {
    seq(|boundaries|, i requires 0 <= i < |boundaries| => SnapshotOf(task, revision, boundaries[i]))
  }

  class WorkflowEngine {
    const design: Design
    const work: Work
    const task: string
    const revision: string
    const store: WorkflowStore
    var stage: Stage
    var memory: Memory

    constructor (design: Design, work: Work, task: string, revision: string, store: WorkflowStore)
      ensures this.design == design && this.work == work && this.task == task && this.revision == revision
      ensures this.store == store && stage == Intake && memory == map[]
    {
      this.design, this.work, this.task, this.revision, this.store := design, work, task, revision, store;
      stage, memory := Intake, map[];
    }

    /** Builds an engine around the latest snapshot, with the results reloaded. */
    constructor Resumed(design: Design, work: Work, store: WorkflowStore, snapshot: BoundarySnapshot)
      requires snapshot.references <= store.artifacts.Keys
      ensures this.design == design && this.work == work && this.store == store
      ensures this.task == snapshot.task && this.revision == snapshot.revision
      ensures Position() == Reloaded(snapshot.stage, snapshot.references, store.artifacts)
    {
      this.design, this.work, this.store := design, work, store;
      this.task, this.revision := snapshot.task, snapshot.revision;
      stage, memory := snapshot.stage, Only(store.artifacts, snapshot.references);
    }

    function Position(): Here
      reads this, store
    {
      Here(stage, memory, store.artifacts)
    }

    method Run(stopAfter: Option<Stage>) returns (error: Option<WorkflowError>, ghost crossed: seq<Boundary>)
      modifies this, store`snapshots, store`artifacts
      ensures old(stage) in TERMINAL_STAGES ==> error == Some(AlreadyTerminal) && unchanged(this) && unchanged(store)
      ensures old(stage) !in TERMINAL_STAGES ==>
                && Drive(design, work, old(Position()), stopAfter) == Driven(crossed, Position(), error)
                && store.snapshots == old(store.snapshots) + SnapshotsOf(task, revision, crossed)
                && (stage in TERMINAL_STAGES ==> store.IsOver())
    {
      hide Drive, Rank, Allowed, Rejoins, SnapshotOf, Only;
      crossed := [];
      if stage in TERMINAL_STAGES { return Some(AlreadyTerminal), []; }
      ghost var start := Position();
      RejoinsAtOnce(design, work, start, stopAfter);
      while stage !in TERMINAL_STAGES
        invariant Rejoins(design, work, start, stopAfter, crossed, Position())
        invariant store.snapshots == old(store.snapshots) + SnapshotsOf(task, revision, crossed)
        invariant stage in TERMINAL_STAGES ==> store.IsOver()
        decreases 7 - Rank(stage)
      {
        ghost var here := Position();
        RejoinStep(design, work, start, stopAfter, crossed, here);
        var finished, seen := stage, Only(memory, design.inputs(stage));
        var outcome := work(stage, seen);
        if !Allowed(stage, outcome.target) { return Some(InvalidTransition(stage, outcome.target)), crossed; }
        var produced := Only(outcome.produced, design.outputs(stage));
        memory := memory + produced;
        store.artifacts := store.artifacts + Only(produced, design.kept);
        store.snapshots := store.snapshots + [Taken(task, revision, outcome.target, store.artifacts.Keys)];
        stage := outcome.target;
        SnapshotAdded(task, revision, crossed, Crossed(design, work, here));
        crossed := crossed + [Crossed(design, work, here)];
        if stopAfter == Some(finished) { return None, crossed; }
      }
      RejoinStep(design, work, start, stopAfter, crossed, Position());
      return None, crossed;
    }

    /** A human action: refused only once the workflow is over. */
    method Cancel() returns (error: Option<WorkflowError>)
      modifies this, store`snapshots, store`artifacts
      ensures old(stage) in TERMINAL_STAGES ==> error == Some(AlreadyTerminal) && unchanged(this) && unchanged(store)
      ensures old(stage) !in TERMINAL_STAGES ==>
                && error == None && Allowed(old(stage), Cancelled) && stage == Cancelled
                && store.artifacts == old(store.artifacts) && memory == old(memory)
                && store.snapshots == old(store.snapshots)
                                      + [Taken(task, revision, Cancelled, old(store.artifacts.Keys))]
                && store.IsOver()
    {
      if stage in TERMINAL_STAGES { return Some(AlreadyTerminal); }
      WhoMayStop(stage);
      stage := Cancelled;
      store.snapshots := store.snapshots + [Taken(task, revision, Cancelled, store.artifacts.Keys)];
      return None;
    }
  }

  lemma {:induction false} SnapshotAdded(task: string, revision: string, boundaries: seq<Boundary>, b: Boundary)
    ensures SnapshotsOf(task, revision, boundaries + [b])
            == SnapshotsOf(task, revision, boundaries) + [Taken(task, revision, b.target, b.artifacts.Keys)]
  {
  }

  method Resume(design: Design, work: Work, store: WorkflowStore, task: string, head: string)
    returns (error: Option<WorkflowError>, engine: WorkflowEngine?)
    modifies store`resumes
    ensures match ResumeFrom(store.Latest(), store.artifacts, task, head)
            case Err(e) => error == Some(e) && engine == null && store.resumes == old(store.resumes)
            case Ok(here) =>
              && store.resumes == old(store.resumes) + [|store.snapshots|]
              && error == None && engine != null && fresh(engine)
              && engine.design == design && engine.work == work && engine.store == store
              && engine.task == task && engine.revision == head && engine.Position() == here
    ensures AnswersComplaints(store.Latest(), store.artifacts, task, head, error)
    ensures engine != null <==> error == None
    // The engine continues from the newest snapshot, with what it refers to and nothing else.
    ensures engine != null ==>
              && store.snapshots != []
              && var s := store.snapshots[|store.snapshots| - 1];
                 && engine.stage == s.stage && store.resumes == old(store.resumes) + [|store.snapshots|]
                 && forall x :: if x in s.references then x in engine.memory && x in store.artifacts
                                                          && engine.memory[x] == store.artifacts[x]
                                else x !in engine.memory
    ensures store.IsOver() ==> error == Some(AlreadyTerminal)
  {
    ResumeAnswersComplaints(store.Latest(), store.artifacts, task, head);
    var latest := store.Latest();
    if latest.None? { return Some(UnknownWorkflow), null; }
    var s := latest.value;
    if s.schema != W.SCHEMA_VERSION { return Some(SchemaRefused), null; }
    if s.stage in TERMINAL_STAGES { return Some(AlreadyTerminal), null; }
    if s.task != task { return Some(OtherTask), null; }
    if s.revision != head { return Some(RevisionMoved), null; }
    if !(s.references <= store.artifacts.Keys) { return Some(MissingArtifact), null; }
    engine := new WorkflowEngine.Resumed(design, work, store, s);
    store.resumes := store.resumes + [|store.snapshots|];
    return None, engine;
  }

  /** After a stopped run an untouched store gives a resumed engine exactly what the theorem
      above starts from, unless the workflow is over. */
  lemma {:induction false} StoppedRunIsAccepted(
      d: Design, work: Work, stopAfter: Option<Stage>, task: string, revision: string)
    requires var run := Drive(d, work, FRESH, stopAfter);
             run.error.None? && run.end.stage !in TERMINAL_STAGES
    ensures var run := Drive(d, work, FRESH, stopAfter);
            && run.boundaries != []
            && ResumeFrom(
                 Some(SnapshotOf(task, revision, run.boundaries[|run.boundaries| - 1])),
                 run.end.artifacts, task, revision) == Ok(Resumed(run.end))
  {
    hide Drive, Rank;
    LastBoundaryIsTheEnd(d, work, FRESH, stopAfter);
  }

  lemma {:induction false} LastBoundaryIsTheEnd(d: Design, work: Work, h: Here, stopAfter: Option<Stage>)
    ensures var run := Drive(d, work, h, stopAfter);
            if run.boundaries == [] then run.end == h && (h.stage in TERMINAL_STAGES || run.error.Some?)
            else
              var last := run.boundaries[|run.boundaries| - 1];
              last.target == run.end.stage && last.artifacts == run.end.artifacts
    decreases 7 - Rank(h.stage)
  {
    hide Drive, Advance, Rank, Target, Allowed;
    DriveStep(d, work, h, stopAfter);
    if h.stage !in TERMINAL_STAGES && Allowed(h.stage, Target(d, work, h)) {
      AdvanceMovesOn(d, work, h);
      AdvanceTarget(d, work, h);
      LastBoundaryIsTheEnd(d, work, Advance(d, work, h), stopAfter);
    }
  }
}
