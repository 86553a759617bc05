/** The Module 5 stages and their transition table (workflows/engine.py). */
module Engine {
  datatype Stage =
    | Intake | Investigate | Plan | PlanApproval | Implement | Validate | PrepareResult
    | Completed | Failed | Cancelled | Escalated

  const TERMINAL_STAGES := {Completed, Failed, Cancelled, Escalated}

  function Transitions(s: Stage): set<Stage> {
    match s
    case Intake => {Investigate, Cancelled}
    case Investigate => {Plan, Failed, Escalated, Cancelled}
    case Plan => {PlanApproval, Failed, Escalated, Cancelled}
    case PlanApproval => {Implement, Cancelled}
    case Implement => {Validate, Failed, Escalated, Cancelled}
    case Validate => {PrepareResult, Failed, Cancelled}
    case PrepareResult => {Completed, Failed, Cancelled}
    case Completed | Failed | Cancelled | Escalated => {}
  }

  predicate Allowed(current: Stage, target: Stage) {
    target in Transitions(current)
  }

  /** Stages in the order every workflow works through them. */
  const HAPPY_PATH := [Intake, Investigate, Plan, PlanApproval, Implement, Validate, PrepareResult, Completed]

  function Rank(s: Stage): nat {
    match s
    case Intake => 0
    case Investigate => 1
    case Plan => 2
    case PlanApproval => 3
    case Implement => 4
    case Validate => 5
    case PrepareResult => 6
    case Completed | Failed | Cancelled | Escalated => 7
  }

  /** Stages visited one after another through the table. */
  ghost predicate IsPath(stages: seq<Stage>) {
    forall i :: 0 <= i < |stages| - 1 ==> Allowed(stages[i], stages[i + 1])
  }

  /** Until it is over a workflow moves one stage at a time along the one path. */
  lemma {:induction false} PathIsAPrefix(stages: seq<Stage>, i: nat)
    requires IsPath(stages) && stages != [] && stages[0] == Intake && i < |stages|
    ensures i < 8
    ensures stages[i] !in {Failed, Cancelled, Escalated} ==> stages[..i + 1] == HAPPY_PATH[..i + 1]
    ensures stages[i] in TERMINAL_STAGES ==> i == |stages| - 1
    ensures Rank(stages[i]) >= i && (stages[i] !in TERMINAL_STAGES ==> Rank(stages[i]) == i)
  {
    if i == 0 {
      assert stages[..1] == [Intake];
    } else {
      PathIsAPrefix(stages, i - 1);
      assert Allowed(stages[i - 1], stages[i]);
      assert stages[..i + 1] == stages[..i] + [stages[i]];
      assert HAPPY_PATH[..i + 1] == HAPPY_PATH[..i] + [HAPPY_PATH[i]];
    }
    if i < |stages| - 1 {
      assert Allowed(stages[i], stages[i + 1]);
    }
  }

  /** The engine cannot loop, nothing follows a terminal, and a workflow that completes has
      been through every stage, approval and validation included, once and in order. */
  lemma {:induction false} CompletedRunsPassEveryStage(stages: seq<Stage>)
    requires IsPath(stages) && stages != [] && stages[0] == Intake
    ensures |stages| <= 8
    ensures Completed in stages ==> stages == HAPPY_PATH
  {
    PathIsAPrefix(stages, |stages| - 1);
    if Completed in stages {
      var i :| 0 <= i < |stages| && stages[i] == Completed;
      PathIsAPrefix(stages, i);
      assert stages[..i + 1] == stages;
      assert HAPPY_PATH[i] == Completed;
      assert HAPPY_PATH[..8] == HAPPY_PATH;
    }
  }

  /** Cancellation is open to every stage that is not over; escalation only to the three
      model-driven ones. */
  lemma {:induction false} WhoMayStop(s: Stage)
    ensures Allowed(s, Cancelled) <==> s !in TERMINAL_STAGES
    ensures Allowed(s, Escalated) <==> s in {Investigate, Plan, Implement}
  {
  }

  lemma {:induction false} RankGrows(s: Stage, t: Stage)
    ensures Allowed(s, t) ==> Rank(s) < Rank(t)
    ensures Rank(s) <= 7
  {
  }

  /** The next stage of the happy path. */
  function Next(s: Stage): Stage {
    HAPPY_PATH[if Rank(s) < 7 then Rank(s) + 1 else 7]
  }

  /** The table in one line: a stage that is not over goes one rank on or is cancelled, only the
      model-driven ones escalate, and intake and approval cannot fail. */
  lemma {:induction false} TableExact(s: Stage, t: Stage)
    ensures Allowed(s, t)
            <==> && s !in {Completed, Failed, Cancelled, Escalated}
                 && (|| t == Cancelled
                     || (t !in {Failed, Escalated} && Rank(t) == Rank(s) + 1)
                     || (t == Escalated && s in {Investigate, Plan, Implement})
                     || (t == Failed && s !in {Intake, PlanApproval}))
    ensures forall k :: 0 <= k < 8 ==> Rank(HAPPY_PATH[k]) == k
  {
  }

  lemma {:induction false} NextIsAllowed(s: Stage)
    requires s !in TERMINAL_STAGES
    ensures Allowed(s, Next(s)) && Rank(Next(s)) == Rank(s) + 1
    ensures Next(s) in TERMINAL_STAGES <==> Rank(s) == 6
  {
  }

  lemma {:induction false} SameRank(s: Stage, t: Stage)
    requires s !in TERMINAL_STAGES && Rank(s) == Rank(t)
    ensures s == t
  {
  }
}
