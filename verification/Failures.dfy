/** Classifying failures onto the canonical taxonomy (reliability/classify.py). */
module Failures {
  import opened Sequences
  import W = WorkflowStates

  datatype FailureClass =
    | TransientInfrastructure
    | ModelProvider
    | MalformedOutput
    | ToolFailure
    | PolicyDenial
    | ContextFailure
    | PlanningFailure
    | ImplementationFailure
    | ValidationFailure
    | ReviewFailure
    | IntegrationConflict
    | BudgetExhaustion
    | ApprovalTimeout
    | InsufficientEvidence
    | PersistentUnknown

  datatype Boundary =
    | AtModel | AtTool | AtSandbox | AtStateStore | AtWorker | AtFilesystem | AtUnknown
    | AtValidation | AtApproval | AtBudgets | AtReview | AtIntegration | AtWorkflow

  /** `retryable` hints that the identical attempt could succeed. */
  datatype Classification = Classification(cls: FailureClass, boundary: Boundary, retryable: bool, detail: string)

  // ---------- The crash path ----------

  datatype ErrorType =
    | ModelTimeoutError | ProviderError | ToolError | SandboxError
    | StateSchemaError | StateStoreError | WorkerError | OSError
    | ReplayError | ScriptError

  /** An exception: the listed types it is an instance of, a provider error's own retry
      classification, and its text. */
  datatype Exception = Exception(types: set<ErrorType>, retryable: bool, text: string)

  /** The tests in order: a timeout is a provider error too, and is retryable whatever that
      error says. */
  function ClassifyException(e: Exception): Classification {
    if ModelTimeoutError in e.types then Classification(ModelProvider, AtModel, true, e.text)
    else if ProviderError in e.types then Classification(ModelProvider, AtModel, e.retryable, e.text)
    else if ToolError in e.types then Classification(ToolFailure, AtTool, false, e.text)
    else if SandboxError in e.types then Classification(TransientInfrastructure, AtSandbox, true, e.text)
    else if StateSchemaError in e.types || StateStoreError in e.types then
      Classification(TransientInfrastructure, AtStateStore, false, e.text)
    else if WorkerError in e.types then Classification(ImplementationFailure, AtWorker, false, e.text)
    else if OSError in e.types then Classification(TransientInfrastructure, AtFilesystem, true, e.text)
    else Classification(PersistentUnknown, AtUnknown, false, e.text)
  }

  /** The types in the order in which they are looked for, and what each of them means. */
  const CRASH_TYPES := [ModelTimeoutError, ProviderError, ToolError, SandboxError,
                        StateSchemaError, StateStoreError, WorkerError, OSError]

  const CRASH_CLASSES := [ModelProvider, ModelProvider, ToolFailure, TransientInfrastructure,
                          TransientInfrastructure, TransientInfrastructure, ImplementationFailure,
                          TransientInfrastructure, PersistentUnknown]

  const CRASH_BOUNDARIES := [AtModel, AtModel, AtTool, AtSandbox,
                             AtStateStore, AtStateStore, AtWorker, AtFilesystem, AtUnknown]

  /** The first type that an exception is an instance of decides its class and boundary, and its
      text is kept; a timeout, a sandbox or a filesystem error may succeed as it is, and a
      provider error if it says so. */
  lemma {:induction false} FirstTypeClassifies(e: Exception, k: nat)
    requires k <= 8 && (k < 8 ==> CRASH_TYPES[k] in e.types)
    requires forall j :: 0 <= j < k ==> CRASH_TYPES[j] !in e.types
    ensures ClassifyException(e)
            == Classification(CRASH_CLASSES[k], CRASH_BOUNDARIES[k], k in {0, 3, 7} || (k == 1 && e.retryable), e.text)
  {
    assert k > 0 ==> CRASH_TYPES[0] !in e.types;
    assert k > 1 ==> CRASH_TYPES[1] !in e.types;
    assert k > 2 ==> CRASH_TYPES[2] !in e.types;
    assert k > 3 ==> CRASH_TYPES[3] !in e.types;
    assert k > 4 ==> CRASH_TYPES[4] !in e.types;
    assert k > 5 ==> CRASH_TYPES[5] !in e.types;
    assert k > 6 ==> CRASH_TYPES[6] !in e.types;
    assert k > 7 ==> CRASH_TYPES[7] !in e.types;
  }

  /** The boundaries an exception can be charged to. */
  predicate ExceptionBoundary(b: Boundary) {
    b in {AtModel, AtTool, AtSandbox, AtStateStore, AtWorker, AtFilesystem, AtUnknown}
  }

  // ---------- The terminal path ----------

  datatype Rule = Rule(substring: string, cls: FailureClass, boundary: Boundary)

  const OUTCOME_RULES := [
    Rule("planning produced no steps", MalformedOutput, AtModel),
    Rule("validation_failed", ValidationFailure, AtValidation),
    Rule("plan_rejected", PolicyDenial, AtApproval),
    Rule("patch_approval_rejected", PolicyDenial, AtApproval),
    Rule("budget exhausted", BudgetExhaustion, AtBudgets),
    Rule("no progress", ReviewFailure, AtReview),
    Rule("conflicting findings", ReviewFailure, AtReview),
    Rule("conflict", IntegrationConflict, AtIntegration),
    Rule("review/fix loop stopped", BudgetExhaustion, AtBudgets),
    Rule("implementation did not reach validation", ImplementationFailure, AtWorker)
  ]

  predicate Matches(rules: seq<Rule>, i: nat, reason: string)
    requires i < |rules|
  {
    Occurs(rules[i].substring, reason)
  }

  /** The index of the first rule, from `start` on, whose substring occurs in the reason. */
  function FirstMatch(rules: seq<Rule>, reason: string, start: nat): (i: nat)
    requires start <= |rules| && forall j: nat | j < start :: !Matches(rules, j, reason)
    ensures i <= |rules| && (i < |rules| ==> Matches(rules, i, reason))
    ensures forall j: nat | j < i :: !Matches(rules, j, reason)
    decreases |rules| - start
  {
    if start == |rules| || Matches(rules, start, reason) then start else FirstMatch(rules, reason, start + 1)
  }

  /** None for a workflow that is not over, that completed, or that gave no reason. */
  function ClassifyOutcome(status: W.WorkflowStatus, reason: Option<string>): Option<Classification> {
    if status !in {W.Failed, W.Escalated, W.Cancelled} || reason.None? then None
    else
      var i := FirstMatch(OUTCOME_RULES, reason.value, 0);
      if i == |OUTCOME_RULES| then Some(Classification(PersistentUnknown, AtWorkflow, false, reason.value))
      else Some(Classification(OUTCOME_RULES[i].cls, OUTCOME_RULES[i].boundary, false, reason.value))
  }

  /** The reason holds the rule's substring. */
  ghost predicate Holds(reason: string, rule: Rule) {
    exists pre, post :: reason == pre + rule.substring + post
  }

  /** Of a workflow that ended badly and said why, the first rule whose substring the reason
      holds decides the class, with the reason kept whole; without any the failure is unknown,
      and no other workflow is classified. */
  lemma {:induction false} FirstRuleClassifies(status: W.WorkflowStatus, reason: string, k: nat)
    requires k <= |OUTCOME_RULES| && (k < |OUTCOME_RULES| ==> Holds(reason, OUTCOME_RULES[k]))
    requires forall j :: 0 <= j < k ==> !Holds(reason, OUTCOME_RULES[j])
    ensures ClassifyOutcome(status, None) == None
    ensures ClassifyOutcome(status, Some(reason))
            == if status !in {W.Failed, W.Escalated, W.Cancelled} then None
               else if k == |OUTCOME_RULES| then Some(Classification(PersistentUnknown, AtWorkflow, false, reason))
               else Some(Classification(OUTCOME_RULES[k].cls, OUTCOME_RULES[k].boundary, false, reason))
  {
    hide Occurs, Holds, FirstMatch;
    forall j: nat | j < |OUTCOME_RULES|
      ensures Matches(OUTCOME_RULES, j, reason) <==> Holds(reason, OUTCOME_RULES[j])
    {
      MatchesIsHolds(OUTCOME_RULES, j, reason);
    }
    assert FirstMatch(OUTCOME_RULES, reason, 0) == k;
  }

  lemma {:induction false} MatchesIsHolds(rules: seq<Rule>, j: nat, reason: string)
    requires j < |rules|
    ensures Matches(rules, j, reason) <==> Holds(reason, rules[j])
  {
    hide Occurs;
    OccursIff(rules[j].substring, reason);
  }

  // ---------- Which rules of a table can decide ----------

  lemma {:induction false} OccursInItself(s: string)
    ensures Occurs(s, s)
  {
    assert s[0..] == s;
  }

  lemma {:induction false} OccursTransitive(a: string, b: string, c: string)
    requires Occurs(a, b) && Occurs(b, c)
    ensures Occurs(a, c)
  {
    var i :| 0 <= i <= |b| && a <= b[i..];
    var j :| 0 <= j <= |c| && b <= c[j..];
    assert a <= c[i + j..] by {
      assert c[j..][i..] == c[i + j..];
    }
  }

  /** A text does not occur in a shorter one, nor in one that lacks its letter at `k`. */
  lemma {:induction false} CannotOccur(part: string, text: string, k: nat)
    requires |part| > |text| || (k < |part| && forall i :: 0 <= i < |text| ==> text[i] != part[k])
    ensures !Occurs(part, text)
  {
    forall i | 0 <= i <= |text| ensures !(part <= text[i..]) {
      if |part| <= |text| - i {
        assert text[i..][k] == text[i + k];
      }
    }
  }

  /** Some reason is decided by rule `j` exactly when the substring of no earlier rule occurs
      in its own: an earlier one that does takes every reason away from it. */
  lemma {:induction false} RuleDecidesIff(rules: seq<Rule>, j: nat)
    requires j < |rules|
    ensures (exists reason :: FirstMatch(rules, reason, 0) == j)
            <==> forall i: nat | i < j :: !Occurs(rules[i].substring, rules[j].substring)
  {
    hide Occurs;
    var own := rules[j].substring;
    if forall i: nat | i < j :: !Occurs(rules[i].substring, own) {
      OccursInItself(own);
      assert Matches(rules, j, own);
      assert FirstMatch(rules, own, 0) == j;
    }
    if reason :| FirstMatch(rules, reason, 0) == j {
      forall i: nat | i < j ensures !Occurs(rules[i].substring, own) {
        assert !Matches(rules, i, reason);
        if Occurs(rules[i].substring, own) { OccursTransitive(rules[i].substring, own, reason); }
      }
    }
  }

  /** Every one of the outcome rules decides some reason. */
  lemma {:induction false} EveryOutcomeRuleDecides(j: nat)
    requires j < |OUTCOME_RULES|
    ensures exists reason :: FirstMatch(OUTCOME_RULES, reason, 0) == j
  {
    hide Occurs;
    RuleDecidesIff(OUTCOME_RULES, j);
    forall i: nat | i < j ensures !Occurs(OUTCOME_RULES[i].substring, OUTCOME_RULES[j].substring) {
      EarlierRulesDoNotOccur(i, j);
    }
  }

  lemma {:induction false} NoneAfter0()
    ensures !Occurs("planning produced no steps", "implementation did not reach validation")
  {
    hide Occurs;
    CannotOccur("planning produced no steps", "implementation did not reach validation", 7);
  }

  lemma {:induction false} NoneAfter1()
    ensures !Occurs("validation_failed", "patch_approval_rejected")
    ensures !Occurs("validation_failed", "conflicting findings")
    ensures !Occurs("validation_failed", "review/fix loop stopped")
    ensures !Occurs("validation_failed", "implementation did not reach validation")
  {
    hide Occurs;
    CannotOccur("validation_failed", "patch_approval_rejected", 3);
    CannotOccur("validation_failed", "conflicting findings", 0);
    CannotOccur("validation_failed", "review/fix loop stopped", 1);
    CannotOccur("validation_failed", "implementation did not reach validation", 10);
  }

  lemma {:induction false} NoneAfter2()
    ensures !Occurs("plan_rejected", "patch_approval_rejected")
    ensures !Occurs("plan_rejected", "budget exhausted")
    ensures !Occurs("plan_rejected", "conflicting findings")
    ensures !Occurs("plan_rejected", "review/fix loop stopped")
    ensures !Occurs("plan_rejected", "implementation did not reach validation")
  {
    hide Occurs;
    CannotOccur("plan_rejected", "patch_approval_rejected", 3);
    CannotOccur("plan_rejected", "budget exhausted", 0);
    CannotOccur("plan_rejected", "conflicting findings", 0);
    CannotOccur("plan_rejected", "review/fix loop stopped", 2);
    CannotOccur("plan_rejected", "implementation did not reach validation", 4);
  }

  lemma {:induction false} NoneAfter3()
    ensures !Occurs("patch_approval_rejected", "review/fix loop stopped")
    ensures !Occurs("patch_approval_rejected", "implementation did not reach validation")
  {
    hide Occurs;
    CannotOccur("patch_approval_rejected", "review/fix loop stopped", 1);
    CannotOccur("patch_approval_rejected", "implementation did not reach validation", 5);
  }

  lemma {:induction false} NoneAfter4()
    ensures !Occurs("budget exhausted", "conflicting findings")
    ensures !Occurs("budget exhausted", "review/fix loop stopped")
    ensures !Occurs("budget exhausted", "implementation did not reach validation")
  {
    hide Occurs;
    CannotOccur("budget exhausted", "conflicting findings", 0);
    CannotOccur("budget exhausted", "review/fix loop stopped", 0);
    CannotOccur("budget exhausted", "implementation did not reach validation", 0);
  }

  lemma {:induction false} NoneAfter5()
    ensures !Occurs("no progress", "conflicting findings")
    ensures !Occurs("no progress", "review/fix loop stopped")
    ensures !Occurs("no progress", "implementation did not reach validation")
  {
    hide Occurs;
    CannotOccur("no progress", "conflicting findings", 3);
    CannotOccur("no progress", "review/fix loop stopped", 0);
    CannotOccur("no progress", "implementation did not reach validation", 6);
  }

  lemma {:induction false} NoneAfter6()
    ensures !Occurs("conflicting findings", "review/fix loop stopped")
    ensures !Occurs("conflicting findings", "implementation did not reach validation")
  {
    hide Occurs;
    CannotOccur("conflicting findings", "review/fix loop stopped", 0);
    CannotOccur("conflicting findings", "implementation did not reach validation", 3);
  }

  lemma {:induction false} NoneAfter7()
    ensures !Occurs("conflict", "review/fix loop stopped")
    ensures !Occurs("conflict", "implementation did not reach validation")
  {
    hide Occurs;
    CannotOccur("conflict", "review/fix loop stopped", 0);
    CannotOccur("conflict", "implementation did not reach validation", 3);
  }

  lemma {:induction false} NoneAfter8()
    ensures !Occurs("review/fix loop stopped", "implementation did not reach validation")
  {
    hide Occurs;
    CannotOccur("review/fix loop stopped", "implementation did not reach validation", 5);
  }

  lemma {:induction false} EarlierRulesDoNotOccur(i: nat, j: nat)
    requires i < j < |OUTCOME_RULES|
    ensures !Occurs(OUTCOME_RULES[i].substring, OUTCOME_RULES[j].substring)
  {
    hide Occurs;
    if |OUTCOME_RULES[i].substring| > |OUTCOME_RULES[j].substring| {
      CannotOccur(OUTCOME_RULES[i].substring, OUTCOME_RULES[j].substring, 0);
    } else if i == 0 {
      NoneAfter0();
    } else if i == 1 {
      NoneAfter1();
    } else if i == 2 {
      NoneAfter2();
    } else if i == 3 {
      NoneAfter3();
    } else if i == 4 {
      NoneAfter4();
    } else if i == 5 {
      NoneAfter5();
    } else if i == 6 {
      NoneAfter6();
    } else if i == 7 {
      NoneAfter7();
    } else if i == 8 {
      NoneAfter8();
    }
  }

  /** With "conflict" ahead of "conflicting findings" the latter would never decide again. */
  lemma {:induction false} ConflictMustComeLater(reason: string)
    ensures FirstMatch(OUTCOME_RULES[6 := OUTCOME_RULES[7]][7 := OUTCOME_RULES[6]], reason, 0) != 7
  {
    hide Occurs;
    var swapped := OUTCOME_RULES[6 := OUTCOME_RULES[7]][7 := OUTCOME_RULES[6]];
    assert Occurs("conflict", "conflicting findings") by { ConflictOccurs(); }
    assert swapped[6].substring == "conflict" && swapped[7].substring == "conflicting findings";
    RuleDecidesIff(swapped, 7);
  }

  lemma {:induction false} ConflictOccurs()
    ensures Occurs("conflict", "conflicting findings")
  {
    assert "conflicting findings"[0..] == "conflicting findings";
  }

  /** A handled terminal is never offered a same-input retry, keeps its reason whole, and is
      never blamed on the sandbox, the store or the filesystem. */
  lemma {:induction false} HandledFailuresAreNotRetryable(status: W.WorkflowStatus, reason: Option<string>)
    requires ClassifyOutcome(status, reason).Some?
    ensures var c := ClassifyOutcome(status, reason).value;
            && !c.retryable && reason == Some(c.detail)
            && c.boundary !in {AtSandbox, AtStateStore, AtFilesystem, AtTool, AtUnknown}
  {
  }
}
