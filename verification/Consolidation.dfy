/** Consolidating one review round's findings (review/consolidation.py,
    review/findings.py). */
module Consolidation {
  import opened Sequences

  datatype FindingStatus = Proposed | Accepted | Rejected | Duplicate | Fixed | Unresolved | Escalated

  datatype FindingEvidence = FindingEvidence(
    files: seq<string>,
    lines: seq<string>,
    tests: seq<string>,
    reasoning: string
  ) {
    predicate IsEmpty() {
      files == [] && lines == [] && tests == [] && reasoning == ""
    }
  }

  datatype ReviewFinding = ReviewFinding(
    findingId: string,
    reviewerType: string,
    category: string,
    severity: string,
    confidence: string,
    summary: string,
    evidence: FindingEvidence,
    impact: string,
    recommendedAction: string,
    deduplicationKey: string,
    status: FindingStatus
  ) {
    function WithStatus(s: FindingStatus): ReviewFinding {
      this.(status := s)
    }
  }

  datatype ConsolidatedReview = ConsolidatedReview(
    accepted: seq<ReviewFinding>,
    rejected: seq<ReviewFinding>,
    duplicates: seq<ReviewFinding>,
    conflicting: seq<ReviewFinding>
  )

  /** Two evidence-backed findings about the same thing. */
  predicate Grouped(f: ReviewFinding, g: ReviewFinding) {
    !f.evidence.IsEmpty() && !g.evidence.IsEmpty() && f.deduplicationKey == g.deduplicationKey
  }

  /** Someone in the group recommends another action. */
  predicate Contradicted(findings: seq<ReviewFinding>, f: ReviewFinding) {
    exists g | g in findings :: Grouped(f, g) && g.recommendedAction != f.recommendedAction
  }

  predicate Seen(earlier: seq<ReviewFinding>, f: ReviewFinding) {
    exists g | g in earlier :: Grouped(f, g)
  }

  /** The evidence gate first, then the group: contradicted, already reported, or new. */
  function Verdict(findings: seq<ReviewFinding>, i: nat): FindingStatus
    requires i < |findings|
  {
    var f := findings[i];
    if f.evidence.IsEmpty() then Rejected
    else if Contradicted(findings, f) then Escalated
    else if Seen(findings[..i], f) then Duplicate
    else Accepted
  }

  /** Of the first `n` findings, those with this verdict, stamped, in report order. */
  function WithVerdict(findings: seq<ReviewFinding>, s: FindingStatus, n: nat): seq<ReviewFinding>
    requires n <= |findings|
  {
    if n == 0 then []
    else WithVerdict(findings, s, n - 1)
         + if Verdict(findings, n - 1) == s then [findings[n - 1].WithStatus(s)] else []
  }

  function Consolidate(findings: seq<ReviewFinding>): ConsolidatedReview {
    ConsolidatedReview(
      WithVerdict(findings, Accepted, |findings|),
      WithVerdict(findings, Rejected, |findings|),
      WithVerdict(findings, Duplicate, |findings|),
      WithVerdict(findings, Escalated, |findings|))
  }

  // ---------- An order-preserving partition ----------

  /** The reports of a group, by position. */
  function Positions(findings: seq<ReviewFinding>, s: FindingStatus, n: nat): (r: seq<nat>)
    requires n <= |findings|
    ensures forall k :: 0 <= k < |r| ==> r[k] < n
  {
    if n == 0 then []
    else Positions(findings, s, n - 1) + if Verdict(findings, n - 1) == s then [n - 1] else []
  }

  lemma {:induction false} GroupByPosition(findings: seq<ReviewFinding>, s: FindingStatus, n: nat)
    requires n <= |findings|
    ensures var at := Positions(findings, s, n);
            var group := WithVerdict(findings, s, n);
            && Increasing(at) && |group| == |at|
            && (forall k :: 0 <= k < |at| ==>
                  group[k] == findings[at[k]].WithStatus(s) && Verdict(findings, at[k]) == s)
  {
    hide Verdict;
    if n > 0 {
      GroupByPosition(findings, s, n - 1);
    }
  }

  lemma {:induction false} PositionHeld(findings: seq<ReviewFinding>, s: FindingStatus, n: nat, i: nat)
    requires i < n <= |findings|
    ensures i in Positions(findings, s, n) <==> Verdict(findings, i) == s
  {
    var more := if Verdict(findings, n - 1) == s then [n - 1] else [];
    InConcat(Positions(findings, s, n - 1), more, i);
    if i < n - 1 {
      PositionHeld(findings, s, n - 1, i);
    }
  }

  lemma {:induction false} GroupSizes(findings: seq<ReviewFinding>, n: nat)
    requires n <= |findings|
    ensures |Positions(findings, Accepted, n)| + |Positions(findings, Rejected, n)|
            + |Positions(findings, Duplicate, n)| + |Positions(findings, Escalated, n)| == n
  {
    if n > 0 {
      GroupSizes(findings, n - 1);
    }
  }

  /** Every finding comes out in exactly one group, stamped with its verdict and otherwise
      unchanged, and every group keeps report order. */
  lemma {:induction false} ConsolidationIsAPartition(findings: seq<ReviewFinding>)
    ensures var r := Consolidate(findings);
            && |r.accepted| + |r.rejected| + |r.duplicates| + |r.conflicting| == |findings|
    ensures forall s ::
              var at := Positions(findings, s, |findings|);
              var group := WithVerdict(findings, s, |findings|);
              && Increasing(at) && |group| == |at|
              && (forall k :: 0 <= k < |at| ==> group[k] == findings[at[k]].WithStatus(s))
              && (forall i: nat :: i < |findings| ==> (i in at <==> Verdict(findings, i) == s))
  {
    GroupSizes(findings, |findings|);
    forall s
      ensures var at := Positions(findings, s, |findings|);
              var group := WithVerdict(findings, s, |findings|);
              && Increasing(at) && |group| == |at|
              && (forall k :: 0 <= k < |at| ==> group[k] == findings[at[k]].WithStatus(s))
              && (forall i: nat :: i < |findings| ==> (i in at <==> Verdict(findings, i) == s))
    {
      GroupByPosition(findings, s, |findings|);
      forall i: nat | i < |findings| ensures i in Positions(findings, s, |findings|) <==> Verdict(findings, i) == s {
        PositionHeld(findings, s, |findings|, i);
      }
    }
    GroupByPosition(findings, Accepted, |findings|);
    GroupByPosition(findings, Rejected, |findings|);
    GroupByPosition(findings, Duplicate, |findings|);
    GroupByPosition(findings, Escalated, |findings|);
  }

  // ---------- What the groups mean ----------

  /** A finding that shows files, lines, tests or reasoning. */
  predicate Backed(f: ReviewFinding) {
    f.evidence != FindingEvidence([], [], [], "")
  }

  /** Finding `j` counts for the key of finding `i`. */
  ghost predicate SpeaksTo(findings: seq<ReviewFinding>, j: nat, i: nat)
    requires i < |findings| && j < |findings|
  {
    Backed(findings[j]) && findings[j].deduplicationKey == findings[i].deduplicationKey
  }

  /** Some backed finding with the key of finding `i` recommends another action. */
  ghost predicate Disputed(findings: seq<ReviewFinding>, i: nat)
    requires i < |findings|
  {
    exists j: nat :: j < |findings| && SpeaksTo(findings, j, i)
                     && findings[j].recommendedAction != findings[i].recommendedAction
  }

  ghost predicate ReportedBefore(findings: seq<ReviewFinding>, i: nat)
    requires i < |findings|
  {
    exists j: nat :: j < i && SpeaksTo(findings, j, i)
  }

  /** Which group a finding is promised to: rejected without evidence, in conflict when another
      backed finding with its key recommends another action, otherwise accepted if it is the
      first backed one with its key and a duplicate if not. */
  ghost predicate Promised(findings: seq<ReviewFinding>, i: nat, s: FindingStatus)
    requires i < |findings|
  {
    match s
    case Rejected => !Backed(findings[i])
    case Escalated => Backed(findings[i]) && Disputed(findings, i)
    case Duplicate => Backed(findings[i]) && !Disputed(findings, i) && ReportedBefore(findings, i)
    case Accepted => Backed(findings[i]) && !Disputed(findings, i) && !ReportedBefore(findings, i)
    case _ => false
  }

  /** The group holds the findings promised to it, in report order and stamped. */
  ghost predicate HoldsPromised(findings: seq<ReviewFinding>, s: FindingStatus, group: seq<ReviewFinding>) {
    exists at: seq<nat> :: GathersPromised(findings, s, group, at)
  }

  ghost predicate GathersPromised(
      findings: seq<ReviewFinding>, s: FindingStatus, group: seq<ReviewFinding>, at: seq<nat>)
  {
    && Increasing(at) && |group| == |at|
    && (forall k :: 0 <= k < |at| ==> at[k] < |findings| && group[k] == findings[at[k]].(status := s))
    && forall i: nat :: i < |findings| ==> (i in at <==> Promised(findings, i, s))
  }

  lemma {:induction false} DisputedIsContradicted(findings: seq<ReviewFinding>, i: nat)
    requires i < |findings| && Backed(findings[i])
    ensures Contradicted(findings, findings[i]) <==> Disputed(findings, i)
  {
    var f := findings[i];
    if g :| g in findings && Grouped(f, g) && g.recommendedAction != f.recommendedAction {
      var j: nat :| j < |findings| && findings[j] == g;
      assert SpeaksTo(findings, j, i);
    }
    if j: nat :| j < |findings| && SpeaksTo(findings, j, i)
                 && findings[j].recommendedAction != f.recommendedAction {
      assert Grouped(f, findings[j]);
    }
  }

  lemma {:induction false} ReportedIsSeen(findings: seq<ReviewFinding>, i: nat)
    requires i < |findings| && Backed(findings[i])
    ensures Seen(findings[..i], findings[i]) <==> ReportedBefore(findings, i)
  {
    var f := findings[i];
    if g :| g in findings[..i] && Grouped(f, g) {
      var j: nat :| j < i && findings[..i][j] == g;
      assert SpeaksTo(findings, j, i);
    }
    if j: nat :| j < i && SpeaksTo(findings, j, i) {
      assert findings[..i][j] == findings[j] && Grouped(f, findings[j]);
    }
  }

  lemma {:induction false} VerdictIsPromised(findings: seq<ReviewFinding>, i: nat, s: FindingStatus)
    requires i < |findings|
    ensures Verdict(findings, i) == s <==> Promised(findings, i, s)
  {
    hide Contradicted, Seen, Disputed, ReportedBefore;
    if Backed(findings[i]) {
      DisputedIsContradicted(findings, i);
      ReportedIsSeen(findings, i);
    }
  }

  /** Every group of a consolidation holds exactly what is promised to it. */
  lemma {:induction false} ConsolidatesAsPromised(findings: seq<ReviewFinding>)
    ensures var r := Consolidate(findings);
            && HoldsPromised(findings, Accepted, r.accepted) && HoldsPromised(findings, Rejected, r.rejected)
            && HoldsPromised(findings, Duplicate, r.duplicates) && HoldsPromised(findings, Escalated, r.conflicting)
  {
    hide Verdict, Promised, WithVerdict, Positions;
    ConsolidationIsAPartition(findings);
    forall s ensures HoldsPromised(findings, s, WithVerdict(findings, s, |findings|)) {
      var at := Positions(findings, s, |findings|);
      forall i: nat | i < |findings| ensures i in at <==> Promised(findings, i, s) {
        VerdictIsPromised(findings, i, s);
      }
      assert GathersPromised(findings, s, WithVerdict(findings, s, |findings|), at);
    }
  }

  /** Where the backed findings with one key agree, the first of them is accepted and every
      later one is a duplicate. */
  lemma {:induction false} AgreedKeyIsAcceptedOnce(findings: seq<ReviewFinding>, i: nat, j: nat)
    requires i <= j < |findings| && SpeaksTo(findings, i, i) && SpeaksTo(findings, j, i)
    requires forall k: nat :: k < |findings| && SpeaksTo(findings, k, i) ==>
                                k >= i && findings[k].recommendedAction == findings[i].recommendedAction
    ensures var r := Consolidate(findings);
            if i == j then findings[j].(status := Accepted) in r.accepted
            else findings[j].(status := Duplicate) in r.duplicates
  {
    hide Backed, Consolidate;
    ConsolidatesAsPromised(findings);
    var r := Consolidate(findings);
    forall k: nat | k < |findings| ensures SpeaksTo(findings, k, j) <==> SpeaksTo(findings, k, i) {}
    var s := if i == j then Accepted else Duplicate;
    var group := if i == j then r.accepted else r.duplicates;
    assert Promised(findings, j, s) by {
      assert i < j ==> SpeaksTo(findings, i, j);
    }
    var at: seq<nat> :| GathersPromised(findings, s, group, at);
    var k :| 0 <= k < |at| && at[k] == j;
    assert group[k] in group;
  }

  ghost predicate SomeAcceptedBefore(findings: seq<ReviewFinding>, i: nat)
    requires i < |findings|
  {
    exists j: nat | j < i ::
      && Verdict(findings, j) == Accepted
      && findings[j].deduplicationKey == findings[i].deduplicationKey
      && findings[j].recommendedAction == findings[i].recommendedAction
  }

  /** Every duplicate repeats an earlier accepted finding: same key, same action. */
  lemma {:induction false} DuplicateOfAccepted(findings: seq<ReviewFinding>, i: nat)
    requires i < |findings| && Verdict(findings, i) == Duplicate
    ensures SomeAcceptedBefore(findings, i)
  {
    var f := findings[i];
    var g :| g in findings[..i] && Grouped(f, g);
    var j: nat :| j < i && findings[j] == g;
    assert g in findings && g.recommendedAction == f.recommendedAction && Grouped(g, f);
    GroupStandsTogether(findings, g, f);
    if Verdict(findings, j) == Duplicate {
      DuplicateOfAccepted(findings, j);
    }
  }

  /** A group is contradicted as a whole or not at all. */
  lemma {:induction false} GroupStandsTogether(findings: seq<ReviewFinding>, f: ReviewFinding, g: ReviewFinding)
    requires f in findings && g in findings && Grouped(f, g)
    ensures Contradicted(findings, f) ==> Contradicted(findings, g)
  {
    if Contradicted(findings, f) {
      var h :| h in findings && Grouped(f, h) && h.recommendedAction != f.recommendedAction;
      assert Grouped(g, if h.recommendedAction == g.recommendedAction then f else h);
    }
  }

  /** Accepted keys are unique and never contradicted. */
  lemma {:induction false} AcceptedKeysAreUnique(findings: seq<ReviewFinding>, i: nat, j: nat)
    requires i < j < |findings| && findings[i].deduplicationKey == findings[j].deduplicationKey
    ensures !(Verdict(findings, i) == Accepted && Verdict(findings, j) == Accepted)
    ensures !(Verdict(findings, i) == Accepted && Verdict(findings, j) == Escalated)
    ensures !(Verdict(findings, i) == Escalated && Verdict(findings, j) == Accepted)
  {
    var f, g := findings[i], findings[j];
    if Grouped(f, g) {
      assert f in findings[..j] && Grouped(g, f);
      GroupStandsTogether(findings, f, g);
      GroupStandsTogether(findings, g, f);
    }
  }

  // ---------- Consolidating again ----------

  ghost predicate Settled(findings: seq<ReviewFinding>) {
    && (forall i :: 0 <= i < |findings| ==> !findings[i].evidence.IsEmpty() && findings[i].status == Accepted)
    && (forall i, j :: 0 <= i < j < |findings| ==> findings[i].deduplicationKey != findings[j].deduplicationKey)
  }

  lemma {:induction false} AcceptedAreSettled(findings: seq<ReviewFinding>)
    ensures Settled(Consolidate(findings).accepted)
  {
    var at := Positions(findings, Accepted, |findings|);
    GroupByPosition(findings, Accepted, |findings|);
    forall i, j | 0 <= i < j < |at| ensures findings[at[i]].deduplicationKey != findings[at[j]].deduplicationKey {
      if findings[at[i]].deduplicationKey == findings[at[j]].deduplicationKey {
        AcceptedKeysAreUnique(findings, at[i], at[j]);
      }
    }
  }

  lemma {:induction false} SettledVerdict(findings: seq<ReviewFinding>, i: nat)
    requires Settled(findings) && i < |findings|
    ensures Verdict(findings, i) == Accepted
  {
    var f := findings[i];
    forall g | g in findings && Grouped(f, g) ensures g == f {
      var j :| 0 <= j < |findings| && findings[j] == g;
    }
    forall g | g in findings[..i] ensures !Grouped(f, g) {
      var j :| 0 <= j < i && findings[..i][j] == g;
    }
  }

  lemma {:induction false} WithVerdictStep(findings: seq<ReviewFinding>, s: FindingStatus, n: nat)
    requires n < |findings|
    ensures WithVerdict(findings, s, n + 1)
            == WithVerdict(findings, s, n)
               + if Verdict(findings, n) == s then [findings[n].WithStatus(s)] else []
  {
    hide Verdict;
  }

  lemma {:induction false} SettledGroups(findings: seq<ReviewFinding>, s: FindingStatus, n: nat)
    requires Settled(findings) && n <= |findings|
    ensures WithVerdict(findings, s, n) == if s == Accepted then findings[..n] else []
  {
    hide WithVerdict, Verdict;
    if n == 0 {
      NoVerdicts(findings, s);
    } else {
      SettledGroups(findings, s, n - 1);
      SettledVerdict(findings, n - 1);
      WithVerdictStep(findings, s, n - 1);
      assert findings[n - 1].WithStatus(Accepted) == findings[n - 1];
      assert findings[..n - 1] + [findings[n - 1]] == findings[..n];
    }
  }

  lemma {:induction false} NoVerdicts(findings: seq<ReviewFinding>, s: FindingStatus)
    ensures WithVerdict(findings, s, 0) == []
  {
  }

  /** Consolidating the accepted findings again returns them unchanged and nothing else. */
  lemma {:induction false} ConsolidationIsIdempotent(findings: seq<ReviewFinding>)
    ensures var accepted := Consolidate(findings).accepted;
            Consolidate(accepted) == ConsolidatedReview(accepted, [], [], [])
  {
    var accepted := Consolidate(findings).accepted;
    AcceptedAreSettled(findings);
    SettledGroups(accepted, Accepted, |accepted|);
    SettledGroups(accepted, Rejected, |accepted|);
    SettledGroups(accepted, Duplicate, |accepted|);
    SettledGroups(accepted, Escalated, |accepted|);
    assert accepted[..|accepted|] == accepted;
  }

  // ---------- The order of reports ----------

  /** The findings that satisfy `keep`, stamped. */
  function Stamped(keep: ReviewFinding -> bool, s: FindingStatus, findings: seq<ReviewFinding>): seq<ReviewFinding> {
    if findings == [] then []
    else
      var last := findings[|findings| - 1];
      Stamped(keep, s, findings[..|findings| - 1]) + if keep(last) then [last.WithStatus(s)] else []
  }

  lemma {:induction false} StampedConcat(
      keep: ReviewFinding -> bool, s: FindingStatus, a: seq<ReviewFinding>, b: seq<ReviewFinding>)
    ensures Stamped(keep, s, a + b) == Stamped(keep, s, a) + Stamped(keep, s, b)
  {
    hide Stamped;
    if b == [] {
      assert a + b == a;
      StampedSnoc(keep, s, b);
    } else {
      var k := |b| - 1;
      StampedConcat(keep, s, a, b[..k]);
      StampedSnoc(keep, s, a + b);
      StampedSnoc(keep, s, b);
      assert (a + b)[..|a| + k] == a + b[..k];
    }
  }

  lemma {:induction false} StampedSnoc(keep: ReviewFinding -> bool, s: FindingStatus, findings: seq<ReviewFinding>)
    ensures Stamped(keep, s, findings)
            == if findings == [] then []
               else
                 var last := findings[|findings| - 1];
                 Stamped(keep, s, findings[..|findings| - 1]) + if keep(last) then [last.WithStatus(s)] else []
  {
  }

  /** Taking one finding out takes out what it contributes. */
  lemma {:induction false} StampedWithout(
      keep: ReviewFinding -> bool, s: FindingStatus, b: seq<ReviewFinding>, i: nat)
    requires i < |b|
    ensures var rest := b[..i] + b[i + 1..];
            && multiset(b) == multiset(rest) + multiset{b[i]}
            && multiset(Stamped(keep, s, b)) == multiset(Stamped(keep, s, rest)) + multiset(Stamped(keep, s, [b[i]]))
  {
    hide Stamped;
    assert b == (b[..i] + [b[i]]) + b[i + 1..];
    StampedConcat(keep, s, b[..i] + [b[i]], b[i + 1..]);
    StampedConcat(keep, s, b[..i], [b[i]]);
    StampedConcat(keep, s, b[..i], b[i + 1..]);
  }

  lemma {:induction false} StampedOrderFree(
      keep: ReviewFinding -> bool, s: FindingStatus, a: seq<ReviewFinding>, b: seq<ReviewFinding>)
    requires multiset(a) == multiset(b)
    ensures multiset(Stamped(keep, s, a)) == multiset(Stamped(keep, s, b))
    decreases |a|
  {
    hide Stamped;
    if a == [] {
      assert |multiset(a)| == 0 && |multiset(b)| == |b|;
      assert b == [];
    } else {
      assert a[0] in multiset(b);
      var i :| 0 <= i < |b| && b[i] == a[0];
      StampedWithout(keep, s, a, 0);
      StampedWithout(keep, s, b, i);
      var c, d := a[..0] + a[1..], b[..i] + b[i + 1..];
      assert multiset(c) == multiset(a) - multiset{a[0]};
      assert multiset(d) == multiset(b) - multiset{b[i]};
      StampedOrderFree(keep, s, c, d);
    }
  }

  function IsRejected(): ReviewFinding -> bool {
    (f: ReviewFinding) => f.evidence.IsEmpty()
  }

  function IsConflicting(findings: seq<ReviewFinding>): ReviewFinding -> bool {
    (f: ReviewFinding) => !f.evidence.IsEmpty() && Contradicted(findings, f)
  }

  lemma {:induction false} StampedAlike(
      p: ReviewFinding -> bool, q: ReviewFinding -> bool, s: FindingStatus, findings: seq<ReviewFinding>)
    requires forall f :: p(f) == q(f)
    ensures Stamped(p, s, findings) == Stamped(q, s, findings)
  {
    if findings != [] {
      StampedAlike(p, q, s, findings[..|findings| - 1]);
    }
  }

  lemma {:induction false} VerdictOfValue(findings: seq<ReviewFinding>, i: nat)
    requires i < |findings|
    ensures Verdict(findings, i) == Rejected <==> IsRejected()(findings[i])
    ensures Verdict(findings, i) == Escalated <==> IsConflicting(findings)(findings[i])
  {
    hide Contradicted, Seen;
  }

  lemma {:induction false} GroupByValue(
      findings: seq<ReviewFinding>, s: FindingStatus, keep: ReviewFinding -> bool, n: nat)
    requires n <= |findings|
    requires forall i :: 0 <= i < |findings| ==> (Verdict(findings, i) == s <==> keep(findings[i]))
    ensures WithVerdict(findings, s, n) == Stamped(keep, s, findings[..n])
  {
    hide WithVerdict, Verdict, Stamped;
    StampedSnoc(keep, s, findings[..n]);
    if n == 0 {
      NoVerdicts(findings, s);
    } else {
      GroupByValue(findings, s, keep, n - 1);
      WithVerdictStep(findings, s, n - 1);
      assert findings[..n][..n - 1] == findings[..n - 1];
    }
  }

  lemma {:induction false} VerdictByValue(findings: seq<ReviewFinding>, n: nat)
    requires n <= |findings|
    ensures WithVerdict(findings, Rejected, n) == Stamped(IsRejected(), Rejected, findings[..n])
    ensures WithVerdict(findings, Escalated, n) == Stamped(IsConflicting(findings), Escalated, findings[..n])
  {
    hide WithVerdict, Verdict, Stamped, IsRejected, IsConflicting;
    forall i | 0 <= i < |findings|
      ensures Verdict(findings, i) == Rejected <==> IsRejected()(findings[i])
      ensures Verdict(findings, i) == Escalated <==> IsConflicting(findings)(findings[i])
    {
      VerdictOfValue(findings, i);
    }
    GroupByValue(findings, Rejected, IsRejected(), n);
    GroupByValue(findings, Escalated, IsConflicting(findings), n);
  }

  /** A key is settled when some backed finding has it and nobody contradicts it. */
  predicate SettledKey(findings: seq<ReviewFinding>, key: string) {
    exists f | f in findings :: f.deduplicationKey == key && !f.evidence.IsEmpty() && !Contradicted(findings, f)
  }

  predicate HasKey(findings: seq<ReviewFinding>, key: string) {
    exists f | f in findings :: f.deduplicationKey == key
  }

  lemma {:induction false} FirstOfGroupIsAccepted(findings: seq<ReviewFinding>, i: nat)
    requires i < |findings| && Verdict(findings, i) in {Accepted, Duplicate}
    ensures HasKey(Consolidate(findings).accepted, findings[i].deduplicationKey)
  {
    if Verdict(findings, i) == Duplicate {
      DuplicateOfAccepted(findings, i);
      var j: nat :| && j < i && Verdict(findings, j) == Accepted
                    && findings[j].deduplicationKey == findings[i].deduplicationKey;
      FirstOfGroupIsAccepted(findings, j);
    } else {
      var at := Positions(findings, Accepted, |findings|);
      GroupByPosition(findings, Accepted, |findings|);
      PositionHeld(findings, Accepted, |findings|, i);
      var k :| 0 <= k < |at| && at[k] == i;
      assert Consolidate(findings).accepted[k].deduplicationKey == findings[i].deduplicationKey;
    }
  }

  /** The accepted keys are the settled ones. */
  lemma {:induction false} AcceptedKeysAreSettledKeys(findings: seq<ReviewFinding>, key: string)
    ensures SettledKey(findings, key) <==> HasKey(Consolidate(findings).accepted, key)
  {
    if SettledKey(findings, key) {
      var f :| f in findings && f.deduplicationKey == key && !f.evidence.IsEmpty() && !Contradicted(findings, f);
      var i :| 0 <= i < |findings| && findings[i] == f;
      FirstOfGroupIsAccepted(findings, i);
    }
    var accepted := Consolidate(findings).accepted;
    if HasKey(accepted, key) {
      var k :| 0 <= k < |accepted| && accepted[k].deduplicationKey == key;
      GroupByPosition(findings, Accepted, |findings|);
      var f := findings[Positions(findings, Accepted, |findings|)[k]];
      assert f in findings && f.deduplicationKey == key;
    }
  }

  /** Some backed finding has the key, and no other backed one with it recommends another action. */
  ghost predicate AgreedKey(findings: seq<ReviewFinding>, key: string) {
    exists i: nat :: i < |findings| && Backed(findings[i]) && findings[i].deduplicationKey == key
                     && !Disputed(findings, i)
  }

  /** The accepted keys are those on which the backed findings agree. */
  lemma {:induction false} AcceptedKeysAreAgreedKeys(findings: seq<ReviewFinding>, key: string)
    ensures AgreedKey(findings, key) <==> HasKey(Consolidate(findings).accepted, key)
  {
    hide Disputed, Contradicted, Consolidate;
    AcceptedKeysAreSettledKeys(findings, key);
    if i: nat :| i < |findings| && Backed(findings[i]) && findings[i].deduplicationKey == key
                 && !Disputed(findings, i) {
      DisputedIsContradicted(findings, i);
      assert findings[i] in findings;
    }
    if f :| f in findings && f.deduplicationKey == key && !f.evidence.IsEmpty() && !Contradicted(findings, f) {
      var i: nat :| i < |findings| && findings[i] == f;
      DisputedIsContradicted(findings, i);
    }
  }

  lemma {:induction false} SameFindingsSameGroups(a: seq<ReviewFinding>, b: seq<ReviewFinding>)
    requires multiset(a) == multiset(b)
    ensures forall f :: Contradicted(a, f) == Contradicted(b, f)
    ensures forall key :: SettledKey(a, key) == SettledKey(b, key)
  {
    assert forall f :: f in a <==> f in multiset(a);
    assert forall f :: f in b <==> f in multiset(b);
  }

  /** Reporting the same findings in another order accepts the same keys and rejects and
      escalates the same findings. */
  lemma {:induction false} OrderDoesNotMatter(a: seq<ReviewFinding>, b: seq<ReviewFinding>)
    requires multiset(a) == multiset(b)
    ensures multiset(Consolidate(a).rejected) == multiset(Consolidate(b).rejected)
    ensures multiset(Consolidate(a).conflicting) == multiset(Consolidate(b).conflicting)
    ensures forall key :: HasKey(Consolidate(a).accepted, key) <==> HasKey(Consolidate(b).accepted, key)
  {
    SameFindingsSameGroups(a, b);
    VerdictByValue(a, |a|);
    VerdictByValue(b, |b|);
    assert a[..|a|] == a && b[..|b|] == b;
    StampedOrderFree(IsRejected(), Rejected, a, b);
    StampedOrderFree(IsConflicting(a), Escalated, a, b);
    StampedAlike(IsConflicting(a), IsConflicting(b), Escalated, b);
    forall key ensures HasKey(Consolidate(a).accepted, key) <==> HasKey(Consolidate(b).accepted, key) {
      AcceptedKeysAreSettledKeys(a, key);
      AcceptedKeysAreSettledKeys(b, key);
    }
  }
}
