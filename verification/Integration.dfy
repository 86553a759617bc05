/** Deterministic assembly of parallel worker patches onto one integration worktree
    (workflows/integration.py). */
module Integration {
  import opened Diffs
  import opened Hunks
  import opened PatchFolds
  import opened Sequences

  datatype WorkerPatch = WorkerPatch(workerId: string, patch: Diff, baseRevision: string)

  // ---------- The staged diff ----------

  function Differing(base: Tree, t: Tree): set<string> {
    set p | p in base.Keys + t.Keys && Lookup(base, p) != Lookup(t, p)
  }

  /** How the diff shows one changed file; a modification is one hunk over the whole file. */
  function FileChange(base: Tree, t: Tree, p: string): FileEdit
    requires p in Differing(base, t)
  {
    if p !in base then Create(t[p])
    else if p !in t then Delete(base[p])
    else Modify([AllRemoved(base[p]) + AllAdded(t[p])])
  }

  /** The staged diff of a worktree against its base: one section per changed file. */
  function Staged(base: Tree, t: Tree, order: seq<string>): (d: Diff)
    requires IsOrder(order, Differing(base, t))
    ensures |d| == |order|
    ensures forall k :: 0 <= k < |d| ==> d[k] == Section(order[k], FileChange(base, t, order[k]))
  {
    var d := seq(|order|, k requires 0 <= k < |order| => Section(order[k], FileChange(base, t, order[k])));
    assert OnePerPath(d) by {
      forall i, j | 0 <= i < j < |d| ensures Separate(d[i], d[j]) {}
      forall s | s in d ensures WellFormed(s) {
        assert s.path in order && (s.path in base || s.path in t);
      }
    }
    d
  }

  lemma {:induction false} FileChangeApplies(base: Tree, t: Tree, p: string)
    requires p in Differing(base, t)
    ensures ApplyEdit(Lookup(base, p), FileChange(base, t, p)) == Some(Lookup(t, p))
  {
    hide ApplyHunks;
    if p in base && p in t {
      WholeFileHunk(base[p], t[p]);
    }
  }

  lemma {:induction false} FileChangeDone(base: Tree, t: Tree, s: Section)
    requires s.path in Differing(base, t) && s.edit == FileChange(base, t, s.path)
    ensures Done(base, s, t)
  {
    hide ApplyEdit;
    FileChangeApplies(base, t, s.path);
  }

  /** The sections of the staged diff are the changes of the files that differ. */
  lemma {:induction false} StagedSection(base: Tree, t: Tree, order: seq<string>, s: Section)
    requires IsOrder(order, Differing(base, t)) && s in Staged(base, t, order)
    ensures s.path in Differing(base, t) && s.edit == FileChange(base, t, s.path)
  {
    hide FileChange, Differing, OnePerPath, Treelike;
    var d := Staged(base, t, order);
    var k :| 0 <= k < |d| && d[k] == s;
    assert order[k] in order;
  }

  lemma {:induction false} StagedTouches(base: Tree, t: Tree, order: seq<string>, p: string)
    requires IsOrder(order, Differing(base, t)) && p in Differing(base, t)
    ensures p in Touched(Staged(base, t, order))
  {
    hide FileChange, Differing, OnePerPath, Treelike, Target, Touched;
    var d := Staged(base, t, order);
    assert p in order;
    var k :| 0 <= k < |order| && order[k] == p;
    assert d[k] in d && Touches(d[k], p);
    assert InTouched(d, p);
  }

  lemma {:induction false} StagedOutcome(base: Tree, t: Tree, order: seq<string>)
    requires IsOrder(order, Differing(base, t))
    ensures Outcome(base, Staged(base, t, order), t)
  {
    hide Effect, FileChange, IsOrder, OnePerPath, AgreeFor, Staged, Makes, Target, Kin, Differing, Touched;
    var d := Staged(base, t, order);
    forall s | s in d ensures Done(base, s, t) {
      StagedSection(base, t, order, s);
      FileChangeDone(base, t, s);
    }
    forall p | p !in Touched(d) ensures Lookup(t, p) == Lookup(base, p) {
      if p in Differing(base, t) {
        StagedTouches(base, t, order, p);
      } else {
        NotDiffering(base, t, p);
      }
    }
  }

  lemma {:induction false} NotDiffering(base: Tree, t: Tree, p: string)
    requires p !in Differing(base, t)
    ensures Lookup(t, p) == Lookup(base, p)
  {
  }

  /** Applied to the base the staged diff gives the captured tree back, in whatever order
      its files are listed; it is empty exactly when nothing changed. */
  lemma {:induction false} StagedRestores(base: Tree, t: Tree, order: seq<string>)
    requires IsOrder(order, Differing(base, t))
    ensures var d := Staged(base, t, order);
            (d == [] <==> t == base) && (d != [] ==> Apply(base, d) == Some(t))
  {
    hide FileChange, Apply, IsOrder, Treelike, OnePerPath, Outcome, Staged, Differing;
    StagedOutcome(base, t, order);
    DiffRestores(base, Staged(base, t, order), t);
    if Staged(base, t, order) != [] {
      StagedSection(base, t, order, Staged(base, t, order)[0]);
      assert Staged(base, t, order)[0].path in Differing(base, t);
      DifferingDiffer(base, t, Staged(base, t, order)[0].path);
    }
  }

  /** The staged diff read backwards leads from the captured tree to the base. */
  lemma {:induction false} StagedReverses(base: Tree, t: Tree, order: seq<string>)
    requires IsOrder(order, Differing(base, t)) && t != base
    ensures Apply(t, ReverseDiff(Staged(base, t, order))) == Some(base)
  {
    hide Apply, IsOrder, Treelike, OnePerPath, Staged, Differing, ReverseDiff, FileChange, RetracesIn;
    var d := Staged(base, t, order);
    StagedRestores(base, t, order);
    forall s | s in d ensures RetracesIn(base, s, t) {
      StagedSection(base, t, order, s);
      FileChangeRetraces(base, t, s);
    }
    ReverseRestores(base, d, t);
  }

  lemma {:induction false} FileChangeRetraces(base: Tree, t: Tree, s: Section)
    requires s.path in Differing(base, t) && s.edit == FileChange(base, t, s.path)
    ensures RetracesIn(base, s, t)
  {
    hide Retraces;
    if s.edit.Modify? {
      WholeFileRetraces(base[s.path], t[s.path]);
    }
  }

  lemma {:induction false} DifferingDiffer(base: Tree, t: Tree, p: string)
    requires p in Differing(base, t)
    ensures base != t
  {
  }

  /** Any way of listing a set of changed files. */
  ghost predicate Lists(listing: set<string> -> seq<string>) {
    forall s :: IsOrder(listing(s), s)
  }

  function Capture(base: Tree, t: Tree, listing: set<string> -> seq<string>): Diff
    requires Lists(listing)
  {
    Staged(base, t, listing(Differing(base, t)))
  }

  /** The diff leads from the base to the tree, and is empty when there is nothing to do. */
  ghost predicate LeadsTo(base: Tree, d: Diff, t: Tree) {
    (d == [] <==> t == base) && (d != [] ==> Apply(base, d) == Some(t))
  }

  lemma {:induction false} CaptureLeadsTo(base: Tree, t: Tree, listing: set<string> -> seq<string>)
    requires Lists(listing)
    ensures LeadsTo(base, Capture(base, t, listing), t)
  {
    hide Staged, Differing, IsOrder, Apply;
    StagedRestores(base, t, listing(Differing(base, t)));
  }

  // ---------- One round, as a fold ----------

  datatype ConflictRecord = ConflictRecord(workerId: string, conflictedPaths: set<string>)

  datatype IntegrationStep = IntegrationStep(workerId: string, integratedDiff: Diff)

  /** What a failed patch leaves in the worktree: any tree at all, half-written files after
      the plain attempt, conflict markers and unmerged paths after the three-way one. */
  datatype Residue = Residue(debris: Tree, tree: Tree, unmerged: set<string>)

  datatype IntegrationResult = IntegrationResult(
    baseRevision: string,
    applied: seq<string>,
    rejected: seq<ConflictRecord>,
    steps: seq<IntegrationStep>,
    integratedDiff: Diff)

  function ApplyWorker(t: Tree, p: WorkerPatch): Option<Tree> {
    Apply(t, p.patch)
  }

  /** The tree after the first `n` patches of the round. */
  function RoundTree(base: Tree, patches: seq<WorkerPatch>, n: nat): Tree
    requires n <= |patches|
  {
    TreeAt(ApplyWorker, base, patches, n)
  }

  function AppliedAt(base: Tree, patches: seq<WorkerPatch>, n: nat): (r: seq<nat>)
    requires n <= |patches|
    ensures forall k :: 0 <= k < |r| ==> r[k] < n
  {
    Positions(ApplyWorker, base, patches, n, true)
  }

  function RejectedAt(base: Tree, patches: seq<WorkerPatch>, n: nat): (r: seq<nat>)
    requires n <= |patches|
    ensures forall k :: 0 <= k < |r| ==> r[k] < n
  {
    Positions(ApplyWorker, base, patches, n, false)
  }

  function Workers(patches: seq<WorkerPatch>, at: seq<nat>): seq<string>
    requires forall k :: 0 <= k < |at| ==> at[k] < |patches|
  {
    seq(|at|, k requires 0 <= k < |at| => patches[at[k]].workerId)
  }

  /** One step per applied patch: the staged diff of the tree right after it. */
  function Captures(
      base: Tree, patches: seq<WorkerPatch>, listing: set<string> -> seq<string>, at: seq<nat>): seq<IntegrationStep>
    requires Lists(listing) && forall k :: 0 <= k < |at| ==> at[k] < |patches|
  {
    seq(|at|, k requires 0 <= k < |at| =>
          IntegrationStep(patches[at[k]].workerId, Capture(base, RoundTree(base, patches, at[k] + 1), listing)))
  }

  function Records(patches: seq<WorkerPatch>, probe: nat -> Residue, at: seq<nat>): seq<ConflictRecord>
    requires forall k :: 0 <= k < |at| ==> at[k] < |patches|
  {
    seq(|at|, k requires 0 <= k < |at| => ConflictRecord(patches[at[k]].workerId, probe(at[k]).unmerged))
  }

  // ---------- The integration worktree ----------

  class Worktree {
    const base: Tree
    const baseRevision: string
    var tree: Tree
    var unmerged: set<string>
    var alive: bool

    constructor (base: Tree, baseRevision: string)
      ensures this.base == base && this.baseRevision == baseRevision
      ensures tree == base && unmerged == {} && alive
    {
      this.base, this.baseRevision := base, baseRevision;
      tree, unmerged, alive := base, {}, true;
    }

    /** `git apply --index`; a failure may leave files behind that it had begun to write. */
    method ApplyPatch(d: Diff, debris: Tree) returns (ok: bool)
      modifies this`tree
      ensures ok == Apply(old(tree), d).Some?
      ensures tree == if ok then Apply(old(tree), d).value else debris
    {
      var r := Apply(tree, d);
      ok := r.Some?;
      tree := if ok then r.value else debris;
    }

    /** The three-way re-attempt: it only gathers evidence and may leave anything behind. */
    method ApplyThreeWay(residue: Residue)
      modifies this`tree, this`unmerged
      ensures tree == residue.tree && unmerged == residue.unmerged
    {
      tree, unmerged := residue.tree, residue.unmerged;
    }

    method Rollback()
      modifies this`tree, this`unmerged
      ensures tree == base && unmerged == {}
    {
      tree, unmerged := base, {};
    }

    /** Recovery after a conflict: the hard reset, then the captured diff through the patch
        application the worker patches go through. */
    method Recover(captured: Diff, debris: Tree, ghost kept: Tree)
      requires Outcome(base, captured, kept)
      modifies this`tree, this`unmerged
      ensures tree == kept && unmerged == {}
    {
      hide *;
      Rollback();
      DiffRestores(base, captured, kept);
      // The empty diff holds no patch to apply; the reset already gave its tree.
      if captured != [] {
        var restored := ApplyPatch(captured, debris);
      }
    }

    method Destroy()
      modifies this`alive
      ensures !alive
    {
      alive := false;
    }
  }

  /** One integration round. None stands for IntegrationError on base-revision drift. */
  method IntegratePatches(
      base: Tree, revision: string, patches: seq<WorkerPatch>, expected: Option<string>, probe: nat -> Residue,
      listing: set<string> -> seq<string>)
    returns (r: Option<IntegrationResult>, worktree: Worktree)
    requires Lists(listing)
    ensures fresh(worktree) && worktree.alive == r.Some?
    ensures r.None?
            <==> || (expected.Some? && expected.value != revision)
                 || exists p :: p in patches && p.baseRevision != revision
    ensures r.Some? ==>
              && worktree.tree == RoundTree(base, patches, |patches|) && worktree.unmerged == {}
              && r.value.baseRevision == revision
              && r.value.applied == Workers(patches, AppliedAt(base, patches, |patches|))
              && r.value.rejected == Records(patches, probe, RejectedAt(base, patches, |patches|))
              && r.value.steps == Captures(base, patches, listing, AppliedAt(base, patches, |patches|))
              && r.value.integratedDiff == Capture(base, worktree.tree, listing)
    // Patch by patch: which worker each record is about.
    ensures r.Some? ==>
              var fit, unfit := AppliedAt(base, patches, |patches|), RejectedAt(base, patches, |patches|);
              && |r.value.applied| == |r.value.steps| == |fit| && |r.value.rejected| == |unfit|
              && (forall k :: 0 <= k < |fit| ==>
                    && r.value.applied[k] == r.value.steps[k].workerId == patches[fit[k]].workerId
                    && LeadsTo(base, r.value.steps[k].integratedDiff, RoundTree(base, patches, fit[k] + 1)))
              && forall k :: 0 <= k < |unfit| ==>
                    r.value.rejected[k] == ConflictRecord(patches[unfit[k]].workerId, probe(unfit[k]).unmerged)
  {
    hide Apply, RoundTree, AppliedAt, RejectedAt, Workers, Records, LeadsTo;
    hide Capture, Captures, Staged, Differing, IsOrder, Lists, Outcome;
    worktree := new Worktree(base, revision);
    if (expected.Some? && expected.value != revision) || exists p | p in patches :: p.baseRevision != revision {
      worktree.Destroy();
      return None, worktree;
    }
    var applied: seq<string>, rejected: seq<ConflictRecord>, steps: seq<IntegrationStep> := [], [], [];
    var captured: Diff := [];
    RoundStarts(base, patches, probe, listing);
    for n := 0 to |patches|
      invariant worktree.base == base && worktree.alive && worktree.unmerged == {}
      invariant captured == Capture(base, worktree.tree, listing) && worktree.tree == RoundTree(base, patches, n)
      invariant applied == Workers(patches, AppliedAt(base, patches, n))
      invariant steps == Captures(base, patches, listing, AppliedAt(base, patches, n))
      invariant rejected == Records(patches, probe, RejectedAt(base, patches, n))
    {
      ghost var before := worktree.tree;
      RoundAdvances(base, patches, probe, listing, n);
      CaptureLeadsThere(base, before, listing);
      var ok := worktree.ApplyPatch(patches[n].patch, probe(n).debris);
      if ok {
        captured := Capture(base, worktree.tree, listing);
        steps := steps + [IntegrationStep(patches[n].workerId, captured)];
        applied := applied + [patches[n].workerId];
      } else {
        worktree.ApplyThreeWay(probe(n));
        rejected := rejected + [ConflictRecord(patches[n].workerId, worktree.unmerged)];
        worktree.Recover(captured, probe(n).debris, before);
      }
    }
    r := Some(IntegrationResult(revision, applied, rejected, steps, captured));
    RecordsTell(base, patches, probe, listing);
  }

  lemma {:induction false} RecordsTell(
      base: Tree, patches: seq<WorkerPatch>, probe: nat -> Residue, listing: set<string> -> seq<string>)
    requires Lists(listing)
    ensures var fit, unfit := AppliedAt(base, patches, |patches|), RejectedAt(base, patches, |patches|);
            var workers, steps := Workers(patches, fit), Captures(base, patches, listing, fit);
            var records := Records(patches, probe, unfit);
            && |workers| == |steps| == |fit| && |records| == |unfit|
            && (forall k :: 0 <= k < |fit| ==>
                  && workers[k] == steps[k].workerId == patches[fit[k]].workerId
                  && LeadsTo(base, steps[k].integratedDiff, RoundTree(base, patches, fit[k] + 1)))
            && forall k :: 0 <= k < |unfit| ==>
                  records[k] == ConflictRecord(patches[unfit[k]].workerId, probe(unfit[k]).unmerged)
  {
    hide Capture, Lists, RoundTree, AppliedAt, RejectedAt, LeadsTo, Treelike, OnePerPath;
    var fit := AppliedAt(base, patches, |patches|);
    forall k | 0 <= k < |fit|
      ensures LeadsTo(base, Capture(base, RoundTree(base, patches, fit[k] + 1), listing),
                    RoundTree(base, patches, fit[k] + 1))
    {
      CaptureLeadsTo(base, RoundTree(base, patches, fit[k] + 1), listing);
    }
  }

  lemma {:induction false} RoundStarts(
      base: Tree, patches: seq<WorkerPatch>, probe: nat -> Residue, listing: set<string> -> seq<string>)
    requires Lists(listing)
    ensures RoundTree(base, patches, 0) == base && Capture(base, base, listing) == []
    ensures Workers(patches, AppliedAt(base, patches, 0)) == []
    ensures Captures(base, patches, listing, AppliedAt(base, patches, 0)) == []
    ensures Records(patches, probe, RejectedAt(base, patches, 0)) == []
  {
    hide Capture, Lists;
    NothingDiffers(base, listing);
  }

  lemma {:induction false} CaptureLeadsThere(base: Tree, t: Tree, listing: set<string> -> seq<string>)
    requires Lists(listing)
    ensures Outcome(base, Capture(base, t, listing), t)
  {
    hide Staged, Differing, IsOrder, Outcome;
    StagedOutcome(base, t, listing(Differing(base, t)));
  }

  /** What one more patch adds to the round and to its records. */
  lemma {:induction false} RoundAdvances(
      base: Tree, patches: seq<WorkerPatch>, probe: nat -> Residue, listing: set<string> -> seq<string>, n: nat)
    requires n < |patches| && Lists(listing)
    ensures var t, u := RoundTree(base, patches, n), RoundTree(base, patches, n + 1);
            var a, b := AppliedAt(base, patches, n), AppliedAt(base, patches, n + 1);
            var c, d := RejectedAt(base, patches, n), RejectedAt(base, patches, n + 1);
            var outcome := Apply(t, patches[n].patch);
            if outcome.Some? then
              && u == outcome.value && d == c
              && Workers(patches, b) == Workers(patches, a) + [patches[n].workerId]
              && Captures(base, patches, listing, b)
                == Captures(base, patches, listing, a)
                   + [IntegrationStep(patches[n].workerId, Capture(base, u, listing))]
            else
              && u == t && b == a
              && Records(patches, probe, d)
                == Records(patches, probe, c) + [ConflictRecord(patches[n].workerId, probe(n).unmerged)]
  {
    hide Capture, Apply, Lists, Treelike, OnePerPath;
    assert Fits(ApplyWorker, base, patches, n) <==> Apply(RoundTree(base, patches, n), patches[n].patch).Some?;
    if Fits(ApplyWorker, base, patches, n) {
      assert AppliedAt(base, patches, n + 1) == AppliedAt(base, patches, n) + [n];
      assert RejectedAt(base, patches, n + 1) == RejectedAt(base, patches, n);
    } else {
      assert AppliedAt(base, patches, n + 1) == AppliedAt(base, patches, n);
      assert RejectedAt(base, patches, n + 1) == RejectedAt(base, patches, n) + [n];
    }
  }

  /** The integrated diff is the capture of the last step, or empty when nothing applied. */
  lemma {:induction false} LastStepIsIntegratedDiff(
      base: Tree, patches: seq<WorkerPatch>, listing: set<string> -> seq<string>)
    requires Lists(listing)
    ensures var steps := Captures(base, patches, listing, AppliedAt(base, patches, |patches|));
            Capture(base, RoundTree(base, patches, |patches|), listing)
            == if steps == [] then [] else steps[|steps| - 1].integratedDiff
  {
    hide Capture, ApplyWorker, TreeAt, Positions, Fits, Lists, Treelike, OnePerPath;
    LastAppliedTree(ApplyWorker, base, patches, |patches|);
    NothingDiffers(base, listing);
  }

  lemma {:induction false} NothingDiffers(base: Tree, listing: set<string> -> seq<string>)
    requires Lists(listing)
    ensures Capture(base, base, listing) == []
  {
    hide Treelike, FileChange;
    assert IsOrder(listing(Differing(base, base)), Differing(base, base));
    StagedRestores(base, base, listing(Differing(base, base)));
  }
}
