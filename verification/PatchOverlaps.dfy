/** When worker patches stay out of each other's way, and what the file-level overlap test
    run before integration knows about it (workflows/integration.py). */
module PatchOverlaps {
  import opened Diffs
  import opened DiffTexts
  import opened Hunks
  import opened Integration
  import opened Overlaps
  import opened PatchFolds
  import opened Sequences

  // ---------- Independent patches commute ----------

  /** `a` touches nothing that matters to `b`. */
  ghost predicate Avoids(a: Diff, b: Diff) {
    forall p :: p in Touched(a) ==> !Reaches(b, p)
  }

  ghost predicate Independent(patches: seq<WorkerPatch>) {
    forall i, j :: 0 <= i < |patches| && 0 <= j < |patches| && i != j ==> Avoids(patches[i].patch, patches[j].patch)
  }

  /** Patch `i` applies to the base on its own and touches `p`. */
  ghost predicate Writes(base: Tree, patches: seq<WorkerPatch>, i: nat, p: string)
    requires i < |patches|
  {
    Apply(base, patches[i].patch).Some? && p in Touched(patches[i].patch)
  }

  /** At `p` the tree shows what the one patch writing there makes of the base, or the base. */
  ghost predicate MergedAt(base: Tree, patches: seq<WorkerPatch>, n: nat, t: Tree, p: string)
    requires n <= |patches|
  {
    (forall i :: 0 <= i < n && Writes(base, patches, i, p) ==>
       Lookup(t, p) == Lookup(Apply(base, patches[i].patch).value, p))
    && ((forall i :: 0 <= i < n ==> !Writes(base, patches, i, p)) ==> Lookup(t, p) == Lookup(base, p))
  }

  ghost predicate Merged(base: Tree, patches: seq<WorkerPatch>, n: nat)
    requires n <= |patches|
  {
    forall p :: MergedAt(base, patches, n, RoundTree(base, patches, n), p)
  }

  /** Whatever ran before it, an independent patch meets the base on everything that matters
      to it. */
  lemma {:induction false} IndependentRound(base: Tree, patches: seq<WorkerPatch>, n: nat)
    requires n <= |patches| && Independent(patches)
    ensures Merged(base, patches, n)
    ensures n < |patches| ==> AgreeAround(RoundTree(base, patches, n), base, patches[n].patch)
  {
    hide Apply, Reaches, Treelike, OnePerPath, Touched;
    if n > 0 {
      IndependentRound(base, patches, n - 1);
      IndependentAdvance(base, patches, n - 1);
    }
    if n < |patches| {
      forall p | Reaches(patches[n].patch, p)
        ensures Lookup(RoundTree(base, patches, n), p) == Lookup(base, p)
      {
        assert MergedAt(base, patches, n, RoundTree(base, patches, n), p);
        assert forall i :: 0 <= i < n ==> Avoids(patches[i].patch, patches[n].patch);
      }
    }
  }

  lemma {:induction false} IndependentAdvance(base: Tree, patches: seq<WorkerPatch>, n: nat)
    requires n < |patches| && Independent(patches)
    requires Merged(base, patches, n)
    requires AgreeAround(RoundTree(base, patches, n), base, patches[n].patch)
    ensures Merged(base, patches, n + 1)
  {
    hide Apply, Treelike;
    var t, u, d := RoundTree(base, patches, n), RoundTree(base, patches, n + 1), patches[n].patch;
    ApplyIsLocal(t, base, d);
    var m := n + 1;
    forall p ensures MergedAt(base, patches, m, u, p) {
      assert MergedAt(base, patches, n, t, p);
      if p in Touched(d) {
        assert Reaches(d, p);
      } else if Apply(t, d).Some? {
        ApplyFrame(t, d, p);
      }
      if Writes(base, patches, n, p) {
        assert forall i :: 0 <= i < n ==> Avoids(patches[i].patch, d);
      }
    }
  }

  /** An independent patch is applied exactly when it applies to the base on its own. */
  lemma {:induction false} IndependentPatchFits(base: Tree, patches: seq<WorkerPatch>, i: nat)
    requires i < |patches| && Independent(patches)
    ensures Fits(ApplyWorker, base, patches, i) <==> Apply(base, patches[i].patch).Some?
  {
    hide Apply, Treelike;
    IndependentRound(base, patches, i);
    ApplyIsLocal(RoundTree(base, patches, i), base, patches[i].patch);
  }

  lemma {:induction false} PermutedIndependent(patches: seq<WorkerPatch>, perm: seq<nat>)
    requires IsPermutation(perm, |patches|) && Independent(patches)
    ensures Independent(Permute(patches, perm))
  {
    hide Avoids, Treelike, OnePerPath;
    var qs := Permute(patches, perm);
    forall i, j | 0 <= i < |qs| && 0 <= j < |qs| && i != j ensures Avoids(qs[i].patch, qs[j].patch) {
      assert perm[i] != perm[j];
    }
  }

  /** Patch `k` of one round and patch `i` of another are both applied or both rejected. */
  ghost predicate SameFate(base: Tree, qs: seq<WorkerPatch>, k: nat, ps: seq<WorkerPatch>, i: nat) {
    k in AppliedAt(base, qs, |qs|) <==> i in AppliedAt(base, ps, |ps|)
  }

  /** Independent patches commute: in every order the same patches are applied and the same
      tree comes out. */
  lemma {:induction false} IndependentPatchesCommute(base: Tree, patches: seq<WorkerPatch>, perm: seq<nat>)
    requires IsPermutation(perm, |patches|) && Independent(patches)
    ensures var qs := Permute(patches, perm);
            && RoundTree(base, qs, |qs|) == RoundTree(base, patches, |patches|)
            && forall k: nat :: k < |perm| ==> SameFate(base, qs, k, patches, perm[k])
  {
    hide Apply, Treelike, Independent, RoundTree;
    var qs := Permute(patches, perm);
    PermutedIndependent(patches, perm);
    IndependentRound(base, patches, |patches|);
    IndependentRound(base, qs, |qs|);
    var t, u := RoundTree(base, patches, |patches|), RoundTree(base, qs, |qs|);
    forall p ensures Lookup(u, p) == Lookup(t, p) {
      assert MergedAt(base, patches, |patches|, t, p) && MergedAt(base, qs, |qs|, u, p);
      if i :| 0 <= i < |patches| && Writes(base, patches, i, p) {
        PermutationCovers(perm, |patches|, i);
        var k :| 0 <= k < |perm| && perm[k] == i;
        assert Writes(base, qs, k, p);
      } else {
        assert forall k :: 0 <= k < |qs| ==> Writes(base, qs, k, p) == Writes(base, patches, perm[k], p);
      }
    }
    SameFiles(u, t);
    forall k: nat | k < |perm| ensures SameFate(base, qs, k, patches, perm[k]) {
      PositionsPartition(ApplyWorker, base, patches, |patches|, true);
      PositionsPartition(ApplyWorker, base, qs, |qs|, true);
      IndependentPatchFits(base, patches, perm[k]);
      IndependentPatchFits(base, qs, k);
    }
  }

  // ---------- Rejections ----------

  /** No patch of the round is rejected. */
  ghost predicate NoneRejected(base: Tree, patches: seq<WorkerPatch>) {
    RejectedAt(base, patches, |patches|) == []
  }

  lemma {:induction false} NoneRejectedIff(base: Tree, patches: seq<WorkerPatch>)
    ensures NoneRejected(base, patches)
            <==> forall i: nat :: i < |patches| ==> Fits(ApplyWorker, base, patches, i)
  {
    hide Fits, Positions, Treelike, OnePerPath;
    PositionsPartition(ApplyWorker, base, patches, |patches|, false);
    var rejected := RejectedAt(base, patches, |patches|);
    if rejected != [] { assert rejected[0] in rejected; }
  }

  ghost predicate EachApplies(base: Tree, patches: seq<WorkerPatch>) {
    forall i :: 0 <= i < |patches| ==> Apply(base, patches[i].patch).Some?
  }

  ghost predicate FileDisjoint(patches: seq<WorkerPatch>) {
    forall i, j :: 0 <= i < j < |patches| ==> Touched(patches[i].patch) !! Touched(patches[j].patch)
  }

  /** One diff creates a file where the other creates a directory's content. */
  ghost predicate Nested(a: Diff, b: Diff) {
    exists x, y :: Creates(a, x) && Creates(b, y) && Kin(x, y)
  }

  ghost predicate NoNesting(patches: seq<WorkerPatch>) {
    forall i, j :: 0 <= i < j < |patches| ==> !Nested(patches[i].patch, patches[j].patch)
  }

  /** Between patches that each apply to the base and touch no common file, the one thing
      left to get in the way is nesting. */
  lemma {:induction false} DisjointIsIndependent(base: Tree, patches: seq<WorkerPatch>)
    requires EachApplies(base, patches) && FileDisjoint(patches) && NoNesting(patches)
    ensures Independent(patches)
  {
    hide Nested, Avoids, Apply, Treelike, OnePerPath, Touched;
    forall i, j | 0 <= i < |patches| && 0 <= j < |patches| && i != j
      ensures Avoids(patches[i].patch, patches[j].patch)
    {
      NestedIsSymmetric(patches[i].patch, patches[j].patch);
      DisjointAvoids(base, patches[i].patch, patches[j].patch);
    }
  }

  lemma {:induction false} NestedIsSymmetric(a: Diff, b: Diff)
    ensures Nested(a, b) <==> Nested(b, a)
  {
    hide Kin, Creates, OnePerPath;
    if x, y :| Creates(a, x) && Creates(b, y) && Kin(x, y) { KinIsSymmetric(x, y); }
    if x, y :| Creates(b, x) && Creates(a, y) && Kin(x, y) { KinIsSymmetric(x, y); }
  }

  lemma {:induction false} DisjointAvoids(base: Tree, a: Diff, b: Diff)
    requires Apply(base, a).Some? && Apply(base, b).Some?
    requires Touched(a) !! Touched(b) && !Nested(a, b)
    ensures Avoids(a, b)
  {
    hide Apply, Kin, Nested, Creates, Treelike, OnePerPath, Touched;
    forall p | p in Touched(a) ensures !Reaches(b, p) {
      if x :| Creates(b, x) && Kin(x, p) {
        BesideACreation(base, a, b, x, p);
      }
    }
  }

  /** What else could stand in a creation's way the other patch must have created. */
  lemma {:induction false} BesideACreation(base: Tree, a: Diff, b: Diff, x: string, p: string)
    requires Apply(base, a).Some? && Apply(base, b).Some?
    requires Creates(b, x) && Kin(x, p) && p in Touched(a) && p !in Touched(b)
    ensures Nested(a, b)
  {
    hide Apply, Kin, Creates, Deletes, Outcome, Treelike, OnePerPath, Touched;
    CreatedNeedsRoom(base, b, x, p);
    ChangersTouch(b, p);
    ApplyExact(base, a);
    TouchedPath(base, a, Apply(base, a).value, p);
    KinIsSymmetric(x, p);
  }

  lemma {:induction false} CreatedIsNew(t: Tree, d: Diff, p: string)
    requires Apply(t, d).Some? && Creates(d, p)
    ensures p !in t && p in Apply(t, d).value && p in Touched(d)
  {
    hide Apply, Outcome, Makes, Removes, Treelike, OnePerPath, Touched;
    ApplyExact(t, d);
    ChangersTouch(d, p);
    TouchedPath(t, d, Apply(t, d).value, p);
    var s :| s in d && Makes(s) && Target(s) == p;
    MadeIsThere(t, d, Apply(t, d).value, s);
  }

  lemma {:induction false} DeletedWasThere(t: Tree, d: Diff, p: string)
    requires Apply(t, d).Some? && Deletes(d, p)
    ensures p in t && p !in Apply(t, d).value && p in Touched(d)
  {
    hide Apply, Outcome, Treelike, OnePerPath, Touched;
    ApplyExact(t, d);
    ChangersTouch(d, p);
    TouchedPath(t, d, Apply(t, d).value, p);
    var s :| s in d && Removes(s) && s.path == p;
    RemovedWasThere(t, d, Apply(t, d).value, s);
  }

  lemma {:induction false} RemovedWasThere(t: Tree, d: Diff, u: Files, s: Section)
    requires Outcome(t, d, u) && s in d && Removes(s)
    ensures s.path in t
  {
    hide Effect, Outcome, Treelike;
    DoneOnPath(t, d, u, s, s.path);
    assert WellFormed(s);
  }

  /** A created file stays: no patch that shares no file with its patch removes it. */
  lemma {:induction false} CreatedStays(base: Tree, patches: seq<WorkerPatch>, i: nat, p: string, n: nat)
    requires i < n <= |patches| && FileDisjoint(patches)
    requires Fits(ApplyWorker, base, patches, i) && Creates(patches[i].patch, p)
    ensures p in RoundTree(base, patches, n)
    decreases n
  {
    hide Apply, Creates, Treelike, OnePerPath, Touched;
    var t, d := RoundTree(base, patches, n - 1), patches[n - 1].patch;
    ChangersTouch(patches[i].patch, p);
    if n == i + 1 {
      CreatedIsNew(t, d, p);
    } else {
      CreatedStays(base, patches, i, p, n - 1);
      if Apply(t, d).Some? {
        assert p !in Touched(d);
        ApplyFrame(t, d, p);
        assert Lookup(Apply(t, d).value, p) == Lookup(t, p);
      }
    }
  }

  /** Nested creations cannot both go in. */
  lemma {:induction false} NestedIsRejected(base: Tree, patches: seq<WorkerPatch>, i: nat, j: nat)
    requires i < |patches| && j < |patches| && FileDisjoint(patches)
    requires Nested(patches[i].patch, patches[j].patch)
    ensures !NoneRejected(base, patches)
  {
    hide Apply, Kin, Creates, Fits, FileDisjoint, RoundTree;
    NoneRejectedIff(base, patches);
    var x, y :| Creates(patches[i].patch, x) && Creates(patches[j].patch, y) && Kin(x, y);
    var t: Tree := RoundTree(base, patches, |patches|);
    if Fits(ApplyWorker, base, patches, i) && Fits(ApplyWorker, base, patches, j) {
      CreatedStays(base, patches, i, x, |patches|);
      CreatedStays(base, patches, j, y, |patches|);
      assert false;
    }
  }

  // ---------- Overlap detection ----------

  datatype OverlapClass = Safe | ReviewRequired | Prohibited

  datatype OverlapPolicy = OverlapPolicy(safeSuffixes: seq<string>, prohibitedPaths: seq<string>)

  predicate EndsWith(s: string, suffix: string) {
    |suffix| <= |s| && s[|s| - |suffix|..] == suffix
  }

  predicate SafePath(path: string, policy: OverlapPolicy) {
    exists suffix | suffix in policy.safeSuffixes :: EndsWith(path, suffix)
  }

  function ClassifyOverlap(paths: seq<string>, policy: OverlapPolicy): OverlapClass {
    if exists p | p in paths :: p in policy.prohibitedPaths then Prohibited
    else if forall p | p in paths :: SafePath(p, policy) then Safe
    else ReviewRequired
  }

  datatype PatchOverlap = PatchOverlap(first: nat, second: nat, paths: seq<string>, classification: OverlapClass)

  function AllPaths(patches: seq<WorkerPatch>): (r: seq<seq<string>>)
    ensures |r| == |patches|
  {
    seq(|patches|, i requires 0 <= i < |patches| => PathsOf(patches[i].patch))
  }

  function Classified(overlaps: seq<Overlap<string>>, policy: OverlapPolicy): seq<PatchOverlap> {
    seq(|overlaps|, k requires 0 <= k < |overlaps| =>
          var e := overlaps[k];
          PatchOverlap(e.first, e.second, e.paths, ClassifyOverlap(e.paths, policy)))
  }

  /** No two patches change a common path, as far as their diffs name them. */
  ghost predicate NothingShared(patches: seq<WorkerPatch>) {
    forall i, j, p :: 0 <= i < j < |patches| && p in PathsOf(patches[i].patch) ==> p !in PathsOf(patches[j].patch)
  }

  /** The pairs of patches whose diffs name a common path, each once and in order, with just
      these paths and their class. */
  ghost predicate SharedByPairs(patches: seq<WorkerPatch>, policy: OverlapPolicy, r: seq<PatchOverlap>) {
    && (forall k, l :: 0 <= k < l < |r| ==> PairLeq(r[k].first, r[k].second + 1, r[l].first, r[l].second))
    && (forall o :: o in r ==> NamedByBoth(patches, o) && o.classification == ClassifyOverlap(o.paths, policy))
    && forall i: nat, j: nat :: i < j < |patches| ==>
         (ShareAName(patches[i].patch, patches[j].patch) <==> ReportsPair(r, i, j))
  }

  ghost predicate NamedByBoth(patches: seq<WorkerPatch>, o: PatchOverlap) {
    && o.first < o.second < |patches|
    && forall p :: p in o.paths <==> p in PathsOf(patches[o.first].patch) && p in PathsOf(patches[o.second].patch)
  }

  ghost predicate ShareAName(a: Diff, b: Diff) {
    exists p :: p in PathsOf(a) && p in PathsOf(b)
  }

  ghost predicate ReportsPair(r: seq<PatchOverlap>, i: nat, j: nat) {
    exists o :: o in r && o.first == i && o.second == j
  }

  lemma {:induction false} ReportIsShared(patches: seq<WorkerPatch>, policy: OverlapPolicy)
    ensures SharedByPairs(patches, policy, Classified(ReportFrom(AllPaths(patches), 0, 1), policy))
  {
    hide ReportFrom, Shared, PathsOf, ClassifyOverlap, OnePerPath, PairLeq;
    var paths := AllPaths(patches);
    var overlaps := ReportFrom(paths, 0, 1);
    var r := Classified(overlaps, policy);
    ReportInOrder(paths, 0, 1);
    forall o | o in r ensures NamedByBoth(patches, o) && o.classification == ClassifyOverlap(o.paths, policy) {
      var k :| 0 <= k < |r| && r[k] == o;
      var e := overlaps[k];
      assert e in overlaps;
      ReportExact(paths, 0, 1, e);
      forall p ensures p in e.paths <==> p in paths[e.first] && p in paths[e.second] {
        SharedExact(paths[e.first], paths[e.second], p);
      }
    }
    forall i: nat, j: nat | i < j < |patches|
      ensures ShareAName(patches[i].patch, patches[j].patch) <==> ReportsPair(r, i, j)
    {
      OverlapReported(paths, i, j);
      assert paths[i] == PathsOf(patches[i].patch) && paths[j] == PathsOf(patches[j].patch);
      PairIsClassified(overlaps, policy, i, j);
    }
  }

  lemma {:induction false} PairIsClassified(overlaps: seq<Overlap<string>>, policy: OverlapPolicy, i: nat, j: nat)
    ensures ReportsPair(Classified(overlaps, policy), i, j)
            <==> exists e :: e in overlaps && e.first == i && e.second == j
  {
    hide ClassifyOverlap;
    var r := Classified(overlaps, policy);
    if e :| e in overlaps && e.first == i && e.second == j {
      var k :| 0 <= k < |overlaps| && overlaps[k] == e;
      assert r[k] in r;
    }
    if o :| o in r && o.first == i && o.second == j {
      var k :| 0 <= k < |r| && r[k] == o;
      assert overlaps[k] in overlaps;
    }
  }

  method DetectOverlaps(patches: seq<WorkerPatch>, policy: OverlapPolicy) returns (r: seq<PatchOverlap>)
    ensures r == Classified(ReportFrom(AllPaths(patches), 0, 1), policy)
    ensures r == [] <==> NothingShared(patches)
    ensures SharedByPairs(patches, policy, r)
  {
    var paths: seq<seq<string>> := [];
    for i := 0 to |patches|
      invariant |paths| == i && forall k :: 0 <= k < i ==> paths[k] == PathsOf(patches[k].patch)
    {
      var changed := ChangedPaths(Render(patches[i].patch));
      paths := paths + [changed];
    }
    assert paths == AllPaths(patches);
    var overlaps := PairwiseOverlaps(paths);
    EmptyReportIff(patches);
    ReportIsShared(patches, policy);
    r := Classified(overlaps, policy);
  }

  /** The report is empty exactly when no two patches share a named path. */
  lemma {:induction false} EmptyReportIff(patches: seq<WorkerPatch>)
    ensures ReportFrom(AllPaths(patches), 0, 1) == [] <==> NothingShared(patches)
  {
    hide ReportFrom, Shared, PathsOf;
    var paths := AllPaths(patches);
    var report := ReportFrom(paths, 0, 1);
    if report == [] {
      forall i, j, p | 0 <= i < j < |patches| && p in PathsOf(patches[i].patch)
        ensures p !in PathsOf(patches[j].patch)
      {
        OverlapReported(paths, i, j);
        assert paths[i] == PathsOf(patches[i].patch) && paths[j] == PathsOf(patches[j].patch);
      }
    } else {
      var e := report[0];
      assert e in report;
      ReportExact(paths, 0, 1, e);
      var p := e.paths[0];
      SharedExact(paths[e.first], paths[e.second], p);
      assert p in PathsOf(patches[e.first].patch) && p in PathsOf(patches[e.second].patch);
    }
  }

  // ---------- What the report knows ----------

  lemma {:induction false} SharedFileIsSeen(base: Tree, a: Diff, b: Diff, p: string)
    requires Visible(a) && Visible(b) && Apply(base, a).Some? && Apply(base, b).Some?
    requires p in Touched(a) && p in Touched(b) && !Listed(a, p)
    ensures exists q :: Listed(a, q) && Listed(b, q)
  {
    hide Apply, Kin, Creates, Deletes, Outcome, Treelike, OnePerPath, Listed, Touched;
    assert !Hidden(a, p);
    var q :| Deletes(a, q) && Kin(q, p) && Listed(a, q);
    CreatedIsNew(base, a, p);
    ApplyExact(base, b);
    TouchedPath(base, b, Apply(base, b).value, p);
    DeletedWasThere(base, a, q);
    KinIsSymmetric(q, p);
    CreatedNeedsRoom(base, b, p, q);
    DeletedWasThere(base, b, q);
    TouchedPath(base, b, Apply(base, b).value, q);
    assert !Hidden(b, q);
  }

  /** Visible patches that apply to one tree and share no listed path touch no common file. */
  lemma {:induction false} VisibleMeansDisjoint(base: Tree, a: Diff, b: Diff)
    requires Visible(a) && Visible(b) && Apply(base, a).Some? && Apply(base, b).Some?
    requires forall l :: l in PathsOf(a) ==> l !in PathsOf(b)
    ensures Touched(a) !! Touched(b)
  {
    hide Apply, Visible, PathsOf, Label, Treelike, OnePerPath, Touched;
    if p :| p in Touched(a) && p in Touched(b) {
      if !Listed(a, p) {
        SharedFileIsSeen(base, a, b, p);
      } else if !Listed(b, p) {
        SharedFileIsSeen(base, b, a, p);
      }
    }
  }

  lemma {:induction false} NothingSharedMeansDisjoint(base: Tree, patches: seq<WorkerPatch>)
    requires EachApplies(base, patches) && NothingShared(patches)
    requires forall p :: p in patches ==> Visible(p.patch)
    ensures FileDisjoint(patches)
  {
    hide Apply, Visible, PathsOf, Treelike, OnePerPath;
    forall i, j | 0 <= i < j < |patches| ensures Touched(patches[i].patch) !! Touched(patches[j].patch) {
      assert patches[i] in patches && patches[j] in patches;
      VisibleMeansDisjoint(base, patches[i].patch, patches[j].patch);
    }
  }

  lemma {:induction false} PermutedDisjoint(patches: seq<WorkerPatch>, perm: seq<nat>)
    requires IsPermutation(perm, |patches|) && FileDisjoint(patches)
    ensures FileDisjoint(Permute(patches, perm))
  {
    hide Touched, OnePerPath;
    var qs := Permute(patches, perm);
    forall i, j | 0 <= i < j < |qs| ensures Touched(qs[i].patch) !! Touched(qs[j].patch) {
      assert perm[i] != perm[j];
    }
  }

  lemma {:induction false} AllFit(base: Tree, patches: seq<WorkerPatch>)
    requires Independent(patches) && EachApplies(base, patches)
    ensures NoneRejected(base, patches)
  {
    hide Apply, Fits, Independent, Treelike, OnePerPath;
    forall i: nat | i < |patches| ensures Fits(ApplyWorker, base, patches, i) {
      IndependentPatchFits(base, patches, i);
    }
    NoneRejectedIff(base, patches);
  }

  lemma {:induction false} NestingIsPermuted(patches: seq<WorkerPatch>, perm: seq<nat>) returns (k: nat, l: nat)
    requires IsPermutation(perm, |patches|) && !NoNesting(patches)
    ensures k < |perm| && l < |perm| && Nested(Permute(patches, perm)[k].patch, Permute(patches, perm)[l].patch)
  {
    hide Nested, Treelike, OnePerPath;
    var i, j :| 0 <= i < j < |patches| && Nested(patches[i].patch, patches[j].patch);
    PermutationCovers(perm, |patches|, i);
    PermutationCovers(perm, |patches|, j);
    k :| 0 <= k < |perm| && perm[k] == i;
    l :| 0 <= l < |perm| && perm[l] == j;
  }

  /** The file-level test predicts a clean integration exactly up to nesting: when visible
      patches each apply on their own and the report is empty, an order rejects none of them
      if and only if none creates a file above or below one that another creates; and then
      all orders give one tree. */
  lemma {:induction false} DetectorPredictsIff(base: Tree, patches: seq<WorkerPatch>, perm: seq<nat>)
    requires EachApplies(base, patches) && NothingShared(patches) && IsPermutation(perm, |patches|)
    requires forall p :: p in patches ==> Visible(p.patch)
    ensures var qs := Permute(patches, perm);
            && (NoneRejected(base, qs) <==> NoNesting(patches))
            && (NoNesting(patches) ==> RoundTree(base, qs, |qs|) == RoundTree(base, patches, |patches|))
  {
    hide Apply, Visible, NothingShared, NoNesting, FileDisjoint, Independent, NoneRejected, Nested, RoundTree;
    var qs := Permute(patches, perm);
    NothingSharedMeansDisjoint(base, patches);
    if NoNesting(patches) {
      DisjointIsIndependent(base, patches);
      IndependentPatchesCommute(base, patches, perm);
      PermutedIndependent(patches, perm);
      AllFit(base, qs);
    } else {
      var k, l := NestingIsPermuted(patches, perm);
      PermutedDisjoint(patches, perm);
      NestedIsRejected(base, qs, k, l);
    }
  }

  // ---------- What visibility is for ----------

  /** Whatever visible patch it runs beside, no listed path in common means no common file. */
  ghost predicate DetectionIsSound(a: Diff) {
    forall t: Tree, b: Diff :: Unreported(t, a, b) ==> Touched(a) !! Touched(b)
  }

  /** Both patches apply to the tree, the other is visible, and no overlap is reported. */
  ghost predicate Unreported(t: Tree, a: Diff, b: Diff) {
    && Visible(b) && Apply(t, a).Some? && Apply(t, b).Some?
    && forall l :: l in PathsOf(a) ==> l !in PathsOf(b)
  }

  /** A patch that writes the echo of its own path above and below a whole file. */
  function LinesAdded(p: string, lines: seq<string>): Diff
    requires Legal(p)
  {
    [Section(p, Modify([[Echo(p)] + AllContext(lines) + [Echo(p)]]))]
  }

  /** A patch that creates a file with the echo of its own path. */
  function FileCreated(p: string): Diff
    requires Legal(p)
  {
    [Section(p, Create([Echo(p).text]))]
  }

  lemma {:induction false} LinesAddedFit(t: Tree, p: string, lines: seq<string>)
    requires Legal(p)
    ensures Apply(t, LinesAdded(p, lines)).Some? <==> Lookup(t, p) == Some(lines)
  {
    hide ApplyHunks, Apply, Treelike, AllContext, Echo;
    var b := LinesAdded(p, lines);
    LoneEdit(t, b, b[0]);
    if p in t {
      IsAnAddition(p);
      HunkFitsItsFile(t[p], Echo(p), lines);
    }
  }

  /** A diff of one section that puts no new file anywhere goes in exactly when it fits. */
  lemma {:induction false} LoneEdit(t: Tree, d: Diff, s: Section)
    requires d == [s] && !Makes(s)
    ensures Apply(t, d).Some? <==> Effect(t, s).Some?
  {
    hide Apply, Kin, Treelike, Effect, Makes, OnePerPath;
    assert forall r :: r in d <==> r == s;
    assert forall u :: !Obstructed(u, d);
    ApplyExact(t, d);
  }

  lemma {:induction false} IsAnAddition(p: string)
    ensures Echo(p).Added?
  {
  }

  lemma {:induction false} LinesAddedAreVisible(p: string, lines: seq<string>)
    requires Legal(p)
    ensures Visible(LinesAdded(p, lines)) && Touched(LinesAdded(p, lines)) == {p}
    ensures forall l :: l in PathsOf(LinesAdded(p, lines)) <==> l == Label(p)
  {
    hide Visible, PathsOf, Label;
    var b := LinesAdded(p, lines);
    var hunk := [Echo(p)] + AllContext(lines) + [Echo(p)];
    assert b[0].edit == Modify([hunk]);
    assert Flatten([hunk]) == hunk + Flatten([]);
    assert hunk[0] == Echo(p);
    EchoListsItself(b, b[0]);
    TouchesOnly(b, p);
  }

  lemma {:induction false} TouchesOnly(d: Diff, p: string)
    requires |d| == 1 && d[0].path == p && Target(d[0]) == p
    ensures Touched(d) == {p}
  {
    assert d[0] in d && forall s :: s in d ==> s == d[0];
  }

  /** A lone creation goes in exactly when no file stands at its path, above it or below it. */
  lemma {:induction false} CreationNeedsRoom(t: Tree, b: Diff, p: string, lines: seq<string>)
    requires b == [Section(p, Create(lines))]
    ensures Apply(t, b).Some? <==> p !in t && forall q :: q in t ==> !Kin(p, q)
    ensures Apply(t, b).Some? ==> Apply(t, b).value == t[p := lines]
  {
    hide Kin, Treelike;
    assert b[0] in b && forall s :: s in b ==> s == b[0];
    assert b[1..] == [];
    if p !in t {
      var u := t[p := lines];
      assert ApplySections(t, b) == Some(u);
      NotOwnKin(p);
      assert Obstructed(u, b) <==> exists q :: q in u && Kin(p, q);
      assert forall q :: q in u <==> q in t || q == p;
    }
  }

  lemma {:induction false} DeletionApplies(t: Tree, d: Diff, p: string, lines: seq<string>)
    requires d == [Section(p, Delete(lines))] && Lookup(t, p) == Some(lines)
    ensures Apply(t, d).Some? && Apply(t, d).value == t - {p}
  {
    hide Kin, Treelike;
    assert d[1..] == [];
    assert ApplySections(t, d) == Some(t - {p});
  }

  lemma {:induction false} NotOwnKin(p: string)
    ensures !Kin(p, p)
  {
  }

  lemma {:induction false} FileCreatedIsVisible(p: string)
    requires Legal(p)
    ensures Visible(FileCreated(p)) && Touched(FileCreated(p)) == {p}
    ensures forall l :: l in PathsOf(FileCreated(p)) <==> l == Label(p)
  {
    hide Visible, PathsOf, Label;
    var b := FileCreated(p);
    assert Changes(b[0].edit) == [Echo(p)];
    EchoListsItself(b, b[0]);
    TouchesOnly(b, p);
  }

  lemma {:induction false} TouchedPathIsLegal(d: Diff, p: string)
    requires p in Touched(d)
    ensures Legal(p)
  {
    var s :| s in d && Touches(s, p);
    TouchedIsLegal(d, s, p);
  }

  /** For every hidden path there is a visible patch that touches a common file unreported; and
      if the hidden path's file changes at all, that patch is rejected after it. */
  lemma {:induction false} HiddenCompanion(base: Tree, a: Diff, p: string) returns (b: Diff)
    requires Apply(base, a).Some? && Hidden(a, p)
    ensures Unreported(base, a, b) && !(Touched(a) !! Touched(b))
    ensures Lookup(Apply(base, a).value, p) != Lookup(base, p) ==> Apply(Apply(base, a).value, b).None?
  {
    hide Apply, Kin, Creates, Deletes, PathsOf, Label, Treelike, OnePerPath, Outcome, Touched, LinesAdded, Visible;
    var u := Apply(base, a).value;
    ApplyExact(base, a);
    TouchedPath(base, a, u, p);
    TouchedPathIsLegal(a, p);
    if p in base {
      b := LinesAdded(p, base[p]);
      LinesAddedFit(base, p, base[p]);
      LinesAddedFit(u, p, base[p]);
      LinesAddedAreVisible(p, base[p]);
    } else if q :| Deletes(a, q) && Kin(q, p) {
      DeletedWasThere(base, a, q);
      TouchedPathIsLegal(a, q);
      b := LinesAdded(q, base[q]);
      LinesAddedFit(base, q, base[q]);
      LinesAddedFit(u, q, base[q]);
      LinesAddedAreVisible(q, base[q]);
    } else {
      b := FileCreated(p);
      CreatedIsNew(base, a, p);
      forall q | q in base ensures !Kin(p, q) {
        if Kin(p, q) {
          CreatedNeedsRoom(base, a, p, q);
          KinIsSymmetric(p, q);
        }
      }
      FileCreatedIsVisible(p);
      CreationNeedsRoom(base, b, p, [Echo(p).text]);
      CreationNeedsRoom(u, b, p, [Echo(p).text]);
    }
  }

  /** Visibility is exactly what the file-level test needs of a patch: without it some visible
      patch shares a file with it and no overlap is reported. */
  lemma {:induction false} VisibleIffSound(base: Tree, a: Diff)
    requires Apply(base, a).Some?
    ensures Visible(a) <==> DetectionIsSound(a)
  {
    hide Apply, PathsOf, Treelike, OnePerPath, Hidden, Touched;
    if Visible(a) {
      forall t: Tree, b: Diff | Unreported(t, a, b) ensures Touched(a) !! Touched(b) {
        VisibleMeansDisjoint(t, a, b);
      }
    } else {
      var p :| p in Touched(a) && Hidden(a, p);
      var b := HiddenCompanion(base, a, p);
    }
  }

  // ---------- Where the prediction fails ----------

  function Lone(s: Section): Diff
    requires WellFormed(s)
  {
    [s]
  }

  const NO_FILES: Tree := map[]

  function OneFile(p: string, lines: seq<string>): Tree
    requires Legal(p)
  {
    assert forall q, r :: q in {p} && r in {p} ==> !Kin(q, r) by { NotOwnKin(p); }
    map[p := lines]
  }

  function Pair(a: Diff, b: Diff): seq<WorkerPatch> {
    [WorkerPatch("a", a, "r"), WorkerPatch("b", b, "r")]
  }

  lemma {:induction false} PairRejects(base: Tree, a: Diff, b: Diff)
    ensures var t := if Apply(base, a).Some? then Apply(base, a).value else base;
            RejectedAt(base, Pair(a, b), 2)
            == (if Apply(base, a).Some? then [] else [0]) + if Apply(t, b).Some? then [] else [1]
  {
    hide Apply, Treelike, OnePerPath;
    var ps := Pair(a, b);
    assert TreeAt(ApplyWorker, base, ps, 0) == base;
    assert TreeAt(ApplyWorker, base, ps, 1) == if Apply(base, a).Some? then Apply(base, a).value else base;
    assert Positions(ApplyWorker, base, ps, 0, false) == [];
    assert Fits(ApplyWorker, base, ps, 0) <==> Apply(base, a).Some?;
    assert Positions(ApplyWorker, base, ps, 1, false) == if Apply(base, a).Some? then [] else [0];
  }

  /** A diff of one section without echoing lines lists nothing but its label. */
  lemma {:induction false} LoneListing(d: Diff, l: string)
    requires |d| == 1 && l in PathsOf(d) && !SomeLineEchoes(d, l)
    ensures HeadersShow(d[0], l)
  {
    hide PathsOf, Echoes, HeadersShow, OnePerPath;
    ChangedPathsExact(d, l);
  }

  /** Any two files of which one would lie below the other, as foo and foo/bar: the creations
      are visible, nothing is reported, each applies on its own, and in either order the second
      is rejected. */
  lemma {:induction false} NestedCreationsAreUnreported(p: string, q: string, x: string, y: string)
    requires Legal(p) && Legal(q) && Kin(p, q)
    requires ' ' !in p + q && !NeedsQuoting(p) && !NeedsQuoting(q) && |x| < 5 && |y| < 5
    ensures var a, b := Lone(Section(p, Create([x]))), Lone(Section(q, Create([y])));
            && Visible(a) && Visible(b) && NothingShared(Pair(a, b)) && EachApplies(NO_FILES, Pair(a, b))
            && RejectedAt(NO_FILES, Pair(a, b), 2) == [1] && RejectedAt(NO_FILES, Pair(b, a), 2) == [1]
  {
    hide PathsOf, NeedsQuoting, Visible, Apply, Positions, OnePerPath, Treelike, Kin;
    var a, b := Lone(Section(p, Create([x]))), Lone(Section(q, Create([y])));
    LoneCreationIsVisible(a, p, x);
    LoneCreationIsVisible(b, q, y);
    KinIsSymmetric(p, q);
    NotOwnKin(p);
    CreationNeedsRoom(NO_FILES, a, p, [x]);
    CreationNeedsRoom(NO_FILES, b, q, [y]);
    CreationNeedsRoom(Apply(NO_FILES, b).value, a, p, [x]);
    CreationNeedsRoom(Apply(NO_FILES, a).value, b, q, [y]);
    PairRejects(NO_FILES, a, b);
    PairRejects(NO_FILES, b, a);
  }

  /** Such files exist. */
  lemma {:induction false} FooAndFooBar()
    ensures Legal("foo") && Legal("foo/bar") && Kin("foo", "foo/bar")
    ensures ' ' !in "foo" + "foo/bar" && !NeedsQuoting("foo") && !NeedsQuoting("foo/bar")
  {
    assert "foo" + "/" <= "foo/bar";
  }

  lemma {:induction false} LoneCreationIsVisible(d: Diff, p: string, line: string)
    requires d == [Section(p, Create([line]))] && ' ' !in p && !NeedsQuoting(p) && |line| < 5
    ensures Visible(d) && forall l :: l in PathsOf(d) ==> l == p
  {
    hide PathsOf, NeedsQuoting;
    assert d[0] in d && Touches(d[0], p);
    ListedIff(d, d[0], p);
    TouchesOnly(d, p);
    forall l | l in PathsOf(d) ensures l == p {
      assert !SomeLineEchoes(d, l);
      LoneListing(d, l);
    }
  }

  /** A file of the one patch's that makes way for the other's: no common file, yet the order
      decides whether the second is rejected. */
  lemma {:induction false} OrderDecidesAfterDeletion(p: string, q: string, x: seq<string>, y: seq<string>)
    requires Legal(p) && Legal(q) && Kin(p, q)
    ensures var a, b := Lone(Section(p, Delete(x))), Lone(Section(q, Create(y)));
            && FileDisjoint(Pair(a, b))
            && RejectedAt(OneFile(p, x), Pair(a, b), 2) == [] && RejectedAt(OneFile(p, x), Pair(b, a), 2) == [0]
  {
    hide Positions, Apply, OnePerPath, Treelike, Kin;
    var a, b := Lone(Section(p, Delete(x))), Lone(Section(q, Create(y)));
    var base := OneFile(p, x);
    KinIsSymmetric(p, q);
    NotOwnKin(p);
    TouchesOnly(a, p);
    TouchesOnly(b, q);
    DeletionApplies(base, a, p, x);
    CreationNeedsRoom(Apply(base, a).value, b, q, y);
    CreationNeedsRoom(base, b, q, y);
    PairRejects(base, a, b);
    PairRejects(base, b, a);
  }

  /** Two patches that create the same empty file: nothing reported, each applies on its own,
      and the second is rejected. */
  lemma {:induction false} EmptyFilesEscapeDetection(p: string)
    requires Legal(p)
    ensures var d := Lone(Section(p, Create([])));
            && NothingShared(Pair(d, d)) && EachApplies(NO_FILES, Pair(d, d))
            && RejectedAt(NO_FILES, Pair(d, d), 2) == [1]
  {
    hide PathsOf, NeedsQuoting, Apply, Positions, OnePerPath, Treelike, Kin;
    var d := Lone(Section(p, Create([])));
    NothingListed(d);
    CreationNeedsRoom(NO_FILES, d, p, []);
    CreationNeedsRoom(Apply(NO_FILES, d).value, d, p, []);
    PairRejects(NO_FILES, d, d);
  }

  /** A section without header lines and without changed lines lists nothing. */
  lemma {:induction false} NothingListed(d: Diff)
    requires |d| == 1 && Headerless(d[0].edit) && Changes(d[0].edit) == []
    ensures forall l :: l !in PathsOf(d)
  {
    hide PathsOf, NeedsQuoting, OnePerPath, Headerless, Changes;
    forall l ensures l !in PathsOf(d) {
      ChangedPathsExact(d, l);
    }
  }

  lemma {:induction false} RenameMoves(t: Tree, d: Diff, p: string, q: string)
    requires d == [Section(p, Rename(q, []))]
    ensures p in t && q !in t && (forall x :: x in t && x != p ==> !Kin(q, x)) ==>
              Apply(t, d).Some? && Apply(t, d).value == (t - {p})[q := t[p]]
    ensures p !in t ==> Apply(t, d).None?
  {
    hide Kin, Treelike;
    assert d[0] in d && forall s :: s in d ==> s == d[0];
    assert d[1..] == [];
    if p in t && q !in t && forall x :: x in t && x != p ==> !Kin(q, x) {
      var u := (t - {p})[q := t[p]];
      assert ApplySections(t, d) == Some(u);
      NotOwnKin(q);
      assert forall x :: x in u <==> (x in t && x != p) || x == q;
    }
  }

  /** Two patches that move one file without changing it, to two places: neither lists
      anything, each applies on its own, and the second is rejected. */
  lemma {:induction false} RenamesEscapeDetection(p: string, q: string, r: string, lines: seq<string>)
    requires Legal(p) && Legal(q) && Legal(r) && p != q && p != r
    ensures var a, b := Lone(Section(p, Rename(q, []))), Lone(Section(p, Rename(r, [])));
            && NothingShared(Pair(a, b)) && EachApplies(OneFile(p, lines), Pair(a, b))
            && RejectedAt(OneFile(p, lines), Pair(a, b), 2) == [1]
  {
    hide PathsOf, NeedsQuoting, Apply, Positions, OnePerPath, Treelike, Kin;
    var a, b := Lone(Section(p, Rename(q, []))), Lone(Section(p, Rename(r, [])));
    var base := OneFile(p, lines);
    NothingListed(a);
    RenameMoves(base, a, p, q);
    RenameMoves(base, b, p, r);
    RenameMoves(Apply(base, a).value, b, p, r);
    PairRejects(base, a, b);
  }

  // ---------- Protected paths ----------

  /** `changed_paths` names `p` for this diff. */
  ghost predicate Named(d: Diff, p: string) {
    p != DEV_NULL && SomeSectionShows(d, p)
  }

  /** An overlap of two diffs is classified as prohibited exactly when some protected path is
      named, letter for letter, by both. */
  lemma {:induction false} ProhibitedIff(a: Diff, b: Diff, policy: OverlapPolicy)
    ensures ClassifyOverlap(Shared(PathsOf(a), PathsOf(b)), policy) == Prohibited
            <==> exists p :: p in policy.prohibitedPaths && Named(a, p) && Named(b, p)
  {
    hide PathsOf, Shared, SomeSectionShows, OnePerPath;
    forall p ensures p in Shared(PathsOf(a), PathsOf(b)) <==> Named(a, p) && Named(b, p) {
      SharedExact(PathsOf(a), PathsOf(b), p);
      ChangedPathsExact(a, p);
      ChangedPathsExact(b, p);
    }
  }

  /** Whether some suffix of the policy ends the path. */
  ghost predicate EndsSafely(p: string, policy: OverlapPolicy) {
    exists stem, suffix :: suffix in policy.safeSuffixes && p == stem + suffix
  }

  lemma {:induction false} SafePathEnds(p: string, policy: OverlapPolicy)
    ensures SafePath(p, policy) <==> EndsSafely(p, policy)
  {
    if suffix :| suffix in policy.safeSuffixes && EndsWith(p, suffix) {
      assert p == p[..|p| - |suffix|] + suffix;
    }
    if stem, suffix :| suffix in policy.safeSuffixes && p == stem + suffix {
      assert EndsWith(p, suffix);
    }
  }

  /** An overlap of two diffs is safe exactly when every path that both name ends in a safe
      suffix and none is protected; where it is neither safe nor prohibited, a review is asked. */
  lemma {:induction false} SafeIff(a: Diff, b: Diff, policy: OverlapPolicy)
    ensures var cls := ClassifyOverlap(Shared(PathsOf(a), PathsOf(b)), policy);
            && (cls == Safe <==> forall p :: Named(a, p) && Named(b, p) ==>
                                               p !in policy.prohibitedPaths && EndsSafely(p, policy))
            && (cls == ReviewRequired <==> cls != Safe && cls != Prohibited)
  {
    hide PathsOf, Shared, SomeSectionShows, OnePerPath, SafePath, EndsSafely;
    var paths := Shared(PathsOf(a), PathsOf(b));
    forall p ensures p in paths <==> Named(a, p) && Named(b, p) {
      SharedExact(PathsOf(a), PathsOf(b), p);
      ChangedPathsExact(a, p);
      ChangedPathsExact(b, p);
    }
    forall p ensures SafePath(p, policy) <==> EndsSafely(p, policy) {
      SafePathEnds(p, policy);
    }
  }

  /** Apart from changed lines that look like headers, a diff names a path it touches exactly
      when its section has header lines and git writes the path plainly. */
  lemma {:induction false} NamedIff(d: Diff, s: Section, p: string)
    requires s in d && Touches(s, p) && !SomeLineEchoes(d, p)
    requires forall q :: q + "\t" == p ==> q !in Touched(d)
    ensures Named(d, p) <==> !Headerless(s.edit) && !NeedsQuoting(p) && ' ' !in p
  {
    hide NeedsQuoting, Echoes, OnePerPath, Headerless, Touched;
    TouchedIsLegal(d, s, p);
    if r :| r in d && HeadersShow(r, p) {
      var q := if Label(r.path) == p && !NeedsQuoting(r.path) then r.path else Target(r);
      assert Touches(r, q) && InTouched(d, q);
      assert q == p;
      OnlyOneTouches(d, s, r, p);
    }
    if ' ' !in p && !Headerless(s.edit) && !NeedsQuoting(p) {
      assert HeadersShow(s, p) && Shows(s, p);
    }
  }

  /** Protecting a path works exactly where both patches name it: it fails for a file without
      header lines in either diff, for a path that git quotes, and for one with a space. */
  lemma {:induction false} ProtectionHoldsIff(
      a: Diff, b: Diff, s: Section, r: Section, p: string, policy: OverlapPolicy)
    requires policy.prohibitedPaths == [p] && s in a && Touches(s, p) && r in b && Touches(r, p)
    requires !SomeLineEchoes(a, p) && !SomeLineEchoes(b, p)
    requires forall q :: q + "\t" == p ==> q !in Touched(a) && q !in Touched(b)
    ensures ClassifyOverlap(Shared(PathsOf(a), PathsOf(b)), policy) == Prohibited
            <==> !Headerless(s.edit) && !Headerless(r.edit) && !NeedsQuoting(p) && ' ' !in p
  {
    hide PathsOf, Shared, NeedsQuoting, Headerless, Named, SomeLineEchoes, OnePerPath, Touched, ClassifyOverlap;
    ProhibitedIff(a, b, policy);
    NamedIff(a, s, p);
    NamedIff(b, r, p);
  }

  lemma {:induction false} LoneModification(t: Tree, d: Diff, p: string, x: string, y: string)
    requires d == [Section(p, Modify([[Removed(x), Added(y)]]))] && Lookup(t, p) == Some([x])
    ensures Apply(t, d).Some?
  {
    hide Apply, Treelike, ApplyHunks;
    var hunk := AllRemoved([x]) + AllAdded([y]);
    assert hunk == [Removed(x), Added(y)];
    WholeFileHunk([x], [y]);
    LoneEdit(t, d, d[0]);
  }

  /** Two patches change the protected file "a b": each applies on its own, they are reported,
      and every report only asks for a review. */
  lemma {:induction false} SpacedPathIsNotProtected()
    ensures var a, b := Lone(Section("a b", Modify([[Removed("1"), Added("2")]]))),
                        Lone(Section("a b", Modify([[Removed("1"), Added("3")]])));
            var report := Classified(ReportFrom(AllPaths(Pair(a, b)), 0, 1), OverlapPolicy([".md"], ["a b"]));
            && EachApplies(OneFile("a b", ["1"]), Pair(a, b))
            && report != [] && forall o :: o in report ==> o.classification == ReviewRequired
  {
    hide Apply, PathsOf, ReportFrom, Shared, NeedsQuoting, ClassifyOverlap, OnePerPath, Treelike;
    var a, b := Lone(Section("a b", Modify([[Removed("1"), Added("2")]]))),
                Lone(Section("a b", Modify([[Removed("1"), Added("3")]])));
    var base := OneFile("a b", ["1"]);
    LoneModification(base, a, "a b", "1", "2");
    LoneModification(base, b, "a b", "1", "3");
    SpacedListing(a, "1", "2");
    SpacedListing(b, "1", "3");
    OnlyReviewIsAsked(a, b);
  }

  lemma {:induction false} OnlyReviewIsAsked(a: Diff, b: Diff)
    requires forall l :: l in PathsOf(a) <==> l == "a b\t"
    requires forall l :: l in PathsOf(b) <==> l == "a b\t"
    ensures var report := Classified(ReportFrom(AllPaths(Pair(a, b)), 0, 1), OverlapPolicy([".md"], ["a b"]));
            report != [] && forall o :: o in report ==> o.classification == ReviewRequired
  {
    hide PathsOf, ReportFrom, Shared, ClassifyOverlap, OnePerPath;
    EmptyReportIff(Pair(a, b));
    assert "a b\t" in PathsOf(Pair(a, b)[0].patch) && "a b\t" in PathsOf(Pair(a, b)[1].patch);
    var paths, policy := AllPaths(Pair(a, b)), OverlapPolicy([".md"], ["a b"]);
    var overlaps := ReportFrom(paths, 0, 1);
    forall e | e in overlaps ensures ClassifyOverlap(e.paths, policy) == ReviewRequired {
      ReportExact(paths, 0, 1, e);
      assert e.paths == Shared(PathsOf(a), PathsOf(b));
      forall l | l in e.paths ensures l == "a b\t" {
        SharedExact(PathsOf(a), PathsOf(b), l);
      }
      ReviewIsAsked(e.paths, policy);
    }
  }

  lemma {:induction false} ReviewIsAsked(paths: seq<string>, policy: OverlapPolicy)
    requires policy == OverlapPolicy([".md"], ["a b"]) && paths != []
    requires forall l :: l in paths ==> l == "a b\t"
    ensures ClassifyOverlap(paths, policy) == ReviewRequired
  {
    assert paths[0] in paths && !EndsWith("a b\t", ".md");
    assert !SafePath("a b\t", policy);
  }

  lemma {:induction false} SpacedListing(d: Diff, x: string, y: string)
    requires d == [Section("a b", Modify([[Removed(x), Added(y)]]))] && |x| == 1 && |y| == 1
    ensures forall l :: l in PathsOf(d) <==> l == "a b\t"
  {
    hide PathsOf, Render;
    assert !NeedsQuoting("a b");
    hide NeedsQuoting;
    var hunk := [Removed(x), Added(y)];
    var hunks: seq<seq<HunkLine>> := [hunk];
    assert hunks[1..] == [] && Flatten(hunks) == hunk + Flatten([]);
    assert Changes(d[0].edit) == hunk;
    assert d[0] in d && forall s :: s in d ==> s == d[0];
    forall l ensures l in PathsOf(d) <==> l == "a b\t" {
      ChangedPathsExact(d, l);
      assert forall line :: line in hunk ==> !Echoes(line, l);
      assert Shows(d[0], l) <==> l == "a b\t";
    }
  }
}
