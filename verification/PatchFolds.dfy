/** A round of patches over one tree, for any patch tool: each patch is applied to what the
    earlier ones left, and one that does not apply is rejected and changes nothing. */
module PatchFolds {
  import opened Sequences

  /** The tree after the first `n` patches. */
  function TreeAt<T, P>(apply: (T, P) -> Option<T>, base: T, ps: seq<P>, n: nat): T
    requires n <= |ps|
  {
    if n == 0 then base
    else
      var t := TreeAt(apply, base, ps, n - 1);
      match apply(t, ps[n - 1])
      case Some(u) => u
      case None => t
  }

  /** Patch `i` applies to the tree the patches before it left. */
  predicate Fits<T, P>(apply: (T, P) -> Option<T>, base: T, ps: seq<P>, i: nat) {
    i < |ps| && apply(TreeAt(apply, base, ps, i), ps[i]).Some?
  }

  /** The positions below `n` whose patch was applied (`fit`) or rejected (`!fit`). */
  function Positions<T, P>(apply: (T, P) -> Option<T>, base: T, ps: seq<P>, n: nat, fit: bool): (r: seq<nat>)
    requires n <= |ps|
    ensures forall k :: 0 <= k < |r| ==> r[k] < n
  {
    if n == 0 then []
    else
      Positions(apply, base, ps, n - 1, fit)
      + if Fits(apply, base, ps, n - 1) == fit then [n - 1] else []
  }

  /** Applying patches in order when none may fail. */
  function ApplyAll<T, P>(apply: (T, P) -> Option<T>, t: T, ps: seq<P>): Option<T> {
    if ps == [] then Some(t)
    else
      match ApplyAll(apply, t, ps[..|ps| - 1])
      case None => None
      case Some(u) => apply(u, ps[|ps| - 1])
  }

  lemma {:induction false} PositionsStep<T, P>(apply: (T, P) -> Option<T>, base: T, ps: seq<P>, n: nat, fit: bool)
    requires n < |ps|
    ensures Positions(apply, base, ps, n + 1, fit)
            == Positions(apply, base, ps, n, fit) + if Fits(apply, base, ps, n) == fit then [n] else []
  {
    hide Fits, TreeAt;
  }

  lemma {:induction false} PositionsHold<T, P>(
      apply: (T, P) -> Option<T>, base: T, ps: seq<P>, n: nat, fit: bool, i: nat)
    requires n <= |ps|
    ensures i in Positions(apply, base, ps, n, fit) <==> i < n && Fits(apply, base, ps, i) == fit
  {
    hide Fits, TreeAt;
    if n > 0 {
      PositionsHold(apply, base, ps, n - 1, fit, i);
      PositionsStep(apply, base, ps, n - 1, fit);
      hide Positions;
      InConcat(
        Positions(apply, base, ps, n - 1, fit), if Fits(apply, base, ps, n - 1) == fit then [n - 1] else [], i);
    }
  }

  lemma {:induction false} PositionsIncrease<T, P>(
      apply: (T, P) -> Option<T>, base: T, ps: seq<P>, n: nat, fit: bool)
    requires n <= |ps|
    ensures Increasing(Positions(apply, base, ps, n, fit))
  {
    hide Fits, TreeAt;
    if n > 0 {
      PositionsIncrease(apply, base, ps, n - 1, fit);
      PositionsStep(apply, base, ps, n - 1, fit);
    }
  }

  /** The applied and the rejected positions interleave back to the input, and each patch
      was decided on the tree left by the ones before it. */
  lemma {:induction false} PositionsPartition<T, P>(apply: (T, P) -> Option<T>, base: T, ps: seq<P>, n: nat, fit: bool)
    requires n <= |ps|
    ensures Increasing(Positions(apply, base, ps, n, fit))
    ensures forall i: nat :: i in Positions(apply, base, ps, n, fit) <==> i < n && Fits(apply, base, ps, i) == fit
  {
    hide Fits, TreeAt, Positions, Increasing;
    PositionsIncrease(apply, base, ps, n, fit);
    forall i: nat ensures i in Positions(apply, base, ps, n, fit) <==> i < n && Fits(apply, base, ps, i) == fit {
      PositionsHold(apply, base, ps, n, fit, i);
    }
  }

  /** The tree is the base with exactly the applied patches folded in, in order. */
  lemma {:induction false} TreeIsAppliedFold<T, P>(apply: (T, P) -> Option<T>, base: T, ps: seq<P>, n: nat)
    requires n <= |ps|
    ensures ApplyAll(apply, base, Permute(ps, Positions(apply, base, ps, n, true))) == Some(TreeAt(apply, base, ps, n))
  {
    if n > 0 {
      TreeIsAppliedFold(apply, base, ps, n - 1);
      var before, now := Positions(apply, base, ps, n - 1, true), Positions(apply, base, ps, n, true);
      if Fits(apply, base, ps, n - 1) {
        assert Permute(ps, now) == Permute(ps, before) + [ps[n - 1]];
        assert (Permute(ps, before) + [ps[n - 1]])[..|before|] == Permute(ps, before);
      } else {
        assert now == before;
      }
    }
  }

  /** The tree changes only at applied patches. */
  lemma {:induction false} LastAppliedTree<T, P>(apply: (T, P) -> Option<T>, base: T, ps: seq<P>, n: nat)
    requires n <= |ps|
    ensures var at := Positions(apply, base, ps, n, true);
            TreeAt(apply, base, ps, n) == if at == [] then base else TreeAt(apply, base, ps, at[|at| - 1] + 1)
  {
    if n > 0 {
      LastAppliedTree(apply, base, ps, n - 1);
    }
  }

  lemma {:induction false} CleanFold<T, P>(apply: (T, P) -> Option<T>, base: T, ps: seq<P>, n: nat)
    requires n <= |ps| && ApplyAll(apply, base, ps).Some?
    ensures ApplyAll(apply, base, ps[..n]) == Some(TreeAt(apply, base, ps, n))
    ensures Positions(apply, base, ps, n, false) == []
  {
    if n > 0 {
      CleanFold(apply, base, ps, n - 1);
      assert ps[..n][..n - 1] == ps[..n - 1];
      PrefixApplies(apply, base, ps, n);
    }
  }

  lemma {:induction false} PrefixApplies<T, P>(apply: (T, P) -> Option<T>, base: T, ps: seq<P>, n: nat)
    requires n <= |ps| && ApplyAll(apply, base, ps).Some?
    ensures ApplyAll(apply, base, ps[..n]).Some?
    decreases |ps|
  {
    if n < |ps| {
      PrefixApplies(apply, base, ps[..|ps| - 1], n);
      assert ps[..|ps| - 1][..n] == ps[..n];
    } else {
      assert ps[..n] == ps;
    }
  }

  /** Running only the applied patches again rejects nothing and gives the same tree. */
  lemma {:induction false} RerunOfAppliedIsClean<T, P>(apply: (T, P) -> Option<T>, base: T, ps: seq<P>)
    ensures var kept := Permute(ps, Positions(apply, base, ps, |ps|, true));
            && Positions(apply, base, kept, |kept|, false) == []
            && TreeAt(apply, base, kept, |kept|) == TreeAt(apply, base, ps, |ps|)
  {
    var kept := Permute(ps, Positions(apply, base, ps, |ps|, true));
    TreeIsAppliedFold(apply, base, ps, |ps|);
    CleanFold(apply, base, kept, |kept|);
    assert kept[..|kept|] == kept;
  }
}
