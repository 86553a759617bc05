/** Pairwise path overlap: the test that both graph validation (declared ownership,
    workflows/graph.py) and integration (changed paths, workflows/integration.py) run over
    every pair of workers in order. Workers are named by their position. */
module Overlaps {

  import opened Sequences

  datatype Overlap<T> = Overlap(first: nat, second: nat, paths: seq<T>)

  /** The paths of `a` that `b` lists too, in the order of `a`. */
  function Shared<T(==)>(a: seq<T>, b: seq<T>): seq<T> {
    if a == [] then []
    else if a[0] in b then [a[0]] + Shared(a[1..], b)
    else Shared(a[1..], b)
  }

  /** The overlaps of pair (i, j) and of every later pair, in pair order. */
  function ReportFrom<T(==)>(paths: seq<seq<T>>, i: nat, j: nat): seq<Overlap<T>>
    requires i < j
    decreases |paths| - i, |paths| - j
  {
    if i >= |paths| then []
    else if j >= |paths| then ReportFrom(paths, i + 1, i + 2)
    else
      var shared := Shared(paths[i], paths[j]);
      if shared == [] then ReportFrom(paths, i, j + 1)
      else [Overlap(i, j, shared)] + ReportFrom(paths, i, j + 1)
  }

  method PairwiseOverlaps<T(==)>(paths: seq<seq<T>>) returns (overlaps: seq<Overlap<T>>)
    ensures overlaps == ReportFrom(paths, 0, 1)
  {
    overlaps := [];
    ghost var all := ReportFrom(paths, 0, 1);
    for i := 0 to |paths|
      invariant all == overlaps + ReportFrom(paths, i, i + 1)
    {
      for j := i + 1 to |paths|
        invariant all == overlaps + ReportFrom(paths, i, j)
      {
        var shared := SharedPaths(paths[i], paths[j]);
        if shared != [] {
          ConcatAssociative(overlaps, [Overlap(i, j, shared)], ReportFrom(paths, i, j + 1));
          overlaps := overlaps + [Overlap(i, j, shared)];
        }
      }
      assert ReportFrom(paths, i, |paths|) == ReportFrom(paths, i + 1, i + 2);
    }
  }

  method SharedPaths<T(==)>(a: seq<T>, b: seq<T>) returns (shared: seq<T>)
    ensures shared == Shared(a, b)
  {
    shared := [];
    for k := 0 to |a|
      invariant shared + Shared(a[k..], b) == Shared(a, b)
    {
      assert a[k..][1..] == a[k + 1..];
      if a[k] in b {
        shared := shared + [a[k]];
      }
    }
  }

  lemma {:induction false} SharedExact<T>(a: seq<T>, b: seq<T>, p: T)
    ensures p in Shared(a, b) <==> p in a && p in b
  {
    if a != [] {
      SharedExact(a[1..], b, p);
      assert a == [a[0]] + a[1..];
    }
  }

  /** What the two share comes path by path in the order of the first: of one path it is the
      path or nothing, and of more it is what each part shares, one after the other. */
  lemma {:induction false} SharedPathByPath<T>(a: seq<T>, more: seq<T>, b: seq<T>, p: T)
    ensures Shared([p], b) == if p in b then [p] else []
    ensures Shared(a + more, b) == Shared(a, b) + Shared(more, b)
  {
    assert [p][1..] == [];
    if a == [] {
      assert a + more == more;
    } else {
      SharedPathByPath(a[1..], more, b, p);
      assert (a + more)[0] == a[0] && (a + more)[1..] == a[1..] + more;
    }
  }

  /** Pair (i, j) comes no later than pair (k, l). */
  ghost predicate PairLeq(i: nat, j: nat, k: nat, l: nat) {
    i < k || (i == k && j <= l)
  }

  /** `e` records exactly what its two workers share. */
  ghost predicate Accurate<T>(paths: seq<seq<T>>, e: Overlap<T>) {
    e.first < e.second < |paths|
    && e.paths != [] && e.paths == Shared(paths[e.first], paths[e.second])
  }

  lemma {:induction false} ReportStep<T>(paths: seq<seq<T>>, i: nat, j: nat)
    requires i < j
    ensures ReportFrom(paths, i, j)
            == if i >= |paths| then []
               else if j >= |paths| then ReportFrom(paths, i + 1, i + 2)
               else
                 (if Shared(paths[i], paths[j]) == [] then [] else [Overlap(i, j, Shared(paths[i], paths[j]))])
                 + ReportFrom(paths, i, j + 1)
  {
    hide Shared;
    if i < |paths| && j < |paths| {
      assert [] + ReportFrom(paths, i, j + 1) == ReportFrom(paths, i, j + 1);
    }
  }

  lemma {:induction false} ReportExact<T>(paths: seq<seq<T>>, i: nat, j: nat, e: Overlap<T>)
    requires i < j
    ensures e in ReportFrom(paths, i, j) <==> PairLeq(i, j, e.first, e.second) && Accurate(paths, e)
    decreases |paths| - i, |paths| - j
  {
    hide ReportFrom, Shared;
    ReportStep(paths, i, j);
    if i < |paths| {
      if j >= |paths| {
        ReportExact(paths, i + 1, i + 2, e);
      } else {
        ReportExact(paths, i, j + 1, e);
        var shared := Shared(paths[i], paths[j]);
        InConcat(if shared == [] then [] else [Overlap(i, j, shared)], ReportFrom(paths, i, j + 1), e);
      }
    }
  }

  /** The report has an entry for a pair exactly when the two list a common path. */
  lemma {:induction false} OverlapReported<T>(paths: seq<seq<T>>, i: nat, j: nat)
    requires i < j < |paths|
    ensures (exists e :: e in ReportFrom(paths, 0, 1) && e.first == i && e.second == j)
            <==> exists p :: p in paths[i] && p in paths[j]
  {
    var shared := Shared(paths[i], paths[j]);
    if p :| p in paths[i] && p in paths[j] {
      SharedExact(paths[i], paths[j], p);
      ReportExact(paths, 0, 1, Overlap(i, j, shared));
    }
    if e :| e in ReportFrom(paths, 0, 1) && e.first == i && e.second == j {
      ReportExact(paths, 0, 1, e);
      SharedExact(paths[i], paths[j], shared[0]);
    }
  }

  ghost predicate InPairOrder<T>(s: seq<Overlap<T>>) {
    forall k, l :: 0 <= k < l < |s| ==> PairLeq(s[k].first, s[k].second + 1, s[l].first, s[l].second)
  }

  lemma {:induction false} InPairOrderCons<T>(e: Overlap<T>, rest: seq<Overlap<T>>)
    requires InPairOrder(rest)
    requires forall k :: 0 <= k < |rest| ==> PairLeq(e.first, e.second + 1, rest[k].first, rest[k].second)
    ensures InPairOrder([e] + rest)
  {
    hide PairLeq;
    var s := [e] + rest;
    forall k, l | 0 <= k < l < |s| ensures PairLeq(s[k].first, s[k].second + 1, s[l].first, s[l].second) {
      assert s[l] == rest[l - 1];
      if k > 0 { assert s[k] == rest[k - 1]; }
    }
  }

  /** Each pair is reported at most once, and the pairs come in node order. */
  lemma {:induction false} ReportInOrder<T>(paths: seq<seq<T>>, i: nat, j: nat)
    requires i < j
    ensures InPairOrder(ReportFrom(paths, i, j))
    decreases |paths| - i, |paths| - j
  {
    hide ReportFrom, Shared, InPairOrder;
    ReportStep(paths, i, j);
    if i >= |paths| {
      assert InPairOrder<T>([]) by { NothingInOrder<T>(); }
    } else if j >= |paths| {
      ReportInOrder(paths, i + 1, i + 2);
    } else {
      ReportInOrder(paths, i, j + 1);
      var shared, rest := Shared(paths[i], paths[j]), ReportFrom(paths, i, j + 1);
      forall k | 0 <= k < |rest| ensures PairLeq(i, j + 1, rest[k].first, rest[k].second) {
        ReportExact(paths, i, j + 1, rest[k]);
      }
      InPairOrderCons(Overlap(i, j, shared), rest);
      assert [] + rest == rest;
    }
  }

  lemma {:induction false} NothingInOrder<T>()
    ensures InPairOrder<T>([])
  {
  }
}
