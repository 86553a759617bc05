/** The module to checkpoint map and the repositories it targets
    (coursectl/internal/course/checkpoints.go). A Go map is ranged over in any order, so the
    orders are parameters. */
module Checkpoints {
  import opened Numerals
  import opened Sequences

  datatype Checkpoint = Checkpoint(repository: string, revision: string)

  type Modules = map<string, Checkpoint>

  /** Two of the errors name the key they were found at. */
  datatype Error = NoModules | MissingField(key: string) | NotANumber(key: string)

  // ---------- strconv.Atoi ----------

  const MIN_INT := -0x8000_0000_0000_0000
  const MAX_INT := 0x7fff_ffff_ffff_ffff

  predicate AllDigits(s: string) {
    s != "" && forall i :: 0 <= i < |s| ==> '0' <= s[i] <= '9'
  }

  /** An optional sign and decimal digits, within 64 bits. */
  function Atoi(s: string): Option<int> {
    var signed := s != "" && (s[0] == '+' || s[0] == '-');
    var digits := if signed then s[1..] else s;
    if !AllDigits(digits) then None
    else
      var n := if signed && s[0] == '-' then -Value(digits) else Value(digits);
      if MIN_INT <= n <= MAX_INT then Some(n) else None
  }

  ghost predicate Reads(s: string, sign: string, digits: string, n: int) {
    && s == sign + digits && sign in {"", "+", "-"} && AllDigits(digits)
    && n == if sign == "-" then -Value(digits) else Value(digits)
  }

  /** A key is a number exactly when it is digits behind at most one sign, and the number fits
      64 bits with its sign. */
  lemma {:induction false} AtoiExact(s: string, n: int)
    ensures Atoi(s) == Some(n)
            <==> && -0x8000_0000_0000_0000 <= n < 0x8000_0000_0000_0000
                 && exists sign, digits :: Reads(s, sign, digits, n)
  {
    if Atoi(s) == Some(n) {
      var signed := s != "" && (s[0] == '+' || s[0] == '-');
      var sign, digits := if signed then [s[0]] else "", if signed then s[1..] else s;
      assert s == sign + digits;
      assert Reads(s, sign, digits, n);
    }
    if sign, digits :| Reads(s, sign, digits, n) {
      assert digits[0] == s[|sign|] && '0' <= digits[0] <= '9';
      assert s[|sign|..] == digits;
    }
  }

  // ---------- Loading ----------

  predicate Incomplete(cp: Checkpoint) {
    cp.repository == "" || cp.revision == ""
  }

  function IncompleteKeys(modules: Modules): set<string> {
    set k | k in modules && Incomplete(modules[k])
  }

  /** The first of the order that is bad. */
  function FirstIn(order: seq<string>, bad: set<string>): Option<string> {
    if order == [] then None
    else
      var before, key := FirstIn(order[..|order| - 1], bad), order[|order| - 1];
      if before.Some? then before else if key in bad then Some(key) else None
  }

  lemma {:induction false} FirstStays(order: seq<string>, bad: set<string>, i: nat)
    requires i <= |order| && FirstIn(order[..i], bad).Some?
    ensures FirstIn(order, bad) == FirstIn(order[..i], bad)
    decreases |order|
  {
    if i == |order| {
      assert order[..i] == order;
    } else {
      assert order[..|order| - 1][..i] == order[..i];
      FirstStays(order[..|order| - 1], bad, i);
    }
  }

  lemma {:induction false} FirstIsBad(order: seq<string>, bad: set<string>)
    ensures FirstIn(order, bad).Some? <==> exists k :: k in order && k in bad
    ensures FirstIn(order, bad).Some? ==> FirstIn(order, bad).value in bad
  {
    if order != [] {
      FirstIsBad(order[..|order| - 1], bad);
      assert order == order[..|order| - 1] + [order[|order| - 1]];
    }
  }

  /** What the file's modules must satisfy to be loaded; they are checked in map order. */
  function Loaded(modules: Modules, order: seq<string>): Result<Modules, Error> {
    if |modules| == 0 then Err(NoModules)
    else
      match FirstIn(order, IncompleteKeys(modules))
      case Some(key) => Err(MissingField(key))
      case None => Ok(modules)
  }

  method LoadCheckpoints(modules: Modules, order: seq<string>) returns (r: Result<Modules, Error>)
    requires IsOrder(order, modules.Keys)
    ensures r == Loaded(modules, order)
  {
    if |modules| == 0 { return Err(NoModules); }
    for i := 0 to |order|
      invariant FirstIn(order[..i], IncompleteKeys(modules)) == None
    {
      assert order[..i + 1][..i] == order[..i];
      assert order[i] in modules.Keys;
      var cp := modules[order[i]];
      if cp.repository == "" || cp.revision == "" {
        FirstStays(order, IncompleteKeys(modules), i + 1);
        return Err(MissingField(order[i]));
      }
    }
    assert order[..|order|] == order;
    return Ok(modules);
  }

  /** Key `i` of the order is the first whose module lacks its repository or its revision. */
  ghost predicate FirstIncomplete(modules: Modules, order: seq<string>, i: nat)
    requires i < |order| && forall k :: k in order ==> k in modules
  {
    && (modules[order[i]].repository == "" || modules[order[i]].revision == "")
    && forall j :: 0 <= j < i ==> modules[order[j]].repository != "" && modules[order[j]].revision != ""
  }

  lemma {:induction false} FirstInAt(order: seq<string>, bad: set<string>, i: nat)
    requires i < |order| && order[i] in bad && forall j :: 0 <= j < i ==> order[j] !in bad
    ensures FirstIn(order, bad) == Some(order[i])
  {
    var k := |order| - 1;
    if i < k {
      FirstInAt(order[..k], bad, i);
    } else {
      FirstIsBad(order[..k], bad);
    }
  }

  /** The load refuses an empty map, and otherwise the first module in the order that lacks its
      repository or its revision; without one it gives the modules back. */
  lemma {:induction false} LoadRefusesTheFirst(modules: Modules, order: seq<string>, i: nat)
    requires IsOrder(order, modules.Keys)
    requires i <= |order| && (i < |order| ==> FirstIncomplete(modules, order, i))
    requires i == |order| ==>
               forall j :: 0 <= j < i ==> modules[order[j]].repository != "" && modules[order[j]].revision != ""
    ensures Loaded(modules, order)
            == if modules == map[] then Err(NoModules)
               else if i < |order| then Err(MissingField(order[i]))
               else Ok(modules)
  {
    var bad := IncompleteKeys(modules);
    assert forall j :: 0 <= j < |order| ==> (order[j] in bad <==> Incomplete(modules[order[j]]));
    if i < |order| {
      FirstInAt(order, bad, i);
    } else {
      FirstIsBad(order, bad);
    }
  }

  // ---------- One checkpoint a repository ----------

  datatype Picked = Picked(lowest: map<string, int>, chosen: map<string, Checkpoint>)

  function Pick(p: Picked, n: int, cp: Checkpoint): Picked {
    if cp.repository !in p.lowest || n < p.lowest[cp.repository] then
      Picked(p.lowest[cp.repository := n], p.chosen[cp.repository := cp])
    else p
  }

  /** The two maps after ranging over `order`; the key where it met one that is no number. */
  function Scan(modules: Modules, order: seq<string>): Result<Picked, string>
    requires forall k :: k in order ==> k in modules
  {
    if order == [] then Ok(Picked(map[], map[]))
    else
      var before, key := Scan(modules, order[..|order| - 1]), order[|order| - 1];
      if before.Err? then before
      else if Atoi(key).None? then Err(key)
      else Ok(Pick(before.value, Atoi(key).value, modules[key]))
  }

  /** Key `k` belongs to the repository and no key of `order` that does has a lower number. */
  ghost predicate LowestIn(modules: Modules, order: seq<string>, repository: string, k: string) {
    && k in modules && Atoi(k).Some? && modules[k].repository == repository
    && forall j :: j in order && j in modules && modules[j].repository == repository && Atoi(j).Some? ==>
         Atoi(k).value <= Atoi(j).value
  }

  ghost predicate PickedFor(modules: Modules, order: seq<string>, p: Picked, repository: string) {
    && (repository in p.chosen <==> repository in p.lowest)
    && (repository in p.chosen <==> exists k :: k in order && k in modules && modules[k].repository == repository)
    && (repository in p.chosen ==>
          exists k :: && k in order && LowestIn(modules, order, repository, k)
                      && Atoi(k).value == p.lowest[repository] && p.chosen[repository] == modules[k])
  }

  /** Ranging picks, for every repository referenced so far, the checkpoint of a
      lowest-numbered key. */
  lemma {:induction false} ScanPicksLowest(modules: Modules, order: seq<string>, repository: string)
    requires (forall k :: k in order ==> k in modules) && Scan(modules, order).Ok?
    ensures PickedFor(modules, order, Scan(modules, order).value, repository)
  {
    hide Atoi;
    if order != [] {
      var init, key := order[..|order| - 1], order[|order| - 1];
      ScanPicksLowest(modules, init, repository);
      assert order == init + [key];
      PickKeepsLowest(modules, init, Scan(modules, init).value, repository, key);
    }
  }

  lemma {:induction false} PickKeepsLowest(
      modules: Modules, order: seq<string>, p: Picked, repository: string, key: string)
    requires PickedFor(modules, order, p, repository) && key in modules && Atoi(key).Some?
    ensures PickedFor(modules, order + [key], Pick(p, Atoi(key).value, modules[key]), repository)
  {
    hide Atoi;
    var q := Pick(p, Atoi(key).value, modules[key]);
    var all := order + [key];
    assert forall j :: j in all <==> j in order || j == key;
    if modules[key].repository == repository {
      if repository in p.chosen {
        var k :| && k in order && LowestIn(modules, order, repository, k)
                 && Atoi(k).value == p.lowest[repository] && p.chosen[repository] == modules[k];
        assert LowestIn(modules, all, repository, if Atoi(key).value < p.lowest[repository] then key else k);
      } else {
        assert LowestIn(modules, all, repository, key);
      }
      assert key in all;
    } else if repository in p.chosen {
      var k :| && k in order && LowestIn(modules, order, repository, k)
               && Atoi(k).value == p.lowest[repository] && p.chosen[repository] == modules[k];
      assert LowestIn(modules, all, repository, k);
    }
  }

  /** Key `i` is the repository's, no key has a lower number, and those before it have a higher. */
  ghost predicate FirstLowest(modules: Modules, order: seq<string>, repository: string, i: nat) {
    && i < |order| && LowestIn(modules, order, repository, order[i])
    && forall j :: 0 <= j < i ==> !LowestIn(modules, order, repository, order[j])
  }

  /** Of the keys that share the lowest number the one met first is kept. */
  lemma {:induction false} ScanKeepsTheFirst(modules: Modules, order: seq<string>, repository: string) returns (i: nat)
    requires (forall k :: k in order ==> k in modules) && Scan(modules, order).Ok?
    requires repository in Scan(modules, order).value.chosen
    ensures FirstLowest(modules, order, repository, i)
    ensures Scan(modules, order).value.chosen[repository] == modules[order[i]]
    ensures repository in Scan(modules, order).value.lowest
            && Atoi(order[i]) == Some(Scan(modules, order).value.lowest[repository])
  {
    hide Atoi;
    var n := |order| - 1;
    var init, key := order[..n], order[n];
    var before := Scan(modules, init).value;
    ScanPicksLowest(modules, init, repository);
    assert order == init + [key];
    if repository in before.chosen && Pick(before, Atoi(key).value, modules[key]) == before {
      i := ScanKeepsTheFirst(modules, init, repository);
      KeepsTheFirst(modules, init, repository, key, i);
    } else if repository in before.chosen && modules[key].repository != repository {
      i := ScanKeepsTheFirst(modules, init, repository);
      KeepsTheFirst(modules, init, repository, key, i);
    } else {
      i := n;
      TakesTheLower(modules, init, repository, key);
    }
  }

  lemma {:induction false} KeepsTheFirst(
      modules: Modules, order: seq<string>, repository: string, key: string, i: nat)
    requires FirstLowest(modules, order, repository, i) && key in modules && Atoi(key).Some?
    requires modules[key].repository == repository ==> Atoi(order[i]).value <= Atoi(key).value
    ensures FirstLowest(modules, order + [key], repository, i)
  {
    hide Atoi;
    var all := order + [key];
    assert forall j :: j in all <==> j in order || j == key;
    forall j | 0 <= j < i ensures !LowestIn(modules, all, repository, all[j]) {
      assert !LowestIn(modules, order, repository, order[j]);
    }
  }

  lemma {:induction false} TakesTheLower(modules: Modules, order: seq<string>, repository: string, key: string)
    requires (forall k :: k in order ==> k in modules) && key in modules && Atoi(key).Some?
    requires modules[key].repository == repository
    requires forall j :: j in order && modules[j].repository == repository && Atoi(j).Some? ==>
                           Atoi(key).value < Atoi(j).value
    ensures FirstLowest(modules, order + [key], repository, |order|)
  {
    hide Atoi;
    var all := order + [key];
    assert forall j :: j in all <==> j in order || j == key;
  }

  function NonNumbers(modules: Modules): set<string> {
    set k | k in modules && Atoi(k).None?
  }

  /** Ranging fails at the first key that is no number, and only there. */
  lemma {:induction false} ScanFailsAtTheFirst(modules: Modules, order: seq<string>)
    requires forall k :: k in order ==> k in modules
    ensures match FirstIn(order, NonNumbers(modules))
            case Some(key) => Scan(modules, order) == Err(key)
            case None => Scan(modules, order).Ok?
  {
    hide Atoi;
    if order != [] {
      ScanFailsAtTheFirst(modules, order[..|order| - 1]);
      assert order[|order| - 1] in order;
    }
  }

  lemma {:induction false} ScanUnlessNotANumber(modules: Modules, order: seq<string>)
    requires forall k :: k in order ==> k in modules
    ensures Scan(modules, order).Ok? <==> forall k :: k in order ==> Atoi(k).Some?
  {
    hide Atoi;
    ScanFailsAtTheFirst(modules, order);
    FirstIsBad(order, NonNumbers(modules));
  }

  // ---------- Sorting in place ----------

  predicate Sorted(cs: seq<Checkpoint>) {
    forall p, q :: 0 <= p < q < |cs| ==> !StrLess(cs[q].repository, cs[p].repository)
  }

  lemma {:induction false} NotLessTransitive(a: string, b: string, c: string)
    requires !StrLess(b, a) && !StrLess(c, b)
    ensures !StrLess(c, a)
  {
    StrTotal(a, b);
    StrTotal(b, c);
    if StrLess(c, a) {
      if StrLess(a, b) { StrTransitive(c, a, b); }
    }
  }

  /** The first `n` are sorted. */
  predicate SortedUpTo(cs: seq<Checkpoint>, n: nat) {
    n <= |cs| && forall p, q :: 0 <= p < q < n ==> !StrLess(cs[q].repository, cs[p].repository)
  }

  /** The first `i + 1` are sorted but for the one at `j`, which may belong further left. */
  predicate SortedBut(cs: seq<Checkpoint>, i: nat, j: nat) {
    j <= i < |cs| && forall p, q :: 0 <= p < q <= i && q != j ==> !StrLess(cs[q].repository, cs[p].repository)
  }

  lemma {:induction false} SwapKeeps(cs: seq<Checkpoint>, i: nat, j: nat)
    requires SortedBut(cs, i, j) && j > 0 && StrLess(cs[j].repository, cs[j - 1].repository)
    ensures var swapped := cs[j := cs[j - 1]][j - 1 := cs[j]];
            SortedBut(swapped, i, j - 1) && multiset(swapped) == multiset(cs)
  {
    hide StrLess;
    StrTotal(cs[j].repository, cs[j - 1].repository);
  }

  lemma {:induction false} SettledIsSorted(cs: seq<Checkpoint>, i: nat, j: nat)
    requires SortedBut(cs, i, j) && (j == 0 || !StrLess(cs[j].repository, cs[j - 1].repository))
    ensures SortedUpTo(cs, i + 1)
  {
    hide StrLess;
    forall p | 0 <= p < j ensures !StrLess(cs[j].repository, cs[p].repository) {
      if p < j - 1 { NotLessTransitive(cs[p].repository, cs[j - 1].repository, cs[j].repository); }
    }
  }

  lemma {:induction false} SortedEnds(cs: seq<Checkpoint>, i: nat)
    ensures i < |cs| && SortedUpTo(cs, i) ==> SortedBut(cs, i, i)
    ensures SortedUpTo(cs, |cs|) ==> Sorted(cs)
    ensures |cs| <= 1 ==> Sorted(cs)
    ensures |cs| >= 1 ==> SortedUpTo(cs, 1)
  {
  }

  /** Insertion sort by repository, swapping neighbours. */
  method SortCheckpoints(cs: array<Checkpoint>)
    modifies cs
    ensures Sorted(cs[..]) && multiset(cs[..]) == multiset(old(cs[..]))
  {
    hide StrLess, Sorted, SortedUpTo, SortedBut;
    SortedEnds(cs[..], 0);
    if cs.Length == 0 { return; }
    for i := 1 to cs.Length
      invariant SortedUpTo(cs[..], i) && multiset(cs[..]) == multiset(old(cs[..]))
    {
      var j := i;
      SortedEnds(cs[..], i);
      while j > 0 && StrLess(cs[j].repository, cs[j - 1].repository)
        invariant j <= i && SortedBut(cs[..], i, j) && multiset(cs[..]) == multiset(old(cs[..]))
      {
        ghost var before := cs[..];
        SwapKeeps(before, i, j);
        cs[j], cs[j - 1] := cs[j - 1], cs[j];
        assert cs[..] == before[j := before[j - 1]][j - 1 := before[j]];
        j := j - 1;
      }
      SettledIsSorted(cs[..], i, j);
    }
    SortedEnds(cs[..], cs.Length);
  }

  // ---------- The whole function ----------

  /** Exactly the chosen checkpoints, in strictly ascending order of repository. */
  ghost predicate Lists(r: seq<Checkpoint>, chosen: map<string, Checkpoint>) {
    && (forall p, q :: 0 <= p < q < |r| ==> StrLess(r[p].repository, r[q].repository))
    && (forall c :: c in r <==> c.repository in chosen && chosen[c.repository] == c)
  }

  ghost predicate ByRepository(chosen: map<string, Checkpoint>) {
    forall repository :: repository in chosen ==> chosen[repository].repository == repository
  }

  /** What a call may return when the load ranges over the modules in the one order and the
      choice in the other: the error of the first check that fails, or the list chosen. */
  ghost predicate Returns(
      modules: Modules, loading: seq<string>, order: seq<string>, r: Result<seq<Checkpoint>, Error>)
    requires forall k :: k in order ==> k in modules
  {
    match Loaded(modules, loading)
    case Err(e) => r == Err(e)
    case Ok(_) =>
      match Scan(modules, order)
      case Err(key) => r == Err(NotANumber(key))
      case Ok(picked) => r.Ok? && Lists(r.value, picked.chosen)
  }

  type Ranging = set<string> -> seq<string>

  /** `loading` and `order` range over the modules, `ranging` over the chosen checkpoints. */
  method TargetRepos(modules: Modules, loading: seq<string>, order: seq<string>, ranging: Ranging)
    returns (r: Result<seq<Checkpoint>, Error>)
    requires IsOrder(loading, modules.Keys) && IsOrder(order, modules.Keys)
    requires forall keys :: IsOrder(ranging(keys), keys)
    ensures Returns(modules, loading, order, r)
  {
    hide Atoi, StrLess, Lists, Loaded;
    var load := LoadCheckpoints(modules, loading);
    if load.Err? { return Err(load.error); }
    var lowest, chosen := map[], map[];
    for i := 0 to |order|
      invariant Scan(modules, order[..i]) == Ok(Picked(lowest, chosen)) && ByRepository(chosen)
    {
      var key := order[i];
      assert order[..i + 1][..i] == order[..i];
      var n := Atoi(key);
      if n.None? {
        assert Scan(modules, order[..i + 1]) == Err(key);
        ScanFailureStays(modules, order, i + 1);
        return Err(NotANumber(key));
      }
      var cp := modules[key];
      if cp.repository !in lowest || n.value < lowest[cp.repository] {
        lowest, chosen := lowest[cp.repository := n.value], chosen[cp.repository := cp];
      }
    }
    assert order[..|order|] == order;
    var names := ranging(chosen.Keys);
    assert IsOrder(names, chosen.Keys);
    var repos := new Checkpoint[|names|](i requires 0 <= i < |names| => chosen[names[i]]);
    ghost var before := repos[..];
    SortCheckpoints(repos);
    SortedLists(names, chosen, before, repos[..]);
    return Ok(repos[..]);
  }

  lemma {:induction false} ScanFailureStays(modules: Modules, order: seq<string>, i: nat)
    requires (forall k :: k in order ==> k in modules) && i <= |order| && Scan(modules, order[..i]).Err?
    ensures Scan(modules, order) == Scan(modules, order[..i])
    decreases |order|
  {
    hide Atoi;
    if i == |order| {
      assert order[..i] == order;
    } else {
      assert order[..|order| - 1][..i] == order[..i];
      ScanFailureStays(modules, order[..|order| - 1], i);
    }
  }

  lemma {:induction false} SortedLists(
      names: seq<string>, chosen: map<string, Checkpoint>, before: seq<Checkpoint>, after: seq<Checkpoint>)
    requires IsOrder(names, chosen.Keys) && ByRepository(chosen) && |before| == |names|
    requires forall i :: 0 <= i < |names| ==> before[i] == chosen[names[i]]
    requires Sorted(after) && multiset(after) == multiset(before)
    ensures Lists(after, chosen)
  {
    hide StrLess;
    forall c ensures c in after <==> c.repository in chosen && chosen[c.repository] == c {
      assert c in after <==> c in multiset(after);
      assert c in before <==> c in multiset(before);
      if c.repository in chosen && chosen[c.repository] == c {
        var i :| 0 <= i < |names| && names[i] == c.repository;
        assert before[i] == c;
      }
      if c in before {
        var i :| 0 <= i < |before| && before[i] == c;
        assert names[i] in chosen.Keys;
      }
    }
    EachOnce(names, chosen, before);
    forall p, q | 0 <= p < q < |after| ensures StrLess(after[p].repository, after[q].repository) {
      StrTotal(after[p].repository, after[q].repository);
      if after[p].repository == after[q].repository {
        assert after[p] in after && after[q] in after && after[p] == after[q];
        TwiceInSequence(after, p, q);
      }
    }
  }

  lemma {:induction false} EachOnce(names: seq<string>, chosen: map<string, Checkpoint>, before: seq<Checkpoint>)
    requires IsOrder(names, chosen.Keys) && ByRepository(chosen) && |before| == |names|
    requires forall i :: 0 <= i < |names| ==> before[i] == chosen[names[i]]
    ensures forall c :: multiset(before)[c] <= 1
  {
    assert forall i, j :: 0 <= i < j < |before| ==> before[i] != before[j] by {
      forall i, j | 0 <= i < j < |before| ensures before[i] != before[j] {
        assert names[i] in chosen.Keys && names[j] in chosen.Keys && names[i] != names[j];
      }
    }
    NoDuplicates(before);
  }

  lemma {:induction false} NoDuplicates(s: seq<Checkpoint>)
    requires forall i, j :: 0 <= i < j < |s| ==> s[i] != s[j]
    ensures forall c :: multiset(s)[c] <= 1
  {
    if s != [] {
      var k := |s| - 1;
      NoDuplicates(s[..k]);
      assert s == s[..k] + [s[k]];
      assert s[k] !in multiset(s[..k]);
    }
  }

  lemma {:induction false} TwiceInSequence(s: seq<Checkpoint>, p: nat, q: nat)
    requires p < q < |s| && s[p] == s[q]
    ensures multiset(s)[s[p]] >= 2
  {
    assert s == s[..p + 1] + s[p + 1..];
    assert s[p] in multiset(s[..p + 1]) by { assert s[..p + 1][p] == s[p]; }
    assert s[p] in multiset(s[p + 1..]) by { assert s[p + 1..][q - p - 1] == s[q]; }
  }

  // ---------- Does the order matter? ----------

  /** A key of the repository with its lowest number. */
  ghost predicate LowestKey(modules: Modules, repository: string, k: string) {
    && k in modules && Atoi(k).Some? && modules[k].repository == repository
    && forall j :: j in modules && modules[j].repository == repository && Atoi(j).Some? ==>
         Atoi(k).value <= Atoi(j).value
  }

  /** All keys of a repository that parse to its lowest number carry one checkpoint. */
  ghost predicate LowestAgree(modules: Modules) {
    forall repository, k, l :: LowestKey(modules, repository, k) && LowestKey(modules, repository, l) ==>
      modules[k] == modules[l]
  }

  ghost predicate AllNumbers(modules: Modules) {
    forall k :: k in modules ==> Atoi(k).Some?
  }

  /** What every order chooses, when the lowest keys agree. */
  lemma {:induction false} ChosenIsLowest(modules: Modules, order: seq<string>, repository: string)
    requires AllNumbers(modules) && IsOrder(order, modules.Keys)
    ensures Scan(modules, order).Ok?
    ensures var chosen := Scan(modules, order).value.chosen;
            && (repository in chosen <==> exists k :: k in modules && modules[k].repository == repository)
            && (repository in chosen ==>
                  exists k :: LowestKey(modules, repository, k) && chosen[repository] == modules[k])
  {
    hide Atoi;
    ScanUnlessNotANumber(modules, order);
    ScanPicksLowest(modules, order, repository);
    var p := Scan(modules, order).value;
    assert forall k :: k in order <==> k in modules;
    if repository in p.chosen {
      var k :| k in order && LowestIn(modules, order, repository, k) && p.chosen[repository] == modules[k];
      assert LowestKey(modules, repository, k);
    }
  }

  lemma {:induction false} AgreeingOrders(modules: Modules, order: seq<string>, other: seq<string>)
    requires AllNumbers(modules) && LowestAgree(modules) && IsOrder(order, modules.Keys) && IsOrder(other, modules.Keys)
    ensures Scan(modules, order).Ok? && Scan(modules, other).Ok?
    ensures Scan(modules, order).value.chosen == Scan(modules, other).value.chosen
  {
    ChosenIsLowest(modules, order, "");
    ChosenIsLowest(modules, other, "");
    var a, b := Scan(modules, order).value.chosen, Scan(modules, other).value.chosen;
    forall repository
      ensures repository in a <==> repository in b
      ensures repository in a ==> a[repository] == b[repository]
    {
      ChosenIsLowest(modules, order, repository);
      ChosenIsLowest(modules, other, repository);
    }
  }

  /** The first key ranged over is kept when no other has a lower number. */
  lemma {:induction false} FirstIsKept(modules: Modules, order: seq<string>, repository: string)
    requires AllNumbers(modules) && order != [] && (forall k :: k in order ==> k in modules)
    requires LowestKey(modules, repository, order[0])
    ensures Scan(modules, order).Ok?
    ensures var p := Scan(modules, order).value;
            && repository in p.lowest && p.lowest[repository] == Atoi(order[0]).value
            && repository in p.chosen && p.chosen[repository] == modules[order[0]]
  {
    hide Atoi;
    var k := |order| - 1;
    assert order[k] in modules;
    if k > 0 {
      FirstIsKept(modules, order[..k], repository);
    } else {
      assert order[..k] == [];
    }
  }

  lemma {:induction false} OrderOf(keys: set<string>) returns (order: seq<string>)
    ensures IsOrder(order, keys)
    decreases |keys|
  {
    if keys == {} {
      order := [];
    } else {
      var k :| k in keys;
      var rest := OrderOf(keys - {k});
      order := [k] + rest;
      StartsWith(k, rest, keys);
    }
  }

  lemma {:induction false} StartsWith(k: string, rest: seq<string>, keys: set<string>)
    requires k in keys && IsOrder(rest, keys - {k})
    ensures IsOrder([k] + rest, keys)
  {
    var order := [k] + rest;
    assert forall x :: x in order <==> x == k || x in rest;
    forall i, j | 0 <= i < j < |order| ensures order[i] != order[j] {
      if i == 0 { assert rest[j - 1] in rest; }
    }
  }

  /** Where two lowest keys of a repository carry different checkpoints, two orders choose
      differently. */
  lemma {:induction false} DisagreeingOrders(modules: Modules, repository: string, k: string, l: string)
      returns (order: seq<string>, other: seq<string>)
    requires AllNumbers(modules) && LowestKey(modules, repository, k) && LowestKey(modules, repository, l)
    requires modules[k] != modules[l]
    ensures IsOrder(order, modules.Keys) && IsOrder(other, modules.Keys)
    ensures Scan(modules, order).Ok? && Scan(modules, other).Ok?
    ensures Scan(modules, order).value.chosen != Scan(modules, other).value.chosen
  {
    var a := OrderOf(modules.Keys - {k});
    var b := OrderOf(modules.Keys - {l});
    order, other := [k] + a, [l] + b;
    StartsWith(k, a, modules.Keys);
    StartsWith(l, b, modules.Keys);
    FirstIsKept(modules, order, repository);
    FirstIsKept(modules, other, repository);
  }

  /** The list of chosen checkpoints is determined by what was chosen, and determines it. */
  lemma {:induction false} ListsAgreeIff(
      a: seq<Checkpoint>, b: seq<Checkpoint>, chosen: map<string, Checkpoint>, other: map<string, Checkpoint>)
    requires Lists(a, chosen) && Lists(b, other) && ByRepository(chosen) && ByRepository(other)
    ensures a == b <==> chosen == other
  {
    if chosen == other {
      assert forall c :: c in a <==> c in b;
      AscendingListsEqual(a, b);
    }
    if a == b {
      forall repository | repository in chosen ensures repository in other && other[repository] == chosen[repository] {
        assert chosen[repository] in a;
      }
      forall repository | repository in other ensures repository in chosen {
        assert other[repository] in b;
      }
      assert chosen.Keys == other.Keys;
    }
  }

  ghost predicate AscendingRepositories(r: seq<Checkpoint>) {
    forall p, q :: 0 <= p < q < |r| ==> StrLess(r[p].repository, r[q].repository)
  }

  lemma {:induction false} AscendingListsEqual(a: seq<Checkpoint>, b: seq<Checkpoint>)
    requires AscendingRepositories(a) && AscendingRepositories(b) && forall c :: c in a <==> c in b
    ensures a == b
  {
    hide StrLess;
    assert (a != [] ==> a[0] in b) && (b != [] ==> b[0] in a);
    if a != [] {
      HeadsEqual(a, b);
      forall c ensures c in a[1..] <==> c in b[1..] {
        StrIrreflexive(a[0].repository);
        assert c in a <==> c == a[0] || c in a[1..];
        assert c in b <==> c == b[0] || c in b[1..];
      }
      AscendingListsEqual(a[1..], b[1..]);
      assert a == [a[0]] + a[1..] && b == [b[0]] + b[1..];
    }
  }

  lemma {:induction false} HeadsEqual(a: seq<Checkpoint>, b: seq<Checkpoint>)
    requires AscendingRepositories(a) && AscendingRepositories(b) && a != [] && b != [] && a[0] in b && b[0] in a
    ensures a[0] == b[0]
  {
    var i :| 0 <= i < |b| && b[i] == a[0];
    var j :| 0 <= j < |a| && a[j] == b[0];
    StrTotal(a[0].repository, b[0].repository);
  }

  // ---------- Every set of choices has its list ----------

  function Insert(r: seq<Checkpoint>, c: Checkpoint): seq<Checkpoint> {
    if r == [] || StrLess(c.repository, r[0].repository) then [c] + r else [r[0]] + Insert(r[1..], c)
  }

  lemma {:induction false} InsertKeepsAscending(r: seq<Checkpoint>, c: Checkpoint)
    requires AscendingRepositories(r) && forall x :: x in r ==> x.repository != c.repository
    ensures AscendingRepositories(Insert(r, c)) && forall x :: x in Insert(r, c) <==> x == c || x in r
  {
    hide StrLess;
    if r == [] {
    } else if StrLess(c.repository, r[0].repository) {
      forall q | 0 < q < |r| ensures StrLess(c.repository, r[q].repository) {
        StrTransitive(c.repository, r[0].repository, r[q].repository);
      }
    } else {
      var rest := r[1..];
      assert forall x :: x in r <==> x == r[0] || x in rest;
      InsertKeepsAscending(rest, c);
      StrTotal(c.repository, r[0].repository);
      HeadBelow(r, c);
      var all := Insert(rest, c);
      forall q | 0 <= q < |all| ensures StrLess(r[0].repository, all[q].repository) {
        assert all[q] in all;
      }
    }
  }

  lemma {:induction false} HeadBelow(r: seq<Checkpoint>, c: Checkpoint)
    requires AscendingRepositories(r) && r != [] && StrLess(r[0].repository, c.repository)
    ensures forall x :: x == c || x in r[1..] ==> StrLess(r[0].repository, x.repository)
  {
    hide StrLess;
  }

  lemma {:induction false} ListExists(chosen: map<string, Checkpoint>) returns (r: seq<Checkpoint>)
    requires ByRepository(chosen)
    ensures Lists(r, chosen)
    decreases |chosen|
  {
    hide StrLess, Insert;
    if chosen == map[] {
      r := [];
    } else {
      var k :| k in chosen;
      var rest := ListExists(chosen - {k});
      InsertKeepsAscending(rest, chosen[k]);
      r := Insert(rest, chosen[k]);
    }
  }

  // ---------- What the caller gets ----------

  /** A call that ranges in the one pair of orders may return something that a call that
      ranges in the other may not. */
  ghost predicate Differ(
      modules: Modules, loading: seq<string>, order: seq<string>, loading': seq<string>, order': seq<string>)
    requires IsOrder(order, modules.Keys) && IsOrder(order', modules.Keys)
  {
    exists r, q :: Returns(modules, loading, order, r) && Returns(modules, loading', order', q) && r != q
  }

  /** The first check that fails has one key to report, or none fails and the lowest keys of
      every repository agree. */
  ghost predicate Determined(modules: Modules) {
    || |modules| == 0
    || if IncompleteKeys(modules) != {} then |IncompleteKeys(modules)| == 1
       else if NonNumbers(modules) != {} then |NonNumbers(modules)| == 1
       else LowestAgree(modules)
  }

  lemma {:induction false} ScanByRepository(modules: Modules, order: seq<string>)
    requires (forall k :: k in order ==> k in modules) && Scan(modules, order).Ok?
    ensures ByRepository(Scan(modules, order).value.chosen)
  {
    hide Atoi;
    if order != [] {
      assert order[|order| - 1] in order;
      ScanByRepository(modules, order[..|order| - 1]);
    }
  }

  lemma {:induction false} OneOfOne(s: set<string>, a: string, b: string)
    requires |s| == 1 && a in s && b in s
    ensures a == b
  {
    SubsetCardinality({a, b}, s);
  }

  lemma {:induction false} TwoOfMany(s: set<string>) returns (a: string, b: string)
    requires |s| > 1
    ensures a in s && b in s && a != b
  {
    a :| a in s;
    assert |s - {a}| == |s| - 1;
    b :| b in s - {a};
  }

  lemma {:induction false} FirstOfOrder(keys: set<string>, order: seq<string>, bad: set<string>)
    requires IsOrder(order, keys) && bad <= keys
    ensures FirstIn(order, bad).Some? <==> bad != {}
    ensures FirstIn(order, bad).Some? ==> FirstIn(order, bad).value in bad
  {
    FirstIsBad(order, bad);
    if k :| k in bad { assert k in order; }
  }

  /** Any bad key can come first. */
  lemma {:induction false} OrderFrom(keys: set<string>, bad: set<string>, k: string) returns (order: seq<string>)
    requires k in keys && k in bad
    ensures IsOrder(order, keys) && FirstIn(order, bad) == Some(k)
  {
    var rest := OrderOf(keys - {k});
    order := [k] + rest;
    StartsWith(k, rest, keys);
    assert order[..1] == [k] && [k][..0] == [];
    assert FirstIn(order[..1], bad) == Some(k);
    FirstStays(order, bad, 1);
  }

  /** The returned list or error is the same for every order of iteration exactly when no
      check that fails has two keys to report and, none failing, the lowest keys agree. */
  lemma {:induction false} TargetReposIsDeterminedIff(modules: Modules)
    ensures (forall loading, order, loading', order' |
               && IsOrder(loading, modules.Keys) && IsOrder(order, modules.Keys)
               && IsOrder(loading', modules.Keys) && IsOrder(order', modules.Keys) ::
               !Differ(modules, loading, order, loading', order'))
            <==> Determined(modules)
  {
    hide Differ, Determined, IsOrder;
    if Determined(modules) {
      forall loading, order, loading', order' |
        && IsOrder(loading, modules.Keys) && IsOrder(order, modules.Keys)
        && IsOrder(loading', modules.Keys) && IsOrder(order', modules.Keys)
        ensures !Differ(modules, loading, order, loading', order')
      {
        NothingToDiffer(modules, loading, order, loading', order');
      }
    } else {
      var loading, order, loading', order' := OrdersThatDiffer(modules);
      assert Differ(modules, loading, order, loading', order');
    }
  }

  lemma {:induction false} NothingToDiffer(
      modules: Modules, loading: seq<string>, order: seq<string>, loading': seq<string>, order': seq<string>)
    requires Determined(modules)
    requires IsOrder(loading, modules.Keys) && IsOrder(order, modules.Keys)
    requires IsOrder(loading', modules.Keys) && IsOrder(order', modules.Keys)
    ensures !Differ(modules, loading, order, loading', order')
  {
    hide Atoi, Scan, Lists, LowestAgree, FirstIn, IncompleteKeys, NonNumbers;
    if |modules| > 0 {
      BadKeysAreKeys(modules);
      var missing, wrong := IncompleteKeys(modules), NonNumbers(modules);
      FirstOfOrder(modules.Keys, loading, missing);
      FirstOfOrder(modules.Keys, loading', missing);
      FirstOfOrder(modules.Keys, order, wrong);
      FirstOfOrder(modules.Keys, order', wrong);
      ScanFailsAtTheFirst(modules, order);
      ScanFailsAtTheFirst(modules, order');
      if missing != {} {
        OneOfOne(missing, FirstIn(loading, missing).value, FirstIn(loading', missing).value);
      } else if wrong != {} {
        OneOfOne(wrong, FirstIn(order, wrong).value, FirstIn(order', wrong).value);
      } else {
        SameList(modules, order, order');
      }
    }
  }

  lemma {:induction false} BadKeysAreKeys(modules: Modules)
    ensures IncompleteKeys(modules) <= modules.Keys && NonNumbers(modules) <= modules.Keys
    ensures NonNumbers(modules) == {} <==> AllNumbers(modules)
  {
    hide Atoi, Incomplete;
    if AllNumbers(modules) {
      assert forall k :: k in NonNumbers(modules) ==> false;
    } else {
      var k :| k in modules && Atoi(k).None?;
      assert k in NonNumbers(modules);
    }
  }

  lemma {:induction false} SameList(modules: Modules, order: seq<string>, other: seq<string>)
    requires AllNumbers(modules) && LowestAgree(modules)
    requires IsOrder(order, modules.Keys) && IsOrder(other, modules.Keys)
    ensures Scan(modules, order).Ok? && Scan(modules, other).Ok?
    ensures forall r, q :: Lists(r, Scan(modules, order).value.chosen) && Lists(q, Scan(modules, other).value.chosen)
                           ==> r == q
  {
    hide Atoi, Scan, Lists, LowestAgree;
    AgreeingOrders(modules, order, other);
    ScanByRepository(modules, order);
    var chosen := Scan(modules, order).value.chosen;
    forall r, q | Lists(r, chosen) && Lists(q, chosen) ensures r == q {
      ListsAgreeIff(r, q, chosen, chosen);
    }
  }

  lemma {:induction false} OrdersThatDiffer(modules: Modules)
      returns (loading: seq<string>, order: seq<string>, loading': seq<string>, order': seq<string>)
    requires !Determined(modules)
    ensures IsOrder(loading, modules.Keys) && IsOrder(order, modules.Keys)
    ensures IsOrder(loading', modules.Keys) && IsOrder(order', modules.Keys)
    ensures Differ(modules, loading, order, loading', order')
  {
    hide Atoi, Scan, Lists, LowestAgree, FirstIn, IncompleteKeys, NonNumbers, IsOrder;
    BadKeysAreKeys(modules);
    var missing, wrong := IncompleteKeys(modules), NonNumbers(modules);
    loading := OrderOf(modules.Keys);
    loading', order, order' := loading, loading, loading;
    if missing != {} {
      var a, b := TwoOfMany(missing);
      loading := OrderFrom(modules.Keys, missing, a);
      loading' := OrderFrom(modules.Keys, missing, b);
      assert Returns(modules, loading, order, Err(MissingField(a)));
      assert Returns(modules, loading', order', Err(MissingField(b)));
    } else {
      FirstOfOrder(modules.Keys, loading, missing);
      if wrong != {} {
        var a, b := TwoOfMany(wrong);
        order := OrderFrom(modules.Keys, wrong, a);
        order' := OrderFrom(modules.Keys, wrong, b);
        OrdersOfKeys(modules, order);
        OrdersOfKeys(modules, order');
        ScanFailsAtTheFirst(modules, order);
        ScanFailsAtTheFirst(modules, order');
        assert Returns(modules, loading, order, Err(NotANumber(a)));
        assert Returns(modules, loading', order', Err(NotANumber(b)));
      } else {
        order, order' := OrdersWithOtherLists(modules, loading);
      }
    }
  }

  lemma {:induction false} OrdersOfKeys(modules: Modules, order: seq<string>)
    requires IsOrder(order, modules.Keys)
    ensures forall k :: k in order ==> k in modules
  {
  }

  lemma {:induction false} OrdersWithOtherLists(modules: Modules, loading: seq<string>)
      returns (order: seq<string>, other: seq<string>)
    requires Loaded(modules, loading).Ok? && AllNumbers(modules) && !LowestAgree(modules)
    ensures IsOrder(order, modules.Keys) && IsOrder(other, modules.Keys)
    ensures Differ(modules, loading, order, loading, other)
  {
    hide Atoi, Scan, Lists, Loaded;
    var repository, k, l :| && LowestKey(modules, repository, k) && LowestKey(modules, repository, l)
                            && modules[k] != modules[l];
    order, other := DisagreeingOrders(modules, repository, k, l);
    ScanByRepository(modules, order);
    ScanByRepository(modules, other);
    var a := ListExists(Scan(modules, order).value.chosen);
    var b := ListExists(Scan(modules, other).value.chosen);
    ListsAgreeIff(a, b, Scan(modules, order).value.chosen, Scan(modules, other).value.chosen);
    assert Returns(modules, loading, order, Ok(a)) && Returns(modules, loading, other, Ok(b));
  }

  /** No two keys of a repository are the same number. */
  ghost predicate NoTies(modules: Modules) {
    forall k, l | k in modules && l in modules && modules[k].repository == modules[l].repository ::
      Atoi(k).Some? && Atoi(k) == Atoi(l) ==> k == l
  }

  lemma {:induction false} NoTiesAgree(modules: Modules)
    requires NoTies(modules)
    ensures LowestAgree(modules)
  {
    hide Atoi;
    forall repository, k, l | LowestKey(modules, repository, k) && LowestKey(modules, repository, l)
      ensures modules[k] == modules[l]
    {
      assert Atoi(k).value <= Atoi(l).value && Atoi(l).value <= Atoi(k).value;
    }
  }

  /** Keys written as plain decimal numerals never tie. */
  lemma {:induction false} PlainKeysNeverTie(modules: Modules)
    requires forall k :: k in modules ==> exists n: nat :: k == Digits(n)
    ensures NoTies(modules)
  {
    hide Atoi, Digits;
    forall k, l | k in modules && l in modules && Atoi(k).Some? && Atoi(k) == Atoi(l) ensures k == l {
      var m: nat :| k == Digits(m);
      var n: nat :| l == Digits(n);
      AtoiOfDigits(m);
      AtoiOfDigits(n);
    }
  }

  lemma {:induction false} AtoiOfDigits(n: nat)
    ensures Atoi(Digits(n)).Some? ==> Atoi(Digits(n)).value == n
  {
    hide Digits, Value;
    ValueOfDigits(n);
  }

  /** Numbers written differently can still tie: with "1" and "01" for one repository the
      revision that is returned depends on the order of iteration. */
  lemma {:induction false} TiesDiffer(a: Checkpoint, b: Checkpoint)
    requires a != b && a.repository == b.repository != ""
    requires a.revision != "" && b.revision != ""
    ensures var modules := map["1" := a, "01" := b];
            IncompleteKeys(modules) == {} && NonNumbers(modules) == {} && !Determined(modules)
  {
    var modules := map["1" := a, "01" := b];
    AtoiOfOne();
    hide Atoi;
    assert modules.Keys == {"1", "01"} && |modules| == |modules.Keys|;
    assert LowestKey(modules, a.repository, "1") && LowestKey(modules, a.repository, "01");
  }

  lemma {:induction false} AtoiOfOne()
    ensures Atoi("1") == Some(1) && Atoi("01") == Some(1)
  {
    assert "1"[..0] == "" && "01"[..1] == "0" && "0"[..0] == "";
  }
}
