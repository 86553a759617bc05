/** Unified diffs over a tree of text files: what `git apply --index` makes of a tree
    (workflows/integration.py). */
module Diffs {
  import opened Hunks
  import opened Sequences

  // ---------- Trees ----------

  /** Text files by repository-relative path. */
  type Files = map<string, seq<string>>

  predicate Legal(p: string) {
    p != "" && p[0] != '/'
  }

  /** A file at `p` needs a directory at `q`. */
  predicate Under(p: string, q: string) {
    q + "/" <= p
  }

  /** Files at both paths exclude each other: one would have to be a directory. */
  predicate Kin(p: string, q: string) {
    Under(p, q) || Under(q, p)
  }

  ghost predicate Treelike(t: Files) {
    (forall p :: p in t ==> Legal(p)) && forall p, q :: p in t && q in t ==> !Kin(p, q)
  }

  /** What a file system can hold: no path is both a file and a directory. */
  type Tree = t: Files | Treelike(t) witness map[]

  // ---------- Diffs ----------

  /** What a section does to its file. A rename moves it, with or without changes on the way;
      a binary section names only the contents before and after. */
  datatype FileEdit =
    | Create(lines: seq<string>)
    | Delete(lines: seq<string>)
    | Modify(hunks: seq<seq<HunkLine>>)
    | Rename(to: string, hunks: seq<seq<HunkLine>>)
    | Binary(before: Option<seq<string>>, after: Option<seq<string>>)

  datatype Section = Section(path: string, edit: FileEdit)

  /** Where the file is afterwards. */
  function Target(s: Section): string {
    if s.edit.Rename? then s.edit.to else s.path
  }

  predicate Touches(s: Section, p: string) {
    p == s.path || p == Target(s)
  }

  /** There was no file where this section puts one. */
  predicate Makes(s: Section) {
    s.edit.Create? || s.edit.Rename? || (s.edit.Binary? && s.edit.before.None?)
  }

  /** The section leaves no file at its path. */
  predicate Removes(s: Section) {
    s.edit.Delete? || s.edit.Rename? || (s.edit.Binary? && s.edit.after.None?)
  }

  predicate WellFormed(s: Section) {
    && Legal(s.path) && Legal(Target(s))
    && (s.edit.Rename? ==> s.edit.to != s.path)
    && (s.edit.Binary? ==> s.edit.before != s.edit.after)
  }

  predicate Separate(s: Section, r: Section) {
    !Touches(s, r.path) && !Touches(s, Target(r))
  }

  ghost predicate OnePerPath(d: seq<Section>) {
    (forall i, j :: 0 <= i < j < |d| ==> Separate(d[i], d[j])) && forall s :: s in d ==> WellFormed(s)
  }

  /** A parsed diff: no path in two sections, in any order. */
  type Diff = d: seq<Section> | OnePerPath(d) witness []

  // ---------- Applying ----------

  function Lookup(t: Files, p: string): Option<seq<string>> {
    if p in t then Some(t[p]) else None
  }

  function Store(t: Files, p: string, content: Option<seq<string>>): Files {
    if content.Some? then t[p := content.value] else t - {p}
  }

  /** What an edit makes of one file's content; None when it does not apply. */
  function ApplyEdit(content: Option<seq<string>>, edit: FileEdit): Option<Option<seq<string>>> {
    match edit
    case Create(lines) => if content.None? then Some(Some(lines)) else None
    case Delete(lines) => if content == Some(lines) then Some(None) else None
    case Binary(before, after) => if content == before then Some(after) else None
    case Modify(hunks) => Changed(content, hunks)
    case Rename(_, hunks) => Changed(content, hunks)
  }

  function Changed(content: Option<seq<string>>, hunks: seq<seq<HunkLine>>): Option<Option<seq<string>>> {
    if content.None? then None
    else
      match ApplyHunks(content.value, hunks)
      case None => None
      case Some(lines) => Some(Some(lines))
  }

  /** The tree after one section; None when it does not fit. */
  function Effect(t: Files, s: Section): Option<Files> {
    match ApplyEdit(Lookup(t, s.path), s.edit)
    case None => None
    case Some(content) =>
      if !s.edit.Rename? then Some(Store(t, s.path, content))
      else if s.edit.to in t then None
      else Some(Store(t - {s.path}, s.edit.to, content))
  }

  function ApplySections(t: Files, d: seq<Section>): Option<Files>
    decreases |d|
  {
    if d == [] then Some(t)
    else
      match Effect(t, d[0])
      case None => None
      case Some(u) => ApplySections(u, d[1..])
  }

  /** A file to be put somewhere has a file for a directory, or a directory in its place. */
  predicate Obstructed(u: Files, d: seq<Section>) {
    exists s, q | s in d && q in u :: Makes(s) && Kin(Target(s), q)
  }

  /** `git apply` checks every section, then removes what goes and writes what comes; it
      refuses an input that holds no patch. */
  function Apply(t: Tree, d: Diff): Option<Tree> {
    if d == [] then None
    else
      match ApplySections(t, d)
      case None => None
      case Some(u) => if Obstructed(u, d) then None else (StaysATree(t, d); Some(u))
  }

  ghost predicate InTouched(d: seq<Section>, p: string) {
    exists s :: s in d && Touches(s, p)
  }

  ghost function Touched(d: seq<Section>): (r: set<string>)
    ensures forall p :: p in r <==> InTouched(d, p)
  {
    var paths, targets := set s | s in d :: s.path, set s | s in d :: Target(s);
    forall p ensures p in paths + targets <==> InTouched(d, p) {}
    paths + targets
  }

  ghost predicate Creates(d: seq<Section>, p: string) {
    exists s :: s in d && Makes(s) && Target(s) == p
  }

  ghost predicate Deletes(d: seq<Section>, p: string) {
    exists s :: s in d && Removes(s) && s.path == p
  }

  // ---------- What one section does ----------

  ghost predicate AgreeFor(t: Files, u: Files, s: Section) {
    Lookup(t, s.path) == Lookup(u, s.path) && Lookup(t, Target(s)) == Lookup(u, Target(s))
  }

  /** A section reads and writes the paths it touches. */
  lemma {:induction false} EffectIsLocal(t: Files, u: Files, s: Section)
    requires AgreeFor(t, u, s)
    ensures Effect(t, s).Some? <==> Effect(u, s).Some?
    ensures Effect(t, s).Some? ==> AgreeFor(Effect(t, s).value, Effect(u, s).value, s)
  {
    hide ApplyEdit;
  }

  lemma {:induction false} EffectFrame(t: Files, s: Section, p: string)
    requires Effect(t, s).Some? && !Touches(s, p)
    ensures Lookup(Effect(t, s).value, p) == Lookup(t, p)
  {
    hide ApplyEdit;
  }

  /** Of the paths a section touches, those without a file before are where it makes one, and
      those without a file after are where it removes one. */
  lemma {:induction false} EffectOnPath(t: Files, s: Section, p: string)
    requires WellFormed(s) && Effect(t, s).Some? && Touches(s, p)
    ensures p !in t <==> Makes(s) && p == Target(s)
    ensures p !in Effect(t, s).value <==> Removes(s) && p == s.path
  {
    hide ApplyHunks, Legal;
  }

  // ---------- What a diff does, section by section ----------

  ghost predicate EditsApply(t: Files, d: seq<Section>) {
    forall s :: s in d ==> Effect(t, s).Some?
  }

  /** From `t` to `u` the section has done its work. */
  ghost predicate Done(t: Files, s: Section, u: Files) {
    Effect(t, s).Some? && AgreeFor(Effect(t, s).value, u, s)
  }

  /** From `t` to `u` every section has done its work and nothing else changed. */
  ghost predicate Outcome(t: Files, d: seq<Section>, u: Files) {
    && (forall s :: s in d ==> Done(t, s, u))
    && forall p :: p !in Touched(d) ==> Lookup(u, p) == Lookup(t, p)
  }

  /** Sections do not interfere: the diff goes through exactly when each section fits the
      tree as it was, and each file becomes what its own section makes of it. */
  lemma {:induction false} SectionsDecide(t: Files, d: seq<Section>)
    requires OnePerPath(d)
    ensures ApplySections(t, d).Some? <==> EditsApply(t, d)
    ensures ApplySections(t, d).Some? ==> Outcome(t, d, ApplySections(t, d).value)
    decreases |d|
  {
    hide Effect, OnePerPath, EditsApply, Outcome, Separate, Touched;
    if d == [] {
      NoSections(t);
    } else {
      OtherSectionsElsewhere(d);
      FirstSectionFits(t, d);
      if t' :| Effect(t, d[0]) == Some(t') {
        SectionsDecide(t', d[1..]);
        FirstSectionDone(t, d, t');
        if u :| ApplySections(t', d[1..]) == Some(u) {
          FirstSectionKeeps(t, d, t', u);
        }
      }
    }
  }

  lemma {:induction false} NoSections(t: Files)
    ensures EditsApply(t, []) && Outcome(t, [], t)
  {
  }

  lemma {:induction false} OtherSectionsElsewhere(d: seq<Section>)
    requires d != [] && OnePerPath(d)
    ensures OnePerPath(d[1..]) && forall s :: s in d[1..] ==> Separate(d[0], s)
    ensures forall s :: s in d <==> s == d[0] || s in d[1..]
  {
    hide WellFormed, Separate;
    var rest := d[1..];
    forall i | 0 <= i < |rest| ensures rest[i] == d[i + 1] && Separate(d[0], rest[i]) {}
    assert d == [d[0]] + rest;
  }

  lemma {:induction false} FirstSectionFits(t: Files, d: seq<Section>)
    requires d != []
    ensures EditsApply(t, d) ==> Effect(t, d[0]).Some?
  {
    hide Effect;
    assert d[0] in d;
  }

  lemma {:induction false} FirstSectionDone(t: Files, d: seq<Section>, t': Files)
    requires d != [] && Effect(t, d[0]) == Some(t')
    requires forall s :: s in d[1..] ==> Separate(d[0], s)
    requires forall s :: s in d <==> s == d[0] || s in d[1..]
    ensures EditsApply(t, d) <==> EditsApply(t', d[1..])
  {
    hide Effect;
    forall s | s in d[1..] ensures Effect(t, s).Some? <==> Effect(t', s).Some? {
      EffectFrame(t, d[0], s.path);
      EffectFrame(t, d[0], Target(s));
      EffectIsLocal(t, t', s);
    }
  }

  lemma {:induction false} FirstSectionKeeps(t: Files, d: seq<Section>, t': Files, u: Files)
    requires d != [] && Effect(t, d[0]) == Some(t') && Outcome(t', d[1..], u)
    requires forall s :: s in d[1..] ==> Separate(d[0], s)
    requires forall s :: s in d <==> s == d[0] || s in d[1..]
    ensures Outcome(t, d, u)
  {
    hide Effect, Touches, Target;
    forall s | s in d ensures Done(t, s, u) {
      if s in d[1..] {
        LaterSectionDone(t, d[0], t', s, u);
      } else {
        FirstStays(t', d, u);
      }
    }
    forall p | p !in Touched(d) ensures Lookup(u, p) == Lookup(t, p) {
      assert !InTouched(d, p) && !InTouched(d[1..], p) && !Touches(d[0], p);
      EffectFrame(t, d[0], p);
    }
  }

  lemma {:induction false} LaterSectionDone(t: Files, first: Section, t': Files, s: Section, u: Files)
    requires Effect(t, first) == Some(t') && Separate(first, s) && Done(t', s, u)
    ensures Done(t, s, u)
  {
    hide Effect;
    EffectFrame(t, first, s.path);
    EffectFrame(t, first, Target(s));
    EffectIsLocal(t, t', s);
  }

  lemma {:induction false} FirstStays(t': Files, d: seq<Section>, u: Files)
    requires d != [] && Outcome(t', d[1..], u) && forall s :: s in d[1..] ==> Separate(d[0], s)
    ensures AgreeFor(t', u, d[0])
  {
    hide Effect;
    forall p | Touches(d[0], p) ensures Lookup(u, p) == Lookup(t', p) {
      assert !InTouched(d[1..], p);
    }
  }

  /** What a section's work means for one of its paths. */
  lemma {:induction false} DoneOnPath(t: Files, d: seq<Section>, u: Files, s: Section, p: string)
    requires OnePerPath(d) && Outcome(t, d, u) && s in d && Touches(s, p)
    ensures p !in t <==> Makes(s) && p == Target(s)
    ensures p !in u <==> Removes(s) && p == s.path
  {
    hide Effect, Makes, Removes, Separate, Touched;
    assert Done(t, s, u);
    EffectOnPath(t, s, p);
    assert Lookup(Effect(t, s).value, p) == Lookup(u, p);
  }

  /** Of the paths a diff touches, exactly those without a file before are created, and
      exactly those without a file after are deleted. */
  lemma {:induction false} TouchedPath(t: Files, d: seq<Section>, u: Files, p: string)
    requires OnePerPath(d) && Outcome(t, d, u) && p in Touched(d)
    ensures p !in t <==> Creates(d, p)
    ensures p !in u <==> Deletes(d, p)
  {
    hide Outcome, OnePerPath, Makes, Removes, Target;
    var s :| s in d && Touches(s, p);
    DoneOnPath(t, d, u, s, p);
    if r :| r in d && Makes(r) && Target(r) == p {
      assert Touches(r, p) by { TouchesItsPaths(r); }
      DoneOnPath(t, d, u, r, p);
    }
    if r :| r in d && Removes(r) && r.path == p {
      assert Touches(r, p) by { TouchesItsPaths(r); }
      DoneOnPath(t, d, u, r, p);
    }
    if Touches(s, p) { TouchesItsPaths(s); }
  }

  lemma {:induction false} TouchesItsPaths(s: Section)
    ensures Touches(s, s.path) && Touches(s, Target(s))
  {
  }

  lemma {:induction false} ChangersTouch(d: seq<Section>, p: string)
    ensures Creates(d, p) || Deletes(d, p) ==> p in Touched(d)
  {
  }

  /** Applying a diff to a tree leaves a tree. */
  lemma {:induction false} StaysATree(t: Tree, d: Diff)
    requires ApplySections(t, d).Some? && !Obstructed(ApplySections(t, d).value, d)
    ensures Treelike(ApplySections(t, d).value)
  {
    hide ApplySections, Makes, Target, Kin;
    var u := ApplySections(t, d).value;
    SectionsDecide(t, d);
    forall p | p in u ensures Legal(p) && (p in t || Creates(d, p)) {
      NewFilesAreCreated(t, d, u, p);
    }
    forall p, q | p in u && q in u ensures !Kin(p, q) {
      KinIsSymmetric(p, q);
      if Creates(d, p) {
        var s :| s in d && Makes(s) && Target(s) == p;
        assert !(Makes(s) && Kin(Target(s), q));
      } else if Creates(d, q) {
        var s :| s in d && Makes(s) && Target(s) == q;
        assert !(Makes(s) && Kin(Target(s), p));
      }
    }
  }

  lemma {:induction false} KinIsSymmetric(p: string, q: string)
    ensures Kin(p, q) <==> Kin(q, p)
  {
  }

  lemma {:induction false} NewFilesAreCreated(t: Tree, d: Diff, u: Files, p: string)
    requires Outcome(t, d, u) && p in u
    ensures Legal(p) && (p in t || Creates(d, p))
  {
    hide Effect, Makes, Removes, Creates;
    if p in Touched(d) {
      TouchedPath(t, d, u, p);
      var s :| s in d && Touches(s, p);
      assert WellFormed(s);
    } else {
      assert Lookup(u, p) == Lookup(t, p);
    }
  }

  /** What a successful patch means: it is not empty, each section fits and does what it
      says, and no file it puts somewhere is obstructed by one that remains. */
  lemma {:induction false} ApplyExact(t: Tree, d: Diff)
    ensures Apply(t, d).Some? <==>
              && d != [] && EditsApply(t, d)
              && forall u :: Outcome(t, d, u) ==> !Obstructed(u, d)
    ensures Apply(t, d).Some? ==> Outcome(t, d, Apply(t, d).value)
  {
    hide ApplySections, Effect, Obstructed, Outcome, OnePerPath, Treelike;
    SectionsDecide(t, d);
    if EditsApply(t, d) {
      var u := ApplySections(t, d).value;
      forall v | Outcome(t, d, v) ensures v == u {
        OneOutcome(t, d, u, v);
      }
    }
  }

  lemma {:induction false} OneOutcome(t: Files, d: seq<Section>, u: Files, v: Files)
    requires Outcome(t, d, u) && Outcome(t, d, v)
    ensures u == v
  {
    hide Effect;
    forall p ensures Lookup(u, p) == Lookup(v, p) {
      if p in Touched(d) {
        var s :| s in d && Touches(s, p);
        assert Done(t, s, u) && Done(t, s, v);
      }
    }
    SameFiles(u, v);
  }

  lemma {:induction false} MadeIsThere(t: Files, d: seq<Section>, u: Files, s: Section)
    requires OnePerPath(d) && Outcome(t, d, u) && s in d && Makes(s)
    ensures Target(s) in u
  {
    hide Effect, Outcome;
    DoneOnPath(t, d, u, s, Target(s));
    assert WellFormed(s);
  }

  /** Whatever diff leads from one tree to another, with renames or without and however it is
      cut into hunks, applied to the one it gives the other. */
  lemma {:induction false} DiffRestores(t: Tree, d: Diff, u: Tree)
    requires Outcome(t, d, u)
    ensures if d == [] then u == t else Apply(t, d) == Some(u)
  {
    hide ApplySections, Effect, Makes, Target, OnePerPath, Kin, Outcome, EditsApply;
    assert EditsApply(t, d) by { OutcomeFits(t, d, u); }
    SectionsDecide(t, d);
    OneOutcome(t, d, ApplySections(t, d).value, u);
    forall s, q | s in d && q in u && Makes(s) ensures !Kin(Target(s), q) {
      MadeIsThere(t, d, u, s);
    }
    if d == [] { NothingApplied(t); }
  }

  lemma {:induction false} OutcomeFits(t: Files, d: seq<Section>, u: Files)
    requires Outcome(t, d, u)
    ensures EditsApply(t, d)
  {
    hide Effect;
    assert forall s :: s in d ==> Done(t, s, u);
  }

  lemma {:induction false} NothingApplied(t: Files)
    ensures ApplySections(t, []) == Some(t)
  {
  }

  lemma {:induction false} SameFiles(t: Files, u: Files)
    requires forall p :: Lookup(t, p) == Lookup(u, p)
    ensures t == u
  {
    forall p ensures p in t <==> p in u {
      assert Lookup(t, p) == Lookup(u, p);
    }
    forall p | p in t ensures t[p] == u[p] {
      assert Lookup(t, p) == Lookup(u, p);
    }
  }

  // ---------- What a patch means ----------

  ghost predicate ChainExists(a: seq<string>, hunks: seq<seq<HunkLine>>, b: seq<string>) {
    exists texts :: Chain(a, hunks, b, texts)
  }

  /** The section's work, told from the two trees: a created file was not there, a deleted one
      held what the diff shows, a changed or moved one is turned into the new text hunk by hunk. */
  ghost predicate Shown(t: Files, s: Section, u: Files) {
    match s.edit
    case Create(lines) => s.path !in t && Lookup(u, s.path) == Some(lines)
    case Delete(lines) => Lookup(t, s.path) == Some(lines) && s.path !in u
    case Binary(before, after) => Lookup(t, s.path) == before && Lookup(u, s.path) == after
    case Modify(hunks) => s.path in t && s.path in u && ChainExists(t[s.path], hunks, u[s.path])
    case Rename(to, hunks) =>
      && s.path in t && to !in t && s.path !in u && to in u
      && ChainExists(t[s.path], hunks, u[to])
  }

  /** A patch turns one tree into another exactly when it is not empty, every section's work
      shows in the two trees, and no other file differs. */
  lemma {:induction false} PatchMeaning(t: Tree, d: Diff, u: Tree)
    ensures Apply(t, d) == Some(u)
            <==> && d != [] && (forall s :: s in d ==> Shown(t, s, u))
                 && forall p :: (forall s :: s in d ==> !Touches(s, p)) ==> Lookup(u, p) == Lookup(t, p)
  {
    hide Apply, Effect, Shown, OnePerPath, Touched, Touches, Treelike, Done;
    SectionsAreWellFormed(d);
    forall s | s in d ensures Done(t, s, u) <==> Shown(t, s, u) {
      DoneIsShown(t, s, u);
    }
    forall p ensures p !in Touched(d) <==> forall s :: s in d ==> !Touches(s, p) {
      assert p in Touched(d) <==> InTouched(d, p);
    }
    ApplyExact(t, d);
    if Outcome(t, d, u) {
      DiffRestores(t, d, u);
    }
  }

  lemma {:induction false} SectionsAreWellFormed(d: Diff)
    ensures forall s :: s in d ==> WellFormed(s)
  {
  }

  lemma {:induction false} DoneIsShown(t: Files, s: Section, u: Files)
    requires WellFormed(s)
    ensures Done(t, s, u) <==> Shown(t, s, u)
  {
    hide ApplyHunks, Legal, Chain;
    match s.edit
    case Create(lines) =>
    case Delete(lines) =>
    case Binary(before, after) =>
    case Modify(hunks) =>
      if s.path in t && s.path in u {
        HunksApplyIff(t[s.path], hunks, u[s.path]);
      }
    case Rename(to, hunks) =>
      if s.path in t && to in u {
        HunksApplyIff(t[s.path], hunks, u[to]);
      }
  }

  // ---------- The reverse of a patch ----------

  function ReverseSection(s: Section): Section {
    match s.edit
    case Create(lines) => Section(s.path, Delete(lines))
    case Delete(lines) => Section(s.path, Create(lines))
    case Binary(before, after) => Section(s.path, Binary(after, before))
    case Modify(hunks) => Section(s.path, Modify(Undoing(hunks)))
    case Rename(to, hunks) => Section(to, Rename(s.path, Undoing(hunks)))
  }

  lemma {:induction false} ReversePaths(s: Section)
    ensures forall p :: Touches(ReverseSection(s), p) <==> Touches(s, p)
    ensures ReverseSection(s).path == Target(s) && Target(ReverseSection(s)) == s.path
    ensures WellFormed(s) ==> WellFormed(ReverseSection(s))
  {
    hide Undoing;
  }

  /** Creations become deletions, moves go back, and hunks swap what they remove and add. */
  function ReverseDiff(d: Diff): (r: Diff)
    ensures |r| == |d| && forall i :: 0 <= i < |d| ==> r[i] == ReverseSection(d[i])
  {
    var r := seq(|d|, i requires 0 <= i < |d| => ReverseSection(d[i]));
    assert OnePerPath(r) by {
      hide ReverseSection;
      forall i, j | 0 <= i < j < |r| ensures Separate(r[i], r[j]) {
        ReversePaths(d[i]);
        ReversePaths(d[j]);
        assert Separate(d[i], d[j]);
      }
      forall s | s in r ensures WellFormed(s) {
        var i :| 0 <= i < |r| && r[i] == s;
        ReversePaths(d[i]);
        assert d[i] in d;
      }
    }
    r
  }

  /** Each hunk of the section can be turned back where it went in. */
  ghost predicate RetracesIn(t: Files, s: Section, u: Files) {
    && (s.edit.Modify? && s.path in t && s.path in u ==> Retraces(t[s.path], s.edit.hunks, u[s.path]))
    && (s.edit.Rename? && s.path in t && s.edit.to in u ==> Retraces(t[s.path], s.edit.hunks, u[s.edit.to]))
  }

  lemma {:induction false} ReverseIsShown(t: Files, s: Section, u: Files)
    requires Shown(t, s, u) && RetracesIn(t, s, u)
    ensures Shown(u, ReverseSection(s), t)
  {
    hide Chain, Retraces, Undoing, ApplyHunks;
    match s.edit
    case Create(lines) =>
    case Delete(lines) =>
    case Binary(before, after) =>
    case Modify(hunks) =>
      UndoingRestores(t[s.path], hunks, u[s.path]);
      HunksApplyIff(u[s.path], Undoing(hunks), t[s.path]);
    case Rename(to, hunks) =>
      UndoingRestores(t[s.path], hunks, u[to]);
      HunksApplyIff(u[to], Undoing(hunks), t[s.path]);
  }

  /** A patch whose hunks can be turned back is undone by its reverse, whatever files it
      creates, deletes, moves or changes. */
  lemma {:induction false} ReverseRestores(t: Tree, d: Diff, u: Tree)
    requires Apply(t, d) == Some(u)
    requires forall s :: s in d ==> RetracesIn(t, s, u)
    ensures Apply(u, ReverseDiff(d)) == Some(t)
  {
    hide Apply, Shown, RetracesIn, ReverseSection, Touches, Treelike, OnePerPath;
    var r := ReverseDiff(d);
    PatchMeaning(t, d, u);
    forall s | s in r ensures Shown(u, s, t) {
      var i :| 0 <= i < |r| && r[i] == s;
      assert d[i] in d;
      ReverseIsShown(t, d[i], u);
    }
    forall p | forall s :: s in r ==> !Touches(s, p) ensures Lookup(t, p) == Lookup(u, p) {
      forall s | s in d ensures !Touches(s, p) {
        var i :| 0 <= i < |d| && d[i] == s;
        assert r[i] in r;
        ReversePaths(s);
      }
    }
    PatchMeaning(u, r, t);
  }

  // ---------- Locality: what a diff depends on ----------

  /** `p` matters to the diff: it touches `p`, or puts a file where one at `p` would obstruct it. */
  ghost predicate Reaches(d: seq<Section>, p: string) {
    p in Touched(d) || exists x :: Creates(d, x) && Kin(x, p)
  }

  ghost predicate AgreeAround(t: Files, u: Files, d: seq<Section>) {
    forall p :: Reaches(d, p) ==> Lookup(t, p) == Lookup(u, p)
  }

  /** Whether a diff applies, and what it leaves there, depends only on the paths it touches
      and on the files above and below those it creates. */
  lemma {:induction false} ApplyIsLocal(t: Tree, u: Tree, d: Diff)
    requires AgreeAround(t, u, d)
    ensures Apply(t, d).Some? <==> Apply(u, d).Some?
    ensures Apply(t, d).Some? ==> AgreeAround(Apply(t, d).value, Apply(u, d).value, d)
  {
    hide ApplySections, Effect, Kin, Makes, Target, OnePerPath, Treelike;
    SectionsDecide(t, d);
    SectionsDecide(u, d);
    EditsApplyAlike(t, u, d);
    if EditsApply(t, d) {
      var t', u' := ApplySections(t, d).value, ApplySections(u, d).value;
      OutcomesAgree(t, u, d, t', u');
      ObstructedAlike(t', u', d);
      ObstructedAlike(u', t', d);
    }
  }

  lemma {:induction false} ReachedByTouch(t: Files, u: Files, d: seq<Section>, s: Section)
    requires AgreeAround(t, u, d) && s in d
    ensures AgreeFor(t, u, s)
  {
    TouchesItsPaths(s);
    assert InTouched(d, s.path) && InTouched(d, Target(s));
    assert Reaches(d, s.path) && Reaches(d, Target(s));
  }

  lemma {:induction false} EditsApplyAlike(t: Files, u: Files, d: seq<Section>)
    requires AgreeAround(t, u, d)
    ensures EditsApply(t, d) <==> EditsApply(u, d)
  {
    hide Effect, AgreeAround, AgreeFor;
    forall s | s in d ensures Effect(t, s).Some? <==> Effect(u, s).Some? {
      ReachedByTouch(t, u, d, s);
      EffectIsLocal(t, u, s);
    }
  }

  lemma {:induction false} OutcomesAgree(t: Files, u: Files, d: seq<Section>, t': Files, u': Files)
    requires AgreeAround(t, u, d) && Outcome(t, d, t') && Outcome(u, d, u')
    ensures AgreeAround(t', u', d)
  {
    hide Effect, Reaches;
    forall p | Reaches(d, p) ensures Lookup(t', p) == Lookup(u', p) {
      assert Lookup(t, p) == Lookup(u, p);
      if p in Touched(d) {
        var s :| s in d && Touches(s, p);
        ReachedByTouch(t, u, d, s);
        EffectIsLocal(t, u, s);
        assert Done(t, s, t') && Done(u, s, u');
      }
    }
  }

  lemma {:induction false} ObstructedAlike(t: Files, u: Files, d: seq<Section>)
    requires AgreeAround(t, u, d)
    ensures Obstructed(t, d) ==> Obstructed(u, d)
  {
    hide Kin, Makes, Target;
    if s, q :| s in d && q in t && Makes(s) && Kin(Target(s), q) {
      assert Creates(d, Target(s));
      assert Reaches(d, q);
      assert Lookup(t, q) == Lookup(u, q);
    }
  }

  /** A path the diff does not touch keeps its content. */
  lemma {:induction false} ApplyFrame(t: Tree, d: Diff, p: string)
    requires p !in Touched(d) && Apply(t, d).Some?
    ensures Lookup(Apply(t, d).value, p) == Lookup(t, p)
  {
    hide ApplySections;
    SectionsDecide(t, d);
  }

  // ---------- Files and directories ----------

  /** A file where the patch creates a directory's content, or a directory where it creates
      a file, refuses it unless the same patch clears the way. */
  lemma {:induction false} CreatedNeedsRoom(t: Tree, d: Diff, p: string, q: string)
    requires Apply(t, d).Some? && Creates(d, p) && Kin(p, q)
    ensures q !in Apply(t, d).value
    ensures q in t ==> Deletes(d, q)
  {
    hide ApplySections, Kin, Effect, Makes, Target, Deletes, OnePerPath;
    SectionsDecide(t, d);
    var u := Apply(t, d).value;
    var s :| s in d && Makes(s) && Target(s) == p;
    assert q !in u;
    if q in t {
      assert Lookup(u, q) != Lookup(t, q);
      TouchedPath(t, d, u, q);
    }
  }
}
