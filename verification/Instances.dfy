/** Small runs that meet or miss the conditions of the theorems about plans. */
module Instances {
  import opened Common
  import opened Paths
  import opened Entries
  import opened Actions
  import opened Executor
  import opened Filters
  import opened Bidirectional
  import opened Planning
  import opened Reconciliation
  import opened Sweeping
  import opened EndToEnd
  import Renames

  // ----- Plans without renames

  predicate Addition(a: Action) {
    a.kind == Transfer && !a.destination.Present()
  }

  ghost predicate NoAdditions(ts: Trees, previous: Option<Baseline>) {
    forall p :: p in AllPaths(ts.local, ts.remote, previous) ==> !Addition(PlanFor(p, ts, previous))
  }

  /** Without an added file every step is the planned one. */
  lemma PlannedSteps(ts: Trees, previous: Option<Baseline>)
    requires ConflictFreePlan(ts, previous) && NoAdditions(ts, previous)
    ensures forall a :: a in PlanOf(ts, previous) ==>
              a.path in AllPaths(ts.local, ts.remote, previous) && a == PlanFor(a.path, ts, previous)
    ensures forall p :: p in AllPaths(ts.local, ts.remote, previous) ==> HasPath(PlanOf(ts, previous), p)
  {
    PlanMembers(ts, previous);
    forall a | a in PlanOf(ts, previous)
      ensures a.path in AllPaths(ts.local, ts.remote, previous) && a == PlanFor(a.path, ts, previous)
    {
      StepHasFate(ts, previous, a);
      NotRenamed(ts, previous, a);
    }
    forall p | p in AllPaths(ts.local, ts.remote, previous) ensures HasPath(PlanOf(ts, previous), p) {
      var a := StepFor(ts, previous, p);
      assert a in PlanOf(ts, previous);
    }
  }

  ghost predicate HasPath(plan: seq<Action>, p: Path) {
    exists a :: a in plan && a.path == p
  }

  lemma NotRenamed(ts: Trees, previous: Option<Baseline>, a: Action)
    requires HasFate(a, ts, previous) && NoAdditions(ts, previous)
    ensures a == PlanFor(a.path, ts, previous)
  {
    if f :| RenameOf(ts, previous, a.path, f) {
      RenameFacts(ts, previous, a.path, f);
      RenamedPath(ts, previous, a.path, f);
    }
    if t :| RenameOf(ts, previous, t, a.path) {
      RenameFacts(ts, previous, t, a.path);
      RenamedPath(ts, previous, t, a.path);
    }
  }

  lemma RenamedPath(ts: Trees, previous: Option<Baseline>, to: Path, from: Path)
    requires RenameOf(ts, previous, to, from)
    ensures to in AllPaths(ts.local, ts.remote, previous)
  {
    PlannedMembers(ts.local, ts.remote, previous);
    var planned := Planned(ts.local, ts.remote, previous);
    var i, j :| RenamePair(planned, i, j, ts, previous.value) && planned[i].path == to && planned[j].path == from;
    assert planned[i] in planned;
  }

  /** The planned step of a path. */
  lemma StepAt(ts: Trees, previous: Option<Baseline>, p: Path) returns (a: Action)
    requires WellFormed(ts) && ConflictFree(Steps(ts, previous)) && NoAdditions(ts, previous)
    requires p in AllPaths(ts.local, ts.remote, previous)
    ensures ConflictFreePlan(ts, previous)
    ensures a in PlanOf(ts, previous) && a == PlanFor(p, ts, previous)
  {
    SortedIsSort(Steps(ts, previous));
    PlannedSteps(ts, previous);
    assert HasPath(PlanOf(ts, previous), p);
    a :| a in PlanOf(ts, previous) && a.path == p;
  }

  ghost predicate Passable(ts: Trees, raw: Trees, a: Action, strict: Side) {
    a.kind != Move && MeetsConditions(ts, raw, a, strict)
  }

  /** A plan made of such steps meets the conditions of a run when each of them
      does. */
  lemma PlannedGetsThrough(ts: Trees, raw: Trees, previous: Option<Baseline>, strict: Side)
    requires ConflictFreePlan(ts, previous) && NoAdditions(ts, previous)
    requires forall p :: p in AllPaths(ts.local, ts.remote, previous) ==>
               Passable(ts, raw, PlanFor(p, ts, previous), strict)
    ensures GetsThrough(ts, raw, PlanOf(ts, previous), strict)
  {
    PlannedSteps(ts, previous);
    EachMeets(ts, raw, PlanOf(ts, previous), strict);
  }

  lemma EachMeets(ts: Trees, raw: Trees, plan: seq<Action>, strict: Side)
    requires forall a :: a in plan ==> Passable(ts, raw, a, strict)
    ensures GetsThrough(ts, raw, plan, strict)
  {
    assert forall i :: 0 <= i < |plan| ==> plan[i] in plan;
  }

  lemma SkipIsPassable(ts: Trees, raw: Trees, a: Action, strict: Side)
    requires a.kind == Skip
    ensures Passable(ts, raw, a, strict)
  {
  }

  // ----- Single paths

  /** A skip that was planned as one. */
  predicate Idle(a: Action) {
    a.kind == Skip && a.target == NoSide && !DestructiveDirectory(a)
  }

  /** An entry that is the same everywhere. */
  lemma PlanWhenSame(e: Entry, p: Path)
    requires e.Equal(e) && (p == "" ==> e.typ == Directory)
    ensures Idle(PlanPath(p, e, true, e, true, Some(Record(e, e))))
  {
  }

  /** An entry that is missing locally and otherwise as it was. */
  lemma PlanWhenRemovedLocally(e: Entry, p: Path)
    requires e.Equal(e) && p != ""
    ensures PlanPath(p, ZERO, false, e, true, Some(Record(e, e)))
            == Action(Delete, p, "", Remote, e.typ, false, ZERO, e)
  {
  }

  /** A directory that is a file locally and otherwise as it was. */
  lemma PlanWhenReplaced(root: Entry, file: Entry, p: Path)
    requires Typical(root, file) && p != ""
    ensures PlanPath(p, file, true, root, true, Some(Record(root, root)))
            == Action(Transfer, p, "", Remote, File, true, file, root)
  {
  }

  // ----- A run that removes an excluded file

  /** The top-level directory `d` was removed remotely; locally it is as it was,
      but for a file `c` in it that is excluded and was never synchronised. */
  ghost predicate ExcludedInside(host: Host, raw: Trees, previous: Option<Baseline>, exclude: string,
                                 d: Path, c: Path, root: Entry, notes: Entry)
  {
    && d != "" && d != "." && Normal(d) && Parent(d) == "" && IsDescendant(c, d) && Normal(c)
    && root.typ == Directory && notes.typ == File
    && raw.local == map["" := root, d := root, c := notes]
    && raw.remote == map["" := root]
    && previous == Some(map["" := Record(root, root), d := Record(root, root)])
    && Excluded(host, c, [exclude]) && !Excluded(host, d, [exclude]) && !Excluded(host, "", [exclude])
  }

  lemma ExcludedTrees(host: Host, raw: Trees, previous: Option<Baseline>, exclude: string, d: Path, c: Path,
                      root: Entry, notes: Entry)
    requires ExcludedInside(host, raw, previous, exclude, d, c, root, notes)
    ensures FilteredTrees(host, raw, [], [exclude]) == Trees(map["" := root, d := root], map["" := root])
  {
    FilteredByExcludes(host, raw.local, [exclude], map["" := root, d := root]);
    FilteredByExcludes(host, raw.remote, [exclude], map["" := root]);
  }

  /** Without includes, what is not excluded is kept. */
  lemma FilteredByExcludes(host: Host, s: Snapshot, excludes: seq<string>, kept: Snapshot)
    requires kept.Keys <= s.Keys && forall p :: p in kept ==> kept[p] == s[p]
    requires forall p :: p in s ==> (p in kept <==> !Excluded(host, p, excludes))
    ensures Filtered(host, s, [], excludes) == kept
  {
    var f := Filtered(host, s, [], excludes);
    forall p ensures p in f <==> p in kept {
    }
  }

  lemma SmallTreesAreWellFormed(ts: Trees, d: Path, root: Entry)
    requires ts == Trees(map["" := root, d := root], map["" := root]) && root.typ == Directory
    requires d != "" && d != "." && Normal(d) && Parent(d) == ""
    ensures WellFormed(ts)
  {
  }

  lemma RemovedDirectoryPlan(ts: Trees, previous: Option<Baseline>, d: Path, root: Entry)
    requires ts == Trees(map["" := root, d := root], map["" := root]) && root.typ == Directory && d != ""
    requires previous == Some(map["" := Record(root, root), d := Record(root, root)])
    ensures AllPaths(ts.local, ts.remote, previous) == {"", d}
    ensures PlanFor("", ts, previous).kind == Skip && !DestructiveDirectory(PlanFor("", ts, previous))
    ensures PlanFor("", ts, previous).typ == Directory
    ensures PlanFor(d, ts, previous) == Action(Delete, d, "", Local, Directory, false, ZERO, root)
    ensures NoAdditions(ts, previous)
  {
  }

  lemma NothingElseChanged(ts: Trees, previous: Option<Baseline>, d: Path, root: Entry)
    requires ts == Trees(map["" := root, d := root], map["" := root])
    requires previous == Some(map["" := Record(root, root), d := Record(root, root)])
    requires !HasPrefix("", d) && !HasPrefix(d, d)
    ensures !SubtreeChanged(d, ts.local, previous.value, Local)
  {
  }

  lemma RemovalIsPeaceful(ts: Trees, previous: Option<Baseline>, d: Path, root: Entry, p: Path)
    requires ts == Trees(map["" := root, d := root], map["" := root]) && root.typ == Directory
    requires d != "" && !HasPrefix("", d) && !HasPrefix(d, d) && p in AllPaths(ts.local, ts.remote, previous)
    requires previous == Some(map["" := Record(root, root), d := Record(root, root)])
    ensures PlanFor(p, ts, previous).kind != Conflict
    ensures !Endangered(PlanFor(p, ts, previous), ts.local, ts.remote, previous.value)
  {
    RemovedDirectoryPlan(ts, previous, d, root);
    NothingElseChanged(ts, previous, d, root);
  }

  lemma RemovedDirectoryIsPeaceful(ts: Trees, previous: Option<Baseline>, d: Path, root: Entry)
    requires ts == Trees(map["" := root, d := root], map["" := root]) && root.typ == Directory
    requires d != "" && !HasPrefix("", d) && !HasPrefix(d, d)
    requires previous == Some(map["" := Record(root, root), d := Record(root, root)])
    ensures ConflictFree(Steps(ts, previous))
  {
    PlannedMembers(ts.local, ts.remote, previous);
    forall p | p in Planned(ts.local, ts.remote, previous)
      ensures p.kind != Conflict && !Endangered(p, ts.local, ts.remote, previous.value)
    {
      RemovalIsPeaceful(ts, previous, d, root, p.path);
    }
    Renames.PeacefulStaysConflictFree(ts, previous);
  }

  lemma RemovedDirectoryStep(ts: Trees, previous: Option<Baseline>, d: Path, root: Entry) returns (a: Action)
    requires ts == Trees(map["" := root, d := root], map["" := root]) && root.typ == Directory
    requires d != "" && d != "." && Normal(d) && Parent(d) == "" && !HasPrefix("", d) && !HasPrefix(d, d)
    requires previous == Some(map["" := Record(root, root), d := Record(root, root)])
    ensures ConflictFreePlan(ts, previous) && NoAdditions(ts, previous)
    ensures a in PlanOf(ts, previous) && a.kind == Delete && a.target == Local && a.path == d
  {
    SmallTreesAreWellFormed(ts, d, root);
    RemovedDirectoryIsPeaceful(ts, previous, d, root);
    RemovedDirectoryPlan(ts, previous, d, root);
    a := StepAt(ts, previous, d);
  }

  lemma OneEntryIsTrusted(ts: Trees, previous: Option<Baseline>, d: Path, root: Entry)
    requires ts == Trees(map["" := root, d := root], map["" := root])
    requires previous == Some(map["" := Record(root, root), d := Record(root, root)])
    ensures Trustworthy(ts, previous)
  {
    AllOne(ts.local, root);
    AllOne(ts.remote, root);
    AllOneRecord(previous.value, root);
    assert EntriesOf(ts.local) + EntriesOf(ts.remote) + RecordedEntries(previous.value) <= {root};
  }

  lemma AllOne(s: Snapshot, e: Entry)
    requires forall p :: p in s ==> s[p] == e
    ensures EntriesOf(s) <= {e}
  {
  }

  lemma AllOneRecord(baseline: Baseline, e: Entry)
    requires forall p :: p in baseline ==> baseline[p] == Record(e, e)
    ensures RecordedEntries(baseline) <= {e} && Paired(baseline)
  {
  }

  lemma RemovalPasses(ts: Trees, raw: Trees, previous: Option<Baseline>, d: Path, root: Entry, strict: Side, p: Path)
    requires ts == Trees(map["" := root, d := root], map["" := root]) && root.typ == Directory && d != ""
    requires previous == Some(map["" := Record(root, root), d := Record(root, root)])
    requires ShownAs(ts, raw, Local, d) && raw.remote == ts.remote && p in AllPaths(ts.local, ts.remote, previous)
    ensures Passable(ts, raw, PlanFor(p, ts, previous), strict)
  {
    RemovedDirectoryPlan(ts, previous, d, root);
    if p == "" {
      SkipIsPassable(ts, raw, PlanFor(p, ts, previous), strict);
    } else {
      DeletionMeets(ts, raw, PlanFor(p, ts, previous), strict);
    }
  }

  lemma DeletionMeets(ts: Trees, raw: Trees, a: Action, strict: Side)
    requires a.kind == Delete && a.target == Local && ShownBothSides(ts, raw, a)
    requires forall q :: q in raw.remote ==> raw.remote[q].typ == Directory
    ensures Passable(ts, raw, a, strict)
  {
  }

  /** On any trees that hold these two and no more on the remote side. */
  lemma RemovalGetsThrough(ts: Trees, raw: Trees, previous: Option<Baseline>, d: Path, root: Entry, strict: Side)
    requires ts == Trees(map["" := root, d := root], map["" := root]) && root.typ == Directory && d != ""
    requires previous == Some(map["" := Record(root, root), d := Record(root, root)])
    requires ConflictFreePlan(ts, previous) && NoAdditions(ts, previous)
    requires ShownAs(ts, raw, Local, d) && raw.remote == ts.remote
    ensures GetsThrough(ts, raw, PlanOf(ts, previous), strict)
  {
    forall p | p in AllPaths(ts.local, ts.remote, previous)
      ensures Passable(ts, raw, PlanFor(p, ts, previous), strict)
    {
      RemovalPasses(ts, raw, previous, d, root, strict, p);
    }
    PlannedGetsThrough(ts, raw, previous, strict);
  }

  lemma DeletionLeaves(ts: Trees, previous: Option<Baseline>, a: Action)
    requires ConflictFreePlan(ts, previous) && a in PlanOf(ts, previous) && a.kind == Delete
    requires a.path !in ts.On(Opposite(a.target))
    ensures a.path !in Reconciled(ts, previous).local && a.path !in Reconciled(ts, previous).remote
  {
    PlanMembers(ts, previous);
    StepDecides(ts, PlanOf(ts, previous), a);
  }

  lemma GettingThrough(ts: Trees, previous: Option<Baseline>, strict: Side)
    requires ConflictFreePlan(ts, previous) && GetsThrough(ts, ts, PlanOf(ts, previous), strict)
    ensures MovesPrecedeRemovals(PlanOf(ts, previous))
    ensures SweepingRun(TwoWay(strict), ts, PlanOf(ts, previous)) == Some(Reconciled(ts, previous))
  {
    RunsThroughExactly(ts, previous, strict);
  }

  /** The run that passes the removal of a directory on: every condition of the
      theorems about plans is met, the run goes through and `d` is gone. */
  lemma RemovalIsPassedOn(ts: Trees, previous: Option<Baseline>, d: Path, root: Entry, strict: Side)
    requires ts == Trees(map["" := root, d := root], map["" := root]) && root.typ == Directory
    requires d != "" && d != "." && Normal(d) && Parent(d) == ""
    requires previous == Some(map["" := Record(root, root), d := Record(root, root)])
    ensures ConflictFreePlan(ts, previous) && Trustworthy(ts, previous)
    ensures MovesPrecedeRemovals(PlanOf(ts, previous))
    ensures SweepingRun(TwoWay(strict), ts, PlanOf(ts, previous)) == Some(Reconciled(ts, previous))
    ensures d !in Reconciled(ts, previous).local && d !in Reconciled(ts, previous).remote
  {
    NoPrefixOfItself(d);
    var a := RemovedDirectoryStep(ts, previous, d, root);
    RemovalGetsThrough(ts, ts, previous, d, root, strict);
    GettingThrough(ts, previous, strict);
    OneEntryIsTrusted(ts, previous, d, root);
    DeletionLeaves(ts, previous, a);
  }

  lemma NoPrefixOfItself(d: Path)
    requires d != ""
    ensures !HasPrefix("", d) && !HasPrefix(d, d)
  {
  }

  lemma RawIsScanned(raw: Trees, d: Path, c: Path, root: Entry, notes: Entry)
    requires raw == Trees(map["" := root, d := root, c := notes], map["" := root])
    requires root.typ == Directory && notes.typ == File
    requires d != "" && d != "." && Normal(d) && IsDescendant(c, d) && Normal(c)
    ensures Scanned(raw.local) && Scanned(raw.remote)
  {
  }

  /** It does happen: this run is free of conflicts, goes through and removes the
      excluded file. */
  lemma ExcludedFileIsRemoved(host: Host, raw: Trees, previous: Option<Baseline>, exclude: string, d: Path, c: Path,
                              root: Entry, notes: Entry, strict: Side) returns (ts: Trees)
    requires ExcludedInside(host, raw, previous, exclude, d, c, root, notes)
    ensures ts == FilteredTrees(host, raw, [], [exclude]) && ConflictFreePlan(ts, previous)
    ensures var run := SweepingRun(TwoWay(strict), raw, PlanOf(ts, previous));
            run.Some? && c in raw.local && c !in run.value.local
  {
    ts := FilteredTrees(host, raw, [], [exclude]);
    ExcludedTrees(host, raw, previous, exclude, d, c, root, notes);
    RawIsScanned(raw, d, c, root, notes);
    NoPrefixOfItself(d);
    var a := RemovedDirectoryStep(ts, previous, d, root);
    RemovalGetsThrough(ts, raw, previous, d, root, strict);
    FilteredRunExactly(host, raw, [], [exclude], previous, strict);
    assert Buries(a, Local, c);
    LeftOutSurvives(host, raw, [], [exclude], previous, strict, Local, c);
  }

  // ----- A run that stops at a file in place of a directory

  predicate TopLevel(p: Path) {
    p != "" && p != "." && LastSlash(p) < 0 && Normal(p)
  }

  predicate Inside(p: Path, d: Path) {
    Normal(p) && p != "." && LastSlash(p) >= 0 && Parent(p) == d && IsDescendant(p, d)
  }

  predicate Typical(root: Entry, file: Entry) {
    root.typ == Directory && file.typ == File && file.Fingerprinted()
  }

  /** Locally the directory `d` with its file `x` has been replaced by a file; the
      remote side is as it was. */
  ghost predicate FileForDirectory(ts: Trees, previous: Option<Baseline>, d: Path, x: Path, root: Entry, file: Entry,
                                   inner: Entry)
  {
    && TopLevel(d) && Inside(x, d) && Typical(root, file) && Typical(root, inner)
    && ts == Trees(map["" := root, d := file], map["" := root, d := root, x := inner])
    && previous == Some(map["" := Record(root, root), d := Record(root, root), x := Record(inner, inner)])
  }

  lemma LocalShape(s: Snapshot, d: Path, root: Entry, file: Entry)
    requires s == map["" := root, d := file] && root.typ == Directory && file.typ == File && TopLevel(d)
    ensures Scanned(s) && ParentClosed(s)
  {
    assert Parent(d) == "";
  }

  lemma RemoteShape(s: Snapshot, d: Path, x: Path, root: Entry, file: Entry)
    requires s == map["" := root, d := root, x := file] && root.typ == Directory && file.typ == File
    requires TopLevel(d) && Inside(x, d)
    ensures Scanned(s) && ParentClosed(s) && x != "" && x != d
  {
    assert Parent(d) == "";
  }

  lemma ReplacedPlan(ts: Trees, previous: Option<Baseline>, d: Path, x: Path, root: Entry, file: Entry, inner: Entry)
    requires FileForDirectory(ts, previous, d, x, root, file, inner) && x != "" && x != d
    ensures AllPaths(ts.local, ts.remote, previous) == {"", d, x}
    ensures Idle(PlanFor("", ts, previous))
    ensures PlanFor(d, ts, previous) == Action(Transfer, d, "", Remote, File, true, file, root)
    ensures PlanFor(x, ts, previous) == Action(Delete, x, "", Remote, File, false, ZERO, inner)
  {
    EqualReflexivity(inner);
    PlanWhenSame(root, "");
    PlanWhenReplaced(root, file, d);
    PlanWhenRemovedLocally(inner, x);
  }


  lemma OnlyInside(ts: Trees, previous: Option<Baseline>, d: Path, x: Path, root: Entry, file: Entry, inner: Entry)
    requires FileForDirectory(ts, previous, d, x, root, file, inner) && x != "" && x != d
    ensures !SubtreeChanged(d, ts.remote, previous.value, Remote)
  {
    NoPrefixOfItself(d);
    EqualReflexivity(inner);
    forall q | q in ts.remote.Keys + previous.value.Keys && HasPrefix(q, d)
      ensures !ChangedAt(q, ts.remote, previous.value, Remote)
    {
      assert q == x;
    }
  }

  lemma ReplacedIsPeaceful(ts: Trees, previous: Option<Baseline>, d: Path, x: Path, root: Entry, file: Entry,
                           inner: Entry, p: Path)
    requires FileForDirectory(ts, previous, d, x, root, file, inner) && x != "" && x != d
    requires p in AllPaths(ts.local, ts.remote, previous)
    ensures PlanFor(p, ts, previous).kind != Conflict && !Addition(PlanFor(p, ts, previous))
    ensures !Endangered(PlanFor(p, ts, previous), ts.local, ts.remote, previous.value)
  {
    ReplacedPlan(ts, previous, d, x, root, file, inner);
    OnlyInside(ts, previous, d, x, root, file, inner);
  }

  lemma ReplacedIsConflictFree(ts: Trees, previous: Option<Baseline>, d: Path, x: Path, root: Entry, file: Entry,
                               inner: Entry)
    requires FileForDirectory(ts, previous, d, x, root, file, inner) && x != "" && x != d
    ensures ConflictFree(Steps(ts, previous)) && NoAdditions(ts, previous)
  {
    PlannedMembers(ts.local, ts.remote, previous);
    forall p | p in AllPaths(ts.local, ts.remote, previous)
      ensures PlanFor(p, ts, previous).kind != Conflict && !Addition(PlanFor(p, ts, previous))
      ensures !Endangered(PlanFor(p, ts, previous), ts.local, ts.remote, previous.value)
    {
      ReplacedIsPeaceful(ts, previous, d, x, root, file, inner, p);
    }
    Renames.PeacefulStaysConflictFree(ts, previous);
  }

  lemma ReplacedPasses(ts: Trees, previous: Option<Baseline>, d: Path, x: Path, root: Entry, file: Entry,
                       inner: Entry, p: Path)
    requires FileForDirectory(ts, previous, d, x, root, file, inner) && x != "" && x != d
    requires p in AllPaths(ts.local, ts.remote, previous)
    ensures Passable(ts, ts, PlanFor(p, ts, previous), NoSide)
  {
    ReplacedPlan(ts, previous, d, x, root, file, inner);
  }

  lemma ReplacedSteps(ts: Trees, previous: Option<Baseline>, d: Path, x: Path, root: Entry, file: Entry, inner: Entry)
    returns (a: Action, b: Action)
    requires FileForDirectory(ts, previous, d, x, root, file, inner) && WellFormed(ts) && x != "" && x != d
    ensures ConflictFreePlan(ts, previous) && NoAdditions(ts, previous)
    ensures a in PlanOf(ts, previous) && a.kind == Transfer && a.target == Remote && a.path == d
    ensures b in PlanOf(ts, previous) && b.kind == Delete && b.target == Remote && b.path == x
  {
    ReplacedIsConflictFree(ts, previous, d, x, root, file, inner);
    ReplacedPlan(ts, previous, d, x, root, file, inner);
    a := StepAt(ts, previous, d);
    b := StepAt(ts, previous, x);
  }

  /** Replacing a directory by a file locally gives a plan free of conflicts. Where
      a path below a file is an error locally the run stops; where it is absent the
      run goes through. */
  lemma FileForDirectoryStops(ts: Trees, previous: Option<Baseline>, d: Path, x: Path, root: Entry, file: Entry,
                              inner: Entry)
    requires FileForDirectory(ts, previous, d, x, root, file, inner)
    ensures ConflictFreePlan(ts, previous)
    ensures SweepingRun(TwoWay(Local), ts, PlanOf(ts, previous)) == None
    ensures SweepingRun(TwoWay(NoSide), ts, PlanOf(ts, previous)) == Some(Reconciled(ts, previous))
  {
    LocalShape(ts.local, d, root, file);
    RemoteShape(ts.remote, d, x, root, inner);
    var a, b := ReplacedSteps(ts, previous, d, x, root, file, inner);
    ReplacedDirectoryStops(ts, previous, Local, a, b);
    forall p | p in AllPaths(ts.local, ts.remote, previous)
      ensures Passable(ts, ts, PlanFor(p, ts, previous), NoSide)
    {
      ReplacedPasses(ts, previous, d, x, root, file, inner, p);
    }
    PlannedGetsThrough(ts, ts, previous, NoSide);
    GettingThrough(ts, previous, NoSide);
  }

  // ----- A run that stops at a file without fingerprint

  /** A new remote file with no checksum, ETag or modification time. */
  ghost predicate NewFile(ts: Trees, f: Path, root: Entry, file: Entry) {
    && TopLevel(f) && root.typ == Directory && file.typ == File && !file.Fingerprinted()
    && ts == Trees(map["" := root], map["" := root, f := file])
  }

  lemma NewFilePlan(ts: Trees, f: Path, root: Entry, file: Entry)
    requires NewFile(ts, f, root, file)
    ensures AllPaths(ts.local, ts.remote, None) == {"", f}
    ensures PlanFor("", ts, None).kind == Skip
    ensures PlanFor(f, ts, None) == Action(Transfer, f, "", Local, File, false, file, ZERO)
  {
  }

  lemma NewFileShape(ts: Trees, f: Path, root: Entry, file: Entry)
    requires NewFile(ts, f, root, file)
    ensures WellFormed(ts)
  {
    assert Parent(f) == "";
  }

  /** A first plan is neither protected nor paired. */
  lemma FirstSteps(ts: Trees)
    ensures forall a :: a in Steps(ts, None) <==>
              a.path in AllPaths(ts.local, ts.remote, None) && a == PlanFor(a.path, ts, None)
  {
    PlannedMembers(ts.local, ts.remote, None);
  }

  lemma FirstPlan(ts: Trees, p: Path) returns (a: Action)
    requires WellFormed(ts) && p in AllPaths(ts.local, ts.remote, None) && PlanFor(p, ts, None).path == p
    requires forall q :: q in AllPaths(ts.local, ts.remote, None) ==> PlanFor(q, ts, None).kind != Conflict
    ensures ConflictFreePlan(ts, None) && a in PlanOf(ts, None) && a == PlanFor(p, ts, None)
  {
    FirstSteps(ts);
    SortedIsSort(Steps(ts, None));
    a := PlanFor(p, ts, None);
  }

  /** The first plan copies the file; the run stops, because the file does not
      equal itself. */
  lemma UnfingerprintedStops(ts: Trees, f: Path, root: Entry, file: Entry, strict: Side)
    requires NewFile(ts, f, root, file)
    ensures ConflictFreePlan(ts, None)
    ensures SweepingRun(TwoWay(strict), ts, PlanOf(ts, None)) == None
  {
    NewFileShape(ts, f, root, file);
    NewFilePlan(ts, f, root, file);
    var a := FirstPlan(ts, f);
    RunsThroughExactly(ts, None, strict);
    assert !TransfersFingerprinted(PlanOf(ts, None));
  }
}
