/** Which files a plan, with conflicts or without, moves instead of deleting
    and transferring. */
module Renames {
  import opened Common
  import opened Paths
  import opened Entries
  import opened Actions
  import opened Executor
  import opened Bidirectional
  import opened Planning
  import opened Reconciliation

  /** In the protected plan, the addition at `to` and the deletion at `from`
      look like each other and like nothing else on their side. */
  ghost predicate UniquePair(ts: Trees, previous: Option<Baseline>, side: Side, to: Path, from: Path) {
    var q := Shielded(ts, previous);
    previous.Some? && exists i, j :: RenamePair(q, i, j, ts, previous.value) && q[i].target == side
                                     && q[i].path == to && q[j].path == from
  }

  ghost predicate PlanMoves(ts: Trees, previous: Option<Baseline>, side: Side, to: Path, from: Path) {
    exists m :: m in PlanOf(ts, previous) && m.kind == Move && m.target == side && m.path == to
                && m.fromPath == from
  }

  lemma ShieldedHasNoMoves(ts: Trees, previous: Option<Baseline>)
    requires Scanned(ts.local) && Scanned(ts.remote)
    ensures DistinctPaths(Shielded(ts, previous))
    ensures forall k :: 0 <= k < |Shielded(ts, previous)| ==> Shielded(ts, previous)[k].kind != Move
  {
    var p, q := Planned(ts.local, ts.remote, previous), Shielded(ts, previous);
    assert |p| == |q|;
    PlannedMembers(ts.local, ts.remote, previous);
    forall k | 0 <= k < |q| ensures q[k].kind != Move && q[k].path == p[k].path {
      ShieldedCases(ts, previous, k);
      var o := ShieldedOrigin(ts, previous, k);
    }
  }

  /** Where a step of the plan comes from, by its place in the protected plan. */
  lemma MoveHasPair(q: seq<Action>, ts: Trees, previous: Option<Baseline>, m: Action) returns (i: nat, j: nat)
    requires forall k :: 0 <= k < |q| ==> q[k].kind != Move
    requires m in WithMoves(q, ts.local, ts.remote, previous) && m.kind == Move
    ensures previous.Some? && RenamePair(q, i, j, ts, previous.value) && j < |q|
    ensures m == AsMove(q[i], q[j])
    ensures AsRenamedAway(q[j]) in WithMoves(q, ts.local, ts.remote, previous)
  {
    var u := WithMoves(q, ts.local, ts.remote, previous);
    i :| 0 <= i < |u| && u[i] == m;
    PathIsKept(q, i, ts, previous.value);
    if x :| RenamePair(q, i, x, ts, previous.value) {
      j := x;
      PairIsRewritten(q, i, j, ts, previous.value);
      assert u[j] in u;
    } else if x :| RenamePair(q, x, i, ts, previous.value) {
      PairIsRewritten(q, x, i, ts, previous.value);
      assert false;
    } else {
      UnpairedIsKept(q, i, ts, previous.value);
      assert false;
    }
  }

  /** The plan moves exactly the unique pairs. */
  lemma MovesAreTheUniquePairs(ts: Trees, previous: Option<Baseline>, side: Side, to: Path, from: Path)
    requires Scanned(ts.local) && Scanned(ts.remote)
    ensures PlanMoves(ts, previous, side, to, from) <==> UniquePair(ts, previous, side, to, from)
  {
    SortedIsSort(Steps(ts, previous));
    ShieldedHasNoMoves(ts, previous);
    var q := Shielded(ts, previous);
    if PlanMoves(ts, previous, side, to, from) {
      var m :| m in PlanOf(ts, previous) && m.kind == Move && m.target == side && m.path == to
               && m.fromPath == from;
      var i, j := MoveHasPair(q, ts, previous, m);
    }
    if UniquePair(ts, previous, side, to, from) {
      var i, j :| RenamePair(q, i, j, ts, previous.value) && q[i].target == side && q[i].path == to
                  && q[j].path == from;
      PairIsRewritten(q, i, j, ts, previous.value);
      assert Steps(ts, previous)[i] in Steps(ts, previous);
    }
  }

  lemma PairsByPath(q: seq<Action>, ts: Trees, base: Baseline, i: nat, j: nat, x: nat, y: nat)
    requires DistinctPaths(q) && RenamePair(q, i, j, ts, base) && RenamePair(q, x, y, ts, base)
    requires j < |q| && y < |q| && q[i].target == q[x].target
    ensures q[j].path == q[y].path ==> i == x
    ensures q[i].path != q[y].path
    ensures q[i].path !in ts.On(q[i].target)
  {
  }

  /** Rename matching: on each side moves pair additions with deletions one to
      one, the deletion of each becomes the skip at its path, no path is both
      source and destination, and no move lands on something that exists. */
  lemma RenameMatching(ts: Trees, previous: Option<Baseline>, m: Action, n: Action)
    requires Scanned(ts.local) && Scanned(ts.remote)
    requires m in PlanOf(ts, previous) && m.kind == Move
    requires n in PlanOf(ts, previous) && n.kind == Move && n.target == m.target
    ensures m.target != NoSide && m.path !in ts.On(m.target)
    ensures m.fromPath == n.fromPath ==> m == n
    ensures m.path != n.fromPath
    ensures exists d :: d in PlanOf(ts, previous) && d.path == m.fromPath && d.kind == Skip && d.target == NoSide
  {
    SortedIsSort(Steps(ts, previous));
    ShieldedHasNoMoves(ts, previous);
    var d := MovesMatch(Shielded(ts, previous), ts, previous, m, n);
    assert d in PlanOf(ts, previous);
  }

  lemma MovesMatch(q: seq<Action>, ts: Trees, previous: Option<Baseline>, m: Action, n: Action)
    returns (d: Action)
    requires DistinctPaths(q) && forall k :: 0 <= k < |q| ==> q[k].kind != Move
    requires m in WithMoves(q, ts.local, ts.remote, previous) && m.kind == Move
    requires n in WithMoves(q, ts.local, ts.remote, previous) && n.kind == Move && n.target == m.target
    ensures m.target != NoSide && m.path !in ts.On(m.target)
    ensures m.fromPath == n.fromPath ==> m == n
    ensures m.path != n.fromPath
    ensures d in WithMoves(q, ts.local, ts.remote, previous)
    ensures d.path == m.fromPath && d.kind == Skip && d.target == NoSide
  {
    var i, j := MoveHasPair(q, ts, previous, m);
    var x, y := MoveHasPair(q, ts, previous, n);
    PairsByPath(q, ts, previous.value, i, j, x, y);
    d := AsRenamedAway(q[j]);
  }

  // ----- Renames out of a removed directory

  /** Whenever a conflict-free plan deletes a directory and moves a file out of
      it, the deletion comes first and the run stops. */
  lemma RenameOutOfDeletedDirectoryStops(ts: Trees, previous: Option<Baseline>, m: Action, d: Action)
    requires ConflictFreePlan(ts, previous)
    requires m in PlanOf(ts, previous) && m.kind == Move
    requires d in PlanOf(ts, previous) && d.kind == Delete && d.target == m.target
    requires IsDescendant(m.fromPath, d.path)
    ensures !MovesPrecedeRemovals(PlanOf(ts, previous))
    ensures Run(ts, PlanOf(ts, previous)) == None
  {
    var plan := PlanOf(ts, previous);
    PlanMembers(ts, previous);
    ExecutableOrder(ts, previous);
    var i :| 0 <= i < |plan| && plan[i] == m;
    var j :| 0 <= j < |plan| && plan[j] == d;
    BeforeIndex(plan, j, i);
    assert PullsFromRemoved(plan, i, j);
  }

  /** Locally `d/x` was renamed to `e/x` and `d` removed; the remote side is as
      it was. */
  ghost predicate AfterRename(ts: Trees, previous: Option<Baseline>, root: Entry, notes: Entry) {
    && root.typ == Directory && notes.typ == File && notes.Fingerprinted()
    && ts.local == map["" := root, "e" := root, "e/x" := notes]
    && ts.remote == map["" := root, "d" := root, "d/x" := notes]
    && previous == Some(map["" := Record(root, root), "d" := Record(root, root), "d/x" := Record(notes, notes)])
  }

  lemma RenamedPaths(ts: Trees, previous: Option<Baseline>, root: Entry, notes: Entry)
    requires AfterRename(ts, previous, root, notes)
    ensures AllPaths(ts.local, ts.remote, previous) == {"", "d", "d/x", "e", "e/x"}
  {
  }

  lemma RenamedIsWellFormed(ts: Trees, previous: Option<Baseline>, root: Entry, notes: Entry)
    requires AfterRename(ts, previous, root, notes)
    ensures WellFormed(ts)
  {
    assert Parent("e/x") == "e" && Parent("e") == "";
    SmallTree(ts.local, "e", "e/x", root, notes);
    assert Parent("d/x") == "d" && Parent("d") == "";
    SmallTree(ts.remote, "d", "d/x", root, notes);
  }

  lemma SmallTree(s: Snapshot, d: Path, x: Path, root: Entry, notes: Entry)
    requires s == map["" := root, d := root, x := notes]
    requires root.typ == Directory && notes.typ == File
    requires Normal(d) && Normal(x) && d != "." && x != "." && x != "" && x != d
    requires Parent(d) == "" && Parent(x) == d
    ensures Scanned(s) && ParentClosed(s)
  {
  }

  lemma RenamedPlan(ts: Trees, previous: Option<Baseline>, root: Entry, notes: Entry)
    requires AfterRename(ts, previous, root, notes)
    ensures PlanFor("", ts, previous).kind == Skip
    ensures PlanFor("d", ts, previous)
            == Action(Delete, "d", "", Remote, Directory, false, ZERO, root)
    ensures PlanFor("d/x", ts, previous)
            == Action(Delete, "d/x", "", Remote, File, false, ZERO, notes)
    ensures PlanFor("e", ts, previous)
            == Action(CreateDirectory, "e", "", Remote, Directory, false, root, ZERO)
    ensures PlanFor("e/x", ts, previous)
            == Action(Transfer, "e/x", "", Remote, File, false, notes, ZERO)
  {
  }

  ghost predicate InPlan(ts: Trees, previous: Option<Baseline>, a: Action) {
    a.path in AllPaths(ts.local, ts.remote, previous) && a == PlanFor(a.path, ts, previous)
  }

  lemma NotesUnchanged(ts: Trees, previous: Option<Baseline>, root: Entry, notes: Entry)
    requires AfterRename(ts, previous, root, notes)
    ensures !SubtreeChanged("d", ts.remote, previous.value, Remote)
  {
    var base := previous.value;
    forall p | p in ts.remote.Keys + base.Keys && HasPrefix(p, "d")
      ensures !ChangedAt(p, ts.remote, base, Remote)
    {
      assert p == "d/x";
    }
  }

  lemma RenamedIsPeaceful(ts: Trees, previous: Option<Baseline>, root: Entry, notes: Entry, a: Action)
    requires AfterRename(ts, previous, root, notes)
    requires InPlan(ts, previous, a)
    ensures a.kind != Conflict && !Endangered(a, ts.local, ts.remote, previous.value)
    ensures IsAddition(a, Remote) ==> a.path == "e/x"
    ensures IsRemoval(a, Remote, previous.value) ==> a.path == "d/x"
  {
    RenamedPaths(ts, previous, root, notes);
    RenamedPlan(ts, previous, root, notes);
    NotesUnchanged(ts, previous, root, notes);
  }

  /** A plan with no conflict and nothing to protect stays free of conflicts. */
  lemma PeacefulStaysConflictFree(ts: Trees, previous: Option<Baseline>)
    requires previous.Some?
    requires forall a :: a in Planned(ts.local, ts.remote, previous) ==>
               a.kind != Conflict && !Endangered(a, ts.local, ts.remote, previous.value)
    ensures ConflictFree(Steps(ts, previous)) && Shielded(ts, previous) == Planned(ts.local, ts.remote, previous)
  {
    var p, q := Planned(ts.local, ts.remote, previous), Shielded(ts, previous);
    forall k | 0 <= k < |p| ensures q[k] == p[k] {
      assert p[k] in p;
    }
    assert q == p;
    forall k | 0 <= k < |q| ensures |Steps(ts, previous)| == |q| && Steps(ts, previous)[k].kind != Conflict {
      assert p[k] in p;
      KindAfterMoves(q, k, ts, previous.value);
    }
  }

  lemma KindAfterMoves(q: seq<Action>, k: nat, ts: Trees, base: Baseline)
    requires k < |q| && q[k].kind != Conflict
    ensures var u := WithMoves(q, ts.local, ts.remote, Some(base)); |u| == |q| && u[k].kind != Conflict
  {
    if j :| RenamePair(q, k, j, ts, base) {
      PairIsRewritten(q, k, j, ts, base);
    } else if i :| RenamePair(q, i, k, ts, base) {
      PairIsRewritten(q, i, k, ts, base);
    } else {
      UnpairedIsKept(q, k, ts, base);
    }
  }

  lemma RenamedIsConflictFree(ts: Trees, previous: Option<Baseline>, root: Entry, notes: Entry)
    requires AfterRename(ts, previous, root, notes)
    ensures ConflictFreePlan(ts, previous)
    ensures ConflictFree(Steps(ts, previous))
  {
    PlannedMembers(ts.local, ts.remote, previous);
    RenamedIsWellFormed(ts, previous, root, notes);
    forall a | a in Planned(ts.local, ts.remote, previous)
      ensures a.kind != Conflict && !Endangered(a, ts.local, ts.remote, previous.value)
    {
      RenamedIsPeaceful(ts, previous, root, notes, a);
    }
    PeacefulStaysConflictFree(ts, previous);
    SortedIsSort(Steps(ts, previous));
  }

  lemma RenamedDeletion(ts: Trees, previous: Option<Baseline>, root: Entry, notes: Entry) returns (d: Action)
    requires AfterRename(ts, previous, root, notes)
    requires ConflictFree(Steps(ts, previous))
    ensures d in Steps(ts, previous) && d.kind == Delete && d.target == Remote && d.path == "d"
  {
    RenamedPaths(ts, previous, root, notes);
    d := StepFor(ts, previous, "d");
    DirectoryStepIsKept(ts, previous, root, notes, d);
    RenamedPlan(ts, previous, root, notes);
  }

  lemma InOrder(ts: Trees, previous: Option<Baseline>, a: Action)
    requires a in Steps(ts, previous)
    ensures a in PlanOf(ts, previous)
  {
    SortedIsSort(Steps(ts, previous));
  }

  /** The order does fail: this conflict-free plan cannot be run. */
  lemma RenamedTreesStop(ts: Trees, previous: Option<Baseline>, root: Entry, notes: Entry)
    requires AfterRename(ts, previous, root, notes)
    ensures ConflictFreePlan(ts, previous)
    ensures !MovesPrecedeRemovals(PlanOf(ts, previous))
    ensures Run(ts, PlanOf(ts, previous)) == None
  {
    RenamedIsConflictFree(ts, previous, root, notes);
    var m := RenamedMove(ts, previous, root, notes);
    var d := RenamedDeletion(ts, previous, root, notes);
    InOrder(ts, previous, m);
    InOrder(ts, previous, d);
    assert IsDescendant("d/x", "d");
    RenameOutOfDeletedDirectoryStops(ts, previous, m, d);
  }

  lemma DirectoryStepIsKept(ts: Trees, previous: Option<Baseline>, root: Entry, notes: Entry, d: Action)
    requires AfterRename(ts, previous, root, notes)
    requires d.path == "d" && HasFate(d, ts, previous)
    ensures d == PlanFor("d", ts, previous)
  {
    RenamedPlan(ts, previous, root, notes);
    if f :| RenameOf(ts, previous, "d", f) { RenameFacts(ts, previous, "d", f); }
    if t :| RenameOf(ts, previous, t, "d") { RenameFacts(ts, previous, t, "d"); }
  }

  /** One addition and one deletion that look alike are a rename. */
  lemma LonePairIsRename(p: seq<Action>, ts: Trees, base: Baseline, to: Action, from: Action)
    returns (i: nat, j: nat)
    requires DistinctPaths(p) && to in p && from in p
    requires IsAddition(to, Remote) && IsRemoval(from, Remote, base) && to.path !in ts.remote
    requires to.source.Equal(RemovedFingerprint(from, base))
    requires forall a :: a in p && IsAddition(a, Remote) ==> a.path == to.path
    requires forall a :: a in p && IsRemoval(a, Remote, base) ==> a.path == from.path
    ensures RenamePair(p, i, j, ts, base) && j < |p| && p[i] == to && p[j] == from
  {
    i :| 0 <= i < |p| && p[i] == to;
    j :| 0 <= j < |p| && p[j] == from;
    forall x, y | Resembles(p, x, y, Remote, base) ensures x == i && y == j {
      assert p[x] in p && p[y] in p;
    }
  }

  lemma RenamedPair(ts: Trees, previous: Option<Baseline>, root: Entry, notes: Entry) returns (i: nat, j: nat)
    requires AfterRename(ts, previous, root, notes)
    ensures var p := Planned(ts.local, ts.remote, previous);
      && RenamePair(p, i, j, ts, previous.value) && j < |p|
      && p[i].path == "e/x" && p[j].path == "d/x"
  {
    var p := Planned(ts.local, ts.remote, previous);
    PlannedMembers(ts.local, ts.remote, previous);
    forall a | a in p
      ensures IsAddition(a, Remote) ==> a.path == "e/x"
      ensures IsRemoval(a, Remote, previous.value) ==> a.path == "d/x"
    {
      RenamedIsPeaceful(ts, previous, root, notes, a);
    }
    RenamedPlan(ts, previous, root, notes);
    i, j := LonePairIsRename(p, ts, previous.value, PlanFor("e/x", ts, previous), PlanFor("d/x", ts, previous));
  }

  lemma RenamedMove(ts: Trees, previous: Option<Baseline>, root: Entry, notes: Entry) returns (m: Action)
    requires AfterRename(ts, previous, root, notes)
    requires ConflictFree(Steps(ts, previous))
    ensures m in Steps(ts, previous) && m.kind == Move && m.target == Remote && m.fromPath == "d/x"
  {
    var i, j := RenamedPair(ts, previous, root, notes);
    assert RenameOf(ts, previous, "e/x", "d/x");
    RenameSteps(ts, previous, "e/x", "d/x");
    RenamedPlan(ts, previous, root, notes);
    m := AsMove(PlanFor("e/x", ts, previous), PlanFor("d/x", ts, previous));
  }
}
