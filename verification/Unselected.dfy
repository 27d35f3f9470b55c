/** A directory that both trees hold but the filters show on one side only, because
    its last included file is gone on the other. A bidirectional run stops there; a
    one-way run with deletion removes it, with files the filters left out. */
module Unselected {
  import opened Common
  import opened Paths
  import opened Entries
  import opened Actions
  import opened Executor
  import opened Filters
  import opened Bidirectional
  import opened Planning
  import opened Reconciliation
  import opened Sweeping
  import opened EndToEnd
  import opened Instances
  import Mirror
  import MirrorRun
  import OneWay
  import Renames

  /** A top-level directory with two files, and a top-level file. */
  predicate Laid(d: Path, x: Path, k: Path, c: Path) {
    TopLevel(d) && TopLevel(k) && Inside(x, d) && Inside(c, d) && x != c && d != k && !HasPrefix(k, d)
  }

  function RawTrees(d: Path, x: Path, k: Path, c: Path, root: Entry, file: Entry): Trees {
    Trees(map["" := root, d := root, x := file, c := file, k := file], map["" := root, d := root, k := file])
  }

  function ShownTrees(d: Path, x: Path, k: Path, root: Entry, file: Entry): Trees {
    Trees(map["" := root, d := root, x := file, k := file], map["" := root, k := file])
  }

  function SavedPairs(d: Path, x: Path, k: Path, root: Entry, file: Entry): Baseline {
    map["" := Record(root, root), d := Record(root, root), x := Record(file, file), k := Record(file, file)]
  }

  /** One side has the directory `d` with the included file `x` and the file `c`,
      which the includes do not select. The other side has `d` as well, but empty.
      The included file `k` keeps the roots. */
  ghost predicate OneSidedInclude(host: Host, raw: Trees, includes: seq<string>, d: Path, x: Path, k: Path, c: Path,
                                  root: Entry, file: Entry)
  {
    && Laid(d, x, k, c) && Typical(root, file) && raw == RawTrees(d, x, k, c, root, file)
    && Selects(host, includes, d, x, k, c)
  }

  /** Of these paths, the includes match the two files `x` and `k`. */
  predicate Selects(host: Host, includes: seq<string>, d: Path, x: Path, k: Path, c: Path) {
    forall p :: p in {"", d, x, k, c} ==> (MatchesAny(host, p, includes) <==> p == x || p == k)
  }

  /** What the layout means for chains and parents. */
  ghost predicate Chained(d: Path, x: Path, k: Path, c: Path) {
    && Chain(d) == {d, "."} && Chain(x) == {x, d, "."} && Chain(k) == {k, "."}
    && d != "" && x != "" && k != "" && c != "" && d != x && d != k && x != k && c != d && c != x && c != k
    && d != "." && x != "." && k != "." && c != "."
  }

  lemma LaidIsChained(d: Path, x: Path, k: Path, c: Path)
    requires Laid(d, x, k, c)
    ensures Chained(d, x, k, c)
  {
    assert Dir(d) == "." && Dir(x) == d && Dir(k) == ".";
    assert Chain(".") == {"."};
  }

  lemma ShownAre(host: Host, raw: Trees, includes: seq<string>, d: Path, x: Path, k: Path, c: Path,
                 root: Entry, file: Entry)
    requires Chained(d, x, k, c) && raw == RawTrees(d, x, k, c, root, file) && Selects(host, includes, d, x, k, c)
    ensures FilteredTrees(host, raw, includes, []) == ShownTrees(d, x, k, root, file)
  {
    ShownLocal(host, raw.local, includes, d, x, k, c, root, file);
    ShownRemote(host, raw.remote, includes, d, x, k, c, root, file);
  }

  /** The root and the chosen paths of a tree. */
  function Picked(s: Snapshot, chosen: set<Path>): Snapshot {
    map p | p in s && (p == "" || p in chosen) :: s[p]
  }

  lemma ShownLocal(host: Host, s: Snapshot, includes: seq<string>, d: Path, x: Path, k: Path, c: Path,
                   root: Entry, file: Entry)
    requires Chained(d, x, k, c) && s == RawTrees(d, x, k, c, root, file).local && Selects(host, includes, d, x, k, c)
    ensures Filtered(host, s, includes, []) == ShownTrees(d, x, k, root, file).local
  {
    OnlySelectedLocal(p => MatchesAny(host, p, includes), s, d, x, k, c, root, file);
    SelectedBy(host, s, includes, x, k, Chain(x) + Chain(k));
    PickedLocal(s, d, x, k, c, root, file, Chain(x) + Chain(k));
  }

  lemma PickedLocal(s: Snapshot, d: Path, x: Path, k: Path, c: Path, root: Entry, file: Entry, chosen: set<Path>)
    requires s == RawTrees(d, x, k, c, root, file).local && chosen == {x, d, k, "."}
    requires c != "" && c != d && c != x && c != k && c != "."
    ensures Picked(s, chosen) == ShownTrees(d, x, k, root, file).local
  {
  }

  lemma ShownRemote(host: Host, s: Snapshot, includes: seq<string>, d: Path, x: Path, k: Path, c: Path,
                    root: Entry, file: Entry)
    requires Chained(d, x, k, c) && s == RawTrees(d, x, k, c, root, file).remote && Selects(host, includes, d, x, k, c)
    ensures Filtered(host, s, includes, []) == ShownTrees(d, x, k, root, file).remote
  {
    OnlySelectedRemote(p => MatchesAny(host, p, includes), s, d, x, k, c, root, file);
    SelectedBy(host, s, includes, k, k, Chain(k) + Chain(k));
    PickedRemote(s, d, x, k, c, root, file, Chain(k) + Chain(k));
  }

  lemma PickedRemote(s: Snapshot, d: Path, x: Path, k: Path, c: Path, root: Entry, file: Entry, chosen: set<Path>)
    requires s == RawTrees(d, x, k, c, root, file).remote && chosen == {k, "."}
    requires d != "" && d != k && d != "."
    ensures Picked(s, chosen) == ShownTrees(d, x, k, root, file).remote
  {
  }

  ghost predicate OnlyMatches(matches: Path -> bool, s: Snapshot, x: Path, k: Path) {
    x in s && k in s && forall p :: p in s ==> (matches(p) <==> p == x || p == k)
  }

  lemma OnlySelectedLocal(matches: Path -> bool, s: Snapshot, d: Path, x: Path, k: Path, c: Path,
                          root: Entry, file: Entry)
    requires s == RawTrees(d, x, k, c, root, file).local
    requires forall p :: p in {"", d, x, k, c} ==> (matches(p) <==> p == x || p == k)
    ensures OnlyMatches(matches, s, x, k)
  {
  }

  lemma OnlySelectedRemote(matches: Path -> bool, s: Snapshot, d: Path, x: Path, k: Path, c: Path,
                           root: Entry, file: Entry)
    requires s == RawTrees(d, x, k, c, root, file).remote
    requires forall p :: p in {"", d, x, k, c} ==> (matches(p) <==> p == x || p == k)
    requires x != "" && x != d && x != k
    ensures OnlyMatches(matches, s, k, k)
  {
  }

  lemma SelectedAt(host: Host, s: Snapshot, includes: seq<string>, x: Path, k: Path, p: Path)
    requires OnlyMatches(q => MatchesAny(host, q, includes), s, x, k)
    ensures Selected(host, s, p, includes) <==> p == "" || p in Chain(x) || p in Chain(k)
  {
    assert MatchesAny(host, x, includes) && MatchesAny(host, k, includes);
  }

  /** Without excludes, two matching paths select their chains and the root. */
  lemma SelectedBy(host: Host, s: Snapshot, includes: seq<string>, x: Path, k: Path, chosen: set<Path>)
    requires OnlyMatches(q => MatchesAny(host, q, includes), s, x, k) && chosen == Chain(x) + Chain(k)
    ensures Filtered(host, s, includes, []) == Picked(s, chosen)
  {
    forall p ensures p in Filtered(host, s, includes, []) <==> p in Picked(s, chosen) {
      SelectedAt(host, s, includes, x, k, p);
      NothingExcluded(host, p);
    }
  }

  lemma PlannerIsShown(host: Host, raw: Trees, includes: seq<string>, d: Path, x: Path, k: Path, c: Path,
                       root: Entry, file: Entry) returns (ts: Trees)
    requires OneSidedInclude(host, raw, includes, d, x, k, c, root, file)
    ensures ts == FilteredTrees(host, raw, includes, []) && ts == ShownTrees(d, x, k, root, file)
    ensures WellFormed(ts) && Scanned(raw.local) && Scanned(raw.remote)
    ensures Distinct(d, x, k, c) && Hidden(ts, raw, d, c)
  {
    LaidIsChained(d, x, k, c);
    ShownAre(host, raw, includes, d, x, k, c, root, file);
    ts := ShownTrees(d, x, k, root, file);
    ShownLocalShape(ts.local, d, x, k, root, file);
    ShownRemoteShape(ts.remote, k, root, file);
    RawShape(raw, d, x, k, c, root, file);
  }

  /** One side hides the directory, the other a file in it. */
  predicate Hidden(ts: Trees, raw: Trees, d: Path, c: Path) {
    && d in ts.local && d in raw.remote && d !in ts.remote
    && IsDescendant(c, d) && c in raw.local && c !in ts.local && c !in ts.remote
  }

  predicate Distinct(d: Path, x: Path, k: Path, c: Path) {
    d != "" && x != "" && k != "" && d != x && d != k && x != k && c != "" && c != d && c != x && c != k
  }

  lemma ShownLocalShape(s: Snapshot, d: Path, x: Path, k: Path, root: Entry, file: Entry)
    requires s == map["" := root, d := root, x := file, k := file] && root.typ == Directory && file.typ == File
    requires TopLevel(d) && TopLevel(k) && Inside(x, d) && d != k
    ensures Scanned(s) && ParentClosed(s)
  {
    assert Parent(d) == "" && Parent(k) == "" && x != "" && x != d && x != k;
  }

  lemma ShownRemoteShape(s: Snapshot, k: Path, root: Entry, file: Entry)
    requires s == map["" := root, k := file] && root.typ == Directory && file.typ == File && TopLevel(k)
    ensures Scanned(s) && ParentClosed(s)
  {
    assert Parent(k) == "";
  }

  lemma RawShape(raw: Trees, d: Path, x: Path, k: Path, c: Path, root: Entry, file: Entry)
    requires Laid(d, x, k, c) && raw == RawTrees(d, x, k, c, root, file) && root.typ == Directory && file.typ == File
    ensures Scanned(raw.local) && Scanned(raw.remote)
  {
  }

  // ----- The bidirectional run

  /** What the planner is shown after both sides were synchronised. */
  ghost predicate Shown(ts: Trees, previous: Option<Baseline>, d: Path, x: Path, k: Path, root: Entry, file: Entry) {
    && ts == ShownTrees(d, x, k, root, file) && previous == Some(SavedPairs(d, x, k, root, file))
    && d != "" && x != "" && k != "" && d != x && d != k && x != k && !HasPrefix(k, d)
    && Typical(root, file)
  }

  lemma ShownPlan(ts: Trees, previous: Option<Baseline>, d: Path, x: Path, k: Path, root: Entry, file: Entry)
    requires Shown(ts, previous, d, x, k, root, file)
    ensures AllPaths(ts.local, ts.remote, previous) == {"", d, x, k}
    ensures Idle(PlanFor("", ts, previous)) && Idle(PlanFor(k, ts, previous))
    ensures PlanFor(d, ts, previous) == Action(Delete, d, "", Local, Directory, false, ZERO, root)
    ensures PlanFor(x, ts, previous) == Action(Delete, x, "", Local, File, false, ZERO, file)
  {
    ShownIdle(ts, previous, d, x, k, root, file);
    ShownRemovals(ts, previous, d, x, k, root, file);
  }

  lemma ShownIdle(ts: Trees, previous: Option<Baseline>, d: Path, x: Path, k: Path, root: Entry, file: Entry)
    requires Shown(ts, previous, d, x, k, root, file)
    ensures Idle(PlanFor("", ts, previous)) && Idle(PlanFor(k, ts, previous))
  {
    EqualReflexivity(file);
    PlanWhenSame(file, k);
    PlanWhenSame(root, "");
  }

  lemma ShownRemovals(ts: Trees, previous: Option<Baseline>, d: Path, x: Path, k: Path, root: Entry, file: Entry)
    requires Shown(ts, previous, d, x, k, root, file)
    ensures PlanFor(d, ts, previous) == Action(Delete, d, "", Local, Directory, false, ZERO, root)
    ensures PlanFor(x, ts, previous) == Action(Delete, x, "", Local, File, false, ZERO, file)
  {
    EqualReflexivity(file);
    PlanWhenRemovedRemotely(root, d);
    PlanWhenRemovedRemotely(file, x);
  }

  /** An entry that is missing remotely and otherwise as it was. */
  lemma PlanWhenRemovedRemotely(e: Entry, p: Path)
    requires e.Equal(e) && p != ""
    ensures PlanPath(p, e, true, ZERO, false, Some(Record(e, e))) == Action(Delete, p, "", Local, e.typ, false, ZERO, e)
  {
  }

  lemma ShownKind(ts: Trees, previous: Option<Baseline>, d: Path, x: Path, k: Path, root: Entry, file: Entry, p: Path)
    requires Shown(ts, previous, d, x, k, root, file) && p in AllPaths(ts.local, ts.remote, previous)
    ensures var a := PlanFor(p, ts, previous); Idle(a) || a.kind == Delete
    ensures !Endangered(PlanFor(p, ts, previous), ts.local, ts.remote, previous.value)
  {
    ShownPlan(ts, previous, d, x, k, root, file);
    NoPrefixOfItself(d);
    EqualReflexivity(file);
    forall q | q in ts.local.Keys + previous.value.Keys && HasPrefix(q, d)
      ensures !ChangedAt(q, ts.local, previous.value, Local)
    {
      assert q == x;
    }
  }

  lemma ShownStaysConflictFree(ts: Trees, previous: Option<Baseline>, d: Path, x: Path, k: Path,
                               root: Entry, file: Entry)
    requires Shown(ts, previous, d, x, k, root, file)
    ensures ConflictFree(Steps(ts, previous)) && NoAdditions(ts, previous)
  {
    PlannedMembers(ts.local, ts.remote, previous);
    forall p | p in AllPaths(ts.local, ts.remote, previous)
      ensures PlanFor(p, ts, previous).kind != Conflict && !Addition(PlanFor(p, ts, previous))
      ensures !Endangered(PlanFor(p, ts, previous), ts.local, ts.remote, previous.value)
    {
      ShownKind(ts, previous, d, x, k, root, file, p);
    }
    Renames.PeacefulStaysConflictFree(ts, previous);
  }

  lemma ShownDeletion(ts: Trees, previous: Option<Baseline>, d: Path, x: Path, k: Path, root: Entry, file: Entry)
    returns (a: Action)
    requires Shown(ts, previous, d, x, k, root, file) && WellFormed(ts)
    ensures ConflictFreePlan(ts, previous)
    ensures a in PlanOf(ts, previous) && a.kind == Delete && a.target == Local && a.path == d
  {
    ShownStaysConflictFree(ts, previous, d, x, k, root, file);
    ShownPlan(ts, previous, d, x, k, root, file);
    a := StepAt(ts, previous, d);
  }

  /** Any step about a hidden path stops the run. */
  lemma HiddenStepStops(host: Host, raw: Trees, includes: seq<string>, excludes: seq<string>, ts: Trees,
                        previous: Option<Baseline>, strict: Side, a: Action, side: Side)
    requires Scanned(raw.local) && Scanned(raw.remote) && side != NoSide && a.kind != Skip
    requires ts == FilteredTrees(host, raw, includes, excludes) && ConflictFreePlan(ts, previous)
    requires a in PlanOf(ts, previous) && a.path in raw.On(side) && a.path !in ts.On(side)
    ensures SweepingRun(TwoWay(strict), raw, PlanOf(ts, previous)) == None
  {
    FilteredRunExactly(host, raw, includes, excludes, previous, strict);
    assert !ShownBothSides(ts, raw, a);
  }

  lemma HiddenDeletion(ts: Trees, raw: Trees, previous: Option<Baseline>, d: Path, x: Path, k: Path, c: Path,
                       root: Entry, file: Entry) returns (a: Action)
    requires ts == ShownTrees(d, x, k, root, file) && WellFormed(ts) && Hidden(ts, raw, d, c)
    requires Distinct(d, x, k, c) && !HasPrefix(k, d) && Typical(root, file)
    requires previous == Some(SavedPairs(d, x, k, root, file))
    ensures ConflictFreePlan(ts, previous) && a in PlanOf(ts, previous) && a.kind != Skip
    ensures a.path in raw.remote && a.path !in ts.remote
  {
    a := ShownDeletion(ts, previous, d, x, k, root, file);
  }

  lemma PlannedWhereHidden(host: Host, raw: Trees, previous: Option<Baseline>, includes: seq<string>,
                           d: Path, x: Path, k: Path, c: Path, root: Entry, file: Entry)
    returns (ts: Trees, a: Action)
    requires OneSidedInclude(host, raw, includes, d, x, k, c, root, file)
    requires previous == Some(SavedPairs(d, x, k, root, file))
    ensures ts == FilteredTrees(host, raw, includes, []) && Scanned(raw.local) && Scanned(raw.remote)
    ensures ConflictFreePlan(ts, previous) && a in PlanOf(ts, previous) && a.kind != Skip
    ensures a.path in raw.remote && a.path !in ts.remote
  {
    ts := PlannerIsShown(host, raw, includes, d, x, k, c, root, file);
    a := HiddenDeletion(ts, raw, previous, d, x, k, c, root, file);
  }

  /** The included file was removed remotely, so that the planner takes the whole
      directory to be gone there. The plan is free of conflicts; the run stops when
      it finds the directory that it is about to remove locally. */
  lemma UnselectedDirectoryStops(host: Host, raw: Trees, previous: Option<Baseline>, includes: seq<string>,
                                 d: Path, x: Path, k: Path, c: Path, root: Entry, file: Entry, strict: Side)
    returns (ts: Trees)
    requires OneSidedInclude(host, raw, includes, d, x, k, c, root, file)
    requires previous == Some(SavedPairs(d, x, k, root, file))
    ensures ts == FilteredTrees(host, raw, includes, []) && ConflictFreePlan(ts, previous)
    ensures SweepingRun(TwoWay(strict), raw, PlanOf(ts, previous)) == None
  {
    var a;
    ts, a := PlannedWhereHidden(host, raw, previous, includes, d, x, k, c, root, file);
    HiddenStepStops(host, raw, includes, [], ts, previous, strict, a, Remote);
  }

  // ----- The one-way run

  lemma MirrorStep(s: Snapshot, t: Snapshot, d: Path, x: Path, k: Path, root: Entry, file: Entry, overwrite: bool,
                   p: Path)
    requires Trees(t, s) == ShownTrees(d, x, k, root, file) && Typical(root, file) && (p in s || p in t)
    requires d != "" && x != "" && k != "" && d != x && d != k && x != k
    ensures OneWay.PlanAt(p, s, t, None, OneWay.Options(true, overwrite)).kind == if p in s then Skip else Delete
    ensures p in t && Recognised(t[p])
  {
    EqualReflexivity(file);
  }

  lemma MirrorAgreed(s: Snapshot, t: Snapshot, d: Path, x: Path, k: Path, root: Entry, file: Entry,
                     options: OneWay.Options)
    requires Trees(t, s) == ShownTrees(d, x, k, root, file) && Typical(root, file) && WellFormed(Trees(t, s))
    requires d != "" && x != "" && k != "" && d != x && d != k && x != k && options.delete
    ensures Mirror.Agreed(s, t, None, options) && Mirror.RootIsSafe(s, t, options)
  {
    OneWay.MirrorMembers(s, t, None, options);
    forall a | a in OneWay.MirrorPlan(s, t, None, options) ensures a.kind != Conflict {
      MirrorStep(s, t, d, x, k, root, file, options.overwrite, a.path);
    }
  }

  lemma MirrorReaches(plan: seq<Action>, s: Snapshot, t: Snapshot, destination: Snapshot, options: OneWay.Options)
    requires Mirror.Covers(plan, s, t, options) && Contains(destination, t)
    requires s.Keys <= t.Keys && forall p :: p in t ==> Recognised(t[p])
    ensures forall a :: a in plan ==> MirrorRun.AtDestination(t, destination, a)
  {
    forall a | a in plan ensures MirrorRun.AtDestination(t, destination, a) {
      assert Mirror.IsStep(a, s, t, options);
    }
  }

  lemma ShownRecognised(s: Snapshot, t: Snapshot, d: Path, x: Path, k: Path, root: Entry, file: Entry)
    requires Trees(t, s) == ShownTrees(d, x, k, root, file) && Typical(root, file)
    ensures s.Keys <= t.Keys && forall p :: p in t ==> Recognised(t[p])
  {
  }

  lemma HiddenIsSwept(host: Host, raw: Trees, includes: seq<string>, ts: Trees, d: Path, c: Path,
                      options: OneWay.Options, strict: Side)
    requires ts == FilteredTrees(host, raw, includes, []) && Hidden(ts, raw, d, c) && options.delete
    requires Scanned(raw.local) && Scanned(raw.remote)
    requires Mirror.Agreed(ts.remote, ts.local, None, options) && Mirror.RootIsSafe(ts.remote, ts.local, options)
    requires ts.remote.Keys <= ts.local.Keys && forall p :: p in ts.local ==> Recognised(ts.local[p])
    ensures var run := SweepingRun(MirrorRun.OneSided(strict), Trees(raw.remote, raw.local),
                                   Mirror.RunnablePlan(ts.remote, ts.local, None, options));
            run.Some? && c !in run.value.remote
  {
    var s, t := ts.remote, ts.local;
    Mirror.PlanCovers(s, t, None, options);
    MirrorReaches(Mirror.RunnablePlan(s, t, None, options), s, t, raw.local, options);
    MirrorRun.FilteredMirrorExactly(host, raw.remote, raw.local, includes, [], None, options, strict);
    MirrorRun.LeftOutSurvives(host, raw.remote, raw.local, includes, [], None, options, strict, c);
  }

  /** The same trees, with the emptied directory on the source side: a one-way run
      with deletion goes through and removes the directory at the destination,
      although the source has it, with a file that was never synchronised. */
  lemma UnselectedFileIsRemoved(host: Host, raw: Trees, includes: seq<string>, d: Path, x: Path, k: Path, c: Path,
                                root: Entry, file: Entry, options: OneWay.Options, strict: Side)
    returns (s: Snapshot, t: Snapshot)
    requires OneSidedInclude(host, raw, includes, d, x, k, c, root, file) && options.delete
    ensures s == Filtered(host, raw.remote, includes, []) && t == Filtered(host, raw.local, includes, [])
    ensures Mirror.Agreed(s, t, None, options)
    ensures var run := SweepingRun(MirrorRun.OneSided(strict), Trees(raw.remote, raw.local),
                                   Mirror.RunnablePlan(s, t, None, options));
            run.Some? && d in raw.remote && c in raw.local && c !in run.value.remote
  {
    var ts := PlannerIsShown(host, raw, includes, d, x, k, c, root, file);
    s, t := ts.remote, ts.local;
    MirrorAgreed(s, t, d, x, k, root, file, options);
    ShownRecognised(s, t, d, x, k, root, file);
    HiddenIsSwept(host, raw, includes, ts, d, c, options, strict);
  }
}
