/** The check after a bidirectional run: both trees are scanned and filtered again,
    and compared path by path. */
module Verification {
  import opened Common
  import opened Paths
  import opened Entries
  import opened Actions
  import opened Executor
  import opened Filters
  import opened Bidirectional
  import opened Planning
  import opened Reconciliation
  import opened Sweeping
  import opened EndToEnd
  import Quiescence

  predicate ConvergedAt(ts: Trees, p: Path) {
    p in ts.local && p in ts.remote && ts.local[p].Converged(ts.remote[p])
  }

  ghost predicate Verified(ts: Trees) {
    forall p :: p in ts.local.Keys + ts.remote.Keys ==> ConvergedAt(ts, p)
  }

  ghost function Differences(ts: Trees): set<Path> {
    set p | p in ts.local.Keys + ts.remote.Keys && !ConvergedAt(ts, p)
  }

  /** The first path, in order, at which the trees differ. The empty answer also
      stands for no difference, so that one at the root hides all others. */
  method FirstDifference(ts: Trees) returns (difference: Path)
    ensures if Verified(ts) then difference == ""
            else IsLeast(difference, Differences(ts))
  {
    var paths := SortedPaths(ts.local.Keys + ts.remote.Keys);
    for i := 0 to |paths|
      invariant forall k :: 0 <= k < i ==> ConvergedAt(ts, paths[k])
    {
      assert paths[i] in Elements(paths);
      if !ConvergedAt(ts, paths[i]) {
        FirstIsLeast(ts, paths, i);
        return paths[i];
      }
    }
    NoneDiffers(ts, paths);
    return "";
  }

  lemma NoneDiffers(ts: Trees, paths: seq<Path>)
    requires Elements(paths) == ts.local.Keys + ts.remote.Keys
    requires forall k :: 0 <= k < |paths| ==> ConvergedAt(ts, paths[k])
    ensures Verified(ts)
  {
    forall p | p in Elements(paths) ensures ConvergedAt(ts, p) {
      var k :| 0 <= k < |paths| && paths[k] == p;
    }
  }

  lemma FirstIsLeast(ts: Trees, paths: seq<Path>, i: nat)
    requires StrictlySorted(paths) && Elements(paths) == ts.local.Keys + ts.remote.Keys && i < |paths|
    requires !ConvergedAt(ts, paths[i]) && forall k :: 0 <= k < i ==> ConvergedAt(ts, paths[k])
    ensures IsLeast(paths[i], Differences(ts)) && !Verified(ts)
  {
    assert paths[i] in Elements(paths);
    forall q | q in Elements(paths) && !ConvergedAt(ts, q) ensures q == paths[i] || Less(paths[i], q) {
      var k :| 0 <= k < |paths| && paths[k] == q;
    }
  }

  // ----- The reconciled trees

  lemma EqualConverges(a: Entry, b: Entry)
    ensures a.Equal(b) ==> a.Converged(b)
    ensures a.Present() ==> a.Converged(a)
    ensures a.Converged(b) <==> b.Converged(a)
  {
  }

  /** A file moved on one side converges with the one that was moved on the
      other. */
  predicate Settles(a: Action) {
    a.kind == Move ==> a.source.Converged(a.destination)
  }

  lemma WrittenConverges(ts: Trees, previous: Option<Baseline>, a: Action)
    requires ConflictFreePlan(ts, previous) && a in PlanOf(ts, previous) && Writes(a)
    ensures ConvergedAt(Reconciled(ts, previous), a.path) <==> Settles(a)
    ensures a.path in Reconciled(ts, previous).local
  {
    PlanMembers(ts, previous);
    WrittenAt(ts, previous, a);
    assert Recorded(ts, a);
    EqualConverges(a.source, a.source);
    EqualConverges(a.source, a.destination);
    FindConverges(Reconciled(ts, previous), a, ts);
  }

  lemma FindConverges(after: Trees, a: Action, ts: Trees)
    requires Writes(a) && Recorded(ts, a) && a.source.Converged(a.source)
    requires a.source.Converged(a.destination) <==> a.destination.Converged(a.source)
    requires Find(after.On(a.target), a.path) == Left(a, a.path)
    requires Find(after.On(Opposite(a.target)), a.path) == Find(ts.On(Opposite(a.target)), a.path)
    ensures ConvergedAt(after, a.path) <==> Settles(a)
    ensures a.path in after.local
  {
  }

  lemma OthersConverge(ts: Trees, previous: Option<Baseline>, p: Path)
    requires ConflictFreePlan(ts, previous) && p in Reconciled(ts, previous).local
    requires forall a :: a in PlanOf(ts, previous) && Writes(a) ==> a.path != p
    ensures ConvergedAt(Reconciled(ts, previous), p)
  {
    Quiescence.OthersMatch(ts, previous, p);
    var after := Reconciled(ts, previous);
    EqualConverges(Lookup(after.local, p), Lookup(after.remote, p));
  }

  /** What is left of the reconciled trees verifies exactly when the moves in it
      settle. */
  lemma ConvergedExactly(ts: Trees, previous: Option<Baseline>, p: Path)
    requires ConflictFreePlan(ts, previous) && p in Reconciled(ts, previous).local
    ensures ConvergedAt(Reconciled(ts, previous), p)
            <==> forall a :: a in PlanOf(ts, previous) && Writes(a) && a.path == p ==> Settles(a)
  {
    if a :| a in PlanOf(ts, previous) && Writes(a) && a.path == p {
      WrittenConverges(ts, previous, a);
      PlanMembers(ts, previous);
      forall b | b in PlanOf(ts, previous) && b.path == p ensures b == a {
        OneStepPerPath(PlanOf(ts, previous), a, b);
      }
    } else {
      OthersConverge(ts, previous, p);
    }
  }

  // ----- The whole trees after a run

  /** A run of the plan for the filtered trees that got through. */
  ghost predicate Finished(host: Host, raw: Trees, includes: seq<string>, excludes: seq<string>,
                           previous: Option<Baseline>, strict: Side, ts: Trees, after: Trees)
  {
    && WellFormed(raw) && ts == FilteredTrees(host, raw, includes, excludes) && ConflictFreePlan(ts, previous)
    && SweepingRun(TwoWay(strict), raw, PlanOf(ts, previous)) == Some(after)
  }

  /** The same without the filters. */
  ghost predicate Swept(ts: Trees, raw: Trees, plan: seq<Action>, after: Trees, rec: Trees) {
    && WellFormed(ts) && Widens(raw, ts)
    && Coherent(ts, plan) && (forall a :: a in plan && Writes(a) ==> Normal(a.path))
    && NothingHidden(ts, raw, plan) && after == SweepingOutcome(raw, plan)
    && rec == Outcome(ts, plan) && Run(ts, plan) == Some(rec)
  }

  lemma FinishedIsSwept(host: Host, raw: Trees, includes: seq<string>, excludes: seq<string>,
                        previous: Option<Baseline>, strict: Side, ts: Trees, after: Trees)
    requires Finished(host, raw, includes, excludes, previous, strict, ts, after)
    ensures Swept(ts, raw, PlanOf(ts, previous), after, Reconciled(ts, previous))
  {
    FilteredRunExactly(host, raw, includes, excludes, previous, strict);
    FilteredIsContained(host, raw, includes, excludes);
    PlanMembers(ts, previous);
    NormalSteps(ts, previous);
    ExecutableOrder(ts, previous);
  }

  lemma LeavesReconciled(ts: Trees, raw: Trees, plan: seq<Action>, after: Trees, rec: Trees, side: Side, p: Path)
    requires Swept(ts, raw, plan, after, rec) && side != NoSide && ShownAs(ts, raw, side, p)
    ensures Find(after.On(side), p) == Find(rec.On(side), p)
  {
    RunAgrees(ts, raw, plan, side, p);
  }

  lemma ReconciledIsShown(ts: Trees, raw: Trees, plan: seq<Action>, after: Trees, rec: Trees, side: Side, p: Path)
    requires Swept(ts, raw, plan, after, rec) && side != NoSide && p in rec.On(side)
    ensures ShownAs(ts, raw, side, p) && (p in ts.local || p in ts.remote)
  {
    if p !in ts.On(side) {
      var a := TouchingStep(ts, plan, side, p);
      TouchedIsShown(ts, raw, a, side, p);
    }
  }

  lemma TouchingStep(ts: Trees, plan: seq<Action>, side: Side, p: Path) returns (a: Action)
    requires Coherent(ts, plan) && side != NoSide && p !in ts.On(side) && p in Outcome(ts, plan).On(side)
    ensures a in plan && Touches(a, side, p) && Recorded(ts, a)
  {
    if Untouched(plan, side, p) {
      UntouchedPath(ts, plan, side, p);
    }
    a :| a in plan && Touches(a, side, p);
  }

  lemma TouchedIsShown(ts: Trees, raw: Trees, a: Action, side: Side, p: Path)
    requires Recorded(ts, a) && Touches(a, side, p) && side != NoSide && p !in ts.On(side)
    requires ShownBothSides(ts, raw, a)
    ensures ShownAs(ts, raw, side, p) && (p in ts.local || p in ts.remote)
  {
  }

  /** Whatever has appeared on a side was written there. */
  lemma AppearedIsWritten(ts: Trees, raw: Trees, plan: seq<Action>, after: Trees, rec: Trees, side: Side, r: Path)
    returns (a: Action)
    requires Swept(ts, raw, plan, after, rec) && side != NoSide && r in after.On(side) && r !in raw.On(side)
    ensures a in plan && Writes(a) && a.target == side && a.path == r
  {
    assert plan[..|plan|] == plan;
    Earlier(ts, plan, |plan|);
    if Untouched(plan, side, r) {
      Leftover(raw, plan, side, r);
    }
    a :| a in plan && Touches(a, side, r);
    var i :| 0 <= i < |plan| && plan[i] == a;
    TouchedMidway(ts, raw, plan, |plan|, i, side, r);
  }

  /** Every member of a chain but its end lies in the tree, as a directory. */
  lemma {:induction false} ChainInTree(s: Snapshot, r: Path, p: Path)
    requires Scanned(s) && ParentClosed(s) && r in s && p in Chain(r) && p != r && p != "."
    ensures p in s && s[p].typ == Directory
    decreases Climb(r)
  {
    if LastSlash(r) >= 0 && p != Parent(r) {
      ChainInTree(s, Parent(r), p);
    }
  }

  /** A directory above a written path is there or is created. */
  lemma {:induction false} AboveIsCreated(ts: Trees, plan: seq<Action>, a: Action, p: Path) returns (b: Action)
    requires WellFormed(ts) && Coherent(ts, plan) && (forall c :: c in plan && Writes(c) ==> Normal(c.path))
    requires a in plan && Writes(a) && a.target != NoSide && a.path != ""
    requires p != a.path && p != "." && (p == "" || p in Chain(a.path)) && p !in ts.On(a.target)
    ensures b in plan && CreatesAt(b, a.target, p)
    decreases |a.path|
  {
    b := ParentCreated(ts, plan, a, p);
    if p != b.path {
      b := AboveIsCreated(ts, plan, b, p);
    }
  }

  lemma ParentCreated(ts: Trees, plan: seq<Action>, a: Action, p: Path) returns (b: Action)
    requires WellFormed(ts) && Coherent(ts, plan) && a in plan && Writes(a) && a.path != "" && Normal(a.path)
    requires p != a.path && p != "." && (p == "" || p in Chain(a.path)) && p !in ts.On(a.target)
    ensures b in plan && CreatesAt(b, a.target, Parent(a.path)) && |b.path| < |a.path|
    ensures p != b.path ==> b.path != "" && (p == "" || p in Chain(b.path))
  {
    ParentNormal(a.path);
    assert ParentPlanned(ts, plan, a);
    if HasParent(ts.On(a.target), a.path) {
      InTreeAbove(ts.On(a.target), a.path, p);
    }
    b :| b in plan && CreatesAt(b, a.target, Parent(a.path));
  }

  lemma InTreeAbove(s: Snapshot, r: Path, p: Path)
    requires Scanned(s) && ParentClosed(s) && r != "" && HasParent(s, r)
    requires p != r && p != "." && (p == "" || p in Chain(r))
    ensures p in s
  {
    var q := Parent(r);
    if p != q {
      if p == "" {
        AncestorsAreDirectories(s, q, "");
      } else {
        ChainInTree(s, q, p);
      }
    }
  }

  /** Nothing appears below a hidden directory. */
  lemma NothingBelowHidden(ts: Trees, raw: Trees, plan: seq<Action>, after: Trees, rec: Trees, side: Side, p: Path,
                           r: Path)
    requires Swept(ts, raw, plan, after, rec) && side != NoSide && p in raw.On(side) && p !in ts.On(side)
    requires r in after.On(side) && (p == "" || p in Chain(r))
    ensures r in raw.On(side)
  {
    if r !in raw.On(side) {
      var a := AppearedIsWritten(ts, raw, plan, after, rec, side, r);
      var b := AboveIsCreated(ts, plan, a, p);
    }
  }

  /** What the filters show afterwards is what the planner intended. */
  lemma ShownIsReconciled(host: Host, raw: Trees, includes: seq<string>, excludes: seq<string>, ts: Trees,
                          plan: seq<Action>, after: Trees, rec: Trees, side: Side, p: Path)
    requires ts == FilteredTrees(host, raw, includes, excludes) && Swept(ts, raw, plan, after, rec) && side != NoSide
    requires p in Filtered(host, after.On(side), includes, excludes)
    ensures p in rec.On(side)
  {
    if ShownAs(ts, raw, side, p) {
      LeavesReconciled(ts, raw, plan, after, rec, side, p);
    } else {
      HiddenIsUnselected(host, raw, includes, excludes, ts, side, p);
      var r :| r in after.On(side) && MatchesAny(host, r, includes) && (p == "" || p in Chain(r));
      NothingBelowHidden(ts, raw, plan, after, rec, side, p, r);
    }
  }

  lemma HiddenIsUnselected(host: Host, raw: Trees, includes: seq<string>, excludes: seq<string>, ts: Trees,
                           side: Side, p: Path)
    requires ts == FilteredTrees(host, raw, includes, excludes) && side != NoSide && !ShownAs(ts, raw, side, p)
    requires !Excluded(host, p, excludes)
    ensures p in raw.On(side) && p !in ts.On(side) && !Selected(host, raw.On(side), p, includes)
  {
  }

  /** A path is shown afterwards exactly when the plan leaves it there and the
      includes still select it. */
  lemma FilteredAfterwards(host: Host, raw: Trees, includes: seq<string>, excludes: seq<string>, ts: Trees,
                           plan: seq<Action>, after: Trees, rec: Trees, side: Side, p: Path)
    requires ts == FilteredTrees(host, raw, includes, excludes) && Swept(ts, raw, plan, after, rec) && side != NoSide
    ensures Find(Filtered(host, after.On(side), includes, excludes), p)
            == if Selected(host, after.On(side), p, includes) then Find(rec.On(side), p) else None
  {
    if p in Filtered(host, after.On(side), includes, excludes) {
      ShownIsReconciled(host, raw, includes, excludes, ts, plan, after, rec, side, p);
    }
    if p in rec.On(side) {
      ReconciledIsShown(ts, raw, plan, after, rec, side, p);
      LeavesReconciled(ts, raw, plan, after, rec, side, p);
    }
  }

  // ----- When the verification passes

  /** The includes select each path the plan leaves on both sides or on neither. */
  ghost predicate SelectedAlike(host: Host, after: Trees, rec: Trees, includes: seq<string>) {
    forall p :: p in rec.local ==>
      (Selected(host, after.local, p, includes) <==> Selected(host, after.remote, p, includes))
  }

  ghost predicate AllSettle(plan: seq<Action>) {
    forall a :: a in plan ==> Settles(a)
  }

  /** A file that was selected matches the includes itself. */
  lemma SelectedFileMatches(host: Host, s: Snapshot, p: Path, includes: seq<string>)
    requires Scanned(s) && ParentClosed(s) && p in s && s[p].typ == File && Selected(host, s, p, includes)
    ensures includes == [] || MatchesAny(host, p, includes)
  {
    if includes != [] {
      var r :| r in s && MatchesAny(host, r, includes) && (p == "" || p in Chain(r));
      if p != r { ChainInTree(s, r, p); }
    }
  }

  lemma MovedIsSelected(host: Host, raw: Trees, includes: seq<string>, excludes: seq<string>, ts: Trees,
                        plan: seq<Action>, after: Trees, rec: Trees, m: Action, side: Side)
    requires ts == FilteredTrees(host, raw, includes, excludes) && Swept(ts, raw, plan, after, rec) && side != NoSide
    requires WellFormed(raw) && m in plan && m.kind == Move && m.path in rec.On(side)
    ensures Selected(host, after.On(side), m.path, includes)
  {
    assert Recorded(ts, m);
    SelectedFileMatches(host, raw.On(Opposite(m.target)), m.path, includes);
    ReconciledIsShown(ts, raw, plan, after, rec, side, m.path);
    LeavesReconciled(ts, raw, plan, after, rec, side, m.path);
  }

  /** The filtered trees afterwards, against the reconciled ones. */
  ghost predicate Restricts(host: Host, includes: seq<string>, after: Trees, rec: Trees, f: Trees) {
    forall p ::
      && Find(f.local, p) == (if Selected(host, after.local, p, includes) then Find(rec.local, p) else None)
      && Find(f.remote, p) == (if Selected(host, after.remote, p, includes) then Find(rec.remote, p) else None)
  }

  /** Both sides have the same paths and differ at unsettled moves only. */
  ghost predicate SettlesExactly(plan: seq<Action>, rec: Trees) {
    && (forall p :: p in rec.local <==> p in rec.remote)
    && (forall p :: p in rec.local ==>
          (ConvergedAt(rec, p) <==> forall a :: a in plan && Writes(a) && a.path == p ==> Settles(a)))
    && (forall m :: m in plan && m.kind == Move ==> m.path in rec.local)
  }

  ghost predicate MovesSelected(host: Host, includes: seq<string>, plan: seq<Action>, after: Trees) {
    forall m :: m in plan && m.kind == Move ==>
      Selected(host, after.local, m.path, includes) && Selected(host, after.remote, m.path, includes)
  }

  lemma VerifiedWhenRestricted(host: Host, includes: seq<string>, plan: seq<Action>, after: Trees, rec: Trees, f: Trees)
    requires Restricts(host, includes, after, rec, f)
    requires SettlesExactly(plan, rec) && MovesSelected(host, includes, plan, after)
    ensures Verified(f) <==> SelectedAlike(host, after, rec, includes) && AllSettle(plan)
  {
    forall p ensures p in f.local <==> p in rec.local && Selected(host, after.local, p, includes) {
      assert Find(f.local, p) == if Selected(host, after.local, p, includes) then Find(rec.local, p) else None;
    }
    forall p ensures p in f.remote <==> p in rec.remote && Selected(host, after.remote, p, includes) {
      assert Find(f.remote, p) == if Selected(host, after.remote, p, includes) then Find(rec.remote, p) else None;
    }
    forall p | p in f.local && p in f.remote ensures ConvergedAt(f, p) <==> ConvergedAt(rec, p) {
      assert Find(f.local, p) == Find(rec.local, p) && Find(f.remote, p) == Find(rec.remote, p);
    }
    if Verified(f) {
      AlikeWhenVerified(host, includes, after, rec, f);
      forall a | a in plan ensures Settles(a) {
        if a.kind == Move { assert a.path in f.local && ConvergedAt(f, a.path); }
      }
    }
  }

  lemma AlikeWhenVerified(host: Host, includes: seq<string>, after: Trees, rec: Trees, f: Trees)
    requires Verified(f)
    requires forall p :: p in f.local <==> p in rec.local && Selected(host, after.local, p, includes)
    requires forall p :: p in f.remote <==> p in rec.local && Selected(host, after.remote, p, includes)
    ensures SelectedAlike(host, after, rec, includes)
  {
    forall p | p in rec.local
      ensures Selected(host, after.local, p, includes) <==> Selected(host, after.remote, p, includes)
    {
      assert p in f.local || p in f.remote ==> ConvergedAt(f, p);
    }
  }

  lemma RestrictsAfterwards(host: Host, raw: Trees, includes: seq<string>, excludes: seq<string>, ts: Trees,
                            plan: seq<Action>, after: Trees, rec: Trees)
    requires ts == FilteredTrees(host, raw, includes, excludes) && Swept(ts, raw, plan, after, rec)
    ensures Restricts(host, includes, after, rec, FilteredTrees(host, after, includes, excludes))
  {
    forall p
      ensures var f := FilteredTrees(host, after, includes, excludes);
              && Find(f.local, p) == (if Selected(host, after.local, p, includes) then Find(rec.local, p) else None)
              && Find(f.remote, p) == (if Selected(host, after.remote, p, includes) then Find(rec.remote, p) else None)
    {
      FilteredAfterwards(host, raw, includes, excludes, ts, plan, after, rec, Local, p);
      FilteredAfterwards(host, raw, includes, excludes, ts, plan, after, rec, Remote, p);
    }
  }

  lemma ReconciledSettles(ts: Trees, previous: Option<Baseline>)
    requires ConflictFreePlan(ts, previous)
    ensures SettlesExactly(PlanOf(ts, previous), Reconciled(ts, previous))
  {
    var rec := Reconciled(ts, previous);
    forall p ensures p in rec.local <==> p in rec.remote {
      SameShape(ts, previous, p);
    }
    forall p | p in rec.local
      ensures ConvergedAt(rec, p) <==> forall a :: a in PlanOf(ts, previous) && Writes(a) && a.path == p ==> Settles(a)
    {
      ConvergedExactly(ts, previous, p);
    }
    forall m | m in PlanOf(ts, previous) && m.kind == Move ensures m.path in rec.local {
      WrittenConverges(ts, previous, m);
    }
  }

  lemma MovesStaySelected(host: Host, raw: Trees, includes: seq<string>, excludes: seq<string>, ts: Trees,
                          plan: seq<Action>, after: Trees, rec: Trees)
    requires ts == FilteredTrees(host, raw, includes, excludes) && WellFormed(raw)
    requires Swept(ts, raw, plan, after, rec) && SettlesExactly(plan, rec)
    ensures MovesSelected(host, includes, plan, after)
  {
    forall m | m in plan && m.kind == Move
      ensures Selected(host, after.local, m.path, includes) && Selected(host, after.remote, m.path, includes)
    {
      MovedIsSelected(host, raw, includes, excludes, ts, plan, after, rec, m, Local);
      MovedIsSelected(host, raw, includes, excludes, ts, plan, after, rec, m, Remote);
    }
  }

  lemma VerifiedSwept(host: Host, raw: Trees, includes: seq<string>, excludes: seq<string>, ts: Trees,
                      plan: seq<Action>, after: Trees, rec: Trees)
    requires ts == FilteredTrees(host, raw, includes, excludes) && WellFormed(raw)
    requires Swept(ts, raw, plan, after, rec) && SettlesExactly(plan, rec)
    ensures Verified(FilteredTrees(host, after, includes, excludes))
            <==> SelectedAlike(host, after, rec, includes) && AllSettle(plan)
  {
    RestrictsAfterwards(host, raw, includes, excludes, ts, plan, after, rec);
    MovesStaySelected(host, raw, includes, excludes, ts, plan, after, rec);
    VerifiedWhenRestricted(host, includes, plan, after, rec, FilteredTrees(host, after, includes, excludes));
  }

  /** After a run that got through, the verification passes exactly when the
      includes select every path alike on both sides and moved files converge. */
  lemma VerifiedExactly(host: Host, raw: Trees, includes: seq<string>, excludes: seq<string>,
                        previous: Option<Baseline>, strict: Side, ts: Trees, after: Trees)
    requires Finished(host, raw, includes, excludes, previous, strict, ts, after)
    ensures Verified(FilteredTrees(host, after, includes, excludes))
            <==> SelectedAlike(host, after, Reconciled(ts, previous), includes) && AllSettle(PlanOf(ts, previous))
  {
    FinishedIsSwept(host, raw, includes, excludes, previous, strict, ts, after);
    ReconciledSettles(ts, previous);
    VerifiedSwept(host, raw, includes, excludes, ts, PlanOf(ts, previous), after, Reconciled(ts, previous));
  }

  /** Without excludes what matches on one side is on both. */
  lemma SelectedAcross(host: Host, raw: Trees, includes: seq<string>, ts: Trees, plan: seq<Action>, after: Trees,
                       rec: Trees, side: Side, p: Path)
    requires ts == FilteredTrees(host, raw, includes, []) && Swept(ts, raw, plan, after, rec) && side != NoSide
    requires forall q :: q in rec.local <==> q in rec.remote
    requires includes != [] && Selected(host, after.On(side), p, includes)
    ensures Selected(host, after.On(Opposite(side)), p, includes)
  {
    var r :| r in after.On(side) && MatchesAny(host, r, includes) && (p == "" || p in Chain(r));
    NothingExcluded(host, r);
    assert r in Filtered(host, after.On(side), includes, []);
    ShownIsReconciled(host, raw, includes, [], ts, plan, after, rec, side, r);
    ReconciledIsShown(ts, raw, plan, after, rec, Opposite(side), r);
    LeavesReconciled(ts, raw, plan, after, rec, Opposite(side), r);
  }

  lemma IncludesSelectAlike(host: Host, raw: Trees, includes: seq<string>, ts: Trees, plan: seq<Action>,
                            after: Trees, rec: Trees)
    requires ts == FilteredTrees(host, raw, includes, []) && Swept(ts, raw, plan, after, rec)
    requires includes != [] && forall q :: q in rec.local <==> q in rec.remote
    ensures SelectedAlike(host, after, rec, includes)
  {
    forall p | p in rec.local
      ensures Selected(host, after.local, p, includes) <==> Selected(host, after.remote, p, includes)
    {
      if Selected(host, after.local, p, includes) {
        SelectedAcross(host, raw, includes, ts, plan, after, rec, Local, p);
      }
      if Selected(host, after.remote, p, includes) {
        SelectedAcross(host, raw, includes, ts, plan, after, rec, Remote, p);
      }
    }
  }

  /** With includes or excludes alone the first condition always holds. */
  lemma OneKindSelectsAlike(host: Host, raw: Trees, includes: seq<string>, excludes: seq<string>,
                            previous: Option<Baseline>, strict: Side, ts: Trees, after: Trees)
    requires Finished(host, raw, includes, excludes, previous, strict, ts, after)
    requires includes == [] || excludes == []
    ensures SelectedAlike(host, after, Reconciled(ts, previous), includes)
  {
    if includes != [] {
      FinishedIsSwept(host, raw, includes, excludes, previous, strict, ts, after);
      ReconciledSettles(ts, previous);
      IncludesSelectAlike(host, raw, includes, ts, PlanOf(ts, previous), after, Reconciled(ts, previous));
    }
  }

  // ----- The next run

  lemma WithoutIncludes(host: Host, raw: Trees, excludes: seq<string>, ts: Trees, plan: seq<Action>, after: Trees,
                        rec: Trees)
    requires ts == FilteredTrees(host, raw, [], excludes) && Swept(ts, raw, plan, after, rec)
    ensures FilteredTrees(host, after, [], excludes) == rec
  {
    var f := FilteredTrees(host, after, [], excludes);
    RestrictsAfterwards(host, raw, [], excludes, ts, plan, after, rec);
    forall p ensures Find(f.local, p) == Find(rec.local, p) && Find(f.remote, p) == Find(rec.remote, p) {
      assert Selected(host, after.local, p, []) && Selected(host, after.remote, p, []);
    }
    SameSnapshot(f.local, rec.local);
    SameSnapshot(f.remote, rec.remote);
  }

  lemma SameSnapshot(s: Snapshot, t: Snapshot)
    requires forall p :: Find(s, p) == Find(t, p)
    ensures s == t
  {
    forall p ensures (p in s <==> p in t) && (p in s ==> s[p] == t[p]) {
      assert Find(s, p) == Find(t, p);
    }
  }

  /** Without includes, a run that got through leaves trees that the filters show
      as the planner intended. Planning them again from the saved state gives only
      skips exactly when the two copies of every moved file can be compared. */
  lemma NextRunIsQuiet(host: Host, raw: Trees, excludes: seq<string>, previous: Option<Baseline>, strict: Side,
                       ts: Trees, after: Trees)
    requires Finished(host, raw, [], excludes, previous, strict, ts, after)
    ensures var f := FilteredTrees(host, after, [], excludes);
            && f == Reconciled(ts, previous)
            && (Quiescence.AllSkips(PlanOf(f, Quiescence.Now(f))) <==>
                forall a :: a in PlanOf(ts, previous) && a.kind == Move ==> Quiescence.Recognisable(a))
  {
    FinishedIsSwept(host, raw, [], excludes, previous, strict, ts, after);
    WithoutIncludes(host, raw, excludes, ts, PlanOf(ts, previous), after, Reconciled(ts, previous));
    FilteredRunExactly(host, raw, [], excludes, previous, strict);
    Quiescence.QuietAfterRun(ts, previous);
    TransfersAreRecognisable(PlanOf(ts, previous));
  }

  lemma TransfersAreRecognisable(plan: seq<Action>)
    requires TransfersFingerprinted(plan)
    ensures (forall a :: a in plan ==> Quiescence.Recognisable(a))
            <==> forall a :: a in plan && a.kind == Move ==> Quiescence.Recognisable(a)
  {
  }
}
