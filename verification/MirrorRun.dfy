/** One-way runs on the whole trees that the filters were applied to. In the terms
    of the executor the source is the local tree and the destination the remote
    one. */
module MirrorRun {
  import opened Common
  import opened Paths
  import opened Entries
  import opened Actions
  import opened Executor
  import opened Filters
  import opened Sweeping
  import opened Mirror
  import OneWay

  /** A one-way run looks up the destination only. */
  function OneSided(strict: Side): Checks {
    Checks(false, strict)
  }

  /** The planner was shown the destination as it is, and can compare what it
      recorded there. */
  predicate AtDestination(d: Snapshot, destination: Snapshot, a: Action) {
    a.kind != Skip ==> Find(destination, a.path) == Find(d, a.path) && Recognised(a.destination)
  }

  lemma StepMeets(s: Snapshot, d: Snapshot, source: Snapshot, destination: Snapshot, options: OneWay.Options,
                  a: Action, strict: Side)
    requires IsStep(a, s, d, options)
    ensures Meets(OneSided(strict), Trees(s, d), Trees(source, destination), a) <==> AtDestination(d, destination, a)
  {
  }

  lemma CoveredApplies(plan: seq<Action>, s: Snapshot, d: Snapshot, raw: Trees, options: OneWay.Options, strict: Side)
    requires Covers(plan, s, d, options) && RootIsSafe(s, d, options) && Widens(raw, Trees(s, d))
    ensures Applicable(OneSided(strict), Trees(s, d), raw, plan) && MovesPrecedeRemovals(plan)
  {
    MirrorIsCoherent(plan, s, d, options);
    NoMoves(plan, s, d, options);
    forall a | a in plan && Writes(a) ensures Normal(a.path) {
      WritesAreInSource(a, s, d, options);
    }
  }

  lemma CoveredRunExactly(plan: seq<Action>, s: Snapshot, d: Snapshot, source: Snapshot, destination: Snapshot,
                          options: OneWay.Options, strict: Side)
    requires Covers(plan, s, d, options) && RootIsSafe(s, d, options)
    requires Widens(Trees(source, destination), Trees(s, d))
    ensures SweepingRun(OneSided(strict), Trees(source, destination), plan)
            == if forall a :: a in plan ==> AtDestination(d, destination, a)
               then Some(SweepingOutcome(Trees(source, destination), plan)) else None
  {
    CoveredApplies(plan, s, d, Trees(source, destination), options, strict);
    forall a | a in plan
      ensures Meets(OneSided(strict), Trees(s, d), Trees(source, destination), a) <==> AtDestination(d, destination, a)
    {
      StepMeets(s, d, source, destination, options, a, strict);
    }
    SweepingRunExactly(OneSided(strict), Trees(s, d), Trees(source, destination), plan);
  }

  lemma FilteredIsContained(host: Host, source: Snapshot, destination: Snapshot,
                            includes: seq<string>, excludes: seq<string>)
    requires Scanned(source) && Scanned(destination)
    ensures Widens(Trees(source, destination),
                   Trees(Filtered(host, source, includes, excludes), Filtered(host, destination, includes, excludes)))
  {
  }

  /** A conflict-free one-way plan that does not remove the destination root under
      its contents gets through on the whole trees exactly when every step but a
      skip finds its path at the destination as the planner was shown it, with an
      entry that can be compared. Otherwise the run stops. */
  lemma FilteredMirrorExactly(host: Host, source: Snapshot, destination: Snapshot, includes: seq<string>,
                              excludes: seq<string>, previous: Option<Baseline>, options: OneWay.Options, strict: Side)
    requires Scanned(source) && Scanned(destination)
    requires var s, d := Filtered(host, source, includes, excludes), Filtered(host, destination, includes, excludes);
             Agreed(s, d, previous, options) && RootIsSafe(s, d, options)
    ensures var s, d := Filtered(host, source, includes, excludes), Filtered(host, destination, includes, excludes);
            var plan := RunnablePlan(s, d, previous, options);
            SweepingRun(OneSided(strict), Trees(source, destination), plan)
            == if forall a :: a in plan ==> AtDestination(d, destination, a)
               then Some(SweepingOutcome(Trees(source, destination), plan)) else None
  {
    var s, d := Filtered(host, source, includes, excludes), Filtered(host, destination, includes, excludes);
    FilteredIsContained(host, source, destination, includes, excludes);
    PlanCovers(s, d, previous, options);
    CoveredRunExactly(RunnablePlan(s, d, previous, options), s, d, source, destination, options, strict);
  }

  /** Such a run leaves every destination path that the filters showed as it was
      what the plan intends. */
  lemma FilteredMirrorAgrees(host: Host, source: Snapshot, destination: Snapshot, includes: seq<string>,
                             excludes: seq<string>, previous: Option<Baseline>, options: OneWay.Options, strict: Side,
                             p: Path)
    requires var s, d := Filtered(host, source, includes, excludes), Filtered(host, destination, includes, excludes);
             && Agreed(s, d, previous, options) && RootIsSafe(s, d, options) && Find(destination, p) == Find(d, p)
             && SweepingRun(OneSided(strict), Trees(source, destination), RunnablePlan(s, d, previous, options)).Some?
    ensures var s, d := Filtered(host, source, includes, excludes), Filtered(host, destination, includes, excludes);
            var plan := RunnablePlan(s, d, previous, options);
            Find(SweepingRun(OneSided(strict), Trees(source, destination), plan).value.remote, p)
            == Find(Mirrored(s, d, previous, options), p)
  {
    var s, d := Filtered(host, source, includes, excludes), Filtered(host, destination, includes, excludes);
    var plan := RunnablePlan(s, d, previous, options);
    MirrorRuns(s, d, previous, options);
    AgreesAfterRun(OneSided(strict), Trees(s, d), Trees(source, destination), plan, Remote, p);
  }

  // ----- What the filters left out

  /** A removed destination directory, or one replaced by a file, above a path. */
  predicate SweptAway(s: Snapshot, d: Snapshot, options: OneWay.Options, c: Path) {
    exists q :: q in d && IsDescendant(c, q)
                && if q in s then s[q].typ == File && d[q].typ == Directory else options.delete
  }

  lemma StepSweeps(s: Snapshot, d: Snapshot, options: OneWay.Options, a: Action)
    requires IsStep(a, s, d, options)
    ensures a.path in d && (if a.path in s then s[a.path].typ == File && d[a.path].typ == Directory else options.delete)
            <==> a.target == Remote && Removes(a)
  {
  }

  lemma MirrorBuries(plan: seq<Action>, s: Snapshot, d: Snapshot, options: OneWay.Options, c: Path)
    requires Covers(plan, s, d, options)
    ensures Buried(plan, Remote, c) <==> SweptAway(s, d, options, c)
  {
    if a :| a in plan && Buries(a, Remote, c) {
      StepSweeps(s, d, options, a);
    }
    if q :| q in d && IsDescendant(c, q)
            && if q in s then s[q].typ == File && d[q].typ == Directory else options.delete {
      var a := StepAt(plan, s, d, options, q);
      StepSweeps(s, d, options, a);
    }
  }

  lemma MirrorLeaves(plan: seq<Action>, s: Snapshot, d: Snapshot, options: OneWay.Options, c: Path)
    requires Covers(plan, s, d, options) && c !in s && c !in d
    ensures Untouched(plan, Remote, c)
  {
    NoMoves(plan, s, d, options);
    forall a | a in plan ensures a.path != c {
      assert IsStep(a, s, d, options);
    }
  }

  /** What the filters left out of both trees stays at the destination of a run
      that gets through exactly when it lies neither in a shown directory that the
      source lacks, with deletion enabled, nor in one that a source file
      replaces. */
  lemma LeftOutSurvives(host: Host, source: Snapshot, destination: Snapshot, includes: seq<string>,
                        excludes: seq<string>, previous: Option<Baseline>, options: OneWay.Options, strict: Side,
                        c: Path)
    requires c in destination
    requires var s, d := Filtered(host, source, includes, excludes), Filtered(host, destination, includes, excludes);
             && Agreed(s, d, previous, options) && c !in s && c !in d
             && SweepingRun(OneSided(strict), Trees(source, destination), RunnablePlan(s, d, previous, options)).Some?
    ensures var s, d := Filtered(host, source, includes, excludes), Filtered(host, destination, includes, excludes);
            var plan := RunnablePlan(s, d, previous, options);
            Find(SweepingRun(OneSided(strict), Trees(source, destination), plan).value.remote, c)
            == if SweptAway(s, d, options, c) then None else Some(destination[c])
  {
    var s, d := Filtered(host, source, includes, excludes), Filtered(host, destination, includes, excludes);
    var plan := RunnablePlan(s, d, previous, options);
    PlanCovers(s, d, previous, options);
    MirrorLeaves(plan, s, d, options, c);
    MirrorBuries(plan, s, d, options, c);
    LeftByRun(OneSided(strict), Trees(source, destination), plan, Remote, c);
  }

  // ----- A root that is removed under its contents

  /** Everything is to be deleted. */
  lemma UnsafePlan(plan: seq<Action>, s: Snapshot, d: Snapshot, options: OneWay.Options)
    requires Covers(plan, s, d, options) && !RootIsSafe(s, d, options)
    ensures s == map[] && options.delete
    ensures forall a :: a in plan ==> DeletesAt(a, d)
  {
    forall p ensures p !in s {
      NoRootNoSource(s, p);
    }
    forall a | a in plan ensures DeletesAt(a, d) {
      assert IsStep(a, s, d, options);
    }
  }

  predicate DeletesAt(a: Action, d: Snapshot) {
    a.kind == Delete && a.target == Remote && a.path in d && a.destination == d[a.path]
  }

  ghost predicate Deletions(plan: seq<Action>, d: Snapshot) {
    DistinctPaths(plan) && Ordered(plan) && forall a :: a in plan ==> DeletesAt(a, d)
  }

  /** A deletion that no removal of the root precedes finds its path. */
  lemma DeletionPasses(plan: seq<Action>, d: Snapshot, raw: Trees, j: nat, i: nat, strict: Side)
    requires Deletions(plan, d) && Scanned(d) && Contains(raw.remote, d)
    requires i <= j < |plan| && plan[j].path == ""
    ensures PassesAt(OneSided(strict), raw, plan, i) <==> plan[i].destination.Fingerprinted()
  {
    var a := plan[i];
    assert a in plan;
    forall k | 0 <= k < i ensures !Touches(plan[k], Remote, a.path) && !Buries(plan[k], Remote, a.path) {
      NotAboveLater(plan, d, j, i, k);
    }
    assert forall b :: b in plan[..i] ==> b in plan;
    Leftover(raw, plan[..i], Remote, a.path);
    PresentConfirmed(SweepingOutcome(raw, plan[..i]).remote, a.path, a.destination, strict == Remote);
  }

  lemma NotAboveLater(plan: seq<Action>, d: Snapshot, j: nat, i: nat, k: nat)
    requires Deletions(plan, d) && k < i <= j < |plan| && plan[j].path == ""
    ensures plan[k].path != plan[i].path && !IsDescendant(plan[i].path, plan[k].path)
  {
    assert plan[k] in plan && plan[i] in plan;
    assert plan[k].path != plan[j].path;
    if IsDescendant(plan[i].path, plan[k].path) {
      DescendantDeeper(plan[i].path, plan[k].path);
    }
  }

  lemma {:induction false} SourceStays(plan: seq<Action>, d: Snapshot, raw: Trees)
    requires forall a :: a in plan ==> DeletesAt(a, d)
    ensures SweepingOutcome(raw, plan).local == raw.local
  {
    if plan != [] {
      assert plan[|plan| - 1] in plan;
      SourceStays(plan[..|plan| - 1], d, raw);
    }
  }

  lemma RootGone(plan: seq<Action>, d: Snapshot, raw: Trees, j: nat)
    requires j < |plan| && plan[j].path == "" && forall a :: a in plan ==> DeletesAt(a, d)
    ensures SweepingOutcome(raw, plan[..j + 1]) == Trees(raw.local, map[])
  {
    assert plan[..j + 1][..j] == plan[..j] && plan[j] in plan;
    SourceStays(plan[..j], d, raw);
    assert Without(SweepingOutcome(raw, plan[..j]).remote, "") == map[];
  }

  /** What precedes the root is what lies deeper than the top level. */
  lemma BeforeRoot(plan: seq<Action>, d: Snapshot, j: nat, i: nat)
    requires Deletions(plan, d) && j < |plan| && i < |plan| && plan[j].path == ""
    ensures i < j <==> Depth(plan[i].path) > 0
  {
    assert plan[i] in plan && plan[j] in plan;
    if i < j {
      assert !Before(plan[j], plan[i]) && plan[i].path != plan[j].path;
    } else if j < i {
      assert !Before(plan[i], plan[j]);
    }
  }

  /** Everything below the top level can be compared. */
  predicate DeepFingerprinted(d: Snapshot) {
    forall p :: p in d && Depth(p) > 0 ==> d[p].Fingerprinted()
  }

  lemma RunToRoot(plan: seq<Action>, d: Snapshot, raw: Trees, j: nat, strict: Side)
    requires Deletions(plan, d) && Scanned(d) && Contains(raw.remote, d)
    requires forall p :: p in d ==> HasStep(plan, p)
    requires j < |plan| && plan[j].path == ""
    ensures SweepingRun(OneSided(strict), raw, plan[..j + 1])
            == if DeepFingerprinted(d) then Some(Trees(raw.local, map[])) else None
  {
    forall i | 0 <= i <= j
      ensures PassesAt(OneSided(strict), raw, plan, i) <==> plan[i].destination.Fingerprinted()
    {
      DeletionPasses(plan, d, raw, j, i, strict);
    }
    UpToRoot(plan, d, j);
    RunIsPasses(OneSided(strict), raw, plan, j + 1);
    RootGone(plan, d, raw, j);
  }

  lemma UpToRoot(plan: seq<Action>, d: Snapshot, j: nat)
    requires Deletions(plan, d) && Scanned(d) && j < |plan| && plan[j].path == ""
    requires forall p :: p in d ==> HasStep(plan, p)
    ensures (forall i :: 0 <= i <= j ==> plan[i].destination.Fingerprinted()) <==> DeepFingerprinted(d)
  {
    assert plan[j] in plan;
    forall i | 0 <= i < j ensures plan[i] in plan && Depth(plan[i].path) > 0 {
      BeforeRoot(plan, d, j, i);
    }
    if forall i :: 0 <= i <= j ==> plan[i].destination.Fingerprinted() {
      forall p | p in d && Depth(p) > 0 ensures d[p].Fingerprinted() {
        DeepComesFirst(plan, d, j, p);
      }
    }
  }

  lemma DeepComesFirst(plan: seq<Action>, d: Snapshot, j: nat, p: Path)
    requires Deletions(plan, d) && j < |plan| && plan[j].path == "" && p in d && Depth(p) > 0 && HasStep(plan, p)
    requires forall i :: 0 <= i <= j ==> plan[i].destination.Fingerprinted()
    ensures d[p].Fingerprinted()
  {
    var a :| a in plan && a.path == p;
    var i :| 0 <= i < |plan| && plan[i] == a;
    BeforeRoot(plan, d, j, i);
  }

  /** A top-level path comes after the root and is gone by then. */
  lemma StopsAfterRoot(plan: seq<Action>, d: Snapshot, raw: Trees, j: nat, i: nat, strict: Side)
    requires Deletions(plan, d) && Scanned(d) && j < i < |plan| && plan[j].path == ""
    ensures SweepingRun(OneSided(strict), raw, plan) == None
  {
    assert plan[i] in plan && plan[j] in plan && plan[i].path != "";
    assert forall b :: b in plan[..i] ==> b in plan;
    forall b | b in plan[..i] ensures b.path != plan[i].path {
      var k :| 0 <= k < i && plan[k] == b;
    }
    Leftover(raw, plan[..i], Remote, plan[i].path);
    assert plan[..i][j] == plan[j] && Buries(plan[j], Remote, plan[i].path);
    assert !PassesAt(OneSided(strict), raw, plan, i);
    assert plan[..|plan|] == plan;
    RunIsPasses(OneSided(strict), raw, plan, |plan|);
  }

  lemma UnsafeRun(plan: seq<Action>, s: Snapshot, d: Snapshot, raw: Trees, options: OneWay.Options, strict: Side)
    returns (j: nat)
    requires Covers(plan, s, d, options) && !RootIsSafe(s, d, options) && Contains(raw.remote, d)
    ensures SweepingRun(OneSided(strict), raw, plan) == None
    ensures j < |plan| && plan[j].kind == Delete && plan[j].path == ""
    ensures SweepingRun(OneSided(strict), raw, plan[..j + 1])
            == if DeepFingerprinted(d) then Some(Trees(raw.local, map[])) else None
  {
    UnsafePlan(plan, s, d, options);
    var c :| c in d && c != "";
    var t := TopLevel(d, c);
    AncestorsAreDirectories(d, t, "");
    var root := StepAt(plan, s, d, options, "");
    var top := StepAt(plan, s, d, options, t);
    j :| 0 <= j < |plan| && plan[j] == root;
    var i :| 0 <= i < |plan| && plan[i] == top;
    ParentDepth(t);
    BeforeRoot(plan, d, j, i);
    StopsAfterRoot(plan, d, raw, j, i, strict);
    RunToRoot(plan, d, raw, j, strict);
  }

  /** Where the plan does remove the root under its contents, the run never gets
      through; unless it already stopped at an entry that cannot be compared, it
      first leaves the destination with nothing at all, hidden files included. */
  lemma UnsafeRootIsLost(host: Host, source: Snapshot, destination: Snapshot, includes: seq<string>,
                         excludes: seq<string>, previous: Option<Baseline>, options: OneWay.Options, strict: Side)
    returns (j: nat)
    requires var s, d := Filtered(host, source, includes, excludes), Filtered(host, destination, includes, excludes);
             Agreed(s, d, previous, options) && !RootIsSafe(s, d, options)
    ensures var s, d := Filtered(host, source, includes, excludes), Filtered(host, destination, includes, excludes);
            var plan := RunnablePlan(s, d, previous, options);
            && SweepingRun(OneSided(strict), Trees(source, destination), plan) == None
            && j < |plan| && plan[j].kind == Delete && plan[j].path == ""
            && SweepingRun(OneSided(strict), Trees(source, destination), plan[..j + 1])
               == if DeepFingerprinted(d) then Some(Trees(source, map[])) else None
  {
    var s, d := Filtered(host, source, includes, excludes), Filtered(host, destination, includes, excludes);
    PlanCovers(s, d, previous, options);
    j := UnsafeRun(RunnablePlan(s, d, previous, options), s, d, Trees(source, destination), options, strict);
  }
}
