/** Filters, planner and executor together: what a filtered run does to the whole
    trees it was filtered from. */
module EndToEnd {
  import opened Common
  import opened Paths
  import opened Entries
  import opened Actions
  import opened Executor
  import opened Filters
  import opened Bidirectional
  import opened Planning
  import opened Reconciliation
  import opened Sweeping
  import FilterShape

  ghost function FilteredTrees(host: Host, raw: Trees, includes: seq<string>, excludes: seq<string>): Trees {
    Trees(Filtered(host, raw.local, includes, excludes), Filtered(host, raw.remote, includes, excludes))
  }

  /** Scanned trees stay well-formed under any filters, so that whatever holds of
      a run on well-formed trees holds of a filtered one: here, that it leaves the
      filtered trees parent-closed. */
  lemma FilteredRunKeepsShape(host: Host, raw: Trees, includes: seq<string>, excludes: seq<string>,
                              previous: Option<Baseline>)
    requires FilterShape.SlashNeedsText(host) && WellFormed(raw)
    ensures var ts := FilteredTrees(host, raw, includes, excludes);
            && WellFormed(ts)
            && (ConflictFree(PlanOf(ts, previous)) ==>
                  ParentClosed(Reconciled(ts, previous).local) && ParentClosed(Reconciled(ts, previous).remote))
  {
    FilterShape.FilterKeepsShape(host, raw.local, includes, excludes);
    FilterShape.FilterKeepsShape(host, raw.remote, includes, excludes);
    var ts := FilteredTrees(host, raw, includes, excludes);
    if ConflictFree(PlanOf(ts, previous)) {
      ShapePreserved(ts, previous);
    }
  }

  // ----- The run on the whole trees

  lemma NothingExcluded(host: Host, p: Path)
    ensures !Excluded(host, p, [])
  {
  }

  /** A bidirectional run looks its source entries up again. */
  function TwoWay(strict: Side): Checks {
    Checks(true, strict)
  }

  lemma EqualNeedsFingerprint(a: Entry, b: Entry)
    requires a.Equal(b)
    ensures Recognised(a)
  {
  }

  /** Of the entries a planned step records, only the source of a transfer need not
      have been compared with anything. */
  lemma PlannedIsComparable(ts: Trees, previous: Option<Baseline>, p: Action, strict: Side)
    requires Sound(p, ts, previous) && p.kind != Conflict && p.kind != Skip
    ensures Comparable(TwoWay(strict), p) <==> (p.kind == Transfer ==> p.source.Fingerprinted())
  {
    var t := ts.On(p.target);
    if p.path in t && !ChangedAt(p.path, t, Saved(previous), p.target) {
      EqualNeedsFingerprint(t[p.path], Half(RecordOf(Saved(previous), p.path), p.target));
    }
  }

  lemma MoveIsComparable(ts: Trees, previous: Option<Baseline>, m: Action, strict: Side)
    requires Agreed(ts, previous) && m in Steps(ts, previous) && m.kind == Move
    ensures Comparable(TwoWay(strict), m)
  {
    MoveIsRename(ts, previous, m);
    RenameFacts(ts, previous, m.path, m.fromPath);
    PlanAtIsSound(m.fromPath, ts, previous);
    var from := PlanFor(m.fromPath, ts, previous);
    PlannedIsComparable(ts, previous, from, strict);
    EqualNeedsFingerprint(m.source, RemovedFingerprint(from, previous.value));
  }

  lemma ComparableExactly(ts: Trees, previous: Option<Baseline>, a: Action, strict: Side)
    requires Agreed(ts, previous) && a in Steps(ts, previous) && a.kind != Skip
    ensures Comparable(TwoWay(strict), a) <==> (a.kind == Transfer ==> a.source.Fingerprinted())
  {
    if a.kind == Move {
      MoveIsComparable(ts, previous, a, strict);
    } else {
      var p := Origin(ts, previous, a);
      PlannedIsComparable(ts, previous, p, strict);
    }
  }

  ghost predicate TransfersFingerprinted(plan: seq<Action>) {
    forall a :: a in plan && a.kind == Transfer ==> a.source.Fingerprinted()
  }

  predicate ShownBothSides(ts: Trees, raw: Trees, a: Action) {
    a.kind != Skip ==> ShownAs(ts, raw, Local, a.path) && ShownAs(ts, raw, Remote, a.path)
  }

  /** No step is about a path that one of the trees holds without the planner
      having been shown it. */
  ghost predicate NothingHidden(ts: Trees, raw: Trees, plan: seq<Action>) {
    forall a :: a in plan ==> ShownBothSides(ts, raw, a)
  }

  /** No deletion is passed on from below a file that has taken the place of a
      directory. */
  ghost predicate NothingInTheWay(raw: Trees, plan: seq<Action>, strict: Side) {
    forall a :: a in plan ==> !Obstructed(TwoWay(strict), raw, a)
  }

  ghost predicate GetsThrough(ts: Trees, raw: Trees, plan: seq<Action>, strict: Side) {
    && MovesPrecedeRemovals(plan) && TransfersFingerprinted(plan)
    && NothingHidden(ts, raw, plan) && NothingInTheWay(raw, plan, strict)
  }

  predicate MeetsConditions(ts: Trees, raw: Trees, a: Action, strict: Side) {
    && (a.kind == Transfer ==> a.source.Fingerprinted())
    && ShownBothSides(ts, raw, a) && !Obstructed(TwoWay(strict), raw, a)
  }

  lemma MeetsExactly(ts: Trees, raw: Trees, previous: Option<Baseline>, a: Action, strict: Side)
    requires Agreed(ts, previous) && a in Steps(ts, previous)
    ensures Meets(TwoWay(strict), ts, raw, a) <==> MeetsConditions(ts, raw, a, strict)
  {
    if a.kind != Skip {
      ComparableExactly(ts, previous, a, strict);
      StepIsRecorded(ts, previous, a);
    }
  }

  lemma GetsThroughExactly(ts: Trees, raw: Trees, plan: seq<Action>, strict: Side)
    requires forall a :: a in plan ==> (Meets(TwoWay(strict), ts, raw, a) <==> MeetsConditions(ts, raw, a, strict))
    ensures GetsThrough(ts, raw, plan, strict)
            <==> MovesPrecedeRemovals(plan) && AllMeet(TwoWay(strict), ts, raw, plan)
  {
  }

  lemma PlanApplies(ts: Trees, raw: Trees, previous: Option<Baseline>, strict: Side)
    requires ConflictFreePlan(ts, previous) && Widens(raw, ts)
    ensures Applicable(TwoWay(strict), ts, raw, PlanOf(ts, previous))
  {
    PlanMembers(ts, previous);
    NormalSteps(ts, previous);
    forall a | a in PlanOf(ts, previous) && Removes(a) ensures a.path != "" {
      RemovalFacts(ts, previous, a);
    }
  }

  lemma PlanMeetsExactly(ts: Trees, raw: Trees, previous: Option<Baseline>, strict: Side)
    requires ConflictFreePlan(ts, previous)
    ensures forall a :: a in PlanOf(ts, previous) ==>
              (Meets(TwoWay(strict), ts, raw, a) <==> MeetsConditions(ts, raw, a, strict))
  {
    PlanMembers(ts, previous);
    forall a | a in PlanOf(ts, previous)
      ensures Meets(TwoWay(strict), ts, raw, a) <==> MeetsConditions(ts, raw, a, strict)
    {
      MeetsExactly(ts, raw, previous, a, strict);
    }
  }

  /** A conflict-free plan, run on trees that hold at least those it was made for,
      gets through exactly when no file is moved out of a directory that an
      earlier step removes, every transferred file carries a fingerprint, no step
      is about a path the planner was not shown, and no lookup of a removed path
      meets a file above it. Otherwise the run stops. */
  lemma WholeRunExactly(ts: Trees, raw: Trees, previous: Option<Baseline>, strict: Side)
    requires ConflictFreePlan(ts, previous) && Widens(raw, ts)
    ensures var plan := PlanOf(ts, previous);
            SweepingRun(TwoWay(strict), raw, plan)
            == if GetsThrough(ts, raw, plan, strict) then Some(SweepingOutcome(raw, plan)) else None
  {
    PlanApplies(ts, raw, previous, strict);
    PlanMeetsExactly(ts, raw, previous, strict);
    GetsThroughExactly(ts, raw, PlanOf(ts, previous), strict);
    SweepingRunExactly(TwoWay(strict), ts, raw, PlanOf(ts, previous));
  }

  lemma FilteredIsContained(host: Host, raw: Trees, includes: seq<string>, excludes: seq<string>)
    requires Scanned(raw.local) && Scanned(raw.remote)
    ensures Widens(raw, FilteredTrees(host, raw, includes, excludes))
  {
  }

  /** The same for a plan made under filters and run on the whole trees. */
  lemma FilteredRunExactly(host: Host, raw: Trees, includes: seq<string>, excludes: seq<string>,
                           previous: Option<Baseline>, strict: Side)
    requires Scanned(raw.local) && Scanned(raw.remote)
    requires ConflictFreePlan(FilteredTrees(host, raw, includes, excludes), previous)
    ensures var ts := FilteredTrees(host, raw, includes, excludes);
            var plan := PlanOf(ts, previous);
            SweepingRun(TwoWay(strict), raw, plan)
            == if GetsThrough(ts, raw, plan, strict) then Some(SweepingOutcome(raw, plan)) else None
  {
    FilteredIsContained(host, raw, includes, excludes);
    WholeRunExactly(FilteredTrees(host, raw, includes, excludes), raw, previous, strict);
  }

  lemma StepIsShown(ts: Trees, previous: Option<Baseline>, a: Action)
    requires ConflictFreePlan(ts, previous) && a in PlanOf(ts, previous) && a.kind != Skip
    ensures a.path in ts.local || a.path in ts.remote
  {
    PlanMembers(ts, previous);
    assert Recorded(ts, a);
  }

  /** Excludes alone hide a path on both sides or on neither. */
  lemma ExcludesHideAlike(host: Host, raw: Trees, excludes: seq<string>, p: Path)
    requires var ts := FilteredTrees(host, raw, [], excludes); p in ts.local || p in ts.remote
    ensures var ts := FilteredTrees(host, raw, [], excludes); ShownAs(ts, raw, Local, p) && ShownAs(ts, raw, Remote, p)
  {
  }

  /** Hence, without includes, no step is ever about a hidden path. */
  lemma ExcludesHideNothing(host: Host, raw: Trees, excludes: seq<string>, previous: Option<Baseline>)
    requires ConflictFreePlan(FilteredTrees(host, raw, [], excludes), previous)
    ensures var ts := FilteredTrees(host, raw, [], excludes); NothingHidden(ts, raw, PlanOf(ts, previous))
  {
    var ts := FilteredTrees(host, raw, [], excludes);
    forall a | a in PlanOf(ts, previous) && a.kind != Skip ensures ShownBothSides(ts, raw, a) {
      StepIsShown(ts, previous, a);
      ExcludesHideAlike(host, raw, excludes, a.path);
    }
  }

  lemma WidensItself(ts: Trees, previous: Option<Baseline>)
    requires ConflictFreePlan(ts, previous)
    ensures Widens(ts, ts) && NothingHidden(ts, ts, PlanOf(ts, previous))
  {
  }

  /** On the trees it was made for, a conflict-free plan runs through with the
      intended outcome exactly when the other three conditions hold. */
  lemma RunsThroughExactly(ts: Trees, previous: Option<Baseline>, strict: Side)
    requires ConflictFreePlan(ts, previous)
    ensures var plan := PlanOf(ts, previous);
            SweepingRun(TwoWay(strict), ts, plan)
            == if MovesPrecedeRemovals(plan) && TransfersFingerprinted(plan) && NothingInTheWay(ts, plan, strict)
               then Some(Reconciled(ts, previous)) else None
  {
    WidensItself(ts, previous);
    WholeRunExactly(ts, ts, previous, strict);
    ExecutableOrder(ts, previous);
    if MovesPrecedeRemovals(PlanOf(ts, previous)) {
      SafeRunSweeps(ts, PlanOf(ts, previous));
    }
  }

  /** If only the order is wrong, the run stops at a move whose file has gone with
      its directory. */
  lemma MisorderedRunLosesFile(ts: Trees, previous: Option<Baseline>, strict: Side) returns (i: nat)
    requires ConflictFreePlan(ts, previous) && !MovesPrecedeRemovals(PlanOf(ts, previous))
    requires TransfersFingerprinted(PlanOf(ts, previous)) && NothingInTheWay(ts, PlanOf(ts, previous), strict)
    ensures StopsAtMove(TwoWay(strict), ts, PlanOf(ts, previous), i)
  {
    WidensItself(ts, previous);
    PlanApplies(ts, ts, previous, strict);
    PlanMeetsExactly(ts, ts, previous, strict);
    i := StopsWithFileGone(TwoWay(strict), ts, ts, PlanOf(ts, previous));
  }

  /** A directory replaced by a file, with something in it to be deleted on the
      other side, where lookups below a file fail. */
  lemma ReplacedDirectoryStops(ts: Trees, previous: Option<Baseline>, strict: Side, a: Action, b: Action)
    requires ConflictFreePlan(ts, previous) && strict != NoSide
    requires a in PlanOf(ts, previous) && a.kind == Transfer && a.target == Opposite(strict)
    requires b in PlanOf(ts, previous) && b.kind == Delete && b.target == a.target && IsDescendant(b.path, a.path)
    ensures SweepingRun(TwoWay(strict), ts, PlanOf(ts, previous)) == None
  {
    RunsThroughExactly(ts, previous, strict);
    PlanMembers(ts, previous);
    assert Recorded(ts, a);
    RemovalFacts(ts, previous, b);
    StepIsRecorded(ts, previous, b);
    BelowReplacement(ts, strict, a, b);
  }

  lemma BelowReplacement(ts: Trees, strict: Side, a: Action, b: Action)
    requires WellFormed(ts) && strict != NoSide && Recorded(ts, a) && a.kind == Transfer && a.target == Opposite(strict)
    requires b.kind == Delete && b.target == a.target && IsDescendant(b.path, a.path)
    ensures Obstructed(TwoWay(strict), ts, b)
  {
    if b.path in ts.On(strict) { AncestorsAreDirectories(ts.On(strict), b.path, a.path); }
  }

  // ----- What such a run leaves

  /** A run that gets through leaves every path that the filters showed as it was
      what the plan intends: all the theorems about reconciled trees hold there. */
  lemma FilteredRunAgrees(host: Host, raw: Trees, includes: seq<string>, excludes: seq<string>,
                          previous: Option<Baseline>, strict: Side, side: Side, p: Path)
    requires Scanned(raw.local) && Scanned(raw.remote) && side != NoSide
    requires var ts := FilteredTrees(host, raw, includes, excludes);
             && ConflictFreePlan(ts, previous) && ShownAs(ts, raw, side, p)
             && SweepingRun(TwoWay(strict), raw, PlanOf(ts, previous)).Some?
    ensures var ts := FilteredTrees(host, raw, includes, excludes);
            Find(SweepingRun(TwoWay(strict), raw, PlanOf(ts, previous)).value.On(side), p)
            == Find(Reconciled(ts, previous).On(side), p)
  {
    var ts := FilteredTrees(host, raw, includes, excludes);
    FilteredRunExactly(host, raw, includes, excludes, previous, strict);
    ExecutableOrder(ts, previous);
    AgreesAfterRun(TwoWay(strict), ts, raw, PlanOf(ts, previous), side, p);
  }

  lemma LeftOutIsUntouched(ts: Trees, previous: Option<Baseline>, side: Side, c: Path)
    requires ConflictFreePlan(ts, previous) && side != NoSide && c !in ts.local && c !in ts.remote
    ensures Untouched(PlanOf(ts, previous), side, c)
  {
    PlanMembers(ts, previous);
    RecordedLeavesAlone(ts, PlanOf(ts, previous), side, c);
  }

  /** What the filters left out on both sides survives a run that gets through,
      with its entry, exactly when no step of the plan deletes or replaces a
      directory above it. The planner cannot see it and the executor removes
      directories with all they hold. */
  lemma LeftOutSurvives(host: Host, raw: Trees, includes: seq<string>, excludes: seq<string>,
                        previous: Option<Baseline>, strict: Side, side: Side, c: Path)
    requires side != NoSide && c in raw.On(side)
    requires var ts := FilteredTrees(host, raw, includes, excludes);
             && ConflictFreePlan(ts, previous) && c !in ts.local && c !in ts.remote
             && SweepingRun(TwoWay(strict), raw, PlanOf(ts, previous)).Some?
    ensures var plan := PlanOf(FilteredTrees(host, raw, includes, excludes), previous);
            Find(SweepingRun(TwoWay(strict), raw, plan).value.On(side), c)
            == if exists a :: a in plan && Buries(a, side, c) then None else Some(raw.On(side)[c])
  {
    var ts := FilteredTrees(host, raw, includes, excludes);
    LeftOutIsUntouched(ts, previous, side, c);
    LeftByRun(TwoWay(strict), raw, PlanOf(ts, previous), side, c);
  }
}
