/** What a one-way plan decides at each path, and what it may overwrite, in terms of
    the two trees, the baseline and the options. */
module MirrorDecisions {
  import opened Common
  import opened Paths
  import opened Entries
  import opened Actions
  import opened Executor
  import opened OneWay
  import opened Mirror

  predicate Known(previous: Option<Baseline>, p: Path) {
    previous.Some? && p in previous.value
  }

  /** The destination no longer has what it had after the last run. */
  predicate Altered(d: Snapshot, previous: Option<Baseline>, p: Path) {
    Known(previous, p) && p in d && !d[p].Equal(previous.value[p].destination)
  }

  /** The source alone has changed, and not into something of another type. */
  predicate Updated(s: Snapshot, d: Snapshot, previous: Option<Baseline>, p: Path) {
    && Known(previous, p) && p in s && p in d && s[p].typ == d[p].typ
    && !s[p].Equal(previous.value[p].source) && d[p].Equal(previous.value[p].destination)
  }

  predicate Matched(s: Snapshot, d: Snapshot, p: Path) {
    p in s && p in d && s[p].Equal(d[p])
  }

  /** What the plan leaves to the user. Overwriting is refused only where it would
      take deletion to put a file in place of a directory. */
  predicate Refused(s: Snapshot, d: Snapshot, previous: Option<Baseline>, options: Options, p: Path) {
    if options.overwrite then
      && p in s && p in d && !s[p].Equal(d[p])
      && s[p].typ == File && d[p].typ == Directory && !options.delete
    else if p !in d then Known(previous, p) && previous.value[p].destination.Present()
    else if p !in s then options.delete && Altered(d, previous, p)
    else !Matched(s, d, p) && !Updated(s, d, previous, p)
  }

  /** The decision table. */
  predicate Decides(a: Action, s: Snapshot, d: Snapshot, previous: Option<Baseline>, options: Options) {
    var p := a.path;
    var written := p in s && !Matched(s, d, p) && !Refused(s, d, previous, options, p);
    && (a.kind == Conflict <==> Refused(s, d, previous, options, p))
    && (a.kind == Skip <==> if p in s then Matched(s, d, p) else !options.delete)
    && (a.kind == Delete <==> p !in s && options.delete && !Refused(s, d, previous, options, p))
    && (a.kind == CreateDirectory <==> written && s[p].typ == Directory)
    && (a.kind == Transfer <==> written && s[p].typ == File)
    && (a.replace <==> written && p in d && s[p].typ != d[p].typ)
    && a.source == Lookup(s, p) && a.destination == Lookup(d, p)
    && a.typ == (if p in s then s[p].typ else Lookup(d, p).typ) && a.target == NoSide && a.fromPath == ""
  }

  lemma DecisionExactly(s: Snapshot, d: Snapshot, previous: Option<Baseline>, options: Options, p: Path)
    requires Scanned(s) && Scanned(d) && (p in s || p in d)
    ensures PlanAt(p, s, d, previous, options).path == p
    ensures Decides(PlanAt(p, s, d, previous, options), s, d, previous, options)
  {
  }

  /** The finished plan has one step for each path, the one the table decides. */
  lemma FinishedExactly(s: Snapshot, d: Snapshot, previous: Option<Baseline>, options: Options)
    requires Scanned(s) && Scanned(d)
    ensures var plan := MirrorPlan(s, d, previous, options);
            && DistinctPaths(plan) && Ordered(plan)
            && (forall a :: a in plan ==> (a.path in s || a.path in d) && Decides(a, s, d, previous, options))
            && (forall p :: p in s || p in d ==> HasStep(plan, p))
  {
    MirrorMembers(s, d, previous, options);
    var plan := MirrorPlan(s, d, previous, options);
    forall a | a in plan ensures Decides(a, s, d, previous, options) {
      DecisionExactly(s, d, previous, options, a.path);
    }
    forall p | p in s || p in d ensures HasStep(plan, p) {
      DecisionExactly(s, d, previous, options, p);
      assert PlanAt(p, s, d, previous, options) in plan;
    }
  }

  /** Which inputs give a plan free of conflicts. */
  lemma ConflictFreeExactly(s: Snapshot, d: Snapshot, previous: Option<Baseline>, options: Options)
    requires Scanned(s) && Scanned(d) && ParentClosed(s) && ParentClosed(d)
    ensures Agreed(s, d, previous, options)
            <==> forall p :: p in s || p in d ==> !Refused(s, d, previous, options, p)
  {
    FinishedExactly(s, d, previous, options);
    var plan := MirrorPlan(s, d, previous, options);
    if Agreed(s, d, previous, options) {
      forall p | p in s || p in d ensures !Refused(s, d, previous, options, p) {
        assert HasStep(plan, p);
      }
    }
  }

  /** Unless overwriting is asked for, no step of any plan overwrites or removes what
      has changed at the destination since the last run, brings back what was removed
      there, or overwrites what was never synchronised. */
  lemma OnlyUnchangedIsOverwritten(s: Snapshot, d: Snapshot, previous: Option<Baseline>, options: Options, a: Action)
    requires Scanned(s) && Scanned(d) && !options.overwrite && a in MirrorPlan(s, d, previous, options)
    requires a.kind != Skip && a.kind != Conflict
    ensures !Altered(d, previous, a.path) && !a.replace
    ensures a.path !in d && Known(previous, a.path) ==> !previous.value[a.path].destination.Present()
    ensures a.path in d && a.path in s ==> a.kind == Transfer && Updated(s, d, previous, a.path)
  {
    FinishedExactly(s, d, previous, options);
  }

  /** So it is still there after a conflict-free run. */
  lemma ChangedDestinationSurvives(s: Snapshot, d: Snapshot, previous: Option<Baseline>, options: Options, p: Path)
    requires Agreed(s, d, previous, options) && RootIsSafe(s, d, options) && !options.overwrite
    requires Altered(d, previous, p)
    ensures Find(Mirrored(s, d, previous, options), p) == Some(d[p])
  {
    var plan := RunnablePlan(s, d, previous, options);
    PlanCovers(s, d, previous, options);
    var a := StepAt(plan, s, d, options, p);
    var b := AimedFrom(MirrorPlan(s, d, previous, options), a);
    if b.kind != Skip {
      OnlyUnchangedIsOverwritten(s, d, previous, options, b);
    }
    StepLeaves(plan, s, d, options, a);
  }
}
