/** The guarantees of a conflict-free bidirectional plan: an executable order,
    convergence, no lost change and an intact tree shape. */
module Reconciliation {
  import opened Common
  import opened Paths
  import opened Entries
  import opened Actions
  import opened Executor
  import opened Bidirectional
  import opened Planning

  ghost predicate Agreed(ts: Trees, previous: Option<Baseline>) {
    WellFormed(ts) && ConflictFree(Steps(ts, previous))
  }

  lemma PlannedIsSound(ts: Trees, previous: Option<Baseline>, p: Path)
    requires Agreed(ts, previous) && p in AllPaths(ts.local, ts.remote, previous)
    ensures PlanFor(p, ts, previous).path == p && Sound(PlanFor(p, ts, previous), ts, previous)
    ensures PlanFor(p, ts, previous).kind != Conflict
    ensures previous.Some? ==> !Endangered(PlanFor(p, ts, previous), ts.local, ts.remote, previous.value)
  {
    PlanAtIsSound(p, ts, previous);
    ConflictFreeIsUnprotected(ts, previous);
    PlannedMembers(ts.local, ts.remote, previous);
  }

  /** The planned step `p` became a move of the file at `a.fromPath`. */
  ghost predicate BecameMove(a: Action, p: Action, ts: Trees) {
    var t := ts.On(p.target);
    && p.kind == Transfer && p.target != NoSide && p.path !in t
    && a.fromPath in t && t[a.fromPath].typ == File
    && a == p.(kind := Move, fromPath := a.fromPath, destination := t[a.fromPath])
  }

  /** The planned deletion `p` was taken over by a move. */
  ghost predicate BecameSource(a: Action, p: Action, ts: Trees, previous: Option<Baseline>) {
    && p.kind == Delete && p.typ == File && a == AsRenamedAway(p)
    && exists m :: m in Steps(ts, previous) && Clears(m, p.target, p.path) && m.kind == Move
  }

  /** What a step of a conflict-free plan was planned as. */
  lemma Origin(ts: Trees, previous: Option<Baseline>, a: Action) returns (p: Action)
    requires Agreed(ts, previous) && a in Steps(ts, previous)
    ensures a.path in AllPaths(ts.local, ts.remote, previous)
    ensures p.path == a.path && Sound(p, ts, previous) && p.kind != Conflict
    ensures previous.Some? ==> !Endangered(p, ts.local, ts.remote, previous.value)
    ensures a == p || BecameMove(a, p, ts) || BecameSource(a, p, ts, previous)
  {
    StepHasFate(ts, previous, a);
    PlannedIsSound(ts, previous, a.path);
    p := PlanFor(a.path, ts, previous);
    if f :| RenameOf(ts, previous, a.path, f) && a == AsMove(p, PlanFor(f, ts, previous)) {
      MoveOrigin(ts, previous, a, p, f);
    } else if t :| RenameOf(ts, previous, t, a.path) && a == AsRenamedAway(p) {
      RenameFacts(ts, previous, t, a.path);
      RenameSteps(ts, previous, t, a.path);
      assert Clears(AsMove(PlanFor(t, ts, previous), p), p.target, p.path);
    }
  }

  lemma MoveOrigin(ts: Trees, previous: Option<Baseline>, a: Action, p: Action, f: Path)
    requires Agreed(ts, previous) && RenameOf(ts, previous, a.path, f)
    requires p == PlanFor(a.path, ts, previous) && a == AsMove(p, PlanFor(f, ts, previous))
    ensures BecameMove(a, p, ts)
  {
    RenameFacts(ts, previous, a.path, f);
    PlanAtIsSound(f, ts, previous);
  }

  lemma StepIsRecorded(ts: Trees, previous: Option<Baseline>, a: Action)
    requires Agreed(ts, previous) && a in Steps(ts, previous)
    ensures Recorded(ts, a)
  {
    var p := Origin(ts, previous, a);
    FromOriginIsRecorded(ts, previous, a, p);
  }

  lemma FromOriginIsRecorded(ts: Trees, previous: Option<Baseline>, a: Action, p: Action)
    requires Sound(p, ts, previous) && p.path == a.path && p.kind != Conflict
    requires a == p || BecameMove(a, p, ts) || BecameSource(a, p, ts, previous)
    ensures Recorded(ts, a)
  {
  }

  lemma MovesAreConsistent(ts: Trees, previous: Option<Baseline>)
    requires Agreed(ts, previous)
    ensures MovesConsumeSkips(Steps(ts, previous))
  {
    var u := Steps(ts, previous);
    forall m, a | m in u && a in u && m.kind == Move && a.path == m.fromPath ensures a.kind == Skip {
      MoveIsRename(ts, previous, m);
      RenameSteps(ts, previous, m.path, m.fromPath);
      SameStep(ts, previous, a, AsRenamedAway(PlanFor(m.fromPath, ts, previous)));
    }
    forall m, n | m in u && n in u && m.kind == n.kind == Move && SameOrigin(m, n) ensures m.path == n.path {
      MoveIsRename(ts, previous, m);
      MoveIsRename(ts, previous, n);
      RenameFacts(ts, previous, m.path, m.fromPath);
    }
  }

  lemma SameStep(ts: Trees, previous: Option<Baseline>, a: Action, b: Action)
    requires Agreed(ts, previous)
    requires a in Steps(ts, previous) && b in Steps(ts, previous) && a.path == b.path
    ensures a == b
  {
    StepPaths(ts, previous);
    var u := Steps(ts, previous);
    var i :| 0 <= i < |u| && u[i] == a;
    var j :| 0 <= j < |u| && u[j] == b;
  }

  lemma PlannedIsNoMove(ts: Trees, previous: Option<Baseline>, p: Path)
    requires Agreed(ts, previous) && p in AllPaths(ts.local, ts.remote, previous)
    ensures PlanFor(p, ts, previous).kind != Move
  {
    PlannedIsSound(ts, previous, p);
  }

  lemma MoveIsRename(ts: Trees, previous: Option<Baseline>, m: Action)
    requires Agreed(ts, previous) && m in Steps(ts, previous) && m.kind == Move
    ensures RenameOf(ts, previous, m.path, m.fromPath)
    ensures m == AsMove(PlanFor(m.path, ts, previous), PlanFor(m.fromPath, ts, previous))
  {
    StepHasFate(ts, previous, m);
    PlannedIsNoMove(ts, previous, m.path);
    if f :| RenameOf(ts, previous, m.path, f) && m == AsMove(PlanFor(m.path, ts, previous), PlanFor(f, ts, previous)) {
      RenameFacts(ts, previous, m.path, f);
    }
  }

  /** What is written was changed on the side it comes from. */
  lemma WritesComeFromChanges(ts: Trees, previous: Option<Baseline>, a: Action)
    requires Agreed(ts, previous) && a in Steps(ts, previous) && Writes(a)
    ensures a.target != NoSide && a.path in ts.On(Opposite(a.target))
    ensures a.path != "" ==> ChangedAt(a.path, ts.On(Opposite(a.target)), Saved(previous), Opposite(a.target))
    ensures a.path in AllPaths(ts.local, ts.remote, previous)
  {
    var p := Origin(ts, previous, a);
  }

  lemma NormalSteps(ts: Trees, previous: Option<Baseline>)
    requires Agreed(ts, previous)
    ensures forall a :: a in Steps(ts, previous) && Writes(a) ==> Normal(a.path)
  {
    forall a | a in Steps(ts, previous) && Writes(a) ensures Normal(a.path) {
      WritesComeFromChanges(ts, previous, a);
    }
  }

  /** A change below `q` on one side rules out removing `q` there. */
  lemma ChangeProtects(p: Action, ts: Trees, previous: Option<Baseline>, side: Side, c: Path)
    requires WellFormed(ts) && Sound(p, ts, previous) && p.path != "" && p.kind != Conflict
    requires previous.Some? ==> !Endangered(p, ts.local, ts.remote, previous.value)
    requires side != NoSide && p.path in ts.On(side) && ts.On(side)[p.path].typ == Directory
    requires c in ts.On(side) && IsDescendant(c, p.path) && ChangedAt(c, ts.On(side), Saved(previous), side)
    ensures p.target != side
  {
    if previous.Some? {
      assert c in ts.On(side).Keys + previous.value.Keys;
    } else if p.target == side {
      RemovalNeedsBaseline(p, ts, previous);
    }
  }

  /** Without a baseline no step acts on a path its target already has. */
  lemma RemovalNeedsBaseline(a: Action, ts: Trees, previous: Option<Baseline>)
    requires Scanned(ts.local) && Scanned(ts.remote)
    requires Sound(a, ts, previous) && a.target != NoSide && a.path in ts.On(a.target)
    ensures previous.Some?
  {
    if previous.None? {
      assert ChangedAt(a.path, ts.On(a.target), Saved(previous), a.target);
    }
  }

  lemma ParentIsPlanned(ts: Trees, previous: Option<Baseline>, a: Action)
    requires Agreed(ts, previous) && a in Steps(ts, previous) && Writes(a) && a.path != ""
    ensures ParentPlanned(ts, Steps(ts, previous), a)
  {
    WritesComeFromChanges(ts, previous, a);
    var t := a.target;
    var q := Parent(a.path);
    ParentNormal(a.path);
    assert q in ts.On(Opposite(t)) && ts.On(Opposite(t))[q].typ == Directory;
    if q in ts.On(t) && ts.On(t)[q].typ == Directory {
      DirectoriesAreUntouched(ts, previous, q, t);
    } else {
      var s := StepFor(ts, previous, q);
      var p := Origin(ts, previous, s);
      if q != "" {
        ChangeProtects(p, ts, previous, Opposite(t), a.path);
      }
      CreatedHere(p, ts, previous, t);
      assert s == p;
      assert s in Steps(ts, previous) && CreatesAt(s, t, q);
    }
  }

  /** Nothing acts on a path that is a directory on both sides. */
  lemma DirectoriesAreUntouched(ts: Trees, previous: Option<Baseline>, q: Path, side: Side)
    requires Agreed(ts, previous)
    requires q in ts.local && ts.local[q].typ == Directory && q in ts.remote && ts.remote[q].typ == Directory
    ensures Untouched(Steps(ts, previous), side, q)
  {
    forall a | a in Steps(ts, previous) ensures !Touches(a, side, q) {
      var p := Origin(ts, previous, a);
      NotTouchedBy(a, p, ts, previous, q, side);
    }
  }

  lemma NotTouchedBy(a: Action, p: Action, ts: Trees, previous: Option<Baseline>, q: Path, side: Side)
    requires q in ts.local && ts.local[q].typ == Directory && q in ts.remote && ts.remote[q].typ == Directory
    requires p.path == a.path && Sound(p, ts, previous) && p.kind != Conflict
    requires a == p || BecameMove(a, p, ts) || a.kind == Skip
    ensures !Touches(a, side, q)
  {
    if a.path == q {
      BothDirectories(p, ts, previous);
    }
  }

  lemma BothDirectories(p: Action, ts: Trees, previous: Option<Baseline>)
    requires Sound(p, ts, previous) && p.kind != Conflict
    requires p.path in ts.local && ts.local[p.path].typ == Directory
    requires p.path in ts.remote && ts.remote[p.path].typ == Directory
    ensures p.kind == Skip
  {
  }

  lemma CreatedHere(p: Action, ts: Trees, previous: Option<Baseline>, side: Side)
    requires Sound(p, ts, previous) && p.kind != Conflict && side != NoSide
    requires p.path in ts.On(Opposite(side)) && ts.On(Opposite(side))[p.path].typ == Directory
    requires !(p.path in ts.On(side) && ts.On(side)[p.path].typ == Directory)
    requires p.path != "" ==> p.target != Opposite(side)
    ensures p.kind == CreateDirectory && p.target == side
  {
  }

  /** A removed path is gone from the source side, with all that lay below. */
  lemma RemovalFacts(ts: Trees, previous: Option<Baseline>, a: Action)
    requires Agreed(ts, previous) && a in Steps(ts, previous) && Removes(a)
    ensures Sound(a, ts, previous) && a.target != NoSide && a.path != ""
    ensures previous.Some? && !Endangered(a, ts.local, ts.remote, previous.value)
    ensures a.path in ts.On(a.target)
    ensures forall c :: c in ts.On(Opposite(a.target)) ==> !IsDescendant(c, a.path)
  {
    var p := Origin(ts, previous, a);
    assert a == p;
    NothingBelowRemoval(ts, previous, a);
    RemovalNeedsBaseline(a, ts, previous);
  }

  lemma NothingBelowRemoval(ts: Trees, previous: Option<Baseline>, a: Action)
    requires WellFormed(ts) && Sound(a, ts, previous) && Removes(a)
    ensures forall c :: c in ts.On(Opposite(a.target)) ==> !IsDescendant(c, a.path)
  {
    forall c | c in ts.On(Opposite(a.target)) ensures !IsDescendant(c, a.path) {
      if IsDescendant(c, a.path) {
        AncestorsAreDirectories(ts.On(Opposite(a.target)), c, a.path);
      }
    }
  }

  /** What lies below a removed path is deleted or moved away. */
  lemma ChildIsCleared(ts: Trees, previous: Option<Baseline>, a: Action, c: Path)
    requires Agreed(ts, previous) && a in Steps(ts, previous) && Removes(a)
    requires c in ts.On(a.target) && IsDescendant(c, a.path)
    ensures exists b :: b in Steps(ts, previous) && Clears(b, a.target, c)
  {
    RemovalFacts(ts, previous, a);
    var t := a.target;
    AncestorsAreDirectories(ts.On(t), c, a.path);
    assert c in ts.On(t).Keys + previous.value.Keys && HasPrefix(c, a.path);
    assert !ChangedAt(c, ts.On(t), previous.value, t);
    var b := StepFor(ts, previous, c);
    var p := Origin(ts, previous, b);
    OneSidedUnchanged(p, ts, previous, t);
    if b == p {
      assert Clears(b, t, c);
    }
  }

  /** A path only one side has, unchanged there, is deleted there. */
  lemma OneSidedUnchanged(p: Action, ts: Trees, previous: Option<Baseline>, side: Side)
    requires WellFormed(ts) && Sound(p, ts, previous) && p.kind != Conflict && side != NoSide
    requires p.path in ts.On(side) && p.path !in ts.On(Opposite(side))
    requires !ChangedAt(p.path, ts.On(side), Saved(previous), side) && p.path != ""
    ensures p.kind == Delete && p.target == side
  {
  }

  lemma SubtreeIsCleared(ts: Trees, previous: Option<Baseline>, a: Action)
    requires Agreed(ts, previous) && a in Steps(ts, previous) && Removes(a)
    ensures SubtreeCleared(ts, Steps(ts, previous), a)
  {
    RemovalFacts(ts, previous, a);
    forall c | c in ts.On(a.target) && IsDescendant(c, a.path)
      ensures exists b :: b in Steps(ts, previous) && Clears(b, a.target, c)
    {
      ChildIsCleared(ts, previous, a, c);
    }
    forall b | b in Steps(ts, previous) && Writes(b) && b.target == a.target
      ensures !IsDescendant(b.path, a.path)
    {
      WritesComeFromChanges(ts, previous, b);
    }
  }

  lemma PlanIsCoherent(ts: Trees, previous: Option<Baseline>)
    requires Agreed(ts, previous)
    ensures Coherent(ts, Steps(ts, previous))
  {
    var u := Steps(ts, previous);
    StepPaths(ts, previous);
    MovesAreConsistent(ts, previous);
    forall a | a in u ensures Recorded(ts, a) { StepIsRecorded(ts, previous, a); }
    forall a | a in u && Writes(a) && a.path != "" ensures ParentPlanned(ts, u, a) {
      ParentIsPlanned(ts, previous, a);
    }
    forall a | a in u && Removes(a) ensures SubtreeCleared(ts, u, a) {
      SubtreeIsCleared(ts, previous, a);
    }
  }

  // ----- Executable order

  ghost function PlanOf(ts: Trees, previous: Option<Baseline>): seq<Action> {
    OrderedPlan(ts.local, ts.remote, previous)
  }

  /** The two trees once every step has had its effect. */
  ghost function Reconciled(ts: Trees, previous: Option<Baseline>): Trees {
    Outcome(ts, PlanOf(ts, previous))
  }

  ghost predicate ConflictFreePlan(ts: Trees, previous: Option<Baseline>) {
    WellFormed(ts) && ConflictFree(PlanOf(ts, previous))
  }

  lemma PlanMembers(ts: Trees, previous: Option<Baseline>)
    requires ConflictFreePlan(ts, previous)
    ensures Agreed(ts, previous)
    ensures Coherent(ts, PlanOf(ts, previous)) && Ordered(PlanOf(ts, previous))
    ensures forall a :: a in PlanOf(ts, previous) <==> a in Steps(ts, previous)
  {
    SortedIsSort(Steps(ts, previous));
    PlanIsCoherent(ts, previous);
    CoherentWhenSorted(ts, Steps(ts, previous));
  }

  /** Executable order: the steps in plan order never write under a missing
      directory, never remove or replace a directory with content and meet
      every precondition they recorded, exactly when no file is moved out of a
      directory an earlier step removes. Otherwise the run stops. */
  lemma ExecutableOrder(ts: Trees, previous: Option<Baseline>)
    requires ConflictFreePlan(ts, previous)
    ensures if MovesPrecedeRemovals(PlanOf(ts, previous))
            then Run(ts, PlanOf(ts, previous)) == Some(Reconciled(ts, previous))
            else Run(ts, PlanOf(ts, previous)) == None
  {
    PlanMembers(ts, previous);
    NormalSteps(ts, previous);
    RunSucceedsExactly(ts, PlanOf(ts, previous));
  }

  // ----- Convergence

  /** The two sides of a path after the run. */
  ghost predicate SameAt(ts: Trees, p: Path) {
    && (p in ts.local <==> p in ts.remote)
    && (p in ts.local ==> ts.local[p].typ == ts.remote[p].typ)
  }

  lemma WrittenAt(ts: Trees, previous: Option<Baseline>, s: Action)
    requires ConflictFreePlan(ts, previous) && s in PlanOf(ts, previous) && Writes(s)
    ensures var after := Reconciled(ts, previous);
            && s.target != NoSide
            && Find(after.On(s.target), s.path) == Left(s, s.path)
            && Find(after.On(Opposite(s.target)), s.path) == Find(ts.On(Opposite(s.target)), s.path)
  {
    PlanMembers(ts, previous);
    StepDecides(ts, PlanOf(ts, previous), s);
  }

  /** A planned deletion leaves the path absent on both sides. */
  lemma DeletedAt(ts: Trees, previous: Option<Baseline>, s: Action, p: Action)
    requires ConflictFreePlan(ts, previous) && s in PlanOf(ts, previous)
    requires p.path == s.path && Sound(p, ts, previous) && p.kind == Delete
    requires s == p || BecameSource(s, p, ts, previous)
    ensures s.path !in Reconciled(ts, previous).local && s.path !in Reconciled(ts, previous).remote
  {
    PlanMembers(ts, previous);
    if s == p {
      StepDecides(ts, PlanOf(ts, previous), s);
    } else {
      SkipDecides(ts, PlanOf(ts, previous), s, p.target);
      forall m | m in PlanOf(ts, previous) && m.kind == Move ensures !Clears(m, Opposite(p.target), s.path) {
        if Clears(m, Opposite(p.target), s.path) { MovedPathWasDeleted(ts, previous, s, p, m); }
      }
      SkipDecides(ts, PlanOf(ts, previous), s, Opposite(p.target));
    }
  }

  /** A path planned as a skip keeps what it had. */
  lemma KeptAt(ts: Trees, previous: Option<Baseline>, s: Action, side: Side)
    requires ConflictFreePlan(ts, previous) && s in PlanOf(ts, previous) && side != NoSide
    requires Sound(s, ts, previous) && s.kind == Skip
    ensures Find(Reconciled(ts, previous).On(side), s.path) == Find(ts.On(side), s.path)
  {
    PlanMembers(ts, previous);
    forall m | m in PlanOf(ts, previous) && m.kind == Move ensures !Clears(m, side, s.path) {
      if Clears(m, side, s.path) { MovedPathWasDeleted(ts, previous, s, s, m); }
    }
    SkipDecides(ts, PlanOf(ts, previous), s, side);
  }

  lemma MovedPathWasDeleted(ts: Trees, previous: Option<Baseline>, s: Action, p: Action, m: Action)
    requires Agreed(ts, previous) && m in Steps(ts, previous) && m.kind == Move && m.fromPath == s.path
    requires p.path == s.path && Sound(p, ts, previous) && (p.kind == Skip || p.kind == Delete)
    ensures p.kind == Delete && m.target == p.target
  {
    MoveIsRename(ts, previous, m);
    RenameFacts(ts, previous, m.path, m.fromPath);
    PlanAtIsSound(m.fromPath, ts, previous);
  }

  lemma NowhereAt(ts: Trees, previous: Option<Baseline>, p: Path, side: Side)
    requires ConflictFreePlan(ts, previous) && side != NoSide
    requires p !in AllPaths(ts.local, ts.remote, previous)
    ensures p !in Reconciled(ts, previous).On(side)
  {
    PlanMembers(ts, previous);
    RecordedLeavesAlone(ts, PlanOf(ts, previous), side, p);
    UntouchedPath(ts, PlanOf(ts, previous), side, p);
  }

  /** How a path ends: absent on both sides, left alone because both sides
      match, or written on one side from the other. */
  datatype Ending = Gone | Kept | Written(side: Side, entry: Entry)

  ghost predicate EndsAs(e: Ending, p: Path, ts: Trees, after: Trees) {
    match e
    case Gone => p !in after.local && p !in after.remote
    case Kept =>
      && Find(after.local, p) == Find(ts.local, p) && Find(after.remote, p) == Find(ts.remote, p)
      && EntriesMatch(Lookup(ts.local, p), p in ts.local, Lookup(ts.remote, p), p in ts.remote)
    case Written(side, entry) =>
      && side != NoSide && Find(after.On(side), p) == Some(entry)
      && p in ts.On(Opposite(side)) && Find(after.On(Opposite(side)), p) == Some(ts.On(Opposite(side))[p])
      && entry.typ == ts.On(Opposite(side))[p].typ
  }

  /** A written entry is the other side's, or the one a rename carried along. */
  ghost predicate CameFrom(e: Ending, p: Path, ts: Trees, previous: Option<Baseline>) {
    e.Written? && e.side != NoSide && p in ts.On(Opposite(e.side)) ==>
      || e.entry == ts.On(Opposite(e.side))[p]
      || exists m :: m in Steps(ts, previous) && m.kind == Move && m.destination == e.entry
                     && m.source == ts.On(Opposite(e.side))[p]
  }

  ghost predicate FileChanged(p: Path, ts: Trees, previous: Option<Baseline>, side: Side) {
    && side != NoSide && p in ts.On(side) && ts.On(side)[p].typ == File
    && ChangedAt(p, ts.On(side), Saved(previous), side)
  }

  /** A file changed on one side is not what gives way there. */
  ghost predicate KeepsChanges(e: Ending, p: Path, ts: Trees, previous: Option<Baseline>) {
    forall side :: FileChanged(p, ts, previous, side) ==>
                     !e.Gone? && (e.Written? ==> e.side == Opposite(side))
  }

  lemma EndingOf(ts: Trees, previous: Option<Baseline>, p: Path) returns (e: Ending)
    requires ConflictFreePlan(ts, previous)
    ensures EndsAs(e, p, ts, Reconciled(ts, previous))
    ensures CameFrom(e, p, ts, previous) && KeepsChanges(e, p, ts, previous)
  {
    PlanMembers(ts, previous);
    if p in AllPaths(ts.local, ts.remote, previous) {
      var s := StepFor(ts, previous, p);
      var o := Origin(ts, previous, s);
      e := StepEnding(ts, previous, s, o);
      ChangesAreKept(e, o, ts, previous);
    } else {
      NowhereAt(ts, previous, p, Local);
      NowhereAt(ts, previous, p, Remote);
      e := Gone;
    }
  }

  lemma ChangesAreKept(e: Ending, o: Action, ts: Trees, previous: Option<Baseline>)
    requires WellFormed(ts) && Sound(o, ts, previous)
    requires e.Gone? ==> o.kind == Delete
    requires e.Written? ==> e.side == o.target != NoSide
    ensures KeepsChanges(e, o.path, ts, previous)
  {
    forall side | FileChanged(o.path, ts, previous, side)
      ensures !e.Gone? && (e.Written? ==> e.side == Opposite(side))
    {
      ChangeIsKept(o, ts, previous, side);
    }
  }

  lemma StepEnding(ts: Trees, previous: Option<Baseline>, s: Action, o: Action) returns (e: Ending)
    requires ConflictFreePlan(ts, previous) && s in PlanOf(ts, previous) && s in Steps(ts, previous)
    requires Sound(o, ts, previous) && o.path == s.path && o.kind != Conflict
    requires s == o || BecameMove(s, o, ts) || BecameSource(s, o, ts, previous)
    ensures EndsAs(e, s.path, ts, Reconciled(ts, previous)) && CameFrom(e, s.path, ts, previous)
    ensures e.Gone? ==> o.kind == Delete
    ensures e.Written? ==> e.side == o.target != NoSide
  {
    if Writes(s) {
      e := WrittenEnding(ts, previous, s, o);
    } else {
      e := UnwrittenEnding(ts, previous, s, o);
    }
  }

  lemma UnwrittenEnding(ts: Trees, previous: Option<Baseline>, s: Action, o: Action) returns (e: Ending)
    requires ConflictFreePlan(ts, previous) && s in PlanOf(ts, previous) && s in Steps(ts, previous)
    requires Sound(o, ts, previous) && o.path == s.path && o.kind != Conflict && !Writes(s)
    requires s == o || BecameSource(s, o, ts, previous)
    ensures EndsAs(e, s.path, ts, Reconciled(ts, previous)) && !e.Written? && (e.Gone? ==> o.kind == Delete)
  {
    if o.kind == Delete {
      DeletedAt(ts, previous, s, o);
      e := Gone;
    } else {
      KeptAt(ts, previous, s, Local);
      KeptAt(ts, previous, s, Remote);
      e := Kept;
    }
  }

  lemma WrittenEnding(ts: Trees, previous: Option<Baseline>, s: Action, o: Action) returns (e: Ending)
    requires ConflictFreePlan(ts, previous) && s in PlanOf(ts, previous) && s in Steps(ts, previous)
    requires Writes(s) && Sound(o, ts, previous) && o.path == s.path
    requires s == o || BecameMove(s, o, ts)
    ensures EndsAs(e, s.path, ts, Reconciled(ts, previous)) && e.Written? && e.side == o.target
    ensures CameFrom(e, s.path, ts, previous)
  {
    WrittenAt(ts, previous, s);
    SameTypeWritten(s, o, ts, previous);
    e := Written(s.target, Left(s, s.path).value);
  }

  lemma SameTypeWritten(s: Action, o: Action, ts: Trees, previous: Option<Baseline>)
    requires Writes(s) && Sound(o, ts, previous) && o.path == s.path
    requires s == o || BecameMove(s, o, ts)
    ensures s.target == o.target != NoSide && s.path in ts.On(Opposite(s.target))
    ensures Left(s, s.path).Some? && Left(s, s.path).value.typ == ts.On(Opposite(s.target))[s.path].typ
    ensures s.source == ts.On(Opposite(s.target))[s.path]
    ensures if s.kind == Move then Left(s, s.path) == Some(s.destination)
            else Left(s, s.path) == Some(ts.On(Opposite(s.target))[s.path])
  {
  }

  /** The table never acts on the side that changed. */
  lemma ChangeIsKept(o: Action, ts: Trees, previous: Option<Baseline>, side: Side)
    requires WellFormed(ts) && Sound(o, ts, previous) && FileChanged(o.path, ts, previous, side)
    ensures o.target != side && o.kind != Delete
  {
  }

  /** After the run both sides have the same paths with the same types,
      whatever the fingerprints are worth. */
  lemma SameShape(ts: Trees, previous: Option<Baseline>, p: Path)
    requires ConflictFreePlan(ts, previous)
    ensures SameAt(Reconciled(ts, previous), p)
  {
    var e := EndingOf(ts, previous, p);
    EndingIsSame(e, p, ts, Reconciled(ts, previous));
  }

  lemma EndingIsSame(e: Ending, p: Path, ts: Trees, after: Trees)
    requires EndsAs(e, p, ts, after)
    ensures SameAt(after, p)
  {
  }

  /** The fingerprints of the run are worth something: equal ones stand for
      equal bytes, and the baseline pairs equal bytes. */
  ghost predicate Trustworthy(ts: Trees, previous: Option<Baseline>) {
    && Faithful(EntriesOf(ts.local) + EntriesOf(ts.remote) + RecordedEntries(Saved(previous)))
    && Paired(Saved(previous))
  }

  lemma MovedContent(ts: Trees, previous: Option<Baseline>, s: Action)
    requires ConflictFreePlan(ts, previous) && Trustworthy(ts, previous)
    requires s in Steps(ts, previous) && s.kind == Move
    ensures SameContent(s.source, s.destination)
  {
    PlanMembers(ts, previous);
    MoveIsRename(ts, previous, s);
    RenameFacts(ts, previous, s.path, s.fromPath);
    PlanAtIsSound(s.fromPath, ts, previous);
    assert Recorded(ts, s);
    var from := PlanFor(s.fromPath, ts, previous);
    TrustedOrigin(from, s, ts, previous);
  }

  lemma TrustedOrigin(from: Action, s: Action, ts: Trees, previous: Option<Baseline>)
    requires Trustworthy(ts, previous) && previous.Some?
    requires from.kind == Delete && Sound(from, ts, previous) && s.target == from.target
    requires s.path in ts.On(Opposite(s.target)) && s.source == ts.On(Opposite(s.target))[s.path]
    requires s.destination == from.destination
    requires RemovedFingerprint(from, previous.value).Present()
    requires s.source.Equal(RemovedFingerprint(from, previous.value))
    ensures SameContent(s.source, s.destination)
  {
    var record := RecordOf(previous.value, from.path);
    assert from.path in previous.value;
    var all := EntriesOf(ts.local) + EntriesOf(ts.remote) + RecordedEntries(Saved(previous));
    assert s.source in all;
    assert from.destination in all;
    assert record.source in RecordedEntries(Saved(previous));
    assert record.destination in RecordedEntries(Saved(previous));
    assert from.destination.Equal(Half(record, from.target));
  }

  /** Convergence: every path ends with equal content on both sides or absent
      on both. */
  lemma Convergence(ts: Trees, previous: Option<Baseline>, p: Path)
    requires ConflictFreePlan(ts, previous) && Trustworthy(ts, previous)
    ensures var after := Reconciled(ts, previous);
            && (p in after.local <==> p in after.remote)
            && (p in after.local ==> SameContent(after.local[p], after.remote[p]))
  {
    var e := EndingOf(ts, previous, p);
    if e.Written? && e.entry != ts.On(Opposite(e.side))[p] {
      var m :| m in Steps(ts, previous) && m.kind == Move && m.destination == e.entry
               && m.source == ts.On(Opposite(e.side))[p];
      MovedContent(ts, previous, m);
    }
    EndingConverges(e, p, ts, Reconciled(ts, previous), previous);
  }

  lemma EndingConverges(e: Ending, p: Path, ts: Trees, after: Trees, previous: Option<Baseline>)
    requires EndsAs(e, p, ts, after) && Trustworthy(ts, previous)
    requires e.Written? ==> SameContent(ts.On(Opposite(e.side))[p], e.entry)
    ensures p in after.local <==> p in after.remote
    ensures p in after.local ==> SameContent(after.local[p], after.remote[p])
  {
    if e.Kept? {
      MatchIsTrusted(ts, previous, p);
    }
  }

  lemma MatchIsTrusted(ts: Trees, previous: Option<Baseline>, p: Path)
    requires Trustworthy(ts, previous)
    requires p in ts.local && p in ts.remote ==> ts.local[p].Equal(ts.remote[p])
    ensures p in ts.local && p in ts.remote ==> SameContent(ts.local[p], ts.remote[p])
  {
    if p in ts.local && p in ts.remote {
      assert ts.local[p] in EntriesOf(ts.local) && ts.remote[p] in EntriesOf(ts.remote);
    }
  }

  // ----- Shape

  /** A directory that still holds something afterwards is still there. */
  lemma DirectoryStays(ts: Trees, previous: Option<Baseline>, side: Side, p: Path, q: Path)
    requires ConflictFreePlan(ts, previous) && side != NoSide
    requires p in ts.On(side) && q in ts.On(side) && ts.On(side)[q].typ == Directory && IsDescendant(p, q)
    requires Find(Reconciled(ts, previous).On(side), p) == Find(ts.On(side), p)
    ensures Find(Reconciled(ts, previous).On(side), q) == Find(ts.On(side), q)
  {
    PlanMembers(ts, previous);
    var plan := PlanOf(ts, previous);
    forall a | a in plan ensures !Touches(a, side, q) {
      if Touches(a, side, q) {
        TouchedDirectoryEmpties(ts, plan, a, side, p, q);
      }
    }
    UntouchedPath(ts, plan, side, q);
  }

  lemma TouchedDirectoryEmpties(ts: Trees, plan: seq<Action>, a: Action, side: Side, p: Path, q: Path)
    requires Coherent(ts, plan) && a in plan && side != NoSide && Touches(a, side, q)
    requires p in ts.On(side) && q in ts.On(side) && ts.On(side)[q].typ == Directory && IsDescendant(p, q)
    ensures Find(Outcome(ts, plan).On(side), p) != Find(ts.On(side), p)
  {
    assert Recorded(ts, a);
    assert Removes(a) && a.path == q;
    assert SubtreeCleared(ts, plan, a);
    var b :| b in plan && Clears(b, side, p);
    assert Recorded(ts, b);
    TouchedPath(ts, plan, b, side, p);
  }

  /** Shape preservation: whatever the baseline looks like, the run leaves
      both trees parent-closed. */
  lemma ShapePreserved(ts: Trees, previous: Option<Baseline>)
    requires ConflictFreePlan(ts, previous)
    ensures ParentClosed(Reconciled(ts, previous).local) && ParentClosed(Reconciled(ts, previous).remote)
  {
    var after := Reconciled(ts, previous);
    forall p | p in after.local.Keys + after.remote.Keys && p != ""
      ensures Parent(p) in after.local && after.local[Parent(p)].typ == Directory
      ensures Parent(p) in after.remote && after.remote[Parent(p)].typ == Directory
    {
      SameShape(ts, previous, Parent(p));
      var e := EndingOf(ts, previous, p);
      var side := if e.Written? then Opposite(e.side) else Local;
      ParentNormal(p);
      DirectoryStays(ts, previous, side, p, Parent(p));
    }
  }

  // ----- No lost change

  /** A file added or changed on one side is on both sides afterwards. */
  lemma NoLostChange(ts: Trees, previous: Option<Baseline>, p: Path, side: Side)
    requires ConflictFreePlan(ts, previous) && Trustworthy(ts, previous)
    requires FileChanged(p, ts, previous, side)
    ensures var after := Reconciled(ts, previous);
            && p in after.local && SameContent(after.local[p], ts.On(side)[p])
            && p in after.remote && SameContent(after.remote[p], ts.On(side)[p])
  {
    Convergence(ts, previous, p);
    var e := EndingOf(ts, previous, p);
    EndingKeepsChange(e, p, ts, Reconciled(ts, previous), previous, side);
  }

  lemma EndingKeepsChange(e: Ending, p: Path, ts: Trees, after: Trees, previous: Option<Baseline>, side: Side)
    requires EndsAs(e, p, ts, after) && KeepsChanges(e, p, ts, previous) && FileChanged(p, ts, previous, side)
    requires p in after.local && p in after.remote ==> SameContent(after.local[p], after.remote[p])
    ensures p in after.local && SameContent(after.local[p], ts.On(side)[p])
    ensures p in after.remote && SameContent(after.remote[p], ts.On(side)[p])
  {
  }

  // ----- Nothing changed is destroyed

  /** What the step destroys still matches the baseline of the side it is on:
      the entry it deletes, overwrites or moves, and everything below it. */
  ghost predicate Backed(a: Action, ts: Trees, base: Baseline) {
    var t := ts.On(a.target);
    && (a.kind == Delete ==> a.path in t)
    && (a.kind == Delete || Writes(a) ==> a.path in t ==> !ChangedAt(a.path, t, base, a.target))
    && (a.kind == Delete || Writes(a) ==> a.path in t && t[a.path].typ == Directory ==>
          forall c :: c in t && HasPrefix(c, a.path) ==> !ChangedAt(c, t, base, a.target))
    && (a.kind == Move ==> a.path !in t && a.fromPath in t && !ChangedAt(a.fromPath, t, base, a.target))
  }

  lemma PlannedIsBacked(p: Action, ts: Trees, previous: Option<Baseline>)
    requires Sound(p, ts, previous)
    requires previous.Some? ==> !Endangered(p, ts.local, ts.remote, previous.value)
    requires previous.None? ==> !(p.kind == Delete || p.replace)
    ensures Backed(p, ts, Saved(previous))
  {
    if p.kind == Delete || Writes(p) {
      forall c | DestructiveDirectory(p) && c in ts.On(p.target) && HasPrefix(c, p.path)
        ensures !ChangedAt(c, ts.On(p.target), Saved(previous), p.target)
      {
        assert c in ts.On(p.target).Keys + Saved(previous).Keys;
      }
    }
  }

  /** In any plan, with conflicts or without, no step destroys anything that
      changed since the baseline on the side it acts on. */
  lemma OnlyUnchangedIsDestroyed(ts: Trees, previous: Option<Baseline>, a: Action)
    requires Scanned(ts.local) && Scanned(ts.remote) && a in PlanOf(ts, previous)
    ensures Backed(a, ts, Saved(previous))
  {
    SortedIsSort(Steps(ts, previous));
    forall k | 0 <= k < |Shielded(ts, previous)| ensures Backed(Shielded(ts, previous)[k], ts, Saved(previous)) {
      ShieldedIsBacked(ts, previous, k);
    }
    MovesStayBacked(Shielded(ts, previous), ts, previous, a);
  }

  lemma MovesStayBacked(q: seq<Action>, ts: Trees, previous: Option<Baseline>, a: Action)
    requires forall k :: 0 <= k < |q| ==> Backed(q[k], ts, Saved(previous))
    requires a in WithMoves(q, ts.local, ts.remote, previous)
    ensures Backed(a, ts, Saved(previous))
  {
    var u := WithMoves(q, ts.local, ts.remote, previous);
    var k :| 0 <= k < |u| && u[k] == a;
    if previous.Some? {
      PathIsKept(q, k, ts, previous.value);
      if j :| RenamePair(q, k, j, ts, previous.value) {
        PairIsRewritten(q, k, j, ts, previous.value);
        RenameIsBacked(q, k, j, ts, previous);
      } else if i :| RenamePair(q, i, k, ts, previous.value) {
        PairIsRewritten(q, i, k, ts, previous.value);
      } else {
        UnpairedIsKept(q, k, ts, previous.value);
      }
    }
  }

  lemma RenameIsBacked(q: seq<Action>, k: nat, j: nat, ts: Trees, previous: Option<Baseline>)
    requires previous.Some? && RenamePair(q, k, j, ts, previous.value) && j < |q|
    requires Backed(q[j], ts, previous.value)
    ensures Backed(AsMove(q[k], q[j]), ts, previous.value)
  {
  }

  lemma ShieldedIsBacked(ts: Trees, previous: Option<Baseline>, k: nat)
    requires Scanned(ts.local) && Scanned(ts.remote) && k < |Shielded(ts, previous)|
    ensures Backed(Shielded(ts, previous)[k], ts, Saved(previous))
  {
    var p := ShieldedOrigin(ts, previous, k);
    HarmlessIsBacked(Shielded(ts, previous)[k], p, ts, previous);
  }

  lemma ShieldedOrigin(ts: Trees, previous: Option<Baseline>, k: nat) returns (p: Action)
    requires Scanned(ts.local) && Scanned(ts.remote) && k < |Shielded(ts, previous)|
    ensures Sound(p, ts, previous)
    ensures var a := Shielded(ts, previous)[k];
            a.kind == Conflict || a.kind == Skip
            || (a == p && (previous.Some? ==> !Endangered(p, ts.local, ts.remote, previous.value)))
  {
    var planned := Planned(ts.local, ts.remote, previous);
    assert |planned| == |Shielded(ts, previous)|;
    ShieldedCases(ts, previous, k);
    PlannedMembers(ts.local, ts.remote, previous);
    p := planned[k];
    assert p in planned;
    PlanAtIsSound(p.path, ts, previous);
  }

  lemma HarmlessIsBacked(a: Action, p: Action, ts: Trees, previous: Option<Baseline>)
    requires Scanned(ts.local) && Scanned(ts.remote) && Sound(p, ts, previous)
    requires a.kind == Conflict || a.kind == Skip
             || (a == p && (previous.Some? ==> !Endangered(p, ts.local, ts.remote, previous.value)))
    ensures Backed(a, ts, Saved(previous))
  {
    if a == p {
      if p.target != NoSide && p.path in ts.On(p.target) {
        RemovalNeedsBaseline(p, ts, previous);
      }
      PlannedIsBacked(p, ts, previous);
    }
  }
}
