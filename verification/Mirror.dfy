/** The guarantees of a conflict-free one-way plan. */
module Mirror {
  import opened Common
  import opened Paths
  import opened Entries
  import opened Actions
  import opened Executor
  import opened OneWay

  /** A step of a conflict-free plan, aimed at the destination, decided from the
      two trees. */
  ghost predicate IsStep(a: Action, s: Snapshot, d: Snapshot, options: Options) {
    && (a.path in s || a.path in d) && Sound(a, s, d, options)
    && a.kind != Conflict && (a.kind != Skip ==> a.target == Remote)
  }

  /** One such step for every path of either tree, in plan order. */
  ghost predicate Covers(plan: seq<Action>, s: Snapshot, d: Snapshot, options: Options) {
    && Scanned(s) && Scanned(d) && ParentClosed(s) && ParentClosed(d)
    && DistinctPaths(plan) && Ordered(plan)
    && (forall a :: a in plan ==> IsStep(a, s, d, options))
    && (forall p {:trigger HasStep(plan, p)} :: p in s || p in d ==> HasStep(plan, p))
  }

  ghost predicate HasStep(plan: seq<Action>, p: Path) {
    exists a :: a in plan && a.path == p
  }

  lemma StepAt(plan: seq<Action>, s: Snapshot, d: Snapshot, options: Options, p: Path) returns (a: Action)
    requires Covers(plan, s, d, options) && (p in s || p in d)
    ensures a in plan && a.path == p && IsStep(a, s, d, options)
  {
    assert HasStep(plan, p);
    a :| a in plan && a.path == p;
  }

  lemma ParentIsPlanned(plan: seq<Action>, s: Snapshot, d: Snapshot, options: Options, b: Action)
    requires Covers(plan, s, d, options) && b in plan && Writes(b) && b.path != ""
    ensures ParentPlanned(Trees(s, d), plan, b)
  {
    var q := Parent(b.path);
    var parent := StepAt(plan, s, d, options, q);
    if q in d && d[q].typ == Directory {
      forall c | c in plan ensures !Touches(c, Remote, q) {
        assert IsStep(c, s, d, options);
      }
    } else {
      assert CreatesAt(parent, Remote, q);
    }
  }

  /** Nothing of the source lies below a removed path. */
  lemma SourceIsGone(s: Snapshot, d: Snapshot, options: Options, b: Action, c: Path)
    requires Scanned(s) && ParentClosed(s) && IsStep(b, s, d, options) && Removes(b) && c in s
    ensures !IsDescendant(c, b.path)
  {
    if IsDescendant(c, b.path) { AncestorsAreDirectories(s, c, b.path); }
  }

  lemma WritesAreInSource(b: Action, s: Snapshot, d: Snapshot, options: Options)
    requires IsStep(b, s, d, options) && Writes(b)
    ensures b.path in s
  {
  }

  /** A destination path the source lacks is deleted when something above it is
      removed. */
  lemma ChildIsDeleted(s: Snapshot, d: Snapshot, options: Options, b: Action, x: Action)
    requires IsStep(b, s, d, options) && Removes(b)
    requires IsStep(x, s, d, options) && x.path !in s
    ensures Clears(x, Remote, x.path)
  {
  }

  lemma ChildIsCleared(plan: seq<Action>, s: Snapshot, d: Snapshot, options: Options, b: Action, c: Path)
    requires Covers(plan, s, d, options) && b in plan && Removes(b) && IsStep(b, s, d, options)
    requires c in d && IsDescendant(c, b.path)
    ensures exists x :: x in plan && Clears(x, Remote, c)
  {
    if c in s { SourceIsGone(s, d, options, b, c); }
    var x := StepAt(plan, s, d, options, c);
    ChildIsDeleted(s, d, options, b, x);
  }

  lemma NotWrittenBelow(s: Snapshot, d: Snapshot, options: Options, b: Action, x: Action)
    requires Scanned(s) && ParentClosed(s)
    requires IsStep(b, s, d, options) && Removes(b) && IsStep(x, s, d, options) && Writes(x)
    ensures !IsDescendant(x.path, b.path)
  {
    WritesAreInSource(x, s, d, options);
    SourceIsGone(s, d, options, b, x.path);
  }

  lemma SubtreeIsCleared(plan: seq<Action>, s: Snapshot, d: Snapshot, options: Options, b: Action)
    requires Covers(plan, s, d, options) && b in plan && Removes(b)
    requires b.path == "" ==> Empty(d, "")
    ensures SubtreeCleared(Trees(s, d), plan, b)
  {
    assert IsStep(b, s, d, options) && b.target == Remote;
    forall c | c in d && IsDescendant(c, b.path) ensures exists x :: x in plan && Clears(x, Remote, c) {
      ChildIsCleared(plan, s, d, options, b, c);
    }
    forall x | x in plan && Writes(x) ensures !IsDescendant(x.path, b.path) {
      NotWrittenBelow(s, d, options, b, x);
    }
  }

  /** The plan does not delete the destination root under its own contents. */
  predicate RootIsSafe(s: Snapshot, d: Snapshot, options: Options) {
    "" in s || !options.delete || d.Keys <= {""}
  }

  lemma RootRemoval(s: Snapshot, d: Snapshot, options: Options, b: Action)
    requires RootIsSafe(s, d, options) && Scanned(s)
    requires IsStep(b, s, d, options) && Removes(b) && b.path == ""
    ensures Empty(d, "")
  {
  }

  lemma MirrorIsCoherent(plan: seq<Action>, s: Snapshot, d: Snapshot, options: Options)
    requires Covers(plan, s, d, options) && RootIsSafe(s, d, options)
    ensures Coherent(Trees(s, d), plan)
  {
    var ts := Trees(s, d);
    forall b | b in plan ensures Recorded(ts, b) && b.kind != Move {
      assert IsStep(b, s, d, options);
    }
    forall b | b in plan && Writes(b) && b.path != "" ensures ParentPlanned(ts, plan, b) {
      ParentIsPlanned(plan, s, d, options, b);
    }
    forall b | b in plan && Removes(b) ensures SubtreeCleared(ts, plan, b) {
      if b.path == "" { RootRemoval(s, d, options, b); }
      SubtreeIsCleared(plan, s, d, options, b);
    }
  }

  lemma {:induction false} TopLevel(d: Snapshot, c: Path) returns (t: Path)
    requires Scanned(d) && ParentClosed(d) && c in d && c != ""
    ensures t in d && t != "" && LastSlash(t) < 0
    decreases |c|
  {
    ParentNormal(c);
    if LastSlash(c) < 0 {
      t := c;
    } else {
      assert c[LastSlash(c)] == '/';
      t := TopLevel(d, Parent(c));
    }
  }

  /** Without a source root nothing of the source is left. */
  lemma NoRootNoSource(s: Snapshot, p: Path)
    requires Scanned(s) && ParentClosed(s) && "" !in s
    ensures p !in s
  {
    if p in s && p != "" { AncestorsAreDirectories(s, p, ""); }
  }

  /** The root's deletion precedes the deletion of a top-level name: both have
      depth 0. */
  lemma RootDeletionStops(plan: seq<Action>, s: Snapshot, d: Snapshot, options: Options, c: Path)
    requires Covers(plan, s, d, options) && "" !in s && options.delete && c in d && c != ""
    ensures Run(Trees(s, d), plan) == None
  {
    NoRootNoSource(s, c);
    var t := TopLevel(d, c);
    NoRootNoSource(s, t);
    AncestorsAreDirectories(d, t, "");
    var root := StepAt(plan, s, d, options, "");
    var top := StepAt(plan, s, d, options, t);
    ParentDepth(t);
    var j :| 0 <= j < |plan| && plan[j] == root;
    var i :| 0 <= i < |plan| && plan[i] == top;
    BeforeIndex(plan, j, i);
    StopsAtRoot(plan, s, d, options, i, j);
    RunStuck(Trees(s, d), plan, j + 1);
  }

  lemma StopsAtRoot(plan: seq<Action>, s: Snapshot, d: Snapshot, options: Options, i: nat, j: nat)
    requires DistinctPaths(plan) && j < i < |plan|
    requires forall a :: a in plan ==> IsStep(a, s, d, options)
    requires plan[j].kind == Delete && plan[j].path == ""
    requires plan[i].path in d && plan[i].path != ""
    ensures Run(Trees(s, d), plan[..j + 1]) == None
  {
    var ts := Trees(s, d);
    assert plan[..j + 1][..j] == plan[..j];
    assert plan[j] in plan;
    if Run(ts, plan[..j]).Some? {
      RunIsOutcome(ts, plan[..j]);
      forall k | 0 <= k < j
        ensures !Touches(plan[k], Remote, plan[i].path) && (plan[k].kind != Skip ==> plan[k].target != NoSide)
      {
        assert plan[k] in plan;
      }
      OutcomeUntouched(ts, plan[..j], Remote, plan[i].path);
    }
  }

  lemma CoveredRuns(plan: seq<Action>, s: Snapshot, d: Snapshot, options: Options)
    requires Covers(plan, s, d, options)
    ensures if RootIsSafe(s, d, options) then Run(Trees(s, d), plan) == Some(Outcome(Trees(s, d), plan))
            else Run(Trees(s, d), plan) == None
  {
    if RootIsSafe(s, d, options) {
      MirrorIsCoherent(plan, s, d, options);
      forall a | a in plan ensures a.kind != Move && (Writes(a) ==> Normal(a.path)) {
        assert IsStep(a, s, d, options);
      }
      RunSucceedsExactly(Trees(s, d), plan);
    } else {
      var c :| c in d && c != "";
      RootDeletionStops(plan, s, d, options, c);
    }
  }

  lemma NoMoves(plan: seq<Action>, s: Snapshot, d: Snapshot, options: Options)
    requires Covers(plan, s, d, options)
    ensures forall b :: b in plan ==> b.kind != Move
  {
    forall b | b in plan ensures b.kind != Move {
      assert IsStep(b, s, d, options);
    }
  }

  predicate LeftBy(a: Action, s: Snapshot, d: Snapshot, after: Snapshot) {
    Find(after, a.path)
    == if a.kind == Skip then Find(d, a.path) else if a.kind == Delete then None else Find(s, a.path)
  }

  /** What a step leaves at its path. */
  lemma StepLeaves(plan: seq<Action>, s: Snapshot, d: Snapshot, options: Options, a: Action)
    requires Covers(plan, s, d, options) && RootIsSafe(s, d, options) && a in plan
    ensures LeftBy(a, s, d, Outcome(Trees(s, d), plan).remote)
  {
    MirrorIsCoherent(plan, s, d, options);
    if a.kind == Skip {
      NoMoves(plan, s, d, options);
      SkipDecides(Trees(s, d), plan, a, Remote);
    } else {
      StepDecides(Trees(s, d), plan, a);
      WrittenIsSource(a, s, d, options);
    }
  }

  lemma WrittenIsSource(a: Action, s: Snapshot, d: Snapshot, options: Options)
    requires IsStep(a, s, d, options) && a.kind != Skip
    ensures a.target == Remote && Left(a, a.path) == if a.kind == Delete then None else Find(s, a.path)
  {
  }

  predicate EndsAt(s: Snapshot, d: Snapshot, options: Options, after: Snapshot, p: Path) {
    && (p in s ==> p in after && after[p].typ == s[p].typ
                   && (after[p] == s[p] || (p in d && after[p] == d[p] && s[p].Equal(d[p]))))
    && (p !in s ==> Find(after, p) == if options.delete then None else Find(d, p))
  }

  lemma LeftIsEnd(a: Action, s: Snapshot, d: Snapshot, options: Options, after: Snapshot)
    requires IsStep(a, s, d, options) && LeftBy(a, s, d, after)
    ensures EndsAt(s, d, options, after, a.path)
  {
  }

  lemma MirroredAt(plan: seq<Action>, s: Snapshot, d: Snapshot, options: Options, p: Path)
    requires Covers(plan, s, d, options) && RootIsSafe(s, d, options)
    ensures EndsAt(s, d, options, Outcome(Trees(s, d), plan).remote, p)
  {
    if p in s || p in d {
      var a := StepAt(plan, s, d, options, p);
      StepLeaves(plan, s, d, options, a);
      LeftIsEnd(a, s, d, options, Outcome(Trees(s, d), plan).remote);
    } else {
      MirrorIsCoherent(plan, s, d, options);
      NoMoves(plan, s, d, options);
      forall b | b in plan ensures !Touches(b, Remote, p) {
        assert IsStep(b, s, d, options);
      }
      UntouchedPath(Trees(s, d), plan, Remote, p);
    }
  }

  /** A kept destination path keeps its directory. */
  lemma KeptParent(plan: seq<Action>, s: Snapshot, d: Snapshot, options: Options, p: Path)
    requires Covers(plan, s, d, options) && !options.delete
    requires p in d && p !in s && p != "" && Parent(p) in s
    ensures s[Parent(p)].typ == Directory
  {
    var q := StepAt(plan, s, d, options, Parent(p));
  }

  lemma CoveredKeepsShape(plan: seq<Action>, s: Snapshot, d: Snapshot, options: Options)
    requires Covers(plan, s, d, options) && RootIsSafe(s, d, options)
    ensures ParentClosed(Outcome(Trees(s, d), plan).remote)
  {
    var after := Outcome(Trees(s, d), plan).remote;
    forall p | p in after && p != "" ensures Parent(p) in after && after[Parent(p)].typ == Directory {
      MirroredAt(plan, s, d, options, p);
      MirroredAt(plan, s, d, options, Parent(p));
      if p !in s && Parent(p) in s {
        KeptParent(plan, s, d, options, p);
      }
    }
  }

  // ----- The plan Build makes

  ghost function RunnablePlan(s: Snapshot, d: Snapshot, previous: Option<Baseline>, options: Options): seq<Action> {
    AimedSteps(MirrorPlan(s, d, previous, options))
  }

  /** The destination once every step has had its effect. */
  ghost function Mirrored(s: Snapshot, d: Snapshot, previous: Option<Baseline>, options: Options): Snapshot {
    Outcome(Trees(s, d), RunnablePlan(s, d, previous, options)).remote
  }

  /** A conflict-free plan for two scanned trees. */
  ghost predicate Agreed(s: Snapshot, d: Snapshot, previous: Option<Baseline>, options: Options) {
    && Scanned(s) && Scanned(d) && ParentClosed(s) && ParentClosed(d)
    && forall a :: a in MirrorPlan(s, d, previous, options) ==> a.kind != Conflict
  }

  lemma AimedOrder(plan: seq<Action>)
    requires DistinctPaths(plan) && Ordered(plan)
    ensures DistinctPaths(AimedSteps(plan)) && Ordered(AimedSteps(plan))
  {
    var aimed := AimedSteps(plan);
    forall i, j | 0 <= i < j < |plan| ensures !Before(aimed[j], aimed[i]) {
      assert !Before(plan[j], plan[i]);
    }
  }

  lemma AimedHasStep(plan: seq<Action>, p: Path)
    requires HasStep(plan, p)
    ensures HasStep(AimedSteps(plan), p)
  {
    var a :| a in plan && a.path == p;
    var k :| 0 <= k < |plan| && plan[k] == a;
    assert AimedSteps(plan)[k].path == p;
    assert AimedSteps(plan)[k] in AimedSteps(plan);
  }

  /** A member of the runnable plan is a step. */
  lemma RunnableIsStep(s: Snapshot, d: Snapshot, previous: Option<Baseline>, options: Options, b: Action)
    requires Agreed(s, d, previous, options) && b in RunnablePlan(s, d, previous, options)
    ensures IsStep(b, s, d, options)
  {
    var a := AimedFrom(MirrorPlan(s, d, previous, options), b);
    MirrorMembers(s, d, previous, options);
    PlanAtIsSound(a.path, s, d, previous, options);
    AimedIsStep(a, s, d, options);
  }

  lemma AimedFrom(plan: seq<Action>, b: Action) returns (a: Action)
    requires b in AimedSteps(plan)
    ensures a in plan && b == Aimed(a)
  {
    var k :| 0 <= k < |plan| && AimedSteps(plan)[k] == b;
    a := plan[k];
  }

  lemma RunnableHasStep(s: Snapshot, d: Snapshot, previous: Option<Baseline>, options: Options, p: Path)
    requires Scanned(s) && Scanned(d) && (p in s || p in d)
    ensures HasStep(RunnablePlan(s, d, previous, options), p)
  {
    MirrorMembers(s, d, previous, options);
    PlanAtIsSound(p, s, d, previous, options);
    assert HasStep(MirrorPlan(s, d, previous, options), p);
    AimedHasStep(MirrorPlan(s, d, previous, options), p);
  }

  lemma PlanCovers(s: Snapshot, d: Snapshot, previous: Option<Baseline>, options: Options)
    requires Agreed(s, d, previous, options)
    ensures Covers(RunnablePlan(s, d, previous, options), s, d, options)
  {
    var aimed := RunnablePlan(s, d, previous, options);
    MirrorMembers(s, d, previous, options);
    AimedOrder(MirrorPlan(s, d, previous, options));
    forall b | b in aimed ensures IsStep(b, s, d, options) {
      RunnableIsStep(s, d, previous, options, b);
    }
    forall p | p in s || p in d ensures HasStep(aimed, p) {
      RunnableHasStep(s, d, previous, options, p);
    }
  }

  lemma AimedIsStep(a: Action, s: Snapshot, d: Snapshot, options: Options)
    requires Sound(a, s, d, options) && a.kind != Conflict && (a.path in s || a.path in d)
    ensures IsStep(Aimed(a), s, d, options)
  {
  }

  /** Executable order of a mirror run: every step is safe in plan order exactly
      when the plan does not delete the destination root before its contents,
      which it does when nothing of the source passes the filters. */
  lemma MirrorRuns(s: Snapshot, d: Snapshot, previous: Option<Baseline>, options: Options)
    requires Agreed(s, d, previous, options)
    ensures var plan := RunnablePlan(s, d, previous, options);
            if RootIsSafe(s, d, options)
            then Run(Trees(s, d), plan) == Some(Outcome(Trees(s, d), plan))
            else Run(Trees(s, d), plan) == None
  {
    PlanCovers(s, d, previous, options);
    CoveredRuns(RunnablePlan(s, d, previous, options), s, d, options);
  }

  /** The mirror: afterwards every source path is at the destination with the
      same content; of the destination-only paths exactly those survive that
      were not to be deleted. */
  lemma MirrorEqualsSource(s: Snapshot, d: Snapshot, previous: Option<Baseline>, options: Options)
    requires Agreed(s, d, previous, options) && RootIsSafe(s, d, options)
    requires Faithful(EntriesOf(s) + EntriesOf(d))
    ensures var after := Mirrored(s, d, previous, options);
            && (forall p :: p in s ==> p in after && SameContent(after[p], s[p]))
            && (forall p :: p !in s ==> Find(after, p) == if options.delete then None else Find(d, p))
            && (options.delete ==> after.Keys == s.Keys)
  {
    var after := Mirrored(s, d, previous, options);
    PlanCovers(s, d, previous, options);
    forall p ensures EndsAt(s, d, options, after, p) {
      MirroredAt(RunnablePlan(s, d, previous, options), s, d, options, p);
    }
    EndsEqualSource(s, d, options, after);
  }

  lemma EndsEqualSource(s: Snapshot, d: Snapshot, options: Options, after: Snapshot)
    requires forall p :: EndsAt(s, d, options, after, p)
    requires Faithful(EntriesOf(s) + EntriesOf(d))
    ensures forall p :: p in s ==> p in after && SameContent(after[p], s[p])
    ensures forall p :: p !in s ==> Find(after, p) == if options.delete then None else Find(d, p)
    ensures options.delete ==> after.Keys == s.Keys
  {
    forall p | p in s ensures p in after && SameContent(after[p], s[p]) {
      assert EndsAt(s, d, options, after, p);
      if p in d && s[p].Equal(d[p]) {
        assert s[p] in EntriesOf(s) && d[p] in EntriesOf(d);
      }
    }
    forall p | p !in s ensures Find(after, p) == if options.delete then None else Find(d, p) {
      assert EndsAt(s, d, options, after, p);
    }
  }

  lemma MirrorKeepsShape(s: Snapshot, d: Snapshot, previous: Option<Baseline>, options: Options)
    requires Agreed(s, d, previous, options) && RootIsSafe(s, d, options)
    ensures ParentClosed(Mirrored(s, d, previous, options))
  {
    PlanCovers(s, d, previous, options);
    CoveredKeepsShape(RunnablePlan(s, d, previous, options), s, d, options);
  }

  predicate Recognisable(a: Action) {
    a.kind == Transfer ==> a.source.Fingerprinted()
  }

  /** The second plan skips a path exactly when the first left it
      recognisable. */
  lemma ReplannedStep(s: Snapshot, d: Snapshot, after: Snapshot, next: Option<Baseline>, options: Options, a: Action)
    requires Scanned(s) && IsStep(a, s, d, options)
    requires LeftBy(a, s, d, after)
    ensures a.path in s || a.path in after ==>
              (PlanAt(a.path, s, after, next, options).kind == Skip <==> Recognisable(a))
    ensures a.kind == Transfer ==> a.path in s
  {
    EqualReflexivity(Lookup(s, a.path));
  }

  lemma CoveredIsQuiet(plan: seq<Action>, again: seq<Action>, s: Snapshot, d: Snapshot, options: Options,
                       next: Option<Baseline>)
    requires Covers(plan, s, d, options) && RootIsSafe(s, d, options)
    requires var after := Outcome(Trees(s, d), plan).remote;
             && (forall b :: b in again ==>
                   (b.path in s || b.path in after) && b == PlanAt(b.path, s, after, next, options))
             && (forall p :: p in s || p in after ==> PlanAt(p, s, after, next, options) in again)
    ensures (forall b :: b in again ==> b.kind == Skip) <==> (forall a :: a in plan ==> Recognisable(a))
  {
    var after := Outcome(Trees(s, d), plan).remote;
    forall a | a in plan
      ensures a.path in s || a.path in after ==>
                (PlanAt(a.path, s, after, next, options).kind == Skip <==> Recognisable(a))
      ensures a.kind == Transfer ==> a.path in s
    {
      StepLeaves(plan, s, d, options, a);
      ReplannedStep(s, d, after, next, options, a);
    }
    forall b | b in again ensures exists a :: a in plan && a.path == b.path {
      MirroredAt(plan, s, d, options, b.path);
      var a := StepAt(plan, s, d, options, b.path);
    }
  }

  /** Replanning after a mirror run gives only skips, whatever baseline is used,
      exactly when every transferred file carries a fingerprint. */
  lemma MirrorIsQuiet(s: Snapshot, d: Snapshot, previous: Option<Baseline>, options: Options,
                      next: Option<Baseline>)
    requires Agreed(s, d, previous, options) && RootIsSafe(s, d, options)
    ensures var after := Mirrored(s, d, previous, options);
            (forall b :: b in MirrorPlan(s, after, next, options) ==> b.kind == Skip) <==>
            (forall a :: a in RunnablePlan(s, d, previous, options) ==> Recognisable(a))
  {
    var after := Mirrored(s, d, previous, options);
    PlanCovers(s, d, previous, options);
    MirrorMembers(s, after, next, options);
    CoveredIsQuiet(RunnablePlan(s, d, previous, options), MirrorPlan(s, after, next, options), s, d, options, next);
  }
}
