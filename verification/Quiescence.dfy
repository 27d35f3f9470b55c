/** Planning again after a run. */
module Quiescence {
  import opened Common
  import opened Paths
  import opened Entries
  import opened Actions
  import opened Executor
  import opened Bidirectional
  import opened Planning
  import opened Reconciliation

  function StateOf(source: Snapshot, destination: Snapshot): Baseline {
    map p | p in source.Keys + destination.Keys :: Record(Lookup(source, p), Lookup(destination, p))
  }

  /** The baseline saved after a successful reconciliation. */
  method NewState(source: Snapshot, destination: Snapshot) returns (entries: Baseline)
    ensures entries == StateOf(source, destination)
  {
    entries := map[];
    var paths := SortedPaths(source.Keys + destination.Keys);
    for i := 0 to |paths|
      invariant entries.Keys == Elements(paths[..i])
      invariant forall p :: p in entries ==> entries[p] == Record(Lookup(source, p), Lookup(destination, p))
    {
      NextElement(paths, i);
      entries := entries[paths[i] := Record(Lookup(source, paths[i]), Lookup(destination, paths[i]))];
    }
    assert paths[..|paths|] == paths;
  }

  lemma NextElement(paths: seq<Path>, i: nat)
    requires i < |paths|
    ensures Elements(paths[..i + 1]) == Elements(paths[..i]) + {paths[i]}
  {
    assert paths[..i + 1] == paths[..i] + [paths[i]];
  }

  predicate MatchAt(ts: Trees, p: Path) {
    EntriesMatch(Lookup(ts.local, p), p in ts.local, Lookup(ts.remote, p), p in ts.remote)
  }

  ghost predicate AllSkips(actions: seq<Action>) {
    forall a :: a in actions ==> a.kind == Skip
  }

  ghost predicate AllMatch(ts: Trees) {
    forall p :: p in ts.local.Keys + ts.remote.Keys ==> MatchAt(ts, p)
  }

  function Now(ts: Trees): Option<Baseline> {
    Some(StateOf(ts.local, ts.remote))
  }

  lemma SkipExactlyWhenMatching(ts: Trees, p: Path)
    requires Scanned(ts.local) && Scanned(ts.remote) && p in ts.local.Keys + ts.remote.Keys
    ensures PlanFor(p, ts, Now(ts)).kind == Skip <==> MatchAt(ts, p)
  {
    PlanAtIsSound(p, ts, Now(ts));
  }

  lemma NothingIsDeleted(ts: Trees, p: Path)
    requires Scanned(ts.local) && Scanned(ts.remote)
    ensures PlanFor(p, ts, Now(ts)).kind != Delete
  {
    PlanAtIsSound(p, ts, Now(ts));
    assert RecordOf(StateOf(ts.local, ts.remote), p) == Record(Lookup(ts.local, p), Lookup(ts.remote, p));
  }

  lemma SkipsStaySkips(ts: Trees)
    requires AllSkips(Planned(ts.local, ts.remote, Now(ts)))
    requires Scanned(ts.local) && Scanned(ts.remote)
    ensures AllSkips(Steps(ts, Now(ts)))
  {
    SkipsAreUnprotected(ts);
    SkipsAreUnpaired(Protected(Planned(ts.local, ts.remote, Now(ts)), ts.local, ts.remote, Now(ts)), ts,
                     StateOf(ts.local, ts.remote));
  }

  lemma SkipsAreUnprotected(ts: Trees)
    requires AllSkips(Planned(ts.local, ts.remote, Now(ts)))
    requires Scanned(ts.local) && Scanned(ts.remote)
    ensures AllSkips(Protected(Planned(ts.local, ts.remote, Now(ts)), ts.local, ts.remote, Now(ts)))
  {
    var plan := Planned(ts.local, ts.remote, Now(ts));
    PlannedMembers(ts.local, ts.remote, Now(ts));
    forall a | a in plan ensures !DestructiveDirectory(a) {
      PlanAtIsSound(a.path, ts, Now(ts));
    }
    var q := Protected(plan, ts.local, ts.remote, Now(ts));
    forall k | 0 <= k < |plan| ensures q[k].kind == Skip {
      assert plan[k] in plan;
    }
  }

  lemma SkipsAreUnpaired(q: seq<Action>, ts: Trees, base: Baseline)
    requires AllSkips(q)
    ensures AllSkips(WithMoves(q, ts.local, ts.remote, Some(base)))
  {
    forall k | 0 <= k < |q| ensures WithMoves(q, ts.local, ts.remote, Some(base))[k].kind == Skip {
      assert q[k] in q;
      UnpairedIsKept(q, k, ts, base);
    }
    if q == [] {
      assert |MovesOn(q, Local, ts.local, base)| == 0;
    }
  }

  lemma PlannedSurvives(ts: Trees)
    requires Scanned(ts.local) && Scanned(ts.remote)
    requires AllSkips(Steps(ts, Now(ts)))
    ensures AllSkips(Planned(ts.local, ts.remote, Now(ts)))
  {
    var p, base := Planned(ts.local, ts.remote, Now(ts)), StateOf(ts.local, ts.remote);
    ConflictFreeIsUnprotected(ts, Now(ts));
    PlannedMembers(ts.local, ts.remote, Now(ts));
    forall a | a in p ensures a.kind != Delete { NothingIsDeleted(ts, a.path); }
    NoDeletionNoMoves(p, ts, base);
  }

  lemma NoDeletionNoMoves(p: seq<Action>, ts: Trees, base: Baseline)
    requires forall a :: a in p ==> a.kind != Delete
    ensures WithMoves(p, ts.local, ts.remote, Some(base)) == p
  {
    var u := WithMoves(p, ts.local, ts.remote, Some(base));
    forall i, j ensures !RenamePair(p, i, j, ts, base) {
    }
    forall k | 0 <= k < |p| ensures |u| == |p| && u[k] == p[k] {
      UnpairedIsKept(p, k, ts, base);
    }
    if p == [] { assert |MovesOn(p, Local, ts.local, base)| == 0; }
  }

  /** Quiescence: with the baseline saved from the two trees as they are,
      planning again gives only skips exactly when the two entries of every
      path match. Equal sizes are enough to accept a transfer, but not here. */
  lemma QuietExactlyWhenMatching(ts: Trees)
    requires Scanned(ts.local) && Scanned(ts.remote)
    ensures AllSkips(PlanOf(ts, Now(ts))) <==> AllMatch(ts)
  {
    SortedIsSort(Steps(ts, Now(ts)));
    var planned := Planned(ts.local, ts.remote, Now(ts));
    PlannedMembers(ts.local, ts.remote, Now(ts));
    assert AllPaths(ts.local, ts.remote, Now(ts)) == ts.local.Keys + ts.remote.Keys;
    forall p | p in ts.local.Keys + ts.remote.Keys
      ensures PlanFor(p, ts, Now(ts)) in planned && (PlanFor(p, ts, Now(ts)).kind == Skip <==> MatchAt(ts, p))
    {
      SkipExactlyWhenMatching(ts, p);
    }
    if AllMatch(ts) {
      SkipsStaySkips(ts);
    }
    if AllSkips(PlanOf(ts, Now(ts))) {
      PlannedSurvives(ts);
    }
  }

  /** A run that ends in trees the verification accepts can still be followed
      by a conflict: two files of equal size whose fingerprints do not compare. */
  lemma ConvergedIsNotQuiet()
    ensures var l := Entry(File, 4, Parsed("2026-08-01T10:00:00Z", 1_785_578_400 * SECOND), "", "sha1:ab", []);
            var r := Entry(File, 4, Parsed("2026-08-01T11:00:00Z", 1_785_582_000 * SECOND), "e1", "", []);
            var root := Entry(Directory, 0, Missing, "", "", []);
            var ts := Trees(map["" := root, "f" := l], map["" := root, "f" := r]);
            l.Converged(r) && PlanFor("f", ts, Now(ts)).kind == Conflict
  {
  }

  /** What a step leaves at its path can be recognised by the next plan. */
  predicate Recognisable(a: Action) {
    && (a.kind == Transfer ==> a.source.Fingerprinted())
    && (a.kind == Move ==> if a.target == Remote then a.source.Equal(a.destination)
                           else a.destination.Equal(a.source))
  }

  lemma ScannedAfter(ts: Trees, previous: Option<Baseline>)
    requires ConflictFreePlan(ts, previous)
    ensures Scanned(Reconciled(ts, previous).local) && Scanned(Reconciled(ts, previous).remote)
  {
    var after := Reconciled(ts, previous);
    forall p | p in after.local.Keys + after.remote.Keys
      ensures p != "." && Normal(p)
      ensures p in after.local ==> after.local[p].Present() && (p == "" ==> after.local[p].typ == Directory)
      ensures p in after.remote ==> after.remote[p].Present() && (p == "" ==> after.remote[p].typ == Directory)
    {
      var e := EndingOf(ts, previous, p);
      EndingIsScanned(e, p, ts, after);
    }
  }

  lemma EndingIsScanned(e: Ending, p: Path, ts: Trees, after: Trees)
    requires WellFormed(ts) && EndsAs(e, p, ts, after) && (p in after.local || p in after.remote)
    ensures p != "." && Normal(p)
    ensures p in after.local ==> after.local[p].Present() && (p == "" ==> after.local[p].typ == Directory)
    ensures p in after.remote ==> after.remote[p].Present() && (p == "" ==> after.remote[p].typ == Directory)
  {
  }

  lemma WrittenMatches(ts: Trees, previous: Option<Baseline>, a: Action)
    requires ConflictFreePlan(ts, previous) && a in PlanOf(ts, previous) && Writes(a)
    ensures MatchAt(Reconciled(ts, previous), a.path) <==> Recognisable(a)
  {
    PlanMembers(ts, previous);
    WrittenAt(ts, previous, a);
    assert Recorded(ts, a);
    EqualReflexivity(a.source);
    FindMatches(Reconciled(ts, previous), a, ts);
  }

  lemma FindMatches(after: Trees, a: Action, ts: Trees)
    requires Writes(a) && Recorded(ts, a) && a.source.Present()
    requires Find(after.On(a.target), a.path) == Left(a, a.path)
    requires Find(after.On(Opposite(a.target)), a.path) == Find(ts.On(Opposite(a.target)), a.path)
    requires a.source.Equal(a.source) <==> a.source.Fingerprinted()
    ensures MatchAt(after, a.path) <==> Recognisable(a)
  {
  }

  lemma OthersMatch(ts: Trees, previous: Option<Baseline>, p: Path)
    requires ConflictFreePlan(ts, previous)
    requires forall a :: a in PlanOf(ts, previous) && Writes(a) ==> a.path != p
    ensures MatchAt(Reconciled(ts, previous), p)
  {
    PlanMembers(ts, previous);
    if p in AllPaths(ts.local, ts.remote, previous) {
      var s := StepFor(ts, previous, p);
      var o := Origin(ts, previous, s);
      var e := StepEnding(ts, previous, s, o);
      EndingMatches(e, p, s, o, ts, Reconciled(ts, previous));
    } else {
      NowhereAt(ts, previous, p, Local);
      NowhereAt(ts, previous, p, Remote);
    }
  }

  lemma EndingMatches(e: Ending, p: Path, s: Action, o: Action, ts: Trees, after: Trees)
    requires EndsAs(e, p, ts, after) && !e.Written?
    ensures MatchAt(after, p)
  {
  }

  lemma AllWrittenMatch(ts: Trees, previous: Option<Baseline>)
    requires ConflictFreePlan(ts, previous)
    ensures var after := Reconciled(ts, previous);
            forall a :: a in PlanOf(ts, previous) && Writes(a) ==>
              (MatchAt(after, a.path) <==> Recognisable(a)) && a.path in after.local.Keys + after.remote.Keys
  {
    forall a | a in PlanOf(ts, previous) && Writes(a)
      ensures MatchAt(Reconciled(ts, previous), a.path) <==> Recognisable(a)
      ensures a.path in Reconciled(ts, previous).local.Keys + Reconciled(ts, previous).remote.Keys
    {
      WrittenMatches(ts, previous, a);
      WrittenAt(ts, previous, a);
    }
  }

  lemma AllOthersMatch(ts: Trees, previous: Option<Baseline>)
    requires ConflictFreePlan(ts, previous)
    ensures forall p :: (forall a :: a in PlanOf(ts, previous) && Writes(a) ==> a.path != p) ==>
              MatchAt(Reconciled(ts, previous), p)
  {
    forall p | forall a :: a in PlanOf(ts, previous) && Writes(a) ==> a.path != p
      ensures MatchAt(Reconciled(ts, previous), p)
    {
      OthersMatch(ts, previous, p);
    }
  }

  lemma AllRecognisable(after: Trees, plan: seq<Action>)
    requires forall a :: a in plan && Writes(a) ==>
               (MatchAt(after, a.path) <==> Recognisable(a)) && a.path in after.local.Keys + after.remote.Keys
    requires forall p :: (forall a :: a in plan && Writes(a) ==> a.path != p) ==> MatchAt(after, p)
    ensures AllMatch(after) <==> forall a :: a in plan ==> Recognisable(a)
  {
  }

  /** After a conflict-free run whose results were saved, planning again gives
      only skips exactly when every transferred file carries a fingerprint and
      every renamed file can be compared across the sides. */
  lemma QuietAfterRun(ts: Trees, previous: Option<Baseline>)
    requires ConflictFreePlan(ts, previous)
    ensures var after := Reconciled(ts, previous);
            AllSkips(PlanOf(after, Now(after))) <==>
            forall a :: a in PlanOf(ts, previous) ==> Recognisable(a)
  {
    var after := Reconciled(ts, previous);
    ScannedAfter(ts, previous);
    QuietExactlyWhenMatching(after);
    AllWrittenMatch(ts, previous);
    AllOthersMatch(ts, previous);
    AllRecognisable(after, PlanOf(ts, previous));
  }
}
