/** What a bidirectional plan decides at each path, in terms of the two trees and
    the baseline alone. */
module Decisions {
  import opened Common
  import opened Paths
  import opened Entries
  import opened Actions
  import opened Executor
  import opened Bidirectional
  import opened Planning
  import opened Reconciliation
  import Renames

  /** The entry a side had when both last agreed, or none. */
  function Seen(previous: Option<Baseline>, p: Path, side: Side): Entry {
    if previous.None? || p !in previous.value then ZERO
    else if side == Local then previous.value[p].source
    else previous.value[p].destination
  }

  /** The side no longer has what it had then. */
  predicate Altered(ts: Trees, previous: Option<Baseline>, p: Path, side: Side) {
    var t := ts.On(side);
    if p in t then !t[p].Equal(Seen(previous, p, side)) else Seen(previous, p, side).Present()
  }

  predicate Same(ts: Trees, p: Path) {
    if p in ts.local then p in ts.remote && ts.local[p].Equal(ts.remote[p]) else p !in ts.remote
  }

  /** The sides differ and this one alone has changed. */
  predicate Leads(ts: Trees, previous: Option<Baseline>, p: Path, side: Side) {
    && side != NoSide && p != "" && !Same(ts, p)
    && Altered(ts, previous, p, side) && !Altered(ts, previous, p, Opposite(side))
  }

  /** The sides differ, and both have changed or neither has. */
  predicate Contested(ts: Trees, previous: Option<Baseline>, p: Path) {
    !Same(ts, p) && (Altered(ts, previous, p, Local) <==> Altered(ts, previous, p, Remote))
  }

  /** There is no deciding such a path, nor a root that no side has. */
  predicate Undecided(ts: Trees, previous: Option<Baseline>, p: Path) {
    if p == "" then "" !in ts.local && "" !in ts.remote else Contested(ts, previous, p)
  }

  /** Nothing to do. */
  predicate Agreeing(ts: Trees, p: Path) {
    if p == "" then "" in ts.local && "" in ts.remote else Same(ts, p)
  }

  /** What one side has, or its absence, is passed on to the other. */
  predicate PassesOn(a: Action, ts: Trees, side: Side) {
    var s, t := ts.On(side), ts.On(Opposite(side));
    && a.target == Opposite(side) && a.fromPath == ""
    && a.source == Lookup(s, a.path) && a.destination == Lookup(t, a.path)
    && (a.replace <==> a.path in s && a.path in t && s[a.path].typ != t[a.path].typ)
    && if a.path !in s then a.kind == Delete && a.path in t && a.typ == t[a.path].typ
       else a.typ == s[a.path].typ && a.kind == if s[a.path].typ == Directory then CreateDirectory else Transfer
  }

  /** Nothing is to be done; the step records both entries. */
  predicate Unaimed(a: Action, ts: Trees) {
    && a.target == NoSide && !a.replace && a.fromPath == ""
    && a.source == Lookup(ts.local, a.path) && a.destination == Lookup(ts.remote, a.path)
    && a.typ == if a.path in ts.local then a.source.typ else a.destination.typ
  }

  /** The decision table: a path on which the sides agree is skipped, a change on
      one side is passed on, and everything else is a conflict. The root is created
      where it is missing. */
  ghost predicate Decides(a: Action, ts: Trees, previous: Option<Baseline>) {
    if a.path == "" then
      if "" in ts.local && "" in ts.remote then a.kind == Skip && Unaimed(a, ts)
      else if "" in ts.local then PassesOn(a, ts, Local)
      else if "" in ts.remote then PassesOn(a, ts, Remote)
      else a.kind == Conflict && Unaimed(a, ts)
    else
      && (Same(ts, a.path) <==> a.kind == Skip)
      && (Contested(ts, previous, a.path) <==> a.kind == Conflict)
      && (Leads(ts, previous, a.path, Local) ==> PassesOn(a, ts, Local))
      && (Leads(ts, previous, a.path, Remote) ==> PassesOn(a, ts, Remote))
      && (a.kind == Skip || a.kind == Conflict ==> Unaimed(a, ts))
  }

  lemma AlteredIsChanged(ts: Trees, previous: Option<Baseline>, p: Path, side: Side)
    ensures Altered(ts, previous, p, side) <==> ChangedAt(p, ts.On(side), Saved(previous), side)
  {
  }

  lemma PropagationPasses(ts: Trees, p: Path, side: Side)
    requires side != NoSide && (p in ts.local || p in ts.remote) && Scanned(ts.local) && Scanned(ts.remote)
    ensures var s, t := ts.On(side), ts.On(Opposite(side));
            var a := PropagateChange(p, side, Lookup(s, p), p in s, Lookup(t, p), p in t);
            a.path == p && PassesOn(a, ts, side) && a.kind != Skip && a.kind != Conflict
  {
  }

  lemma RootDecision(ts: Trees, previous: Option<Baseline>)
    requires Scanned(ts.local) && Scanned(ts.remote)
    ensures PlanFor("", ts, previous).path == "" && Decides(PlanFor("", ts, previous), ts, previous)
  {
  }

  lemma AgreedDecision(ts: Trees, previous: Option<Baseline>, p: Path)
    requires p != "" && Same(ts, p)
    ensures PlanFor(p, ts, previous).path == p && Decides(PlanFor(p, ts, previous), ts, previous)
  {
  }

  /** The first table: no record of the path. */
  lemma FirstDecision(ts: Trees, previous: Option<Baseline>, p: Path)
    requires Scanned(ts.local) && Scanned(ts.remote) && p != "" && !Same(ts, p)
    requires previous.None? || p !in previous.value
    ensures PlanFor(p, ts, previous).path == p && Decides(PlanFor(p, ts, previous), ts, previous)
  {
    PropagationPasses(ts, p, Local);
    PropagationPasses(ts, p, Remote);
  }

  lemma NextDecision(ts: Trees, previous: Option<Baseline>, p: Path)
    requires Scanned(ts.local) && Scanned(ts.remote) && p != "" && !Same(ts, p)
    requires previous.Some? && p in previous.value
    ensures PlanFor(p, ts, previous).path == p && Decides(PlanFor(p, ts, previous), ts, previous)
  {
    PropagationPasses(ts, p, Local);
    PropagationPasses(ts, p, Remote);
  }

  /** The table, path by path, with a record or without. */
  lemma DecisionExactly(ts: Trees, previous: Option<Baseline>, p: Path)
    requires Scanned(ts.local) && Scanned(ts.remote)
    ensures PlanFor(p, ts, previous).path == p && Decides(PlanFor(p, ts, previous), ts, previous)
  {
    if p == "" {
      RootDecision(ts, previous);
    } else if Same(ts, p) {
      AgreedDecision(ts, previous, p);
    } else if previous.None? || p !in previous.value {
      FirstDecision(ts, previous, p);
    } else {
      NextDecision(ts, previous, p);
    }
  }

  // ----- Protection

  /** The leading side removes a directory, or puts a file in its place, while
      something below it has changed on the other side. */
  ghost predicate Overrides(ts: Trees, previous: Option<Baseline>, p: Path, side: Side) {
    var t := ts.On(Opposite(side));
    && Leads(ts, previous, p, side) && p in t && t[p].typ == Directory
    && exists c :: (c in t || (previous.Some? && c in previous.value)) && HasPrefix(c, p)
                   && Altered(ts, previous, c, Opposite(side))
  }

  ghost predicate Overridden(ts: Trees, previous: Option<Baseline>, p: Path) {
    Overrides(ts, previous, p, Local) || Overrides(ts, previous, p, Remote)
  }

  /** Below such a directory. */
  ghost predicate Shadowed(ts: Trees, previous: Option<Baseline>, p: Path) {
    exists q :: Overridden(ts, previous, q) && HasPrefix(p, q)
  }

  lemma DestructionExactly(a: Action, ts: Trees, previous: Option<Baseline>)
    requires Scanned(ts.local) && Scanned(ts.remote) && Decides(a, ts, previous)
    ensures DestructiveDirectory(a) <==>
              || (Leads(ts, previous, a.path, Local) && a.target == Remote
                  && a.path in ts.remote && ts.remote[a.path].typ == Directory)
              || (Leads(ts, previous, a.path, Remote) && a.target == Local
                  && a.path in ts.local && ts.local[a.path].typ == Directory)
  {
  }

  lemma SubtreeExactly(ts: Trees, previous: Option<Baseline>, p: Path, side: Side)
    requires side != NoSide && previous.Some?
    ensures SubtreeChanged(p, ts.On(side), previous.value, side) <==>
              exists c :: (c in ts.On(side) || c in previous.value) && HasPrefix(c, p) && Altered(ts, previous, c, side)
  {
    var t, base := ts.On(side), previous.value;
    if c :| c in t.Keys + base.Keys && HasPrefix(c, p) && ChangedAt(c, t, base, side) {
      AlteredIsChanged(ts, previous, c, side);
    }
    if c :| (c in t || c in base) && HasPrefix(c, p) && Altered(ts, previous, c, side) {
      AlteredIsChanged(ts, previous, c, side);
      assert c in t.Keys + base.Keys;
    }
  }

  lemma EndangeredExactly(a: Action, ts: Trees, previous: Option<Baseline>)
    requires Scanned(ts.local) && Scanned(ts.remote) && Decides(a, ts, previous) && previous.Some?
    ensures Endangered(a, ts.local, ts.remote, previous.value) <==> Overridden(ts, previous, a.path)
  {
    DestructionExactly(a, ts, previous);
    SubtreeExactly(ts, previous, a.path, Local);
    SubtreeExactly(ts, previous, a.path, Remote);
  }

  /** Without a baseline nothing is overridden. */
  lemma NothingOverridden(ts: Trees, previous: Option<Baseline>, p: Path)
    requires previous.None?
    ensures !Overridden(ts, previous, p) && !Shadowed(ts, previous, p)
  {
  }

  // ----- Which inputs give a conflict-free plan

  /** Every path can be decided, and no change is lost with a directory. */
  ghost predicate Peaceful(ts: Trees, previous: Option<Baseline>) {
    && (forall p :: p in AllPaths(ts.local, ts.remote, previous) ==> !Undecided(ts, previous, p))
    && (forall p :: !Overridden(ts, previous, p))
  }

  lemma OverriddenIsListed(ts: Trees, previous: Option<Baseline>, p: Path)
    requires Overridden(ts, previous, p)
    ensures p in AllPaths(ts.local, ts.remote, previous) && p != ""
  {
  }

  lemma ConflictExactly(ts: Trees, previous: Option<Baseline>, p: Path)
    requires Scanned(ts.local) && Scanned(ts.remote)
    ensures PlanFor(p, ts, previous).kind == Conflict <==> Undecided(ts, previous, p)
  {
    DecisionExactly(ts, previous, p);
  }

  lemma PeacefulWhenFree(ts: Trees, previous: Option<Baseline>)
    requires Scanned(ts.local) && Scanned(ts.remote) && ConflictFree(Steps(ts, previous))
    ensures Peaceful(ts, previous)
  {
    ConflictFreeIsUnprotected(ts, previous);
    PlannedMembers(ts.local, ts.remote, previous);
    forall p | p in AllPaths(ts.local, ts.remote, previous)
      ensures PlanFor(p, ts, previous).kind != Conflict
    {
      assert PlanFor(p, ts, previous) in Planned(ts.local, ts.remote, previous);
    }
    forall p | p in AllPaths(ts.local, ts.remote, previous)
      ensures !Undecided(ts, previous, p)
    {
      ConflictExactly(ts, previous, p);
    }
    forall p ensures !Overridden(ts, previous, p) {
      if Overridden(ts, previous, p) { OverriddenIsEndangered(ts, previous, p); }
    }
  }

  lemma OverriddenIsEndangered(ts: Trees, previous: Option<Baseline>, p: Path)
    requires Scanned(ts.local) && Scanned(ts.remote) && Overridden(ts, previous, p)
    ensures previous.Some? && PlanFor(p, ts, previous) in Planned(ts.local, ts.remote, previous)
    ensures Endangered(PlanFor(p, ts, previous), ts.local, ts.remote, previous.value)
  {
    if previous.None? { NothingOverridden(ts, previous, p); }
    OverriddenIsListed(ts, previous, p);
    PlannedMembers(ts.local, ts.remote, previous);
    DecisionExactly(ts, previous, p);
    EndangeredExactly(PlanFor(p, ts, previous), ts, previous);
  }

  lemma FreeWhenPeaceful(ts: Trees, previous: Option<Baseline>)
    requires Scanned(ts.local) && Scanned(ts.remote) && Peaceful(ts, previous)
    ensures ConflictFree(Steps(ts, previous))
  {
    PlannedMembers(ts.local, ts.remote, previous);
    forall p | p in AllPaths(ts.local, ts.remote, previous)
      ensures PlanFor(p, ts, previous).kind != Conflict
      ensures previous.Some? ==> !Endangered(PlanFor(p, ts, previous), ts.local, ts.remote, previous.value)
    {
      ConflictExactly(ts, previous, p);
      DecisionExactly(ts, previous, p);
      if previous.Some? { EndangeredExactly(PlanFor(p, ts, previous), ts, previous); }
    }
    if previous.Some? {
      Renames.PeacefulStaysConflictFree(ts, previous);
    }
  }

  /** A plan is free of conflicts exactly when at every path the sides agree or
      one of them alone has changed, and no directory is removed or replaced over
      something that has changed below it. */
  lemma ConflictFreeExactly(ts: Trees, previous: Option<Baseline>)
    requires WellFormed(ts)
    ensures ConflictFreePlan(ts, previous) <==> Peaceful(ts, previous)
  {
    SortedIsSort(Steps(ts, previous));
    if ConflictFree(Steps(ts, previous)) { PeacefulWhenFree(ts, previous); }
    if Peaceful(ts, previous) { FreeWhenPeaceful(ts, previous); }
  }

  lemma ShadowExactly(ts: Trees, previous: Option<Baseline>, p: Path)
    requires Scanned(ts.local) && Scanned(ts.remote) && previous.Some?
    ensures BelowConflict(p, Planned(ts.local, ts.remote, previous), ts.local, ts.remote, previous.value)
            <==> Shadowed(ts, previous, p)
  {
    var planned := Planned(ts.local, ts.remote, previous);
    PlannedMembers(ts.local, ts.remote, previous);
    if a :| a in planned && Endangered(a, ts.local, ts.remote, previous.value) && IsDescendant(p, a.path) {
      DecisionExactly(ts, previous, a.path);
      EndangeredExactly(a, ts, previous);
      OverriddenIsListed(ts, previous, a.path);
      assert HasPrefix(p, a.path);
    }
    if q :| Overridden(ts, previous, q) && HasPrefix(p, q) {
      OverriddenIsListed(ts, previous, q);
      OverriddenIsEndangered(ts, previous, q);
      DecisionExactly(ts, previous, q);
      assert IsDescendant(p, q);
    }
  }

  /** What protection makes of the step decided for a path. */
  ghost predicate Guards(b: Action, a: Action, ts: Trees, previous: Option<Baseline>) {
    if Overridden(ts, previous, a.path) then b == a.(kind := Conflict, target := NoSide, replace := false)
    else if Shadowed(ts, previous, a.path) && a.kind != Conflict
    then b == a.(kind := Skip, target := NoSide, replace := false)
    else b == a
  }

  lemma ProtectedIsGuarded(a: Action, actions: seq<Action>, ts: Trees, previous: Option<Baseline>)
    requires previous.Some?
    requires Endangered(a, ts.local, ts.remote, previous.value) <==> Overridden(ts, previous, a.path)
    requires BelowConflict(a.path, actions, ts.local, ts.remote, previous.value) <==> Shadowed(ts, previous, a.path)
    ensures Guards(ProtectedAction(a, actions, ts.local, ts.remote, previous.value), a, ts, previous)
  {
  }

  lemma ProtectionExactly(ts: Trees, previous: Option<Baseline>, k: nat)
    requires Scanned(ts.local) && Scanned(ts.remote) && k < |Planned(ts.local, ts.remote, previous)|
    ensures var p, q := Planned(ts.local, ts.remote, previous), Shielded(ts, previous);
            && |q| == |p| && Guards(q[k], p[k], ts, previous)
            && q[k].path == p[k].path && Decides(p[k], ts, previous)
            && p[k].path in AllPaths(ts.local, ts.remote, previous)
  {
    var p := Planned(ts.local, ts.remote, previous);
    PlannedMembers(ts.local, ts.remote, previous);
    assert p[k] in p;
    DecisionExactly(ts, previous, p[k].path);
    if previous.None? {
      NothingOverridden(ts, previous, p[k].path);
    } else {
      EndangeredExactly(p[k], ts, previous);
      ShadowExactly(ts, previous, p[k].path);
      ProtectedIsGuarded(p[k], p, ts, previous);
    }
  }

  // ----- Renames

  /** A file that has appeared on one side. */
  ghost predicate Appeared(ts: Trees, previous: Option<Baseline>, p: Path, side: Side) {
    && Leads(ts, previous, p, side) && p in ts.On(side) && ts.On(side)[p].typ == File
    && p !in ts.On(Opposite(side)) && !Shadowed(ts, previous, p)
  }

  /** A file that has vanished from one side and is as it was on the other. */
  ghost predicate Vanished(ts: Trees, previous: Option<Baseline>, p: Path, side: Side) {
    && Leads(ts, previous, p, side) && p !in ts.On(side)
    && p in ts.On(Opposite(side)) && ts.On(Opposite(side))[p].typ == File && !Shadowed(ts, previous, p)
  }

  /** What has appeared is what that same side had at the vanished path. */
  ghost predicate Alike(ts: Trees, previous: Option<Baseline>, to: Path, from: Path, side: Side) {
    && Appeared(ts, previous, to, side) && Vanished(ts, previous, from, side)
    && ts.On(side)[to].Equal(Seen(previous, from, side))
  }

  /** Neither is like any other. */
  ghost predicate Renamed(ts: Trees, previous: Option<Baseline>, to: Path, from: Path, side: Side) {
    && Alike(ts, previous, to, from, side)
    && (forall other :: Alike(ts, previous, to, other, side) ==> other == from)
    && (forall other :: Alike(ts, previous, other, from, side) ==> other == to)
  }

  lemma AdditionExactly(b: Action, a: Action, ts: Trees, previous: Option<Baseline>, side: Side)
    requires Scanned(ts.local) && Scanned(ts.remote) && side != NoSide
    requires Decides(a, ts, previous) && Guards(b, a, ts, previous)
    ensures IsAddition(b, Opposite(side)) <==> Appeared(ts, previous, a.path, side)
    ensures IsAddition(b, Opposite(side)) ==> b == a && b.source == ts.On(side)[a.path] && a.path !in ts.On(b.target)
  {
    if Overridden(ts, previous, a.path) { OverriddenIsPresent(ts, previous, a.path); }
  }

  lemma OverriddenIsPresent(ts: Trees, previous: Option<Baseline>, p: Path)
    requires Overridden(ts, previous, p)
    ensures || (Leads(ts, previous, p, Local) && p in ts.remote && ts.remote[p].typ == Directory)
            || (Leads(ts, previous, p, Remote) && p in ts.local && ts.local[p].typ == Directory)
  {
  }

  lemma RemovalExactly(b: Action, a: Action, ts: Trees, previous: Option<Baseline>, side: Side)
    requires Scanned(ts.local) && Scanned(ts.remote) && side != NoSide && previous.Some?
    requires Decides(a, ts, previous) && Guards(b, a, ts, previous)
    ensures IsRemoval(b, Opposite(side), previous.value) <==> Vanished(ts, previous, a.path, side)
    ensures IsRemoval(b, Opposite(side), previous.value) ==>
              b == a && RemovedFingerprint(b, previous.value) == Seen(previous, a.path, side)
  {
    if Overridden(ts, previous, a.path) { OverriddenIsPresent(ts, previous, a.path); }
  }

  // ----- The finished plan

  /** The decided steps and what protection has made of them, one for each path. */
  ghost predicate Listed(q: seq<Action>, p: seq<Action>, ts: Trees, previous: Option<Baseline>) {
    && |q| == |p| && DistinctPaths(q)
    && (forall k :: 0 <= k < |q| ==>
          q[k].path == p[k].path && Decides(p[k], ts, previous) && Guards(q[k], p[k], ts, previous))
    && (forall path :: path in AllPaths(ts.local, ts.remote, previous) ==> HasPath(q, path))
  }

  ghost predicate HasPath(q: seq<Action>, path: Path) {
    exists k :: 0 <= k < |q| && q[k].path == path
  }

  lemma AlikeExactly(q: seq<Action>, p: seq<Action>, ts: Trees, previous: Option<Baseline>, i: nat, j: nat, side: Side)
    requires Scanned(ts.local) && Scanned(ts.remote) && side != NoSide && previous.Some?
    requires Listed(q, p, ts, previous) && i < |q| && j < |q|
    ensures Resembles(q, i, j, Opposite(side), previous.value) <==> Alike(ts, previous, q[i].path, q[j].path, side)
  {
    AdditionExactly(q[i], p[i], ts, previous, side);
    RemovalExactly(q[j], p[j], ts, previous, side);
  }

  lemma AllAlikeExactly(q: seq<Action>, p: seq<Action>, ts: Trees, previous: Option<Baseline>, side: Side)
    requires Scanned(ts.local) && Scanned(ts.remote) && side != NoSide && previous.Some? && Listed(q, p, ts, previous)
    ensures forall i, j :: 0 <= i < |q| && 0 <= j < |q| ==>
              (Resembles(q, i, j, Opposite(side), previous.value) <==> Alike(ts, previous, q[i].path, q[j].path, side))
  {
    forall i, j | 0 <= i < |q| && 0 <= j < |q|
      ensures Resembles(q, i, j, Opposite(side), previous.value) <==> Alike(ts, previous, q[i].path, q[j].path, side)
    {
      AlikeExactly(q, p, ts, previous, i, j, side);
    }
  }

  lemma AlikeIsListed(ts: Trees, previous: Option<Baseline>, to: Path, from: Path, side: Side)
    requires Alike(ts, previous, to, from, side)
    ensures to in AllPaths(ts.local, ts.remote, previous) && from in AllPaths(ts.local, ts.remote, previous)
    ensures to !in ts.On(Opposite(side))
  {
  }

  /** The steps resemble each other exactly as their paths do, and none is missing. */
  ghost predicate Resembling(q: seq<Action>, ts: Trees, previous: Option<Baseline>, side: Side)
    requires previous.Some?
  {
    && DistinctPaths(q)
    && (forall i, j :: 0 <= i < |q| && 0 <= j < |q| ==>
          (Resembles(q, i, j, Opposite(side), previous.value) <==> Alike(ts, previous, q[i].path, q[j].path, side)))
    && (forall to, from :: Alike(ts, previous, to, from, side) ==>
          HasPath(q, to) && HasPath(q, from) && to !in ts.On(Opposite(side)))
  }

  lemma AllResembling(q: seq<Action>, p: seq<Action>, ts: Trees, previous: Option<Baseline>, side: Side)
    requires Scanned(ts.local) && Scanned(ts.remote) && side != NoSide && previous.Some? && Listed(q, p, ts, previous)
    ensures Resembling(q, ts, previous, side)
  {
    AllAlikeExactly(q, p, ts, previous, side);
    forall to, from | Alike(ts, previous, to, from, side)
      ensures HasPath(q, to) && HasPath(q, from) && to !in ts.On(Opposite(side))
    {
      AlikeIsListed(ts, previous, to, from, side);
    }
  }

  lemma UniqueByPath(q: seq<Action>, ts: Trees, previous: Option<Baseline>, i: nat, j: nat, side: Side)
    requires previous.Some? && Resembling(q, ts, previous, side) && i < |q| && j < |q|
    requires IsRename(q, i, j, Opposite(side), ts.On(Opposite(side)), previous.value)
    ensures Renamed(ts, previous, q[i].path, q[j].path, side)
  {
    forall other | Alike(ts, previous, q[i].path, other, side) ensures other == q[j].path {
      var k :| 0 <= k < |q| && q[k].path == other;
    }
    forall other | Alike(ts, previous, other, q[j].path, side) ensures other == q[i].path {
      var k :| 0 <= k < |q| && q[k].path == other;
    }
  }

  lemma UniqueByIndex(q: seq<Action>, ts: Trees, previous: Option<Baseline>, i: nat, j: nat, side: Side)
    requires previous.Some? && Resembling(q, ts, previous, side) && i < |q| && j < |q|
    requires Renamed(ts, previous, q[i].path, q[j].path, side)
    ensures IsRename(q, i, j, Opposite(side), ts.On(Opposite(side)), previous.value)
  {
    forall k | Resembles(q, i, k, Opposite(side), previous.value) ensures k == j {
      assert Alike(ts, previous, q[i].path, q[k].path, side);
    }
    forall k | Resembles(q, k, j, Opposite(side), previous.value) ensures k == i {
      assert Alike(ts, previous, q[k].path, q[j].path, side);
    }
  }

  lemma RenamedExactly(q: seq<Action>, p: seq<Action>, ts: Trees, previous: Option<Baseline>, i: nat, j: nat,
                       side: Side)
    requires Scanned(ts.local) && Scanned(ts.remote) && side != NoSide && previous.Some?
    requires Listed(q, p, ts, previous) && i < |q| && j < |q|
    ensures IsRename(q, i, j, Opposite(side), ts.On(Opposite(side)), previous.value)
            <==> Renamed(ts, previous, q[i].path, q[j].path, side)
  {
    AllResembling(q, p, ts, previous, side);
    if IsRename(q, i, j, Opposite(side), ts.On(Opposite(side)), previous.value) {
      UniqueByPath(q, ts, previous, i, j, side);
    }
    if Renamed(ts, previous, q[i].path, q[j].path, side) {
      UniqueByIndex(q, ts, previous, i, j, side);
    }
  }

  /** What becomes of the step `a` decided for a path: half of a rename, or what
      protection makes of it. */
  ghost predicate Settled(b: Action, a: Action, ts: Trees, previous: Option<Baseline>) {
    && (forall from, side :: Renamed(ts, previous, a.path, from, side) ==>
          b == a.(kind := Move, fromPath := from, destination := Lookup(ts.On(Opposite(side)), from)))
    && (forall to, side :: Renamed(ts, previous, to, a.path, side) ==> b == a.(kind := Skip, target := NoSide))
    && (Unpaired(ts, previous, a.path) ==> Guards(b, a, ts, previous))
  }

  /** The path takes no part in a rename. */
  ghost predicate Unpaired(ts: Trees, previous: Option<Baseline>, p: Path) {
    && (forall from, side :: !Renamed(ts, previous, p, from, side))
    && (forall to, side :: !Renamed(ts, previous, to, p, side))
  }

  lemma PairExactly(q: seq<Action>, p: seq<Action>, ts: Trees, previous: Option<Baseline>, i: nat, j: nat)
    requires Scanned(ts.local) && Scanned(ts.remote) && previous.Some?
    requires Listed(q, p, ts, previous) && i < |q| && j < |q|
    ensures RenamePair(q, i, j, ts, previous.value)
            <==> exists side :: Renamed(ts, previous, q[i].path, q[j].path, side)
  {
    if RenamePair(q, i, j, ts, previous.value) {
      RenamedExactly(q, p, ts, previous, i, j, Opposite(q[i].target));
    }
    if side :| Renamed(ts, previous, q[i].path, q[j].path, side) {
      RenamedExactly(q, p, ts, previous, i, j, side);
    }
  }

  lemma RenamedIsPair(q: seq<Action>, p: seq<Action>, ts: Trees, previous: Option<Baseline>, to: Path, from: Path,
                      side: Side)
    returns (i: nat, j: nat)
    requires Scanned(ts.local) && Scanned(ts.remote) && previous.Some? && Listed(q, p, ts, previous)
    requires Renamed(ts, previous, to, from, side)
    ensures i < |q| && j < |q| && q[i].path == to && q[j].path == from && RenamePair(q, i, j, ts, previous.value)
    ensures q[i] == p[i] && q[j] == p[j] && p[j].destination == Lookup(ts.On(Opposite(side)), from)
  {
    AlikeIsListed(ts, previous, to, from, side);
    assert HasPath(q, to) && HasPath(q, from);
    i :| 0 <= i < |q| && q[i].path == to;
    j :| 0 <= j < |q| && q[j].path == from;
    PairExactly(q, p, ts, previous, i, j);
    RenamedExactly(q, p, ts, previous, i, j, side);
    AdditionExactly(q[i], p[i], ts, previous, side);
    RemovalExactly(q[j], p[j], ts, previous, side);
  }

  lemma SettledAt(q: seq<Action>, p: seq<Action>, ts: Trees, previous: Option<Baseline>, k: nat)
    requires Scanned(ts.local) && Scanned(ts.remote) && previous.Some? && Listed(q, p, ts, previous) && k < |q|
    ensures var u := WithMoves(q, ts.local, ts.remote, previous); |u| == |q| && Settled(u[k], p[k], ts, previous)
  {
    var u := WithMoves(q, ts.local, ts.remote, previous);
    forall from, side | Renamed(ts, previous, p[k].path, from, side)
      ensures u[k] == p[k].(kind := Move, fromPath := from, destination := Lookup(ts.On(Opposite(side)), from))
    {
      var i, j := RenamedIsPair(q, p, ts, previous, p[k].path, from, side);
      PairIsRewritten(q, i, j, ts, previous.value);
    }
    forall to, side | Renamed(ts, previous, to, p[k].path, side)
      ensures u[k] == p[k].(kind := Skip, target := NoSide)
    {
      var i, j := RenamedIsPair(q, p, ts, previous, to, p[k].path, side);
      PairIsRewritten(q, i, j, ts, previous.value);
    }
    if Unpaired(ts, previous, p[k].path) {
      forall j ensures !RenamePair(q, k, j, ts, previous.value) && !RenamePair(q, j, k, ts, previous.value) {
        if 0 <= j < |q| {
          PairExactly(q, p, ts, previous, k, j);
          PairExactly(q, p, ts, previous, j, k);
        }
      }
      UnpairedIsKept(q, k, ts, previous.value);
    }
  }

  lemma ProtectedIsListed(ts: Trees, previous: Option<Baseline>)
    requires Scanned(ts.local) && Scanned(ts.remote)
    ensures Listed(Shielded(ts, previous), Planned(ts.local, ts.remote, previous), ts, previous)
  {
    var p, q := Planned(ts.local, ts.remote, previous), Shielded(ts, previous);
    PlannedMembers(ts.local, ts.remote, previous);
    assert |q| == |p|;
    forall k | 0 <= k < |q|
      ensures q[k].path == p[k].path && Decides(p[k], ts, previous) && Guards(q[k], p[k], ts, previous)
    {
      ProtectionExactly(ts, previous, k);
    }
    forall path | path in AllPaths(ts.local, ts.remote, previous) ensures HasPath(q, path) {
      var a := PlanFor(path, ts, previous);
      DecisionExactly(ts, previous, path);
      assert a in p;
      var k :| 0 <= k < |p| && p[k] == a;
      assert q[k].path == path;
    }
  }

  lemma FirstIsSettled(b: Action, a: Action, ts: Trees, previous: Option<Baseline>)
    requires previous.None? && Guards(b, a, ts, previous)
    ensures Settled(b, a, ts, previous)
  {
  }

  lemma StepsSettled(ts: Trees, previous: Option<Baseline>)
    requires Scanned(ts.local) && Scanned(ts.remote)
    ensures var u, p := Steps(ts, previous), Planned(ts.local, ts.remote, previous);
            && |u| == |p|
            && forall k :: 0 <= k < |u| ==> Decides(p[k], ts, previous) && Settled(u[k], p[k], ts, previous)
  {
    var u, p, q := Steps(ts, previous), Planned(ts.local, ts.remote, previous), Shielded(ts, previous);
    ProtectedIsListed(ts, previous);
    if previous.None? {
      forall k | 0 <= k < |p| ensures Settled(u[k], p[k], ts, previous) {
        FirstIsSettled(u[k], p[k], ts, previous);
      }
    } else {
      assert |q| == 0 ==> |u| == 0;
      forall k | 0 <= k < |p| ensures |u| == |p| && Settled(u[k], p[k], ts, previous) {
        SettledAt(q, p, ts, previous, k);
      }
    }
  }

  lemma SettledPath(b: Action, a: Action, ts: Trees, previous: Option<Baseline>)
    requires Settled(b, a, ts, previous)
    ensures b.path == a.path
  {
    if from, side :| Renamed(ts, previous, a.path, from, side) {
    } else if to, side :| Renamed(ts, previous, to, a.path, side) {
    } else {
      assert Unpaired(ts, previous, a.path);
    }
  }

  /** The finished plan: every step is the one the table decides for its path, or
      what protection or a rename makes of that. */
  lemma FinishedExactly(ts: Trees, previous: Option<Baseline>, b: Action) returns (a: Action)
    requires Scanned(ts.local) && Scanned(ts.remote) && b in PlanOf(ts, previous)
    ensures a.path == b.path
    ensures b.path in ts.local || b.path in ts.remote || (previous.Some? && b.path in previous.value)
    ensures Decides(a, ts, previous) && Settled(b, a, ts, previous)
  {
    SortedIsSort(Steps(ts, previous));
    StepsSettled(ts, previous);
    PlannedMembers(ts.local, ts.remote, previous);
    var u, p := Steps(ts, previous), Planned(ts.local, ts.remote, previous);
    var k :| 0 <= k < |u| && u[k] == b;
    a := p[k];
    assert a in p;
    SettledPath(b, a, ts, previous);
  }

  lemma PathsSettled(u: seq<Action>, p: seq<Action>, ts: Trees, previous: Option<Baseline>)
    requires |u| == |p| && DistinctPaths(p)
    requires forall k :: 0 <= k < |u| ==> Settled(u[k], p[k], ts, previous)
    ensures DistinctPaths(u) && forall k :: 0 <= k < |u| ==> u[k].path == p[k].path
  {
    forall k | 0 <= k < |u| ensures u[k].path == p[k].path {
      SettledPath(u[k], p[k], ts, previous);
    }
  }

  /** One step for each path of the trees or the baseline. */
  lemma OneStepEach(ts: Trees, previous: Option<Baseline>, p: Path) returns (b: Action)
    requires Scanned(ts.local) && Scanned(ts.remote)
    requires p in ts.local || p in ts.remote || (previous.Some? && p in previous.value)
    ensures b in PlanOf(ts, previous) && b.path == p && DistinctPaths(PlanOf(ts, previous))
  {
    var u, planned := Steps(ts, previous), Planned(ts.local, ts.remote, previous);
    StepsSettled(ts, previous);
    PlannedMembers(ts.local, ts.remote, previous);
    PathsSettled(u, planned, ts, previous);
    PlanAtPath(p, ts.local, ts.remote, previous);
    assert PlanFor(p, ts, previous) in planned;
    var k :| 0 <= k < |planned| && planned[k] == PlanFor(p, ts, previous);
    b := u[k];
    SortedIsSort(u);
  }

  lemma RenamedIsUnprotected(ts: Trees, previous: Option<Baseline>, to: Path, from: Path, side: Side)
    requires Renamed(ts, previous, to, from, side)
    ensures !Overridden(ts, previous, to) && !Shadowed(ts, previous, to)
    ensures !Overridden(ts, previous, from) && !Shadowed(ts, previous, from)
  {
    if Overridden(ts, previous, to) { OverriddenIsPresent(ts, previous, to); }
    if Overridden(ts, previous, from) { OverriddenIsPresent(ts, previous, from); }
  }

  lemma RenamedStep(b: Action, a: Action, ts: Trees, previous: Option<Baseline>, to: Path, from: Path, side: Side)
    requires Decides(a, ts, previous) && Settled(b, a, ts, previous) && b.path == a.path
    requires Renamed(ts, previous, to, from, side) && (a.path == to || a.path == from)
    ensures b.kind == if a.path == to then Move else Skip
    ensures !Overridden(ts, previous, a.path) && !Shadowed(ts, previous, a.path) && !Undecided(ts, previous, a.path)
  {
    RenamedIsUnprotected(ts, previous, to, from, side);
  }

  lemma UnrenamedStep(b: Action, a: Action, ts: Trees, previous: Option<Baseline>)
    requires Decides(a, ts, previous) && Settled(b, a, ts, previous) && b.path == a.path
    requires Unpaired(ts, previous, a.path)
    ensures Overridden(ts, previous, b.path) ==> b.kind == Conflict && b.target == NoSide
    ensures Shadowed(ts, previous, b.path) ==> (b.kind == Skip || b.kind == Conflict) && b.target == NoSide
    ensures b.kind == Conflict <==> Overridden(ts, previous, b.path) || Undecided(ts, previous, b.path)
    ensures b.kind == Skip ==> Agreeing(ts, b.path) || Shadowed(ts, previous, b.path)
  {
  }

  /** A change below a directory that is to be removed or replaced is reported as a
      conflict at the directory, and below it nothing is done. Conflicts have one of
      two reasons, skips one of three. */
  lemma ProtectedExactly(ts: Trees, previous: Option<Baseline>, b: Action)
    requires Scanned(ts.local) && Scanned(ts.remote) && b in PlanOf(ts, previous)
    ensures Overridden(ts, previous, b.path) ==> b.kind == Conflict && b.target == NoSide
    ensures Shadowed(ts, previous, b.path) ==> (b.kind == Skip || b.kind == Conflict) && b.target == NoSide
    ensures b.kind == Conflict <==> Overridden(ts, previous, b.path) || Undecided(ts, previous, b.path)
    ensures b.kind == Skip ==>
              || Agreeing(ts, b.path) || Shadowed(ts, previous, b.path)
              || exists to, side :: Renamed(ts, previous, to, b.path, side)
  {
    var a := FinishedExactly(ts, previous, b);
    if from, side :| Renamed(ts, previous, a.path, from, side) {
      RenamedStep(b, a, ts, previous, a.path, from, side);
    } else if to, side :| Renamed(ts, previous, to, a.path, side) {
      RenamedStep(b, a, ts, previous, to, a.path, side);
    } else {
      UnrenamedStep(b, a, ts, previous);
    }
  }

  /** The plan moves `from` to `to` on one side exactly when the other side has a new
      file there that equals what it last had at the vanished path, and neither is
      like any other. */
  lemma MovesExactly(ts: Trees, previous: Option<Baseline>, to: Path, from: Path, side: Side)
    requires Scanned(ts.local) && Scanned(ts.remote) && side != NoSide
    ensures (exists m :: m in PlanOf(ts, previous) && m.kind == Move && m.target == Opposite(side)
                         && m.path == to && m.fromPath == from)
            <==> Renamed(ts, previous, to, from, side)
  {
    if m :| m in PlanOf(ts, previous) && m.kind == Move && m.target == Opposite(side)
            && m.path == to && m.fromPath == from {
      var a := FinishedExactly(ts, previous, m);
      MoveIsRenamed(ts, previous, m, a, side);
    }
    if Renamed(ts, previous, to, from, side) {
      AlikeIsListed(ts, previous, to, from, side);
      var m := OneStepEach(ts, previous, to);
      var a := FinishedExactly(ts, previous, m);
      assert m == a.(kind := Move, fromPath := from, destination := Lookup(ts.On(Opposite(side)), from));
    }
  }

  lemma RenamedAwayIsSkipped(b: Action, a: Action, ts: Trees, previous: Option<Baseline>, to: Path, side: Side)
    requires Settled(b, a, ts, previous) && Renamed(ts, previous, to, a.path, side)
    ensures b.kind == Skip
  {
  }

  lemma MoveIsRenamed(ts: Trees, previous: Option<Baseline>, m: Action, a: Action, side: Side)
    requires Decides(a, ts, previous) && Settled(m, a, ts, previous) && m.path == a.path
    requires m.kind == Move && side != NoSide && m.target == Opposite(side)
    ensures Renamed(ts, previous, m.path, m.fromPath, side)
  {
    if f, other :| Renamed(ts, previous, a.path, f, other) {
      assert m == a.(kind := Move, fromPath := f, destination := Lookup(ts.On(Opposite(other)), f));
    } else if to, other :| Renamed(ts, previous, to, a.path, other) {
      RenamedAwayIsSkipped(m, a, ts, previous, to, other);
    } else {
      assert Unpaired(ts, previous, a.path);
    }
  }
}
