/** What a bidirectional plan promises about the two trees it was made for. */
module Planning {
  import opened Common
  import opened Paths
  import opened Entries
  import opened Actions
  import opened Executor
  import opened Bidirectional

  ghost predicate ConflictFree(actions: seq<Action>) {
    forall a :: a in actions ==> a.kind != Conflict
  }

  function Saved(previous: Option<Baseline>): Baseline {
    if previous.Some? then previous.value else map[]
  }

  // ----- Planned, path by path

  lemma PlanAtPath(p: Path, local: Snapshot, remote: Snapshot, previous: Option<Baseline>)
    ensures PlanAt(p, local, remote, previous).path == p
  {
  }

  lemma PlanEachMembers(paths: seq<Path>, local: Snapshot, remote: Snapshot, previous: Option<Baseline>)
    requires StrictlySorted(paths)
    ensures var planned := PlanEach(paths, local, remote, previous);
            && |planned| == |paths| && DistinctPaths(planned)
            && forall k :: 0 <= k < |paths| ==>
                 planned[k] == PlanAt(paths[k], local, remote, previous) && planned[k].path == paths[k]
  {
    var planned := PlanEach(paths, local, remote, previous);
    forall k | 0 <= k < |paths| ensures planned[k].path == paths[k] {
      PlanAtPath(paths[k], local, remote, previous);
    }
    DistinctFromSorted(paths, planned);
  }

  lemma PlannedMembers(local: Snapshot, remote: Snapshot, previous: Option<Baseline>)
    ensures DistinctPaths(Planned(local, remote, previous))
    ensures forall a :: a in Planned(local, remote, previous) ==>
              a.path in AllPaths(local, remote, previous) && a == PlanAt(a.path, local, remote, previous)
    ensures forall p :: p in AllPaths(local, remote, previous) ==>
              PlanAt(p, local, remote, previous) in Planned(local, remote, previous)
  {
    var paths := SortedPaths(AllPaths(local, remote, previous));
    PlanEachMembers(paths, local, remote, previous);
    MembersByPath(paths, PlanEach(paths, local, remote, previous), local, remote, previous);
  }

  lemma MembersByPath(paths: seq<Path>, planned: seq<Action>, local: Snapshot, remote: Snapshot,
                      previous: Option<Baseline>)
    requires |planned| == |paths|
    requires forall k :: 0 <= k < |paths| ==>
               planned[k] == PlanAt(paths[k], local, remote, previous) && planned[k].path == paths[k]
    ensures forall a :: a in planned ==> a.path in Elements(paths) && a == PlanAt(a.path, local, remote, previous)
    ensures forall p :: p in Elements(paths) ==> PlanAt(p, local, remote, previous) in planned
  {
    forall p | p in Elements(paths) ensures PlanAt(p, local, remote, previous) in planned {
      var k :| 0 <= k < |paths| && paths[k] == p;
      assert planned[k] in planned;
    }
  }

  /** What the table decides for one path, in terms of the tree a step reads
      from and the tree it changes. */
  ghost predicate Sound(a: Action, ts: Trees, previous: Option<Baseline>) {
    var p, s, t := a.path, ts.On(Opposite(a.target)), ts.On(a.target);
    var base := Saved(previous);
    match a.kind
    case Skip =>
      a.target == NoSide && !a.replace
      && EntriesMatch(Lookup(ts.local, p), p in ts.local, Lookup(ts.remote, p), p in ts.remote)
    case Conflict => a.target == NoSide && !a.replace
    case Delete =>
      && a.target != NoSide && p != "" && p in base && p !in s && p in t && !a.replace
      && a.source == ZERO && a.destination == t[p] && a.typ == t[p].typ
      && !ChangedAt(p, t, base, a.target) && ChangedAt(p, s, base, Opposite(a.target))
    case Transfer =>
      && a.target != NoSide && p != "" && p in s && s[p].typ == File && a.typ == File
      && a.source == s[p] && a.destination == Lookup(t, p)
      && (a.replace <==> p in t && t[p].typ == Directory)
      && ChangedAt(p, s, base, Opposite(a.target))
      && (p in t ==> !ChangedAt(p, t, base, a.target))
    case CreateDirectory =>
      && a.target != NoSide && p in s && s[p].typ == Directory
      && a.source == s[p] && a.destination == Lookup(t, p)
      && (a.replace <==> p in t) && (p in t ==> t[p].typ == File)
      && (p != "" ==> ChangedAt(p, s, base, Opposite(a.target)))
      && (p in t ==> !ChangedAt(p, t, base, a.target))
    case _ => false
  }

  lemma PropagationIsSound(p: Path, changed: Side, ts: Trees, previous: Option<Baseline>)
    requires Scanned(ts.local) && Scanned(ts.remote) && changed != NoSide && p != ""
    requires var s, t := ts.On(changed), ts.On(Opposite(changed));
             var base := Saved(previous);
             && (p in s || p in t)
             && ChangedAt(p, s, base, changed)
             && (p in t ==> !ChangedAt(p, t, base, Opposite(changed)))
             && (p in s && p in t ==> s[p].typ == t[p].typ ==> s[p].typ == File)
    ensures var s, t := ts.On(changed), ts.On(Opposite(changed));
            Sound(PropagateChange(p, changed, Lookup(s, p), p in s, Lookup(t, p), p in t), ts, previous)
  {
  }

  lemma PlanAtIsSound(p: Path, ts: Trees, previous: Option<Baseline>)
    requires Scanned(ts.local) && Scanned(ts.remote)
    ensures Sound(PlanAt(p, ts.local, ts.remote, previous), ts, previous)
    ensures PlanAt(p, ts.local, ts.remote, previous).path == p
  {
    var local, remote := ts.local, ts.remote;
    if p != "" && !EntriesMatch(Lookup(local, p), p in local, Lookup(remote, p), p in remote) {
      assert p in local || p in remote;
      assert p in local && p in remote && local[p].typ == remote[p].typ ==> local[p].typ == File;
      var record := SavedRecord(previous, p);
      var saved := RecordOf(Saved(previous), p);
      assert record.Some? ==> record.value == saved;
      assert record.None? ==> saved == Record(ZERO, ZERO);
      var localChanged := ChangedAt(p, local, Saved(previous), Local);
      var remoteChanged := ChangedAt(p, remote, Saved(previous), Remote);
      if localChanged && (p in remote ==> !remoteChanged) { PropagationIsSound(p, Local, ts, previous); }
      if remoteChanged && (p in local ==> !localChanged) { PropagationIsSound(p, Remote, ts, previous); }
    }
  }

  // ----- Renames, path by path

  ghost predicate RenamePair(actions: seq<Action>, i: int, j: int, ts: Trees, base: Baseline) {
    && 0 <= i < |actions| && actions[i].target != NoSide
    && IsRename(actions, i, j, actions[i].target, ts.On(actions[i].target), base)
  }

  /** The first pass leaves the remote side's candidates alone. */
  lemma FirstPassKeepsRemote(actions: seq<Action>, ts: Trees, base: Baseline)
    ensures var m := MovesOn(actions, Local, ts.local, base);
            forall i, j :: IsRename(m, i, j, Remote, ts.remote, base)
                           <==> IsRename(actions, i, j, Remote, ts.remote, base)
  {
    var m := MovesOn(actions, Local, ts.local, base);
    forall k | 0 <= k < |actions|
      ensures m[k] == actions[k] || (actions[k].target == Local && m[k].target != Remote)
    {
      RenamedByCase(actions, k, |actions|, Local, ts.local, base);
    }
    forall i, j ensures Resembles(m, i, j, Remote, base) <==> Resembles(actions, i, j, Remote, base) {
    }
    forall i, j
      ensures IsRename(m, i, j, Remote, ts.remote, base) <==> IsRename(actions, i, j, Remote, ts.remote, base)
    {
      if IsRename(m, i, j, Remote, ts.remote, base) {
        assert m[i] == actions[i];
      }
    }
  }

  lemma FirstPassKeeps(actions: seq<Action>, k: nat, ts: Trees, base: Baseline)
    requires k < |actions| && actions[k].target != Local
    ensures MovesOn(actions, Local, ts.local, base)[k] == actions[k]
  {
    RenamedByCase(actions, k, |actions|, Local, ts.local, base);
  }

  lemma SecondPassKeeps(actions: seq<Action>, k: nat, ts: Trees, base: Baseline)
    requires k < |actions| && actions[k].target != Remote
    ensures MovesOn(actions, Remote, ts.remote, base)[k] == actions[k]
  {
    RenamedByCase(actions, k, |actions|, Remote, ts.remote, base);
  }

  /** A pair becomes a move and a skip. */
  lemma PairIsRewritten(actions: seq<Action>, i: nat, j: nat, ts: Trees, base: Baseline)
    requires RenamePair(actions, i, j, ts, base)
    ensures j < |actions|
    ensures var m := WithMoves(actions, ts.local, ts.remote, Some(base));
            |m| == |actions| && m[i] == AsMove(actions[i], actions[j]) && m[j] == AsRenamedAway(actions[j])
  {
    var m := MovesOn(actions, Local, ts.local, base);
    if actions[i].target == Local {
      RenamedByCase(actions, i, |actions|, Local, ts.local, base);
      RenamedByCase(actions, j, |actions|, Local, ts.local, base);
      SecondPassKeeps(m, i, ts, base);
      SecondPassKeeps(m, j, ts, base);
    } else {
      FirstPassKeeps(actions, i, ts, base);
      FirstPassKeeps(actions, j, ts, base);
      FirstPassKeepsRemote(actions, ts, base);
      RenamedByCase(m, i, |m|, Remote, ts.remote, base);
      RenamedByCase(m, j, |m|, Remote, ts.remote, base);
    }
  }

  /** Everything outside the pairs is left alone. */
  lemma UnpairedIsKept(actions: seq<Action>, k: nat, ts: Trees, base: Baseline)
    requires k < |actions|
    requires forall j :: !RenamePair(actions, k, j, ts, base)
    requires forall i :: !RenamePair(actions, i, k, ts, base)
    ensures var m := WithMoves(actions, ts.local, ts.remote, Some(base));
            |m| == |actions| && m[k] == actions[k]
  {
    var m := MovesOn(actions, Local, ts.local, base);
    forall i, j | IsRename(actions, i, j, Local, ts.local, base)
                  || IsRename(actions, i, j, Remote, ts.remote, base)
      ensures RenamePair(actions, i, j, ts, base)
    {
    }
    RenamedByCase(actions, k, |actions|, Local, ts.local, base);
    FirstPassKeepsRemote(actions, ts, base);
    RenamedByCase(m, k, |m|, Remote, ts.remote, base);
  }

  // ----- The unordered plan, path by path

  ghost function Shielded(ts: Trees, previous: Option<Baseline>): seq<Action> {
    Protected(Planned(ts.local, ts.remote, previous), ts.local, ts.remote, previous)
  }

  /** After protection an action is the planned one and harmless, or a conflict,
      or a skip. */
  lemma ShieldedCases(ts: Trees, previous: Option<Baseline>, k: nat)
    requires k < |Planned(ts.local, ts.remote, previous)|
    ensures var p, q := Planned(ts.local, ts.remote, previous), Shielded(ts, previous);
            && |q| == |p| && q[k].path == p[k].path
            && (q[k].kind != Conflict && q[k].kind != Skip ==> q[k] == p[k])
            && (q[k].kind != Conflict && q[k].kind != Skip && previous.Some? ==>
                  !Endangered(p[k], ts.local, ts.remote, previous.value))
  {
  }

  /** A conflict-free plan was never protected. */
  lemma ConflictFreeIsUnprotected(ts: Trees, previous: Option<Baseline>)
    requires ConflictFree(Unordered(ts.local, ts.remote, previous))
    ensures ConflictFree(Planned(ts.local, ts.remote, previous))
    ensures Shielded(ts, previous) == Planned(ts.local, ts.remote, previous)
    ensures previous.Some? ==> forall a :: a in Planned(ts.local, ts.remote, previous) ==>
              !Endangered(a, ts.local, ts.remote, previous.value)
  {
    var p, q := Planned(ts.local, ts.remote, previous), Shielded(ts, previous);
    var u := Unordered(ts.local, ts.remote, previous);
    if previous.None? {
      assert p == u;
    } else {
      forall k | 0 <= k < |q| ensures q[k].kind != Conflict {
        ConflictsSurvive(q, k, ts, previous.value);
        assert k < |u| && u[k] in u;
      }
      forall k | 0 <= k < |p| ensures p[k].kind != Conflict && !Endangered(p[k], ts.local, ts.remote, previous.value) {
        assert q[k].kind != Conflict;
      }
      forall a | a in p ensures !Endangered(a, ts.local, ts.remote, previous.value) {
        var k :| 0 <= k < |p| && p[k] == a;
      }
      assert q == p;
    }
  }

  lemma ConflictsSurvive(actions: seq<Action>, k: nat, ts: Trees, base: Baseline)
    requires k < |actions|
    ensures var m := WithMoves(actions, ts.local, ts.remote, Some(base));
            |m| == |actions| && (actions[k].kind == Conflict ==> m[k].kind == Conflict)
  {
    if actions[k].kind == Conflict {
      UnpairedIsKept(actions, k, ts, base);
    }
  }

  ghost function PlanFor(p: Path, ts: Trees, previous: Option<Baseline>): Action {
    PlanAt(p, ts.local, ts.remote, previous)
  }

  ghost function Steps(ts: Trees, previous: Option<Baseline>): seq<Action> {
    Unordered(ts.local, ts.remote, previous)
  }

  /** The plan renames the file at `from` to `to` on the side both steps
      target. */
  ghost predicate RenameOf(ts: Trees, previous: Option<Baseline>, to: Path, from: Path) {
    var planned := Planned(ts.local, ts.remote, previous);
    previous.Some? && exists i, j :: RenamePair(planned, i, j, ts, previous.value)
                                     && planned[i].path == to && planned[j].path == from
  }

  /** Every step of a conflict-free plan is the planned one, or a rename, or
      the deletion a rename consumed. */
  ghost predicate HasFate(a: Action, ts: Trees, previous: Option<Baseline>) {
    var p := PlanFor(a.path, ts, previous);
    || a == p
    || (exists f :: RenameOf(ts, previous, a.path, f) && a == AsMove(p, PlanFor(f, ts, previous)))
    || (exists t :: RenameOf(ts, previous, t, a.path) && a == AsRenamedAway(p))
  }

  lemma StepPaths(ts: Trees, previous: Option<Baseline>)
    requires ConflictFree(Steps(ts, previous))
    ensures var u, p := Steps(ts, previous), Planned(ts.local, ts.remote, previous);
            |u| == |p| && DistinctPaths(u) && forall k :: 0 <= k < |u| ==> u[k].path == p[k].path
  {
    var p := Planned(ts.local, ts.remote, previous);
    ConflictFreeIsUnprotected(ts, previous);
    PlannedMembers(ts.local, ts.remote, previous);
    if previous.Some? {
      forall k | 0 <= k < |p|
        ensures Steps(ts, previous)[k].path == p[k].path && |Steps(ts, previous)| == |p|
      {
        PathIsKept(p, k, ts, previous.value);
      }
    }
  }

  lemma PathIsKept(actions: seq<Action>, k: nat, ts: Trees, base: Baseline)
    requires k < |actions|
    ensures var m := WithMoves(actions, ts.local, ts.remote, Some(base));
            |m| == |actions| && m[k].path == actions[k].path
  {
    if j :| RenamePair(actions, k, j, ts, base) {
      PairIsRewritten(actions, k, j, ts, base);
    } else if i :| RenamePair(actions, i, k, ts, base) {
      PairIsRewritten(actions, i, k, ts, base);
    } else {
      UnpairedIsKept(actions, k, ts, base);
    }
  }

  lemma StepHasFate(ts: Trees, previous: Option<Baseline>, a: Action)
    requires ConflictFree(Steps(ts, previous)) && a in Steps(ts, previous)
    ensures a.path in AllPaths(ts.local, ts.remote, previous) && HasFate(a, ts, previous)
  {
    var u, p := Steps(ts, previous), Planned(ts.local, ts.remote, previous);
    StepPaths(ts, previous);
    ConflictFreeIsUnprotected(ts, previous);
    PlannedMembers(ts.local, ts.remote, previous);
    var k :| 0 <= k < |u| && u[k] == a;
    assert p[k] in p;
    if previous.Some? {
      FateAt(p, k, ts, previous);
    }
  }

  lemma FateAt(p: seq<Action>, k: nat, ts: Trees, previous: Option<Baseline>)
    requires previous.Some? && p == Planned(ts.local, ts.remote, previous) && k < |p|
    requires forall a :: a in p ==> a == PlanFor(a.path, ts, previous)
    ensures var m := WithMoves(p, ts.local, ts.remote, previous);
            |m| == |p| && HasFate(m[k], ts, previous)
  {
    var base := previous.value;
    assert p[k] in p;
    if j :| RenamePair(p, k, j, ts, base) {
      PairIsRewritten(p, k, j, ts, base);
      assert p[j] in p;
      assert RenameOf(ts, previous, p[k].path, p[j].path);
    } else if i :| RenamePair(p, i, k, ts, base) {
      PairIsRewritten(p, i, k, ts, base);
      assert RenameOf(ts, previous, p[i].path, p[k].path);
    } else {
      UnpairedIsKept(p, k, ts, base);
    }
  }

  /** Every path of the trees or the baseline has its step. */
  lemma StepFor(ts: Trees, previous: Option<Baseline>, p: Path) returns (a: Action)
    requires ConflictFree(Steps(ts, previous)) && p in AllPaths(ts.local, ts.remote, previous)
    ensures a in Steps(ts, previous) && a.path == p && HasFate(a, ts, previous)
  {
    StepPaths(ts, previous);
    PlannedMembers(ts.local, ts.remote, previous);
    PlanAtPath(p, ts.local, ts.remote, previous);
    var planned := Planned(ts.local, ts.remote, previous);
    assert PlanFor(p, ts, previous) in planned;
    var k :| 0 <= k < |planned| && planned[k] == PlanFor(p, ts, previous);
    a := Steps(ts, previous)[k];
    StepHasFate(ts, previous, a);
  }

  /** Both steps of a rename. */
  lemma RenameSteps(ts: Trees, previous: Option<Baseline>, to: Path, from: Path)
    requires ConflictFree(Steps(ts, previous)) && RenameOf(ts, previous, to, from)
    ensures AsMove(PlanFor(to, ts, previous), PlanFor(from, ts, previous)) in Steps(ts, previous)
    ensures AsRenamedAway(PlanFor(from, ts, previous)) in Steps(ts, previous)
    ensures PlanFor(to, ts, previous).path == to && PlanFor(from, ts, previous).path == from
  {
    var p := Planned(ts.local, ts.remote, previous);
    var i, j :| RenamePair(p, i, j, ts, previous.value) && p[i].path == to && p[j].path == from;
    ConflictFreeIsUnprotected(ts, previous);
    PlannedMembers(ts.local, ts.remote, previous);
    PairIsRewritten(p, i, j, ts, previous.value);
    assert p[i] in p && p[j] in p;
    var m := Steps(ts, previous);
    assert m[i] in m && m[j] in m;
  }

  /** Renames pair planned additions and deletions one to one. */
  lemma RenameFacts(ts: Trees, previous: Option<Baseline>, to: Path, from: Path)
    requires RenameOf(ts, previous, to, from)
    ensures var a, b := PlanFor(to, ts, previous), PlanFor(from, ts, previous);
            && a.path == to && b.path == from && a.target == b.target && a.target != NoSide
            && a.kind == Transfer && a.typ == File && b.kind == Delete && b.typ == File
            && to !in ts.On(a.target) && !a.destination.Present()
            && RemovedFingerprint(b, previous.value).Present()
            && a.source.Equal(RemovedFingerprint(b, previous.value))
    ensures forall t :: RenameOf(ts, previous, t, from) ==> t == to
    ensures forall f :: RenameOf(ts, previous, to, f) ==> f == from
  {
    var p := Planned(ts.local, ts.remote, previous);
    PlannedMembers(ts.local, ts.remote, previous);
    var i, j :| RenamePair(p, i, j, ts, previous.value) && p[i].path == to && p[j].path == from;
    assert p[i] in p && p[j] in p;
    forall t | RenameOf(ts, previous, t, from) ensures t == to {
      var x, y :| RenamePair(p, x, y, ts, previous.value) && p[x].path == t && p[y].path == from;
      assert y == j;
    }
    forall f | RenameOf(ts, previous, to, f) ensures f == from {
      var x, y :| RenamePair(p, x, y, ts, previous.value) && p[x].path == to && p[y].path == f;
      assert x == i;
    }
  }
}
