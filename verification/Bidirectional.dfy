/** The three-way planner: one action per path, directory actions whose subtree
    changed turned into conflicts, deletions paired with additions as renames,
    and the result sorted.

    The functions say what each pass means; the methods are the passes as the
    planner runs them, rewriting the list of actions in place. */
module Bidirectional {
  import opened Common
  import opened Paths
  import opened Entries
  import opened Actions
  import opened Filters

  predicate EntriesMatch(left: Entry, leftExists: bool, right: Entry, rightExists: bool) {
    leftExists == rightExists && (leftExists ==> left.Equal(right))
  }

  predicate MatchesBaseline(current: Entry, currentExists: bool, baseline: Entry) {
    currentExists == baseline.Present() && (currentExists ==> current.Equal(baseline))
  }

  function NewAction(kind: Kind, relative: Path, target: Side, source: Entry, destination: Entry,
                     replace: bool): Action
  {
    Action(kind, relative, "", target, if source.typ == NoType then destination.typ else source.typ,
           replace, source, destination)
  }

  function PropagateChange(relative: Path, changed: Side, source: Entry, sourceExists: bool,
                           destination: Entry, destinationExists: bool): Action
  {
    if !sourceExists then
      NewAction(Delete, relative, Opposite(changed), source, destination, false)
    else
      NewAction(if source.typ == Directory then CreateDirectory else Transfer, relative,
                Opposite(changed), source, destination,
                destinationExists && source.typ != destination.typ)
  }

  function PlanRoot(local: Entry, localExists: bool, remote: Entry, remoteExists: bool): Action {
    if localExists && remoteExists then
      if local.typ != Directory || remote.typ != Directory
      then NewAction(Conflict, "", NoSide, local, remote, false)
      else NewAction(Skip, "", NoSide, local, remote, false)
    else if localExists then NewAction(CreateDirectory, "", Remote, local, remote, false)
    else if remoteExists then NewAction(CreateDirectory, "", Local, remote, local, false)
    else NewAction(Conflict, "", NoSide, local, remote, false)
  }

  function PlanInitial(relative: Path, local: Entry, localExists: bool,
                       remote: Entry, remoteExists: bool): Action
  {
    if localExists && !remoteExists then
      PropagateChange(relative, Local, local, true, remote, false)
    else if !localExists && remoteExists then
      PropagateChange(relative, Remote, remote, true, local, false)
    else if EntriesMatch(local, localExists, remote, remoteExists) then
      NewAction(Skip, relative, NoSide, local, remote, false)
    else
      NewAction(Conflict, relative, NoSide, local, remote, false)
  }

  function PlanPath(relative: Path, local: Entry, localExists: bool, remote: Entry, remoteExists: bool,
                    baseline: Option<Record>): Action
  {
    if relative == "" then
      PlanRoot(local, localExists, remote, remoteExists)
    else if baseline.None? then
      PlanInitial(relative, local, localExists, remote, remoteExists)
    else
      var localChanged := !MatchesBaseline(local, localExists, baseline.value.source);
      var remoteChanged := !MatchesBaseline(remote, remoteExists, baseline.value.destination);
      if EntriesMatch(local, localExists, remote, remoteExists) then
        NewAction(Skip, relative, NoSide, local, remote, false)
      else if localChanged && !remoteChanged then
        PropagateChange(relative, Local, local, localExists, remote, remoteExists)
      else if !localChanged && remoteChanged then
        PropagateChange(relative, Remote, remote, remoteExists, local, localExists)
      else
        NewAction(Conflict, relative, NoSide, local, remote, false)
  }

  function PlanAt(p: Path, local: Snapshot, remote: Snapshot, previous: Option<Baseline>): Action {
    PlanPath(p, Lookup(local, p), p in local, Lookup(remote, p), p in remote, SavedRecord(previous, p))
  }

  function AllPaths(local: Snapshot, remote: Snapshot, previous: Option<Baseline>): set<Path> {
    local.Keys + remote.Keys + if previous.Some? then previous.value.Keys else {}
  }

  ghost function PlanEach(paths: seq<Path>, local: Snapshot, remote: Snapshot,
                          previous: Option<Baseline>): seq<Action>
  {
    seq(|paths|, i requires 0 <= i < |paths| => PlanAt(paths[i], local, remote, previous))
  }

  ghost function Planned(local: Snapshot, remote: Snapshot, previous: Option<Baseline>): seq<Action> {
    PlanEach(SortedPaths(AllPaths(local, remote, previous)), local, remote, previous)
  }

  // ----- Directory protection

  function Half(record: Record, side: Side): Entry {
    if side == Local then record.source else record.destination
  }

  function TargetTree(a: Action, local: Snapshot, remote: Snapshot): Snapshot {
    if a.target == Local then local else remote
  }

  predicate DestructiveDirectory(a: Action) {
    (a.kind == Delete && a.typ == Directory) || (a.replace && a.destination.typ == Directory)
  }

  predicate ChangedAt(p: Path, current: Snapshot, baseline: Baseline, side: Side) {
    !MatchesBaseline(Lookup(current, p), p in current, Half(RecordOf(baseline, p), side))
  }

  /** Something strictly below the directory no longer matches the baseline. */
  predicate SubtreeChanged(directory: Path, current: Snapshot, baseline: Baseline, side: Side) {
    exists p :: p in current.Keys + baseline.Keys && HasPrefix(p, directory)
                && ChangedAt(p, current, baseline, side)
  }

  predicate Endangered(a: Action, local: Snapshot, remote: Snapshot, baseline: Baseline) {
    && DestructiveDirectory(a)
    && SubtreeChanged(a.path, TargetTree(a, local, remote), baseline,
                      if a.target == Local then Local else Remote)
  }

  function AsConflict(a: Action): Action {
    a.(kind := Conflict, target := NoSide, replace := false)
  }

  function AsSkip(a: Action): Action {
    a.(kind := Skip, target := NoSide, replace := false)
  }

  function Guarded(a: Action, local: Snapshot, remote: Snapshot, baseline: Baseline): Action {
    if Endangered(a, local, remote, baseline) then AsConflict(a) else a
  }

  ghost predicate BelowConflict(p: Path, actions: seq<Action>, local: Snapshot, remote: Snapshot,
                                baseline: Baseline)
  {
    exists a :: a in actions && Endangered(a, local, remote, baseline) && IsDescendant(p, a.path)
  }

  ghost function ProtectedAction(a: Action, actions: seq<Action>, local: Snapshot, remote: Snapshot,
                                 baseline: Baseline): Action
  {
    var g := Guarded(a, local, remote, baseline);
    if g.kind != Conflict && BelowConflict(a.path, actions, local, remote, baseline)
    then AsSkip(g) else g
  }

  ghost function Protected(actions: seq<Action>, local: Snapshot, remote: Snapshot,
                           previous: Option<Baseline>): seq<Action>
  {
    if previous.None? then actions
    else seq(|actions|, i requires 0 <= i < |actions| =>
               ProtectedAction(actions[i], actions, local, remote, previous.value))
  }

  method SubtreeHasChanged(directory: Path, current: Snapshot, baseline: Baseline, side: Side)
    returns (changed: bool)
    ensures changed == SubtreeChanged(directory, current, baseline, side)
  {
    var paths := set p | p in current.Keys + baseline.Keys && HasPrefix(p, directory);
    var rest := paths;
    while rest != {}
      invariant rest <= paths
      invariant forall p :: p in paths - rest ==> !ChangedAt(p, current, baseline, side)
      decreases rest
    {
      var p :| p in rest;
      if !MatchesBaseline(Lookup(current, p), p in current, Half(RecordOf(baseline, p), side)) {
        return true;
      }
      rest := rest - {p};
    }
    return false;
  }

  ghost predicate ListsEndangered(parents: seq<Path>, actions: seq<Action>, bound: int, local: Snapshot,
                                  remote: Snapshot, baseline: Baseline)
  {
    forall q :: q in parents <==>
                  exists k :: 0 <= k < bound && k < |actions| && Endangered(actions[k], local, remote, baseline)
                              && actions[k].path == q
  }

  method MarkEndangered(actions: array<Action>, local: Snapshot, remote: Snapshot, baseline: Baseline)
    returns (conflictParents: seq<Path>)
    modifies actions
    ensures forall k :: 0 <= k < actions.Length ==>
              actions[k] == Guarded(old(actions[k]), local, remote, baseline)
    ensures ListsEndangered(conflictParents, old(actions[..]), actions.Length, local, remote, baseline)
  {
    ghost var before := actions[..];
    conflictParents := [];
    for i := 0 to actions.Length
      invariant forall k :: 0 <= k < i ==> actions[k] == Guarded(before[k], local, remote, baseline)
      invariant forall k :: i <= k < actions.Length ==> actions[k] == before[k]
      invariant ListsEndangered(conflictParents, before, i, local, remote, baseline)
    {
      var a := actions[i];
      if DestructiveDirectory(a) {
        var side := if a.target == Local then Local else Remote;
        var changed := SubtreeHasChanged(a.path, TargetTree(a, local, remote), baseline, side);
        if changed {
          actions[i] := AsConflict(a);
          conflictParents := conflictParents + [a.path];
        }
      }
    }
  }

  method ProtectChangedSubtrees(actions: array<Action>, local: Snapshot, remote: Snapshot,
                                previous: Option<Baseline>)
    modifies actions
    ensures actions[..] == Protected(old(actions[..]), local, remote, previous)
  {
    if previous.None? {
      return;
    }
    ghost var before := actions[..];
    var conflictParents := MarkEndangered(actions, local, remote, previous.value);
    if conflictParents == [] {
      NothingEndangered(before, local, remote, previous.value);
      assert actions[..] == Protected(before, local, remote, previous);
      return;
    }
    ghost var goal := Protected(before, local, remote, previous);
    forall k | 0 <= k < |before| ensures goal[k] == Blocked(actions[k], conflictParents) {
      ParentsDecide(before[k].path, before, local, remote, previous.value, conflictParents);
    }
    BlockBelow(actions, goal, conflictParents);
    assert actions[..] == goal;
  }

  predicate BelowAny(p: Path, parents: seq<Path>) {
    exists q :: q in parents && IsDescendant(p, q)
  }

  function Blocked(a: Action, parents: seq<Path>): Action {
    if a.kind != Conflict && BelowAny(a.path, parents) then AsSkip(a) else a
  }

  method BlockBelow(actions: array<Action>, ghost goal: seq<Action>, conflictParents: seq<Path>)
    requires |goal| == actions.Length
    requires forall k :: 0 <= k < |goal| ==> goal[k] == Blocked(actions[k], conflictParents)
    modifies actions
    ensures forall k :: 0 <= k < |goal| ==> actions[k] == goal[k]
  {
    for i := 0 to actions.Length
      invariant forall k :: 0 <= k < i ==> actions[k] == goal[k]
      invariant forall k :: i <= k < actions.Length ==> goal[k] == Blocked(actions[k], conflictParents)
    {
      if actions[i].kind == Conflict {
        continue;
      }
      var blocked := IsBelowAny(actions[i].path, conflictParents);
      if blocked {
        actions[i] := AsSkip(actions[i]);
      }
    }
  }

  lemma NothingEndangered(actions: seq<Action>, local: Snapshot, remote: Snapshot, baseline: Baseline)
    requires ListsEndangered([], actions, |actions|, local, remote, baseline)
    ensures forall a :: a in actions ==> !Endangered(a, local, remote, baseline)
  {
    forall a | a in actions ensures !Endangered(a, local, remote, baseline) {
      var k :| 0 <= k < |actions| && actions[k] == a;
      var none: seq<Path> := [];
      assert a.path !in none;
    }
  }

  lemma ParentsDecide(p: Path, actions: seq<Action>, local: Snapshot, remote: Snapshot,
                      baseline: Baseline, parents: seq<Path>)
    requires ListsEndangered(parents, actions, |actions|, local, remote, baseline)
    ensures BelowAny(p, parents) <==> BelowConflict(p, actions, local, remote, baseline)
  {
    if q :| q in parents && IsDescendant(p, q) {
      var k :| 0 <= k < |actions| && Endangered(actions[k], local, remote, baseline) && actions[k].path == q;
      assert actions[k] in actions;
    }
    if a :| a in actions && Endangered(a, local, remote, baseline) && IsDescendant(p, a.path) {
      var k :| 0 <= k < |actions| && actions[k] == a;
      assert a.path in parents;
    }
  }

  method IsBelowAny(p: Path, parents: seq<Path>) returns (below: bool)
    ensures below <==> BelowAny(p, parents)
  {
    for i := 0 to |parents|
      invariant forall k :: 0 <= k < i ==> !IsDescendant(p, parents[k])
    {
      if IsDescendant(p, parents[i]) {
        return true;
      }
    }
    return false;
  }

  // ----- Rename detection

  /** The fingerprint a deletion's file had, when both sides last agreed, on the
      side that no longer has it. */
  function RemovedFingerprint(a: Action, baseline: Baseline): Entry {
    var record := RecordOf(baseline, a.path);
    if a.target == Remote then record.source else record.destination
  }

  predicate IsRemoval(a: Action, target: Side, baseline: Baseline) {
    a.target == target && a.typ == File && a.kind == Delete && RemovedFingerprint(a, baseline).Present()
  }

  predicate IsAddition(a: Action, target: Side) {
    a.target == target && a.typ == File && a.kind == Transfer && !a.destination.Present()
  }

  /** The addition at `i` looks like the deleted file of `j`. */
  predicate Resembles(actions: seq<Action>, i: int, j: int, target: Side, baseline: Baseline) {
    && 0 <= i < |actions| && 0 <= j < |actions|
    && IsAddition(actions[i], target) && IsRemoval(actions[j], target, baseline)
    && actions[i].source.Equal(RemovedFingerprint(actions[j], baseline))
  }

  /** They resemble only each other, and nothing is in the way. */
  ghost predicate IsRename(actions: seq<Action>, i: int, j: int, target: Side, present: Snapshot,
                           baseline: Baseline)
  {
    && Resembles(actions, i, j, target, baseline)
    && (forall k :: Resembles(actions, i, k, target, baseline) ==> k == j)
    && (forall k :: Resembles(actions, k, j, target, baseline) ==> k == i)
    && actions[i].path !in present
  }

  function AsMove(to: Action, from: Action): Action {
    to.(kind := Move, fromPath := from.path, destination := from.destination)
  }

  function AsRenamedAway(from: Action): Action {
    from.(kind := Skip, target := NoSide)
  }

  /** The action at `k` once the additions before `bound` have been considered. */
  ghost function Renamed(actions: seq<Action>, k: int, bound: int, target: Side,
                         present: Snapshot, baseline: Baseline): Action
    requires 0 <= k < |actions|
  {
    if j :| k < bound && IsRename(actions, k, j, target, present, baseline) then
      AsMove(actions[k], actions[j])
    else if i :| i < bound && IsRename(actions, i, k, target, present, baseline) then
      AsRenamedAway(actions[k])
    else
      actions[k]
  }

  ghost function RenamedUpTo(actions: seq<Action>, bound: int, target: Side, present: Snapshot,
                             baseline: Baseline): seq<Action>
  {
    seq(|actions|, k requires 0 <= k < |actions| => Renamed(actions, k, bound, target, present, baseline))
  }

  ghost function MovesOn(actions: seq<Action>, target: Side, present: Snapshot,
                         baseline: Baseline): seq<Action>
  {
    RenamedUpTo(actions, |actions|, target, present, baseline)
  }

  ghost function WithMoves(actions: seq<Action>, local: Snapshot, remote: Snapshot,
                           previous: Option<Baseline>): seq<Action>
  {
    if previous.None? then actions
    else MovesOn(MovesOn(actions, Local, local, previous.value), Remote, remote, previous.value)
  }

  datatype MoveCandidate = MoveCandidate(index: nat, entry: Entry)

  ghost predicate Increasing(s: seq<MoveCandidate>) {
    forall i, j :: 0 <= i < j < |s| ==> s[i].index < s[j].index
  }

  /** The list holds exactly the removals before `bound`. */
  ghost predicate ListsRemovals(removed: seq<MoveCandidate>, actions: seq<Action>, bound: int,
                                target: Side, baseline: Baseline)
  {
    && Increasing(removed)
    && forall c :: c in removed <==>
                   c.index < bound && c.index < |actions| && IsRemoval(actions[c.index], target, baseline)
                   && c.entry == RemovedFingerprint(actions[c.index], baseline)
  }

  /** The list holds exactly the additions before `bound`. */
  ghost predicate ListsAdditions(added: seq<MoveCandidate>, actions: seq<Action>, bound: int, target: Side) {
    && Increasing(added)
    && forall c :: c in added <==>
                   c.index < bound && c.index < |actions| && IsAddition(actions[c.index], target)
                   && c.entry == actions[c.index].source
  }

  lemma OneMoreRemoval(removed: seq<MoveCandidate>, all: seq<Action>, n: nat, target: Side, baseline: Baseline)
    requires n < |all| && ListsRemovals(removed, all, n, target, baseline)
    ensures ListsRemovals(if IsRemoval(all[n], target, baseline)
                          then removed + [MoveCandidate(n, RemovedFingerprint(all[n], baseline))] else removed,
                          all, n + 1, target, baseline)
  {
  }

  lemma OneMoreAddition(added: seq<MoveCandidate>, all: seq<Action>, n: nat, target: Side)
    requires n < |all| && ListsAdditions(added, all, n, target)
    ensures ListsAdditions(if IsAddition(all[n], target) then added + [MoveCandidate(n, all[n].source)] else added,
                           all, n + 1, target)
  {
  }

  method CollectCandidates(actions: array<Action>, ghost all: seq<Action>, target: Side, baseline: Baseline)
    returns (removed: seq<MoveCandidate>, added: seq<MoveCandidate>)
    requires all == actions[..]
    ensures ListsRemovals(removed, all, |all|, target, baseline)
    ensures ListsAdditions(added, all, |all|, target)
  {
    removed, added := [], [];
    for index := 0 to actions.Length
      invariant ListsRemovals(removed, all, index, target, baseline)
      invariant ListsAdditions(added, all, index, target)
    {
      var a := actions[index];
      OneMoreRemoval(removed, all, index, target, baseline);
      OneMoreAddition(added, all, index, target);
      if a.target != target || a.typ != File {
        continue;
      }
      match a.kind {
        case Delete =>
          var record := RecordOf(baseline, a.path);
          var entry := record.destination;
          if target == Remote {
            entry := record.source;
          }
          if entry.Present() {
            removed := removed + [MoveCandidate(index, entry)];
          }
        case Transfer =>
          if !a.destination.Present() {
            added := added + [MoveCandidate(index, a.source)];
          }
        case _ =>
      }
    }
  }

  method MatchingRemovals(removed: seq<MoveCandidate>, entry: Entry) returns (matches: seq<MoveCandidate>)
    requires Increasing(removed)
    ensures ListsMatches(matches, removed, entry)
  {
    matches := [];
    for m := 0 to |removed|
      invariant Increasing(matches)
      invariant forall c :: c in matches <==> c in removed[..m] && entry.Equal(c.entry)
    {
      assert removed[..m + 1] == removed[..m] + [removed[m]];
      forall c | c in matches ensures c.index < removed[m].index {
        var k :| 0 <= k < |removed[..m]| && removed[..m][k] == c;
      }
      if entry.Equal(removed[m].entry) {
        matches := matches + [removed[m]];
      }
    }
    assert removed[..|removed|] == removed;
  }

  ghost predicate OnlyOne(candidates: seq<MoveCandidate>, fingerprint: Entry) {
    exists c :: c in candidates && c.entry.Equal(fingerprint)
                && forall d :: d in candidates && d.entry.Equal(fingerprint) ==> d == c
  }

  /** Whether the number of additions with this fingerprint differs from one. */
  method FingerprintMatchesOtherAddition(additions: seq<MoveCandidate>, fingerprint: Entry)
    returns (other: bool)
    requires Increasing(additions)
    ensures !other <==> OnlyOne(additions, fingerprint)
  {
    var matches := 0;
    ghost var first, second := MoveCandidate(0, fingerprint), MoveCandidate(0, fingerprint);
    for i := 0 to |additions|
      invariant matches == 0 ==> forall k :: 0 <= k < i ==> !additions[k].entry.Equal(fingerprint)
      invariant matches >= 1 ==> first in additions[..i] && first.entry.Equal(fingerprint)
      invariant matches == 1 ==>
                  forall k :: 0 <= k < i && additions[k].entry.Equal(fingerprint) ==> additions[k] == first
      invariant matches >= 2 ==> second in additions[..i] && second.entry.Equal(fingerprint) && second != first
    {
      if additions[i].entry.Equal(fingerprint) {
        if matches == 0 {
          first := additions[i];
        } else if matches == 1 {
          second := additions[i];
          ghost var k :| 0 <= k < |additions[..i]| && additions[..i][k] == first;
          assert additions[k].index < additions[i].index;
        }
        matches := matches + 1;
      }
      assert additions[..i + 1] == additions[..i] + [additions[i]];
    }
    assert additions[..|additions|] == additions;
    other := matches != 1;
    if matches == 1 {
      assert first in additions;
    }
  }

  ghost predicate ListsMatches(matches: seq<MoveCandidate>, removed: seq<MoveCandidate>, entry: Entry) {
    Increasing(matches) && forall c :: c in matches <==> c in removed && entry.Equal(c.entry)
  }

  lemma NoOrigin(actions: seq<Action>, i: nat, removed: seq<MoveCandidate>, target: Side,
                 baseline: Baseline, matches: seq<MoveCandidate>)
    requires ListsRemovals(removed, actions, |actions|, target, baseline)
    requires i < |actions| && IsAddition(actions[i], target)
    requires ListsMatches(matches, removed, actions[i].source)
    requires |matches| != 1
    ensures forall j, present :: !IsRename(actions, i, j, target, present, baseline)
  {
    forall j | Resembles(actions, i, j, target, baseline)
      ensures MoveCandidate(j, RemovedFingerprint(actions[j], baseline)) in matches
    {
      assert MoveCandidate(j, RemovedFingerprint(actions[j], baseline)) in removed;
    }
    if |matches| > 1 {
      assert matches[0] in matches && matches[1] in matches;
      assert Resembles(actions, i, matches[0].index, target, baseline);
      assert Resembles(actions, i, matches[1].index, target, baseline);
    }
  }

  lemma OneOrigin(actions: seq<Action>, i: nat, removed: seq<MoveCandidate>, target: Side,
                  baseline: Baseline, matches: seq<MoveCandidate>)
    requires ListsRemovals(removed, actions, |actions|, target, baseline)
    requires i < |actions| && IsAddition(actions[i], target)
    requires ListsMatches(matches, removed, actions[i].source)
    requires |matches| == 1
    ensures Resembles(actions, i, matches[0].index, target, baseline)
    ensures matches[0].entry == RemovedFingerprint(actions[matches[0].index], baseline)
    ensures forall k :: Resembles(actions, i, k, target, baseline) ==> k == matches[0].index
  {
    assert matches[0] in matches;
    forall k | Resembles(actions, i, k, target, baseline) ensures k == matches[0].index {
      assert MoveCandidate(k, RemovedFingerprint(actions[k], baseline)) in removed;
    }
  }

  lemma OneDestination(actions: seq<Action>, i: nat, j: nat, added: seq<MoveCandidate>, target: Side,
                       baseline: Baseline)
    requires ListsAdditions(added, actions, |actions|, target)
    requires Resembles(actions, i, j, target, baseline)
    ensures OnlyOne(added, RemovedFingerprint(actions[j], baseline)) <==>
            forall k :: Resembles(actions, k, j, target, baseline) ==> k == i
  {
    var fingerprint := RemovedFingerprint(actions[j], baseline);
    var mine := MoveCandidate(i, actions[i].source);
    assert mine in added;
    forall k | Resembles(actions, k, j, target, baseline)
      ensures MoveCandidate(k, actions[k].source) in added && actions[k].source.Equal(fingerprint)
    {
      ListedAddition(actions, k, j, added, target, baseline);
    }
    forall d | d in added && d.entry.Equal(fingerprint)
      ensures Resembles(actions, d.index, j, target, baseline) && d.entry == actions[d.index].source
    {
    }
  }

  lemma ListedAddition(actions: seq<Action>, k: nat, j: nat, added: seq<MoveCandidate>, target: Side,
                       baseline: Baseline)
    requires ListsAdditions(added, actions, |actions|, target) && Resembles(actions, k, j, target, baseline)
    ensures MoveCandidate(k, actions[k].source) in added
    ensures actions[k].source.Equal(RemovedFingerprint(actions[j], baseline))
  {
    assert MoveCandidate(k, actions[k].source) in added;
  }

  /** The one deletion the addition `added[n]` is a rename of, if any. */
  method FindOrigin(ghost actions: seq<Action>, path: Path, n: nat, removed: seq<MoveCandidate>,
                    added: seq<MoveCandidate>, target: Side, present: Snapshot, baseline: Baseline)
    returns (found: bool, j: nat)
    requires n < |added|
    requires ListsRemovals(removed, actions, |actions|, target, baseline)
    requires ListsAdditions(added, actions, |actions|, target)
    requires added[n].index < |actions| && actions[added[n].index].path == path
    ensures found ==> IsRename(actions, added[n].index, j, target, present, baseline)
    ensures !found ==> forall k :: !IsRename(actions, added[n].index, k, target, present, baseline)
  {
    j := 0;
    var i := added[n].index;
    assert added[n] in added;
    var matches := MatchingRemovals(removed, added[n].entry);
    if |matches| != 1 {
      NoOrigin(actions, i, removed, target, baseline, matches);
      return false, 0;
    }
    OneOrigin(actions, i, removed, target, baseline, matches);
    j := matches[0].index;
    var other := FingerprintMatchesOtherAddition(added, matches[0].entry);
    OneDestination(actions, i, j, added, target, baseline);
    found := !other && path !in present;
  }

  /** Turns the addition at `added[n]` into a move if it is a rename. */
  method ConsiderAddition(actions: array<Action>, ghost before: seq<Action>, n: nat,
                          removed: seq<MoveCandidate>, added: seq<MoveCandidate>, target: Side,
                          present: Snapshot, baseline: Baseline)
    requires |before| == actions.Length && n < |added|
    requires ListsRemovals(removed, before, |before|, target, baseline)
    requires ListsAdditions(added, before, |before|, target)
    requires actions[..] == RenamedUpTo(before, added[n].index, target, present, baseline)
    modifies actions
    ensures actions[..] == RenamedUpTo(before, added[n].index + 1, target, present, baseline)
  {
    var i := added[n].index;
    assert added[n] in added;
    NotYetMoved(before, i, target, present, baseline);
    var found, j := FindOrigin(before, actions[i].path, n, removed, added, target, present, baseline);
    if found {
      UntouchedSoFar(before, i, j, target, present, baseline);
      RenameStep(before, i, j, target, present, baseline);
      var from := actions[j];
      actions[i] := AsMove(actions[i], from);
      actions[j] := AsRenamedAway(actions[j]);
    } else {
      NoRenameStep(before, i, i + 1, target, present, baseline);
    }
  }

  lemma NotYetMoved(actions: seq<Action>, i: nat, target: Side, present: Snapshot, baseline: Baseline)
    requires i < |actions| && IsAddition(actions[i], target)
    ensures Renamed(actions, i, i, target, present, baseline) == actions[i]
  {
    RenamedByCase(actions, i, i, target, present, baseline);
  }

  method DetectMovesOn(actions: array<Action>, target: Side, present: Snapshot, baseline: Baseline)
    modifies actions
    ensures actions[..] == MovesOn(old(actions[..]), target, present, baseline)
  {
    ghost var before := actions[..];
    var removed, added := CollectCandidates(actions, before, target, baseline);
    NextAddition(before, added, 0, target, present, baseline);
    ConsiderAll(actions, before, removed, added, target, present, baseline);
  }

  method ConsiderAll(actions: array<Action>, ghost before: seq<Action>, removed: seq<MoveCandidate>,
                     added: seq<MoveCandidate>, target: Side, present: Snapshot, baseline: Baseline)
    requires |before| == actions.Length
    requires ListsRemovals(removed, before, |before|, target, baseline)
    requires ListsAdditions(added, before, |before|, target)
    requires actions[..] == RenamedUpTo(before, BoundAt(added, 0, |before|), target, present, baseline)
    modifies actions
    ensures actions[..] == RenamedUpTo(before, |before|, target, present, baseline)
  {
    for n := 0 to |added|
      invariant actions[..] == RenamedUpTo(before, BoundAt(added, n, |before|), target, present, baseline)
    {
      ConsiderNext(actions, before, n, removed, added, target, present, baseline);
    }
  }

  method ConsiderNext(actions: array<Action>, ghost before: seq<Action>, n: nat, removed: seq<MoveCandidate>,
                      added: seq<MoveCandidate>, target: Side, present: Snapshot, baseline: Baseline)
    requires |before| == actions.Length && n < |added|
    requires ListsRemovals(removed, before, |before|, target, baseline)
    requires ListsAdditions(added, before, |before|, target)
    requires actions[..] == RenamedUpTo(before, BoundAt(added, n, |before|), target, present, baseline)
    modifies actions
    ensures actions[..] == RenamedUpTo(before, BoundAt(added, n + 1, |before|), target, present, baseline)
  {
    NextAddition(before, added, n + 1, target, present, baseline);
    ConsiderAddition(actions, before, n, removed, added, target, present, baseline);
  }

  function BoundAt(added: seq<MoveCandidate>, n: nat, length: nat): nat {
    if n < |added| then added[n].index else length
  }

  lemma NotBetween(actions: seq<Action>, added: seq<MoveCandidate>, n: nat, i: nat, target: Side)
    requires n <= |added| && ListsAdditions(added, actions, |actions|, target)
    requires n > 0 ==> added[n - 1].index < i
    requires i < BoundAt(added, n, |actions|) && i < |actions|
    ensures !IsAddition(actions[i], target)
  {
    var c := MoveCandidate(i, actions[i].source);
    forall m | 0 <= m < |added| ensures added[m] != c {
    }
    assert c !in added;
  }

  /** Nothing is rewritten between one addition and the next. */
  lemma NextAddition(actions: seq<Action>, added: seq<MoveCandidate>, n: nat, target: Side,
                     present: Snapshot, baseline: Baseline)
    requires n <= |added| && ListsAdditions(added, actions, |actions|, target)
    ensures RenamedUpTo(actions, BoundAt(added, n, |actions|), target, present, baseline)
            == if n == 0 then actions
               else RenamedUpTo(actions, added[n - 1].index + 1, target, present, baseline)
  {
    var from := if n == 0 then 0 else added[n - 1].index + 1;
    if n < |added| { assert added[n] in added; }
    if n > 0 { assert added[n - 1] in added; }
    forall i, j | from <= i < BoundAt(added, n, |actions|)
      ensures !IsRename(actions, i, j, target, present, baseline)
    {
      NotBetween(actions, added, n, i, target);
    }
    NoRenameStep(actions, from, BoundAt(added, n, |actions|), target, present, baseline);
    forall k | n == 0 && 0 <= k < |actions|
      ensures Renamed(actions, k, 0, target, present, baseline) == actions[k]
    {
      RenamedByCase(actions, k, 0, target, present, baseline);
    }
  }

  lemma UntouchedSoFar(actions: seq<Action>, i: nat, j: nat, target: Side,
                       present: Snapshot, baseline: Baseline)
    requires Resembles(actions, i, j, target, baseline)
    ensures Renamed(actions, i, i, target, present, baseline) == actions[i]
    ensures (forall k :: Resembles(actions, k, j, target, baseline) ==> k == i) ==>
              Renamed(actions, j, i, target, present, baseline) == actions[j]
  {
  }

  lemma RenameStep(actions: seq<Action>, i: nat, j: nat, target: Side, present: Snapshot, baseline: Baseline)
    requires IsRename(actions, i, j, target, present, baseline)
    ensures Renamed(actions, i, i + 1, target, present, baseline) == AsMove(actions[i], actions[j])
    ensures Renamed(actions, j, i + 1, target, present, baseline) == AsRenamedAway(actions[j])
    ensures forall k :: 0 <= k < |actions| && k != i && k != j ==>
              Renamed(actions, k, i + 1, target, present, baseline)
              == Renamed(actions, k, i, target, present, baseline)
  {
    forall k | 0 <= k < |actions| && k != i && k != j
      ensures Renamed(actions, k, i + 1, target, present, baseline)
              == Renamed(actions, k, i, target, present, baseline)
    {
      RenamedByCase(actions, k, i, target, present, baseline);
      RenamedByCase(actions, k, i + 1, target, present, baseline);
    }
    RenamedByCase(actions, i, i + 1, target, present, baseline);
    RenamedByCase(actions, j, i + 1, target, present, baseline);
  }

  lemma NoRenameStep(actions: seq<Action>, low: nat, high: nat, target: Side,
                     present: Snapshot, baseline: Baseline)
    requires forall i, j :: low <= i < high ==> !IsRename(actions, i, j, target, present, baseline)
    requires low <= high
    ensures forall k :: 0 <= k < |actions| ==>
              Renamed(actions, k, high, target, present, baseline)
              == Renamed(actions, k, low, target, present, baseline)
  {
    forall k | 0 <= k < |actions|
      ensures Renamed(actions, k, high, target, present, baseline)
              == Renamed(actions, k, low, target, present, baseline)
    {
      RenamedByCase(actions, k, low, target, present, baseline);
      RenamedByCase(actions, k, high, target, present, baseline);
    }
  }

  /** The pairing determines the rewritten action, whatever witness is chosen. */
  lemma RenamedByCase(actions: seq<Action>, k: nat, bound: int, target: Side,
                      present: Snapshot, baseline: Baseline)
    requires k < |actions|
    ensures forall j :: k < bound && IsRename(actions, k, j, target, present, baseline) ==>
              Renamed(actions, k, bound, target, present, baseline) == AsMove(actions[k], actions[j])
    ensures forall i :: i < bound && IsRename(actions, i, k, target, present, baseline) ==>
              Renamed(actions, k, bound, target, present, baseline) == AsRenamedAway(actions[k])
    ensures (forall j :: !(k < bound && IsRename(actions, k, j, target, present, baseline)))
            && (forall i :: !(i < bound && IsRename(actions, i, k, target, present, baseline))) ==>
              Renamed(actions, k, bound, target, present, baseline) == actions[k]
  {
  }

  method DetectFileMoves(actions: array<Action>, local: Snapshot, remote: Snapshot,
                         previous: Option<Baseline>)
    modifies actions
    ensures actions[..] == WithMoves(old(actions[..]), local, remote, previous)
  {
    if previous.None? {
      return;
    }
    DetectMovesOn(actions, Local, local, previous.value);
    DetectMovesOn(actions, Remote, remote, previous.value);
  }

  // ----- The whole plan

  /** The plan for two filtered trees, before it is put in order. */
  ghost function Unordered(local: Snapshot, remote: Snapshot, previous: Option<Baseline>): seq<Action> {
    WithMoves(Protected(Planned(local, remote, previous), local, remote, previous), local, remote, previous)
  }

  ghost function OrderedPlan(local: Snapshot, remote: Snapshot, previous: Option<Baseline>): seq<Action> {
    Sorted(Unordered(local, remote, previous))
  }

  method BuildBidirectional(host: Host, local: Snapshot, remote: Snapshot, previous: Option<Baseline>,
                            includes: seq<string>, excludes: seq<string>)
    returns (r: Result<Plan>)
    ensures r.Ok? <==>
              && ValidPatterns(host, includes) && ValidPatterns(host, excludes)
              && (var paths := Filtered(host, local, includes, excludes).Keys
                               + Filtered(host, remote, includes, excludes).Keys;
                  forall p, q :: p in paths && q in paths && host.identity(p) == host.identity(q) ==> p == q)
    ensures r.Ok? ==>
              && r.value.actions == OrderedPlan(Filtered(host, local, includes, excludes),
                                                Filtered(host, remote, includes, excludes), previous)
              && Counted(r.value)
  {
    var localResult := Filter(host, local, includes, excludes);
    if localResult.Err? {
      return Err;
    }
    var remoteResult := Filter(host, remote, includes, excludes);
    if remoteResult.Err? {
      return Err;
    }
    var l, rm := localResult.value, remoteResult.value;
    if AmbiguousPaths(host, l, rm) {
      return Err;
    }
    var actions := PlanAll(l, rm, previous);
    ProtectChangedSubtrees(actions, l, rm, previous);
    DetectFileMoves(actions, l, rm, previous);
    SortActions(actions);
    var plan := Tally(actions[..]);
    return Ok(plan);
  }

  method PlanAll(local: Snapshot, remote: Snapshot, previous: Option<Baseline>) returns (actions: array<Action>)
    ensures fresh(actions)
    ensures actions[..] == Planned(local, remote, previous)
  {
    var paths := SortedPaths(AllPaths(local, remote, previous));
    actions := PlanList(paths, local, remote, previous);
  }

  method PlanList(paths: seq<Path>, local: Snapshot, remote: Snapshot, previous: Option<Baseline>)
    returns (actions: array<Action>)
    ensures fresh(actions)
    ensures actions[..] == PlanEach(paths, local, remote, previous)
  {
    actions := new Action[|paths|];
    for i := 0 to |paths|
      invariant forall k :: 0 <= k < i ==> actions[k] == PlanAt(paths[k], local, remote, previous)
    {
      actions[i] := PlanAt(paths[i], local, remote, previous);
    }
    assert actions[..] == PlanEach(paths, local, remote, previous);
  }
}
