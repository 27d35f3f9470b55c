/** The planner treats its two sides alike: exchanging the trees, and the two
    halves of every baseline record, exchanges the targets of the plan and
    changes nothing else, as long as `Equal` answers the same both ways. */
module Symmetry {
  import opened Common
  import opened Paths
  import opened Entries
  import opened Actions
  import opened Executor
  import opened Bidirectional
  import opened Planning
  import opened Reconciliation

  function Swap(ts: Trees): Trees {
    Trees(ts.remote, ts.local)
  }

  function SwapBaseline(base: Baseline): Baseline {
    map p | p in base :: Record(base[p].destination, base[p].source)
  }

  function SwapPrevious(previous: Option<Baseline>): Option<Baseline> {
    if previous.Some? then Some(SwapBaseline(previous.value)) else None
  }

  function SwapSide(side: Side): Side {
    match side
    case Local => Remote
    case Remote => Local
    case NoSide => NoSide
  }

  predicate Inert(a: Action) {
    a.kind == Skip || a.kind == Conflict
  }

  /** The same step with the sides exchanged. A skip or conflict records its
      pair of entries in the order of the sides, so those are left out. */
  predicate Mirrored(a: Action, b: Action) {
    && a.kind == b.kind && a.path == b.path && a.fromPath == b.fromPath
    && b.target == SwapSide(a.target) && a.replace == b.replace
    && (Inert(a) ==> !a.replace && a.target == NoSide) && (a.kind == Delete ==> !a.replace)
    && (!Inert(a) ==> a.target != NoSide && a.typ == b.typ && a.source == b.source
                      && a.destination == b.destination)
  }

  ghost predicate AllMirrored(s: seq<Action>, t: seq<Action>) {
    |s| == |t| && forall k :: 0 <= k < |s| ==> Mirrored(s[k], t[k])
  }

  /** `Equal` answers the same both ways for the two entries of a path. */
  predicate EvenAt(p: Path, ts: Trees) {
    p in ts.local && p in ts.remote ==>
      !(TimestampsDecide(ts.local[p], ts.remote[p]) && FarApart(ts.local[p].modified, ts.remote[p].modified))
  }

  /** One path is planned symmetrically exactly when no saturated timestamp
      difference decides whether its two entries match. */
  lemma PathSymmetry(p: Path, ts: Trees, previous: Option<Baseline>)
    requires Scanned(ts.local) && Scanned(ts.remote)
    ensures Mirrored(PlanFor(p, ts, previous), PlanFor(p, Swap(ts), SwapPrevious(previous)))
            <==> EvenAt(p, ts)
  {
    var l, r := Lookup(ts.local, p), Lookup(ts.remote, p);
    EqualSymmetry(l, r);
    var record := SavedRecord(previous, p);
    assert SavedRecord(SwapPrevious(previous), p)
           == if record.Some? then Some(Record(record.value.destination, record.value.source)) else None;
    MirrorPath(p, l, p in ts.local, r, p in ts.remote, record);
  }

  lemma MirrorPath(p: Path, l: Entry, lx: bool, r: Entry, rx: bool, record: Option<Record>)
    requires lx == l.Present() && rx == r.Present()
    requires p == "" ==> (lx ==> l.typ == Directory) && (rx ==> r.typ == Directory)
    ensures var other := if record.Some? then Some(Record(record.value.destination, record.value.source)) else None;
            Mirrored(PlanPath(p, l, lx, r, rx, record), PlanPath(p, r, rx, l, lx, other))
            <==> (lx && rx ==> l.Equal(r) == r.Equal(l))
  {
  }

  lemma EndangeredMirrored(a: Action, b: Action, ts: Trees, base: Baseline)
    requires Mirrored(a, b)
    ensures Endangered(a, ts.local, ts.remote, base)
            == Endangered(b, ts.remote, ts.local, SwapBaseline(base))
  {
    if DestructiveDirectory(a) {
      var side := if a.target == Local then Local else Remote;
      SubtreeMirrored(a.path, TargetTree(a, ts.local, ts.remote), base, side);
    }
  }

  lemma SubtreeMirrored(directory: Path, current: Snapshot, base: Baseline, side: Side)
    requires side != NoSide
    ensures SubtreeChanged(directory, current, base, side)
            == SubtreeChanged(directory, current, SwapBaseline(base), SwapSide(side))
  {
    forall p ensures ChangedAt(p, current, base, side)
                     == ChangedAt(p, current, SwapBaseline(base), SwapSide(side)) {
    }
    assert base.Keys == SwapBaseline(base).Keys;
    if SubtreeChanged(directory, current, base, side) {
      var p :| p in current.Keys + base.Keys && HasPrefix(p, directory) && ChangedAt(p, current, base, side);
      assert p in current.Keys + SwapBaseline(base).Keys;
    }
  }

  lemma BelowMirrored(p: Path, s: seq<Action>, t: seq<Action>, ts: Trees, base: Baseline)
    requires AllMirrored(s, t)
    ensures BelowConflict(p, s, ts.local, ts.remote, base)
            == BelowConflict(p, t, ts.remote, ts.local, SwapBaseline(base))
  {
    forall k | 0 <= k < |s|
      ensures Endangered(s[k], ts.local, ts.remote, base)
              == Endangered(t[k], ts.remote, ts.local, SwapBaseline(base))
    {
      EndangeredMirrored(s[k], t[k], ts, base);
    }
    if a :| a in s && Endangered(a, ts.local, ts.remote, base) && IsDescendant(p, a.path) {
      var k :| 0 <= k < |s| && s[k] == a;
      assert t[k] in t;
    }
    if b :| b in t && Endangered(b, ts.remote, ts.local, SwapBaseline(base)) && IsDescendant(p, b.path) {
      var k :| 0 <= k < |t| && t[k] == b;
      assert s[k] in s;
    }
  }

  lemma ProtectionMirrored(s: seq<Action>, t: seq<Action>, ts: Trees, previous: Option<Baseline>)
    requires AllMirrored(s, t)
    ensures AllMirrored(Protected(s, ts.local, ts.remote, previous),
                        Protected(t, ts.remote, ts.local, SwapPrevious(previous)))
  {
    if previous.Some? {
      forall k | 0 <= k < |s|
        ensures Mirrored(ProtectedAction(s[k], s, ts.local, ts.remote, previous.value),
                         ProtectedAction(t[k], t, ts.remote, ts.local, SwapBaseline(previous.value)))
      {
        EndangeredMirrored(s[k], t[k], ts, previous.value);
        BelowMirrored(s[k].path, s, t, ts, previous.value);
      }
    }
  }

  lemma ResemblesMirrored(s: seq<Action>, t: seq<Action>, base: Baseline, target: Side, i: int, j: int)
    requires AllMirrored(s, t) && target != NoSide
    ensures Resembles(s, i, j, target, base) == Resembles(t, i, j, SwapSide(target), SwapBaseline(base))
  {
  }

  lemma PairMirrored(s: seq<Action>, t: seq<Action>, ts: Trees, base: Baseline, i: int, j: int)
    requires AllMirrored(s, t)
    ensures RenamePair(s, i, j, ts, base) == RenamePair(t, i, j, Swap(ts), SwapBaseline(base))
  {
    if 0 <= i < |s| && s[i].target != NoSide {
      forall x, y ensures Resembles(s, x, y, s[i].target, base)
                          == Resembles(t, x, y, t[i].target, SwapBaseline(base)) {
        ResemblesMirrored(s, t, base, s[i].target, x, y);
      }
    }
  }

  /** The two rename passes run in the opposite order on the other side, and
      still agree. */
  lemma MovesMirrored(s: seq<Action>, t: seq<Action>, ts: Trees, previous: Option<Baseline>)
    requires AllMirrored(s, t)
    ensures AllMirrored(WithMoves(s, ts.local, ts.remote, previous),
                        WithMoves(t, ts.remote, ts.local, SwapPrevious(previous)))
  {
    if previous.Some? {
      var u := WithMoves(s, ts.local, ts.remote, previous);
      var v := WithMoves(t, ts.remote, ts.local, SwapPrevious(previous));
      forall k | 0 <= k < |s| ensures |u| == |s| && |v| == |t| && Mirrored(u[k], v[k]) {
        MoveMirrored(s, t, ts, previous.value, k);
      }
    }
  }

  lemma MoveMirrored(s: seq<Action>, t: seq<Action>, ts: Trees, base: Baseline, k: nat)
    requires AllMirrored(s, t) && k < |s|
    ensures var u := WithMoves(s, ts.local, ts.remote, Some(base));
            var v := WithMoves(t, ts.remote, ts.local, Some(SwapBaseline(base)));
            |u| == |s| && |v| == |t| && Mirrored(u[k], v[k])
  {
    var other := SwapBaseline(base);
    if j :| RenamePair(s, k, j, ts, base) {
      PairMirrored(s, t, ts, base, k, j);
      PairIsRewritten(s, k, j, ts, base);
      PairIsRewritten(t, k, j, Swap(ts), other);
    } else if i :| RenamePair(s, i, k, ts, base) {
      PairMirrored(s, t, ts, base, i, k);
      PairIsRewritten(s, i, k, ts, base);
      PairIsRewritten(t, i, k, Swap(ts), other);
    } else {
      forall x ensures !RenamePair(t, k, x, Swap(ts), other) && !RenamePair(t, x, k, Swap(ts), other) {
        PairMirrored(s, t, ts, base, k, x);
        PairMirrored(s, t, ts, base, x, k);
      }
      UnpairedIsKept(s, k, ts, base);
      UnpairedIsKept(t, k, Swap(ts), other);
    }
  }

  lemma {:induction false} InsertMirrored(a: Action, b: Action, s: seq<Action>, t: seq<Action>)
    requires Mirrored(a, b) && AllMirrored(s, t)
    ensures AllMirrored(Insert(a, s), Insert(b, t))
  {
    if s != [] && !Before(a, s[0]) {
      InsertMirrored(a, b, s[1..], t[1..]);
    }
  }

  lemma {:induction false} SortMirrored(s: seq<Action>, t: seq<Action>)
    requires AllMirrored(s, t)
    ensures AllMirrored(Sorted(s), Sorted(t))
  {
    if s != [] {
      SortMirrored(s[..|s| - 1], t[..|t| - 1]);
      InsertMirrored(s[|s| - 1], t[|t| - 1], Sorted(s[..|s| - 1]), Sorted(t[..|t| - 1]));
    }
  }

  lemma PlannedMirrored(ts: Trees, previous: Option<Baseline>)
    requires Scanned(ts.local) && Scanned(ts.remote)
    requires forall p :: EvenAt(p, ts)
    ensures AllMirrored(Planned(ts.local, ts.remote, previous),
                        Planned(ts.remote, ts.local, SwapPrevious(previous)))
  {
    assert AllPaths(ts.remote, ts.local, SwapPrevious(previous)) == AllPaths(ts.local, ts.remote, previous);
    var paths := SortedPaths(AllPaths(ts.local, ts.remote, previous));
    forall k | 0 <= k < |paths|
      ensures Mirrored(PlanFor(paths[k], ts, previous), PlanFor(paths[k], Swap(ts), SwapPrevious(previous)))
    {
      PathSymmetry(paths[k], ts, previous);
    }
  }

  /** Symmetry: the plan for the exchanged trees is the same plan, step for
      step, with the targets exchanged. */
  lemma PlanSymmetry(ts: Trees, previous: Option<Baseline>)
    requires Scanned(ts.local) && Scanned(ts.remote)
    requires forall p :: EvenAt(p, ts)
    ensures AllMirrored(PlanOf(ts, previous), PlanOf(Swap(ts), SwapPrevious(previous)))
  {
    PlannedMirrored(ts, previous);
    var s, t := Planned(ts.local, ts.remote, previous), Planned(ts.remote, ts.local, SwapPrevious(previous));
    ProtectionMirrored(s, t, ts, previous);
    MovesMirrored(Protected(s, ts.local, ts.remote, previous),
                  Protected(t, ts.remote, ts.local, SwapPrevious(previous)), ts, previous);
    SortMirrored(Steps(ts, previous), Steps(Swap(ts), SwapPrevious(previous)));
  }

  // ----- The condition is exact

  /** A path present on both sides takes no part in renames. */
  lemma StepAtPair(ts: Trees, previous: Option<Baseline>, p: Path)
    requires Scanned(ts.local) && Scanned(ts.remote) && ConflictFree(Steps(ts, previous))
    requires p in ts.local && p in ts.remote
    ensures PlanFor(p, ts, previous) in PlanOf(ts, previous)
  {
    var a := StepFor(ts, previous, p);
    PairKeepsStep(ts, previous, a);
    SortedIsSort(Steps(ts, previous));
  }

  lemma PairKeepsStep(ts: Trees, previous: Option<Baseline>, a: Action)
    requires Scanned(ts.local) && Scanned(ts.remote) && HasFate(a, ts, previous)
    requires a.path in ts.local && a.path in ts.remote
    ensures a == PlanFor(a.path, ts, previous)
  {
    if f :| RenameOf(ts, previous, a.path, f) {
      RenameFacts(ts, previous, a.path, f);
    }
    if t :| RenameOf(ts, previous, t, a.path) {
      RenameFacts(ts, previous, t, a.path);
      PlanAtIsSound(a.path, ts, previous);
    }
  }

  lemma MirroredIsConflictFree(s: seq<Action>, t: seq<Action>)
    requires AllMirrored(s, t) && ConflictFree(s)
    ensures ConflictFree(t)
  {
    forall b | b in t ensures b.kind != Conflict {
      var k :| 0 <= k < |t| && t[k] == b;
      assert Mirrored(s[k], t[k]) && s[k] in s;
    }
  }

  lemma MirroredByPath(s: seq<Action>, t: seq<Action>, a: Action, b: Action)
    requires AllMirrored(s, t) && DistinctPaths(t) && a in s && b in t && a.path == b.path
    ensures Mirrored(a, b)
  {
    var i :| 0 <= i < |s| && s[i] == a;
    var j :| 0 <= j < |t| && t[j] == b;
    assert Mirrored(s[i], t[i]);
  }

  lemma OrderedPlanFacts(ts: Trees, previous: Option<Baseline>)
    requires ConflictFree(PlanOf(ts, previous))
    ensures ConflictFree(Steps(ts, previous)) && DistinctPaths(PlanOf(ts, previous))
  {
    SortedIsSort(Steps(ts, previous));
    StepPaths(ts, previous);
  }

  /** A conflict-free plan, which is one that is carried out, is symmetric exactly
      when no saturated timestamp difference decides a comparison of the sides. */
  lemma PlanSymmetryExactly(ts: Trees, previous: Option<Baseline>)
    requires ConflictFreePlan(ts, previous)
    ensures AllMirrored(PlanOf(ts, previous), PlanOf(Swap(ts), SwapPrevious(previous)))
            <==> forall p :: EvenAt(p, ts)
  {
    if forall p :: EvenAt(p, ts) {
      PlanSymmetry(ts, previous);
    }
    if AllMirrored(PlanOf(ts, previous), PlanOf(Swap(ts), SwapPrevious(previous))) {
      forall p ensures EvenAt(p, ts) {
        if p in ts.local && p in ts.remote {
          MirroredAtPair(ts, previous, p);
        }
      }
    }
  }

  lemma MirroredAtPair(ts: Trees, previous: Option<Baseline>, p: Path)
    requires ConflictFreePlan(ts, previous) && p in ts.local && p in ts.remote
    requires AllMirrored(PlanOf(ts, previous), PlanOf(Swap(ts), SwapPrevious(previous)))
    ensures EvenAt(p, ts)
  {
    var other := SwapPrevious(previous);
    MirroredIsConflictFree(PlanOf(ts, previous), PlanOf(Swap(ts), other));
    OrderedPlanFacts(ts, previous);
    OrderedPlanFacts(Swap(ts), other);
    StepAtPair(ts, previous, p);
    StepAtPair(Swap(ts), other, p);
    MirroredByPair(ts, previous, p);
    PathSymmetry(p, ts, previous);
  }

  lemma MirroredByPair(ts: Trees, previous: Option<Baseline>, p: Path)
    requires AllMirrored(PlanOf(ts, previous), PlanOf(Swap(ts), SwapPrevious(previous)))
    requires DistinctPaths(PlanOf(Swap(ts), SwapPrevious(previous)))
    requires PlanFor(p, ts, previous) in PlanOf(ts, previous)
    requires PlanFor(p, Swap(ts), SwapPrevious(previous)) in PlanOf(Swap(ts), SwapPrevious(previous))
    ensures Mirrored(PlanFor(p, ts, previous), PlanFor(p, Swap(ts), SwapPrevious(previous)))
  {
    PlanAtPath(p, ts.local, ts.remote, previous);
    PlanAtPath(p, ts.remote, ts.local, SwapPrevious(previous));
    MirroredByPath(PlanOf(ts, previous), PlanOf(Swap(ts), SwapPrevious(previous)), PlanFor(p, ts, previous),
                   PlanFor(p, Swap(ts), SwapPrevious(previous)));
  }
}
