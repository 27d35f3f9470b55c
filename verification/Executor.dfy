/** Running a plan against two trees.

    `Effect` is what a step does to its target tree; `Ready` is when the step is
    safe: the recorded preconditions still hold, nothing is written under a
    missing directory and no directory with content is removed or replaced. */
module Executor {
  import opened Common
  import opened Paths
  import opened Entries
  import opened Actions

  datatype Trees = Trees(local: Snapshot, remote: Snapshot) {
    function On(side: Side): Snapshot {
      if side == Local then local else remote
    }

    function With(side: Side, s: Snapshot): Trees {
      if side == Local then Trees(s, remote) else Trees(local, s)
    }
  }

  /** Two scanned trees. */
  predicate WellFormed(ts: Trees) {
    Scanned(ts.local) && Scanned(ts.remote) && ParentClosed(ts.local) && ParentClosed(ts.remote)
  }

  predicate Writes(a: Action) {
    a.kind == Transfer || a.kind == CreateDirectory || a.kind == Move
  }

  /** Deletion, or replacement of a directory by a file. */
  predicate Removes(a: Action) {
    a.kind == Delete || (a.kind == Transfer && a.replace)
  }

  function Effect(ts: Trees, a: Action): Trees {
    var t := ts.On(a.target);
    match a.kind
    case Delete => ts.With(a.target, t - {a.path})
    case Transfer => ts.With(a.target, t[a.path := a.source])
    case CreateDirectory => ts.With(a.target, t[a.path := a.source])
    case Move => ts.With(a.target, (t - {a.fromPath})[a.path := a.destination])
    case _ => ts
  }

  predicate Empty(t: Snapshot, directory: Path) {
    forall c :: c in t ==> !IsDescendant(c, directory)
  }

  predicate HasParent(t: Snapshot, p: Path) {
    p == "" || (Parent(p) in t && t[Parent(p)].typ == Directory)
  }

  /** The recorded source and destination entries are the ones in the trees and
      the step makes sense on them. */
  predicate Recorded(ts: Trees, a: Action) {
    var s, t := ts.On(Opposite(a.target)), ts.On(a.target);
    match a.kind
    case Skip => true
    case Delete =>
      a.target != NoSide && Lookup(s, a.path) == a.source && a.path in t && t[a.path] == a.destination
    case CreateDirectory =>
      && a.target != NoSide && a.path in s && s[a.path] == a.source && a.source.typ == Directory
      && Lookup(t, a.path) == a.destination
      && (a.path in t ==> a.replace && a.destination.typ == File)
    case Transfer =>
      && a.target != NoSide && a.path in s && s[a.path] == a.source && a.source.typ == File
      && Lookup(t, a.path) == a.destination
      && (a.path in t ==> a.destination.typ == if a.replace then Directory else File)
      && (a.replace ==> a.path in t)
    case Move =>
      && a.target != NoSide && a.path in s && s[a.path] == a.source && a.source.typ == File
      && a.path !in t && a.fromPath in t && t[a.fromPath] == a.destination && a.destination.typ == File
    case _ => false
  }

  predicate Ready(ts: Trees, a: Action) {
    && Recorded(ts, a)
    && (Writes(a) ==> HasParent(ts.On(a.target), a.path))
    && (Removes(a) ==> Empty(ts.On(a.target), a.path))
  }

  /** The run stops at the first step that is not ready. */
  function Run(ts: Trees, plan: seq<Action>): Option<Trees> {
    if plan == [] then Some(ts)
    else
      match Run(ts, plan[..|plan| - 1])
      case None => None
      case Some(now) =>
        var a := plan[|plan| - 1];
        if Ready(now, a) then Some(Effect(now, a)) else None
  }

  /** The intended outcome: every effect, with no check. */
  function Outcome(ts: Trees, plan: seq<Action>): Trees {
    if plan == [] then ts
    else Effect(Outcome(ts, plan[..|plan| - 1]), plan[|plan| - 1])
  }

  predicate Touches(a: Action, side: Side, p: Path) {
    && a.target == side
    && ((a.path == p && (Writes(a) || a.kind == Delete)) || (a.kind == Move && a.fromPath == p))
  }

  function Find(t: Snapshot, p: Path): Option<Entry> {
    if p in t then Some(t[p]) else None
  }

  /** What a touching step leaves at the path. */
  function Left(a: Action, p: Path): Option<Entry> {
    if a.kind == Delete then None
    else if a.kind == Move && a.path != p then None
    else if a.kind == Move then Some(a.destination)
    else Some(a.source)
  }

  ghost predicate Untouched(plan: seq<Action>, side: Side, p: Path) {
    forall a :: a in plan ==> !Touches(a, side, p)
  }

  /** Steps that fit the trees leave alone what neither tree has. */
  lemma RecordedLeavesAlone(ts: Trees, plan: seq<Action>, side: Side, c: Path)
    requires side != NoSide && c !in ts.local && c !in ts.remote
    requires forall a :: a in plan ==> Recorded(ts, a)
    ensures Untouched(plan, side, c)
    ensures forall a :: a in plan && a.kind != Skip ==> a.target != NoSide
  {
    forall a | a in plan
      ensures !Touches(a, side, c) && (a.kind != Skip ==> a.target != NoSide)
    {
      assert Recorded(ts, a);
    }
  }

  lemma {:induction false} OutcomeUntouched(ts: Trees, plan: seq<Action>, side: Side, p: Path)
    requires side != NoSide && Untouched(plan, side, p)
    requires forall a :: a in plan && a.kind != Skip ==> a.target != NoSide
    ensures Find(Outcome(ts, plan).On(side), p) == Find(ts.On(side), p)
  {
    if plan != [] {
      var init := plan[..|plan| - 1];
      assert plan[|plan| - 1] in plan;
      assert forall a :: a in init ==> a in plan;
      OutcomeUntouched(ts, init, side, p);
    }
  }

  /** A path touched by one step ends as that step leaves it. */
  lemma {:induction false} OutcomeTouched(ts: Trees, plan: seq<Action>, i: nat, side: Side, p: Path)
    requires side != NoSide && i < |plan| && Touches(plan[i], side, p)
    requires forall j :: 0 <= j < |plan| && j != i ==> !Touches(plan[j], side, p)
    requires forall a :: a in plan && a.kind != Skip ==> a.target != NoSide
    ensures Find(Outcome(ts, plan).On(side), p) == Left(plan[i], p)
  {
    var init := plan[..|plan| - 1];
    assert forall a :: a in init ==> a in plan;
    assert plan[|plan| - 1] in plan;
    if i < |plan| - 1 {
      OutcomeTouched(ts, init, i, side, p);
    }
  }

  /** What a planner must establish, about the trees it was given, for the run
      to be safe in plan order. */
  ghost predicate Coherent(ts: Trees, plan: seq<Action>) {
    && DistinctPaths(plan)
    && (forall a :: a in plan ==> Recorded(ts, a))
    && MovesConsumeSkips(plan)
    && (forall a :: a in plan && Writes(a) && a.path != "" ==> ParentPlanned(ts, plan, a))
    && (forall a :: a in plan && Removes(a) ==> SubtreeCleared(ts, plan, a))
  }

  predicate SameOrigin(m: Action, n: Action) {
    m.target == n.target && m.fromPath == n.fromPath
  }

  /** The path a move empties carries no step of its own and no second move. */
  ghost predicate MovesConsumeSkips(plan: seq<Action>) {
    && (forall m, a :: m in plan && a in plan && m.kind == Move && a.path == m.fromPath ==> a.kind == Skip)
    && (forall m, n ::
          m in plan && n in plan && m.kind == n.kind == Move && SameOrigin(m, n) ==> m.path == n.path)
  }

  predicate CreatesAt(b: Action, side: Side, p: Path) {
    b.kind == CreateDirectory && b.target == side && b.path == p
  }

  ghost predicate ParentPlanned(ts: Trees, plan: seq<Action>, a: Action) {
    || (HasParent(ts.On(a.target), a.path) && Untouched(plan, a.target, Parent(a.path)))
    || (exists b :: b in plan && CreatesAt(b, a.target, Parent(a.path)))
  }

  predicate Clears(b: Action, side: Side, c: Path) {
    b.target == side && ((b.kind == Delete && b.path == c) || (b.kind == Move && b.fromPath == c))
  }

  ghost predicate SubtreeCleared(ts: Trees, plan: seq<Action>, a: Action) {
    && (forall c :: c in ts.On(a.target) && IsDescendant(c, a.path) ==>
          exists b :: b in plan && Clears(b, a.target, c))
    && (forall b :: b in plan && Writes(b) && b.target == a.target ==> !IsDescendant(b.path, a.path))
    && (a.path == "" ==> Empty(ts.On(a.target), a.path))
  }

  /** Step `j` removes the directory that step `i` later moves a file out of. */
  predicate PullsFromRemoved(plan: seq<Action>, i: nat, j: nat)
    requires i < |plan| && j < |plan|
  {
    && j < i && plan[i].kind == Move && Removes(plan[j]) && plan[i].target == plan[j].target
    && IsDescendant(plan[i].fromPath, plan[j].path)
  }

  /** No file is moved out of a directory that an earlier step removes. */
  ghost predicate MovesPrecedeRemovals(plan: seq<Action>) {
    forall i, j :: 0 <= j < i < |plan| ==> !PullsFromRemoved(plan, i, j)
  }

  lemma TouchedOnce(plan: seq<Action>, i: nat, j: nat, side: Side, p: Path)
    requires DistinctPaths(plan) && MovesConsumeSkips(plan)
    requires i < |plan| && j < |plan|
    requires Touches(plan[i], side, p) && Touches(plan[j], side, p)
    ensures i == j
  {
    assert plan[i] in plan && plan[j] in plan;
  }

  /** Midway through the plan, a path not touched so far is as it was. */
  lemma Midway(ts: Trees, plan: seq<Action>, k: nat, side: Side, p: Path)
    requires Coherent(ts, plan) && k <= |plan| && side != NoSide
    requires forall i :: 0 <= i < k ==> !Touches(plan[i], side, p)
    ensures Find(Outcome(ts, plan[..k]).On(side), p) == Find(ts.On(side), p)
  {
    assert forall a :: a in plan[..k] ==> a in plan;
    OutcomeUntouched(ts, plan[..k], side, p);
  }

  /** Midway through the plan, a path touched by a past step is as that step
      left it. */
  lemma MidwayTouched(ts: Trees, plan: seq<Action>, k: nat, i: nat, side: Side, p: Path)
    requires Coherent(ts, plan) && i < k <= |plan| && side != NoSide
    requires Touches(plan[i], side, p)
    ensures Find(Outcome(ts, plan[..k]).On(side), p) == Left(plan[i], p)
  {
    forall j | 0 <= j < |plan[..k]| && j != i ensures !Touches(plan[..k][j], side, p) {
      if Touches(plan[j], side, p) { TouchedOnce(plan, i, j, side, p); }
    }
    assert forall a :: a in plan[..k] ==> a in plan;
    OutcomeTouched(ts, plan[..k], i, side, p);
  }

  lemma RecordedMidway(ts: Trees, plan: seq<Action>, k: nat)
    requires Coherent(ts, plan) && k < |plan|
    ensures Recorded(Outcome(ts, plan[..k]), plan[k])
  {
    var a, now := plan[k], Outcome(ts, plan[..k]);
    assert a in plan;
    if a.kind != Skip {
      assert Touches(a, a.target, a.path);
      forall i | 0 <= i < k ensures !Touches(plan[i], a.target, a.path) {
        if Touches(plan[i], a.target, a.path) { TouchedOnce(plan, i, k, a.target, a.path); }
      }
      Midway(ts, plan, k, a.target, a.path);
      forall i | 0 <= i < k ensures !Touches(plan[i], Opposite(a.target), a.path) {
        assert plan[i] in plan && plan[i].path != a.path;
      }
      Midway(ts, plan, k, Opposite(a.target), a.path);
      if a.kind == Move {
        forall i | 0 <= i < k ensures !Touches(plan[i], a.target, a.fromPath) {
          if Touches(plan[i], a.target, a.fromPath) { TouchedOnce(plan, i, k, a.target, a.fromPath); }
        }
        Midway(ts, plan, k, a.target, a.fromPath);
      }
    }
  }

  lemma BeforeIndex(plan: seq<Action>, i: nat, k: nat)
    requires Ordered(plan) && i < |plan| && k < |plan| && Before(plan[i], plan[k])
    ensures i < k
  {
    BeforeIsWeakOrder(plan[i], plan[k], plan[i]);
  }

  /** A directory created by the plan comes before everything written in it. */
  lemma ParentFirst(b: Action, a: Action)
    requires b.kind == CreateDirectory && Writes(a) && a.path != "" && b.path == Parent(a.path)
    requires Normal(a.path)
    ensures Before(b, a)
  {
    ParentDepth(a.path);
    ParentNormal(a.path);
    if LastSlash(a.path) < 0 {
      assert b.path == "";
    }
  }

  lemma ParentMidway(ts: Trees, plan: seq<Action>, k: nat)
    requires Coherent(ts, plan) && Ordered(plan) && k < |plan|
    requires Writes(plan[k]) && Normal(plan[k].path)
    ensures HasParent(Outcome(ts, plan[..k]).On(plan[k].target), plan[k].path)
  {
    var a := plan[k];
    assert a in plan && Recorded(ts, a);
    if a.path != "" {
      assert ParentPlanned(ts, plan, a);
      var q := Parent(a.path);
      if exists b :: b in plan && CreatesAt(b, a.target, q) {
        var b :| b in plan && CreatesAt(b, a.target, q);
        var i :| 0 <= i < |plan| && plan[i] == b;
        ParentFirst(b, a);
        ParentNormal(a.path);
        assert Recorded(ts, b);
        BeforeIndex(plan, i, k);
        MidwayTouched(ts, plan, k, i, a.target, q);
      } else {
        forall i | 0 <= i < k ensures !Touches(plan[i], a.target, q) {
          assert plan[i] in plan;
        }
        Midway(ts, plan, k, a.target, q);
      }
    }
  }

  /** A deletion below another one, or below a replaced directory, comes first. */
  lemma DeletedFirst(b: Action, a: Action)
    requires b.kind == Delete && Removes(a) && IsDescendant(b.path, a.path) && a.path != ""
    ensures Before(b, a)
  {
    DescendantDeeper(b.path, a.path);
  }

  lemma EmptyMidway(ts: Trees, plan: seq<Action>, k: nat)
    requires Coherent(ts, plan) && Ordered(plan) && k < |plan|
    requires Removes(plan[k])
    requires forall i :: k < i < |plan| ==> !PullsFromRemoved(plan, i, k)
    ensures Empty(Outcome(ts, plan[..k]).On(plan[k].target), plan[k].path)
  {
    var a := plan[k];
    assert a in plan && Recorded(ts, a) && SubtreeCleared(ts, plan, a);
    var now := Outcome(ts, plan[..k]).On(a.target);
    forall c | c in now ensures !IsDescendant(c, a.path) {
      if IsDescendant(c, a.path) {
        if c in ts.On(a.target) {
          ClearedMidway(ts, plan, k, c);
        } else {
          forall i | 0 <= i < k ensures !Touches(plan[i], a.target, c) {
            assert plan[i] in plan && Recorded(ts, plan[i]);
          }
          Midway(ts, plan, k, a.target, c);
        }
      }
    }
  }

  lemma ClearedMidway(ts: Trees, plan: seq<Action>, k: nat, c: Path)
    requires Coherent(ts, plan) && Ordered(plan) && k < |plan|
    requires Removes(plan[k])
    requires forall i :: k < i < |plan| ==> !PullsFromRemoved(plan, i, k)
    requires c in ts.On(plan[k].target) && IsDescendant(c, plan[k].path)
    ensures c !in Outcome(ts, plan[..k]).On(plan[k].target)
  {
    var a := plan[k];
    assert a in plan && Recorded(ts, a) && SubtreeCleared(ts, plan, a);
    var b :| b in plan && Clears(b, a.target, c);
    var i :| 0 <= i < |plan| && plan[i] == b;
    DescendantDeeper(c, a.path);
    if b.kind == Delete {
      DeletedFirst(b, a);
      BeforeIndex(plan, i, k);
    } else {
      assert i != k;
      var pulled := PullsFromRemoved(plan, i, k);
      assert i < k by {
        assert k < i ==> !pulled;
      }
      assert Recorded(ts, b);
      assert b.path != c;
    }
    MidwayTouched(ts, plan, k, i, a.target, c);
  }

  /** A prefix runs to its intended outcome as long as no step in it removes a
      directory that a later move still needs. */
  lemma {:induction false} RunPrefix(ts: Trees, plan: seq<Action>, k: nat)
    requires Coherent(ts, plan) && Ordered(plan) && k <= |plan|
    requires forall a :: a in plan && Writes(a) ==> Normal(a.path)
    requires forall i, j :: 0 <= j < k && j < i < |plan| ==> !PullsFromRemoved(plan, i, j)
    ensures Run(ts, plan[..k]) == Some(Outcome(ts, plan[..k]))
  {
    if k > 0 {
      RunPrefix(ts, plan, k - 1);
      assert plan[..k][..k - 1] == plan[..k - 1];
      ReadyMidway(ts, plan, k - 1);
    }
  }

  lemma ReadyMidway(ts: Trees, plan: seq<Action>, k: nat)
    requires Coherent(ts, plan) && Ordered(plan) && k < |plan|
    requires forall a :: a in plan && Writes(a) ==> Normal(a.path)
    requires forall i :: k < i < |plan| ==> !PullsFromRemoved(plan, i, k)
    ensures Ready(Outcome(ts, plan[..k]), plan[k])
  {
    RecordedMidway(ts, plan, k);
    if Writes(plan[k]) { ParentMidway(ts, plan, k); }
    if Removes(plan[k]) { EmptyMidway(ts, plan, k); }
  }

  lemma {:induction false} RunStuck(ts: Trees, plan: seq<Action>, k: nat)
    requires k <= |plan| && Run(ts, plan[..k]) == None
    ensures Run(ts, plan) == None
    decreases |plan|
  {
    if k == |plan| {
      assert plan[..k] == plan;
    } else {
      assert plan[..|plan| - 1][..k] == plan[..k];
      RunStuck(ts, plan[..|plan| - 1], k);
    }
  }

  /** Executable order: a coherent plan in plan order runs every step safely to
      the intended outcome exactly when it moves no file out of a directory
      that an earlier step removes; otherwise the run stops. */
  lemma RunSucceedsExactly(ts: Trees, plan: seq<Action>)
    requires Coherent(ts, plan) && Ordered(plan)
    requires forall a :: a in plan && Writes(a) ==> Normal(a.path)
    ensures if MovesPrecedeRemovals(plan) then Run(ts, plan) == Some(Outcome(ts, plan))
            else Run(ts, plan) == None
  {
    if MovesPrecedeRemovals(plan) {
      assert plan[..|plan|] == plan;
      RunPrefix(ts, plan, |plan|);
    } else {
      var i, j :| 0 <= j < i < |plan| && PullsFromRemoved(plan, i, j);
      var m, n := FirstPull(plan, i, j);
      RunStopsAt(ts, plan, m, n);
    }
  }

  /** The earliest removal that some later move still needs. */
  lemma {:induction false} FirstPull(plan: seq<Action>, i: nat, j: nat) returns (m: nat, n: nat)
    requires j < i < |plan| && PullsFromRemoved(plan, i, j)
    ensures n < m < |plan| && PullsFromRemoved(plan, m, n)
    ensures forall x, y :: 0 <= y < n && y < x < |plan| ==> !PullsFromRemoved(plan, x, y)
    decreases j
  {
    if x, y :| 0 <= y < j && y < x < |plan| && PullsFromRemoved(plan, x, y) {
      m, n := FirstPull(plan, x, y);
    } else {
      m, n := i, j;
    }
  }

  lemma RunStopsAt(ts: Trees, plan: seq<Action>, m: nat, n: nat)
    requires Coherent(ts, plan) && Ordered(plan)
    requires forall a :: a in plan && Writes(a) ==> Normal(a.path)
    requires n < m < |plan| && PullsFromRemoved(plan, m, n)
    requires forall x, y :: 0 <= y < n && y < x < |plan| ==> !PullsFromRemoved(plan, x, y)
    ensures Run(ts, plan) == None
  {
    RunPrefix(ts, plan, n);
    RemovalNotReady(ts, plan, m, n);
    assert plan[..n + 1][..n] == plan[..n];
    RunStuck(ts, plan, n + 1);
  }

  lemma RemovalNotReady(ts: Trees, plan: seq<Action>, i: nat, j: nat)
    requires Coherent(ts, plan)
    requires j < i < |plan| && PullsFromRemoved(plan, i, j)
    ensures !Ready(Outcome(ts, plan[..j]), plan[j])
  {
    var m := plan[i];
    assert m in plan && Recorded(ts, m);
    assert Touches(m, m.target, m.fromPath);
    forall x | 0 <= x < j ensures !Touches(plan[x], m.target, m.fromPath) {
      if Touches(plan[x], m.target, m.fromPath) { TouchedOnce(plan, x, i, m.target, m.fromPath); }
    }
    Midway(ts, plan, j, m.target, m.fromPath);
  }

  // ----- What a coherent plan leaves at one path

  lemma TouchedPath(ts: Trees, plan: seq<Action>, a: Action, side: Side, p: Path)
    requires Coherent(ts, plan) && a in plan && side != NoSide && Touches(a, side, p)
    ensures Find(Outcome(ts, plan).On(side), p) == Left(a, p)
  {
    var i :| 0 <= i < |plan| && plan[i] == a;
    assert plan[..|plan|] == plan;
    MidwayTouched(ts, plan, |plan|, i, side, p);
  }

  lemma UntouchedPath(ts: Trees, plan: seq<Action>, side: Side, p: Path)
    requires Coherent(ts, plan) && side != NoSide && Untouched(plan, side, p)
    ensures Find(Outcome(ts, plan).On(side), p) == Find(ts.On(side), p)
  {
    OutcomeUntouched(ts, plan, side, p);
  }

  /** A step other than a skip decides its path on its target side and leaves
      the other side alone. */
  lemma StepDecides(ts: Trees, plan: seq<Action>, s: Action)
    requires Coherent(ts, plan) && s in plan && s.kind != Skip
    ensures s.target != NoSide
    ensures Find(Outcome(ts, plan).On(s.target), s.path) == Left(s, s.path)
    ensures Find(Outcome(ts, plan).On(Opposite(s.target)), s.path) == Find(ts.On(Opposite(s.target)), s.path)
  {
    assert Recorded(ts, s);
    TouchedPath(ts, plan, s, s.target, s.path);
    forall a | a in plan ensures !Touches(a, Opposite(s.target), s.path) {
      if a.path == s.path { OneStepPerPath(plan, a, s); }
    }
    UntouchedPath(ts, plan, Opposite(s.target), s.path);
  }

  lemma OneStepPerPath(plan: seq<Action>, a: Action, b: Action)
    requires DistinctPaths(plan) && a in plan && b in plan && a.path == b.path
    ensures a == b
  {
    var i :| 0 <= i < |plan| && plan[i] == a;
    var j :| 0 <= j < |plan| && plan[j] == b;
  }

  /** A skipped path keeps what it had on a side unless a move there empties
      it. */
  lemma SkipDecides(ts: Trees, plan: seq<Action>, s: Action, side: Side)
    requires Coherent(ts, plan) && s in plan && s.kind == Skip && side != NoSide
    ensures (exists m :: m in plan && m.kind == Move && Clears(m, side, s.path)) ==>
              Find(Outcome(ts, plan).On(side), s.path) == None
    ensures (forall m :: m in plan && m.kind == Move ==> !Clears(m, side, s.path)) ==>
              Find(Outcome(ts, plan).On(side), s.path) == Find(ts.On(side), s.path)
  {
    if m :| m in plan && m.kind == Move && Clears(m, side, s.path) {
      if m.path == s.path { OneStepPerPath(plan, m, s); }
      TouchedPath(ts, plan, m, side, s.path);
    } else {
      forall a | a in plan ensures !Touches(a, side, s.path) {
        if a.path == s.path { OneStepPerPath(plan, a, s); }
      }
      UntouchedPath(ts, plan, side, s.path);
    }
  }

  /** Coherence does not depend on the order of the plan. */
  lemma CoherentWhenSorted(ts: Trees, plan: seq<Action>)
    requires Coherent(ts, plan)
    ensures Coherent(ts, Sorted(plan)) && Ordered(Sorted(plan))
  {
    SortedIsSort(plan);
    var sorted := Sorted(plan);
    forall a | a in sorted && Writes(a) && a.path != "" ensures ParentPlanned(ts, sorted, a) {
      assert ParentPlanned(ts, plan, a);
    }
    forall a | a in sorted && Removes(a) ensures SubtreeCleared(ts, sorted, a) {
      assert SubtreeCleared(ts, plan, a);
    }
  }

  lemma {:induction false} RunIsOutcome(ts: Trees, plan: seq<Action>)
    requires Run(ts, plan).Some?
    ensures Run(ts, plan).value == Outcome(ts, plan)
  {
    if plan != [] {
      RunIsOutcome(ts, plan[..|plan| - 1]);
    }
  }
}
