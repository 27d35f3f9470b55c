/** The run as the executor does it. Before a step it looks its entries up again
    and compares them with the recorded ones; a removed directory takes everything
    below it along. The trees may hold more than the planner was shown. */
module Sweeping {
  import opened Common
  import opened Paths
  import opened Entries
  import opened Actions
  import opened Executor

  function Without(t: Snapshot, directory: Path): Snapshot {
    map p | p in t && p != directory && !IsDescendant(p, directory) :: t[p]
  }

  function SweepingEffect(ts: Trees, a: Action): Trees {
    if Removes(a) && a.target != NoSide
    then Effect(ts.With(a.target, Without(ts.On(a.target), a.path)), a)
    else Effect(ts, a)
  }

  function SweepingOutcome(ts: Trees, plan: seq<Action>): Trees {
    if plan == [] then ts
    else SweepingEffect(SweepingOutcome(ts, plan[..|plan| - 1]), plan[|plan| - 1])
  }

  /** What is looked up before a step: a bidirectional run also asks for the
      source. On side `strict` a path below a file is an error, where elsewhere
      it is absent: `os.Lstat` gives ENOTDIR on Unix. */
  datatype Checks = Checks(source: bool, strict: Side)

  predicate BelowFile(t: Snapshot, p: Path) {
    exists q :: q in t && t[q].typ == File && IsDescendant(p, q)
  }

  /** The lookup of one path agrees with the recorded entry. */
  predicate Confirms(t: Snapshot, p: Path, recorded: Entry, strict: bool) {
    if p in t then t[p].Equal(recorded)
    else !recorded.Present() && !(strict && BelowFile(t, p))
  }

  predicate Confirmed(x: Checks, now: Trees, side: Side, p: Path, recorded: Entry) {
    Confirms(now.On(side), p, recorded, x.strict == side)
  }

  predicate Passes(x: Checks, now: Trees, a: Action) {
    match a.kind
    case Skip => true
    case Conflict => false
    case Copy => false
    case _ =>
      && a.target != NoSide
      && (x.source ==> Confirmed(x, now, Opposite(a.target), a.path, a.source))
      && if a.kind == Move
         then a.fromPath != "" && Confirmed(x, now, a.target, a.fromPath, a.destination)
              && Confirmed(x, now, a.target, a.path, ZERO)
         else Confirmed(x, now, a.target, a.path, a.destination)
  }

  /** The run stops at the first step that does not pass. */
  function SweepingRun(x: Checks, ts: Trees, plan: seq<Action>): Option<Trees> {
    if plan == [] then Some(ts)
    else
      match SweepingRun(x, ts, plan[..|plan| - 1])
      case None => None
      case Some(now) =>
        var a := plan[|plan| - 1];
        if Passes(x, now, a) then Some(SweepingEffect(now, a)) else None
  }

  // ----- What happens to a path no step is about

  predicate Buries(a: Action, side: Side, c: Path) {
    a.target == side && Removes(a) && IsDescendant(c, a.path)
  }

  ghost predicate Buried(plan: seq<Action>, side: Side, c: Path) {
    exists a :: a in plan && Buries(a, side, c)
  }

  /** A path no step is about is gone exactly when it lay in a removed directory. */
  lemma {:induction false} Leftover(raw: Trees, plan: seq<Action>, side: Side, c: Path)
    requires side != NoSide && Untouched(plan, side, c)
    requires forall a :: a in plan && a.kind != Skip ==> a.target != NoSide
    ensures Find(SweepingOutcome(raw, plan).On(side), c)
            == if Buried(plan, side, c) then None else Find(raw.On(side), c)
  {
    if plan != [] {
      var init, last := plan[..|plan| - 1], plan[|plan| - 1];
      assert plan == init + [last];
      Leftover(raw, init, side, c);
      assert Buried(plan, side, c) <==> Buried(init, side, c) || Buries(last, side, c);
      LastLeftover(SweepingOutcome(raw, init), last, side, c);
    }
  }

  lemma LastLeftover(ts: Trees, a: Action, side: Side, c: Path)
    requires side != NoSide && !Touches(a, side, c) && (a.kind != Skip ==> a.target != NoSide)
    ensures Find(SweepingEffect(ts, a).On(side), c) == if Buries(a, side, c) then None else Find(ts.On(side), c)
  {
    if a.target == side && Removes(a) {
      assert c != a.path;
      var t := Without(ts.On(side), a.path);
      assert c in t <==> c in ts.On(side) && !IsDescendant(c, a.path);
    }
  }

  /** A path one step is about is as that step leaves it, or gone with a
      directory above it. */
  lemma {:induction false} SweptTouched(raw: Trees, plan: seq<Action>, i: nat, side: Side, p: Path)
    requires side != NoSide && i < |plan| && Touches(plan[i], side, p)
    requires forall j :: 0 <= j < |plan| && j != i ==> !Touches(plan[j], side, p)
    requires forall a :: a in plan && a.kind != Skip ==> a.target != NoSide
    ensures var found := Find(SweepingOutcome(raw, plan).On(side), p); found == None || found == Left(plan[i], p)
  {
    var init, last := plan[..|plan| - 1], plan[|plan| - 1];
    assert plan == init + [last];
    if i < |plan| - 1 {
      SweptTouched(raw, init, i, side, p);
      LastLeftover(SweepingOutcome(raw, init), last, side, p);
    } else {
      LastTouched(SweepingOutcome(raw, init), last, side, p);
    }
  }

  lemma LastTouched(ts: Trees, a: Action, side: Side, p: Path)
    requires side != NoSide && Touches(a, side, p)
    ensures Find(SweepingEffect(ts, a).On(side), p) == Left(a, p)
  {
  }

  // ----- Where a safe run and a sweeping one agree

  lemma StepAgrees(ts: Trees, raw: Trees, a: Action, side: Side, p: Path)
    requires Ready(ts, a) && side != NoSide && Find(raw.On(side), p) == Find(ts.On(side), p)
    ensures Find(SweepingEffect(raw, a).On(side), p) == Find(Effect(ts, a).On(side), p)
  {
    if Removes(a) && a.target == side {
      assert IsDescendant(p, a.path) ==> p !in ts.On(side);
    }
  }

  /** Wherever trees agree with those a safe run was made for, they still do when
      the same plan has swept through them. */
  lemma {:induction false} RunAgrees(ts: Trees, raw: Trees, plan: seq<Action>, side: Side, p: Path)
    requires Run(ts, plan).Some? && side != NoSide && Find(raw.On(side), p) == Find(ts.On(side), p)
    ensures Find(SweepingOutcome(raw, plan).On(side), p) == Find(Run(ts, plan).value.On(side), p)
  {
    if plan != [] {
      var init, last := plan[..|plan| - 1], plan[|plan| - 1];
      RunAgrees(ts, raw, init, side, p);
      StepAgrees(Run(ts, init).value, SweepingOutcome(raw, init), last, side, p);
    }
  }

  lemma SafeStepSweeps(now: Trees, a: Action)
    requires Ready(now, a)
    ensures SweepingEffect(now, a) == Effect(now, a)
  {
    if Removes(a) {
      var t := now.On(a.target);
      assert Without(t, a.path) == t - {a.path};
      assert t - {a.path} - {a.path} == t - {a.path};
      assert (t - {a.path})[a.path := a.source] == t[a.path := a.source];
    }
  }

  /** A safe run sweeps nothing along. */
  lemma {:induction false} SafeRunSweeps(ts: Trees, plan: seq<Action>)
    requires Run(ts, plan).Some?
    ensures SweepingOutcome(ts, plan) == Run(ts, plan).value
  {
    if plan != [] {
      var init, last := plan[..|plan| - 1], plan[|plan| - 1];
      SafeRunSweeps(ts, init);
      SafeStepSweeps(Run(ts, init).value, last);
    }
  }

  // ----- A run goes on as long as its steps pass

  ghost predicate PassesAt(x: Checks, raw: Trees, plan: seq<Action>, k: nat)
    requires k < |plan|
  {
    Passes(x, SweepingOutcome(raw, plan[..k]), plan[k])
  }

  ghost predicate AllPass(x: Checks, raw: Trees, plan: seq<Action>, k: nat)
    requires k <= |plan|
  {
    forall i :: 0 <= i < k ==> PassesAt(x, raw, plan, i)
  }

  /** Up to its first failing check a run has every effect. */
  lemma {:induction false} RunIsPasses(x: Checks, raw: Trees, plan: seq<Action>, k: nat)
    requires k <= |plan|
    ensures SweepingRun(x, raw, plan[..k])
            == if AllPass(x, raw, plan, k) then Some(SweepingOutcome(raw, plan[..k])) else None
  {
    if k > 0 {
      RunIsPasses(x, raw, plan, k - 1);
      assert plan[..k][..k - 1] == plan[..k - 1] && plan[..k][k - 1] == plan[k - 1];
      assert AllPass(x, raw, plan, k) <==> AllPass(x, raw, plan, k - 1) && PassesAt(x, raw, plan, k - 1);
    }
  }

  lemma RunReachesOutcome(x: Checks, raw: Trees, plan: seq<Action>)
    requires SweepingRun(x, raw, plan).Some?
    ensures SweepingRun(x, raw, plan).value == SweepingOutcome(raw, plan)
    ensures forall a :: a in plan && a.kind != Skip ==> a.target != NoSide
  {
    assert plan[..|plan|] == plan;
    RunIsPasses(x, raw, plan, |plan|);
    forall a | a in plan && a.kind != Skip ensures a.target != NoSide {
      var k :| 0 <= k < |plan| && plan[k] == a;
      assert PassesAt(x, raw, plan, k);
    }
  }

  /** After a run that gets through, a path that no step is about is gone exactly
      when it lay in a directory the run removed. */
  lemma LeftByRun(x: Checks, raw: Trees, plan: seq<Action>, side: Side, c: Path)
    requires SweepingRun(x, raw, plan).Some? && side != NoSide && Untouched(plan, side, c)
    ensures Find(SweepingRun(x, raw, plan).value.On(side), c)
            == if Buried(plan, side, c) then None else Find(raw.On(side), c)
  {
    RunReachesOutcome(x, raw, plan);
    Leftover(raw, plan, side, c);
  }

  /** Wherever the trees agree with those a safe run was made for, a run that gets
      through leaves what the safe run leaves. */
  lemma AgreesAfterRun(x: Checks, ts: Trees, raw: Trees, plan: seq<Action>, side: Side, p: Path)
    requires Run(ts, plan).Some? && SweepingRun(x, raw, plan).Some? && side != NoSide
    requires Find(raw.On(side), p) == Find(ts.On(side), p)
    ensures Find(SweepingRun(x, raw, plan).value.On(side), p) == Find(Run(ts, plan).value.On(side), p)
  {
    RunReachesOutcome(x, raw, plan);
    RunAgrees(ts, raw, plan, side, p);
  }

  // ----- When a step of a coherent plan passes

  predicate Contains(raw: Snapshot, s: Snapshot) {
    forall p :: p in s ==> p in raw && raw[p] == s[p]
  }

  /** Scanned trees that hold at least what is in `ts`. */
  predicate Widens(raw: Trees, ts: Trees) {
    && Scanned(raw.local) && Scanned(raw.remote)
    && Contains(raw.local, ts.local) && Contains(raw.remote, ts.remote)
  }

  /** A coherent plan in plan order, made for `ts`, and trees that hold at least
      that. */
  ghost predicate Applicable(x: Checks, ts: Trees, raw: Trees, plan: seq<Action>) {
    && Coherent(ts, plan) && Ordered(plan) && (forall a :: a in plan && Writes(a) ==> Normal(a.path))
    && WellFormed(ts) && Widens(raw, ts)
    && (x.source ==> forall a :: a in plan && Removes(a) ==> a.path != "")
  }

  predicate ShownAs(ts: Trees, raw: Trees, side: Side, p: Path) {
    Find(raw.On(side), p) == Find(ts.On(side), p)
  }

  /** The planner was shown the path of the step as it is wherever it is looked
      up. */
  predicate Shows(x: Checks, ts: Trees, raw: Trees, a: Action) {
    ShownAs(ts, raw, a.target, a.path) && (x.source ==> ShownAs(ts, raw, Opposite(a.target), a.path))
  }

  predicate Recognised(e: Entry) {
    e.Present() ==> e.Fingerprinted()
  }

  /** The recorded entries can be compared at all. */
  predicate Comparable(x: Checks, a: Action) {
    (x.source ==> Recognised(a.source)) && Recognised(a.destination)
  }

  /** A deletion whose path, on the source side, now lies below a file. */
  predicate Obstructed(x: Checks, raw: Trees, a: Action) {
    && x.source && a.kind == Delete && x.strict == Opposite(a.target)
    && a.path !in raw.On(x.strict) && BelowFile(raw.On(x.strict), a.path)
  }

  predicate Meets(x: Checks, ts: Trees, raw: Trees, a: Action) {
    a.kind != Skip ==> Shows(x, ts, raw, a) && Comparable(x, a) && !Obstructed(x, raw, a)
  }

  ghost predicate Pulled(plan: seq<Action>, k: nat)
    requires k < |plan|
  {
    exists j :: 0 <= j < k && PullsFromRemoved(plan, k, j)
  }

  lemma Earlier(ts: Trees, plan: seq<Action>, k: nat)
    requires Coherent(ts, plan) && k <= |plan|
    ensures forall a :: a in plan[..k] ==> a in plan && (a.kind != Skip ==> a.target != NoSide)
  {
    forall a | a in plan[..k] ensures a in plan && (a.kind != Skip ==> a.target != NoSide) {
      assert a in plan && Recorded(ts, a);
    }
  }

  /** A path not touched by the first k steps is as it was, unless it was in a
      directory one of them removed. */
  lemma SweptMidway(ts: Trees, raw: Trees, plan: seq<Action>, k: nat, side: Side, p: Path)
    requires Coherent(ts, plan) && k <= |plan| && side != NoSide
    requires forall i :: 0 <= i < k ==> !Touches(plan[i], side, p)
    requires p in raw.On(side) ==> forall i :: 0 <= i < k ==> !Buries(plan[i], side, p)
    ensures Find(SweepingOutcome(raw, plan[..k]).On(side), p) == Find(raw.On(side), p)
  {
    Earlier(ts, plan, k);
    Leftover(raw, plan[..k], side, p);
  }

  lemma PathUntouched(ts: Trees, plan: seq<Action>, k: nat, side: Side)
    requires Coherent(ts, plan) && k < |plan| && plan[k].kind != Skip
    ensures forall i :: 0 <= i < k ==> !Touches(plan[i], side, plan[k].path)
  {
    var a := plan[k];
    forall i | 0 <= i < k ensures !Touches(plan[i], side, a.path) {
      assert plan[i] in plan && a in plan && plan[i].path != a.path;
    }
  }

  /** The one step that is about a path is not preceded by the removal of a
      directory above it, unless it is a move out of there. */
  lemma NotBuriedBefore(ts: Trees, plan: seq<Action>, k: nat, j: nat, side: Side)
    requires Coherent(ts, plan) && Ordered(plan) && j < k < |plan| && side != NoSide
    requires plan[k].kind != Skip && plan[k].path in ts.On(side)
    ensures !Buries(plan[j], side, plan[k].path)
  {
    var a, r := plan[k], plan[j];
    if Buries(r, side, a.path) {
      assert r in plan && a in plan && SubtreeCleared(ts, plan, r);
      var b :| b in plan && Clears(b, side, a.path);
      if b.kind == Delete {
        OneStepPerPath(plan, a, b);
        DeletedFirst(a, r);
        BeforeIndex(plan, k, j);
      }
    }
  }

  /** What precedes a deletion is a deletion, and not of anything shallower. */
  lemma BeforeDeletion(ts: Trees, plan: seq<Action>, k: nat, i: nat)
    requires Coherent(ts, plan) && Ordered(plan) && i < k < |plan| && plan[k].kind == Delete
    ensures plan[i].kind == Delete && Depth(plan[i].path) >= Depth(plan[k].path)
  {
    assert plan[i] in plan && Recorded(ts, plan[i]);
    assert !Before(plan[k], plan[i]);
  }

  /** Hence it removes nothing at a shallower path or above this one. */
  lemma DeletionNotPreempted(x: Checks, ts: Trees, raw: Trees, plan: seq<Action>, k: nat, i: nat, side: Side, q: Path)
    requires Applicable(x, ts, raw, plan) && x.source && i < k < |plan| && plan[k].kind == Delete
    requires q == plan[k].path || (q != "" && IsDescendant(plan[k].path, q))
    ensures !Buries(plan[i], side, q)
    ensures q != plan[k].path ==> !Touches(plan[i], side, q)
  {
    BeforeDeletion(ts, plan, k, i);
    assert plan[i] in plan;
    if q != plan[k].path { DescendantDeeper(plan[k].path, q); }
    if IsDescendant(q, plan[i].path) { DescendantDeeper(q, plan[i].path); }
  }

  /** At the path of a step nothing happens before its turn. */
  lemma PathSwept(ts: Trees, raw: Trees, plan: seq<Action>, k: nat, side: Side)
    requires Coherent(ts, plan) && Ordered(plan) && k < |plan| && plan[k].kind != Skip && side != NoSide
    requires plan[k].path in raw.On(side) ==> plan[k].path in ts.On(side)
    ensures Find(SweepingOutcome(raw, plan[..k]).On(side), plan[k].path) == Find(raw.On(side), plan[k].path)
  {
    var a := plan[k];
    PathUntouched(ts, plan, k, side);
    forall i | 0 <= i < k && a.path in raw.On(side) ensures !Buries(plan[i], side, a.path) {
      NotBuriedBefore(ts, plan, k, i, side);
    }
    SweptMidway(ts, raw, plan, k, side, a.path);
  }

  /** An entry the planner was not shown is still there when its path is written. */
  lemma HiddenTargetStays(x: Checks, ts: Trees, raw: Trees, plan: seq<Action>, k: nat)
    requires Applicable(x, ts, raw, plan) && k < |plan| && plan[k].kind != Skip
    requires plan[k].path !in ts.On(plan[k].target)
    ensures plan[k].target != NoSide && Writes(plan[k])
    ensures Find(SweepingOutcome(raw, plan[..k]).On(plan[k].target), plan[k].path)
            == Find(raw.On(plan[k].target), plan[k].path)
  {
    var a := plan[k];
    assert a in plan && Recorded(ts, a);
    PathUntouched(ts, plan, k, a.target);
    forall i | 0 <= i < k ensures !Buries(plan[i], a.target, a.path) {
      assert plan[i] in plan && (Removes(plan[i]) ==> SubtreeCleared(ts, plan, plan[i]));
    }
    SweptMidway(ts, raw, plan, k, a.target, a.path);
  }

  /** Nor does anything happen to it on the source side of a deletion. */
  lemma HiddenSourceStays(x: Checks, ts: Trees, raw: Trees, plan: seq<Action>, k: nat)
    requires Applicable(x, ts, raw, plan) && x.source && k < |plan| && plan[k].kind != Skip
    requires plan[k].path !in ts.On(Opposite(plan[k].target))
    ensures plan[k].target != NoSide && plan[k].kind == Delete && !plan[k].source.Present()
    ensures Find(SweepingOutcome(raw, plan[..k]).On(Opposite(plan[k].target)), plan[k].path)
            == Find(raw.On(Opposite(plan[k].target)), plan[k].path)
  {
    var a := plan[k];
    assert a in plan && Recorded(ts, a);
    PathUntouched(ts, plan, k, Opposite(a.target));
    forall i | 0 <= i < k ensures !Buries(plan[i], Opposite(a.target), a.path) {
      DeletionNotPreempted(x, ts, raw, plan, k, i, Opposite(a.target), a.path);
    }
    SweptMidway(ts, raw, plan, k, Opposite(a.target), a.path);
  }

  // ----- Nothing is looked up below a file by mistake

  lemma WritesHaveSource(ts: Trees, plan: seq<Action>, i: nat)
    requires Coherent(ts, plan) && i < |plan| && Writes(plan[i])
    ensures plan[i].target != NoSide && plan[i].path in ts.On(Opposite(plan[i].target))
    ensures plan[i].kind != CreateDirectory ==> ts.On(Opposite(plan[i].target))[plan[i].path].typ == File
    ensures plan[i].kind == CreateDirectory ==> plan[i].source.typ == Directory
  {
    assert plan[i] in plan && Recorded(ts, plan[i]);
  }

  /** The directory of a path written below a file is created before. */
  lemma ParentIsCreated(x: Checks, ts: Trees, raw: Trees, plan: seq<Action>, k: nat, q: Path) returns (i: nat)
    requires Applicable(x, ts, raw, plan) && k < |plan| && Writes(plan[k])
    requires q in raw.On(plan[k].target) && raw.On(plan[k].target)[q].typ == File && IsDescendant(plan[k].path, q)
    ensures i < k && CreatesAt(plan[i], plan[k].target, Parent(plan[k].path))
    ensures Parent(plan[k].path) == q || IsDescendant(Parent(plan[k].path), q)
  {
    var a := plan[k];
    assert a in plan && ParentPlanned(ts, plan, a);
    ParentOfDescendant(a.path, q);
    WritesHaveSource(ts, plan, k);
    if HasParent(ts.On(a.target), a.path) && Parent(a.path) != q {
      AncestorsAreDirectories(ts.On(a.target), Parent(a.path), q);
    }
    var b :| b in plan && CreatesAt(b, a.target, Parent(a.path));
    i :| 0 <= i < |plan| && plan[i] == b;
    ParentFirst(b, a);
    BeforeIndex(plan, i, k);
  }

  lemma {:induction false} FileAboveIsTouched(x: Checks, ts: Trees, raw: Trees, plan: seq<Action>, k: nat, q: Path)
    returns (i: nat)
    requires Applicable(x, ts, raw, plan) && k < |plan| && Writes(plan[k])
    requires q in raw.On(plan[k].target) && raw.On(plan[k].target)[q].typ == File && IsDescendant(plan[k].path, q)
    ensures i < k && Touches(plan[i], plan[k].target, q)
    decreases k
  {
    i := ParentIsCreated(x, ts, raw, plan, k, q);
    if Parent(plan[k].path) != q {
      i := FileAboveIsTouched(x, ts, raw, plan, i, q);
    }
  }

  /** A touched path is as its step left it, or gone. */
  lemma TouchedMidway(ts: Trees, raw: Trees, plan: seq<Action>, k: nat, i: nat, side: Side, p: Path)
    requires Coherent(ts, plan) && i < k <= |plan| && side != NoSide && Touches(plan[i], side, p)
    ensures var found := Find(SweepingOutcome(raw, plan[..k]).On(side), p); found == None || found == Left(plan[i], p)
  {
    forall j | 0 <= j < |plan[..k]| && j != i ensures !Touches(plan[..k][j], side, p) {
      if Touches(plan[j], side, p) { TouchedOnce(plan, i, j, side, p); }
    }
    Earlier(ts, plan, k);
    SweptTouched(raw, plan[..k], i, side, p);
  }

  /** An untouched path is as it was, or gone. */
  lemma UntouchedMidway(ts: Trees, raw: Trees, plan: seq<Action>, k: nat, side: Side, p: Path)
    requires Coherent(ts, plan) && k <= |plan| && side != NoSide
    requires forall i :: 0 <= i < k ==> !Touches(plan[i], side, p)
    ensures var found := Find(SweepingOutcome(raw, plan[..k]).On(side), p);
            found == None || found == Find(raw.On(side), p)
  {
    Earlier(ts, plan, k);
    Leftover(raw, plan[..k], side, p);
  }

  /** Nor is a file put above a path that is written later. */
  lemma LeavesNoFileAbove(x: Checks, ts: Trees, raw: Trees, plan: seq<Action>, k: nat, i: nat, q: Path)
    requires Applicable(x, ts, raw, plan) && i < k < |plan| && Writes(plan[k])
    requires IsDescendant(plan[k].path, q) && Touches(plan[i], plan[k].target, q)
    ensures Left(plan[i], q) == None || Left(plan[i], q).value.typ == Directory
  {
    WritesHaveSource(ts, plan, k);
    AncestorsAreDirectories(ts.On(Opposite(plan[k].target)), plan[k].path, q);
    if Writes(plan[i]) { WritesHaveSource(ts, plan, i); }
  }

  lemma NoFileAbove(x: Checks, ts: Trees, raw: Trees, plan: seq<Action>, k: nat, q: Path)
    requires Applicable(x, ts, raw, plan) && k < |plan| && Writes(plan[k]) && IsDescendant(plan[k].path, q)
    ensures var now := SweepingOutcome(raw, plan[..k]).On(plan[k].target);
            q in now ==> now[q].typ != File
  {
    WritesHaveSource(ts, plan, k);
    if i :| 0 <= i < k && Touches(plan[i], plan[k].target, q) {
      TouchedMidway(ts, raw, plan, k, i, plan[k].target, q);
      LeavesNoFileAbove(x, ts, raw, plan, k, i, q);
    } else {
      UntouchedMidway(ts, raw, plan, k, plan[k].target, q);
      if q in raw.On(plan[k].target) && raw.On(plan[k].target)[q].typ == File {
        var i := FileAboveIsTouched(x, ts, raw, plan, k, q);
      }
    }
  }

  lemma WrittenBelowNoFile(x: Checks, ts: Trees, raw: Trees, plan: seq<Action>, k: nat)
    requires Applicable(x, ts, raw, plan) && k < |plan| && Writes(plan[k])
    ensures !BelowFile(SweepingOutcome(raw, plan[..k]).On(plan[k].target), plan[k].path)
  {
    forall q | IsDescendant(plan[k].path, q)
      ensures var now := SweepingOutcome(raw, plan[..k]).On(plan[k].target);
              q in now ==> now[q].typ != File
    {
      NoFileAbove(x, ts, raw, plan, k, q);
    }
  }

  /** Deletions bring no file about. */
  lemma DeletionsLeave(ts: Trees, raw: Trees, plan: seq<Action>, k: nat, side: Side, q: Path)
    requires Coherent(ts, plan) && Ordered(plan) && k < |plan| && plan[k].kind == Delete && side != NoSide
    ensures var found := Find(SweepingOutcome(raw, plan[..k]).On(side), q);
            found == None || found == Find(raw.On(side), q)
  {
    if i :| 0 <= i < k && Touches(plan[i], side, q) {
      BeforeDeletion(ts, plan, k, i);
      TouchedMidway(ts, raw, plan, k, i, side, q);
    } else {
      UntouchedMidway(ts, raw, plan, k, side, q);
    }
  }

  lemma FileStaysAbove(x: Checks, ts: Trees, raw: Trees, plan: seq<Action>, k: nat, side: Side, q: Path)
    requires Applicable(x, ts, raw, plan) && x.source && k < |plan| && plan[k].kind == Delete && side != NoSide
    requires q in raw.On(side) && raw.On(side)[q].typ == File && IsDescendant(plan[k].path, q)
    ensures Find(SweepingOutcome(raw, plan[..k]).On(side), q) == Find(raw.On(side), q)
  {
    DescendantDeeper(plan[k].path, q);
    forall i | 0 <= i < k ensures !Touches(plan[i], side, q) && !Buries(plan[i], side, q) {
      DeletionNotPreempted(x, ts, raw, plan, k, i, side, q);
    }
    SweptMidway(ts, raw, plan, k, side, q);
  }

  lemma SameFilesAbove(x: Checks, ts: Trees, raw: Trees, plan: seq<Action>, k: nat, side: Side)
    requires Applicable(x, ts, raw, plan) && x.source && k < |plan| && plan[k].kind == Delete && side != NoSide
    ensures BelowFile(SweepingOutcome(raw, plan[..k]).On(side), plan[k].path)
            <==> BelowFile(raw.On(side), plan[k].path)
  {
    var now := SweepingOutcome(raw, plan[..k]).On(side);
    if q :| q in now && now[q].typ == File && IsDescendant(plan[k].path, q) {
      DeletionsLeave(ts, raw, plan, k, side, q);
      assert q in raw.On(side) && raw.On(side)[q].typ == File;
    }
    if q :| q in raw.On(side) && raw.On(side)[q].typ == File && IsDescendant(plan[k].path, q) {
      FileStaysAbove(x, ts, raw, plan, k, side, q);
      assert q in now && now[q].typ == File;
    }
  }

  // ----- The checks, one by one

  lemma PresentConfirmed(t: Snapshot, p: Path, e: Entry, strict: bool)
    requires p in t && t[p] == e && e.Present()
    ensures Confirms(t, p, e, strict) <==> Recognised(e)
  {
    EqualReflexivity(e);
  }

  lemma SourceConfirmed(x: Checks, ts: Trees, raw: Trees, plan: seq<Action>, k: nat)
    requires Applicable(x, ts, raw, plan) && x.source && k < |plan| && plan[k].kind != Skip
    ensures var a := plan[k];
            Confirmed(x, SweepingOutcome(raw, plan[..k]), Opposite(a.target), a.path, a.source)
            <==> ShownAs(ts, raw, Opposite(a.target), a.path) && Recognised(a.source) && !Obstructed(x, raw, a)
  {
    var a, now := plan[k], SweepingOutcome(raw, plan[..k]);
    var side := Opposite(a.target);
    assert a in plan && Recorded(ts, a);
    if a.path in ts.On(side) {
      PathSwept(ts, raw, plan, k, side);
      PresentConfirmed(now.On(side), a.path, a.source, x.strict == side);
    } else {
      HiddenSourceStays(x, ts, raw, plan, k);
      SameFilesAbove(x, ts, raw, plan, k, side);
    }
  }

  lemma TargetConfirmed(x: Checks, ts: Trees, raw: Trees, plan: seq<Action>, k: nat)
    requires Applicable(x, ts, raw, plan) && k < |plan| && plan[k].kind != Skip
    ensures var a := plan[k];
            var recorded := if a.kind == Move then ZERO else a.destination;
            Confirmed(x, SweepingOutcome(raw, plan[..k]), a.target, a.path, recorded)
            <==> ShownAs(ts, raw, a.target, a.path) && Recognised(recorded)
  {
    var a, now := plan[k], SweepingOutcome(raw, plan[..k]);
    assert a in plan && Recorded(ts, a);
    if a.path in ts.On(a.target) {
      PathSwept(ts, raw, plan, k, a.target);
      PresentConfirmed(now.On(a.target), a.path, a.destination, x.strict == a.target);
    } else {
      HiddenTargetStays(x, ts, raw, plan, k);
      WrittenBelowNoFile(x, ts, raw, plan, k);
    }
  }

  lemma OriginUntouched(ts: Trees, plan: seq<Action>, k: nat)
    requires Coherent(ts, plan) && k < |plan| && plan[k].kind == Move
    ensures forall i :: 0 <= i < k ==> !Touches(plan[i], plan[k].target, plan[k].fromPath)
  {
    var a := plan[k];
    assert Touches(a, a.target, a.fromPath);
    forall i | 0 <= i < k ensures !Touches(plan[i], a.target, a.fromPath) {
      if Touches(plan[i], a.target, a.fromPath) { TouchedOnce(plan, i, k, a.target, a.fromPath); }
    }
  }

  /** A file to be moved is there unless an earlier removal took it along. */
  lemma OriginSwept(ts: Trees, raw: Trees, plan: seq<Action>, k: nat)
    requires Coherent(ts, plan) && k < |plan| && plan[k].kind == Move && plan[k].target != NoSide
    ensures Find(SweepingOutcome(raw, plan[..k]).On(plan[k].target), plan[k].fromPath)
            == if Pulled(plan, k) then None else Find(raw.On(plan[k].target), plan[k].fromPath)
  {
    var a := plan[k];
    OriginUntouched(ts, plan, k);
    Earlier(ts, plan, k);
    Leftover(raw, plan[..k], a.target, a.fromPath);
    if j :| 0 <= j < k && PullsFromRemoved(plan, k, j) {
      assert plan[..k][j] == plan[j] && Buries(plan[j], a.target, a.fromPath);
    }
    if b :| b in plan[..k] && Buries(b, a.target, a.fromPath) {
      var j :| 0 <= j < |plan[..k]| && plan[..k][j] == b;
      assert PullsFromRemoved(plan, k, j);
    }
  }

  lemma OriginConfirmed(x: Checks, ts: Trees, raw: Trees, plan: seq<Action>, k: nat)
    requires Applicable(x, ts, raw, plan) && k < |plan| && plan[k].kind == Move
    ensures plan[k].fromPath != ""
    ensures Confirmed(x, SweepingOutcome(raw, plan[..k]), plan[k].target, plan[k].fromPath, plan[k].destination)
            <==> Recognised(plan[k].destination) && !Pulled(plan, k)
  {
    var a, now := plan[k], SweepingOutcome(raw, plan[..k]);
    assert a in plan && Recorded(ts, a);
    OriginSwept(ts, raw, plan, k);
    if !Pulled(plan, k) {
      PresentConfirmed(now.On(a.target), a.fromPath, a.destination, x.strict == a.target);
    }
  }

  /** A step passes exactly when nothing it looks up was hidden from the planner,
      its entries can be compared, no file stands in the way of its source lookup
      and its file has not gone with an earlier removal. */
  lemma StepPassesExactly(x: Checks, ts: Trees, raw: Trees, plan: seq<Action>, k: nat)
    requires Applicable(x, ts, raw, plan) && k < |plan|
    ensures PassesAt(x, raw, plan, k) <==> Meets(x, ts, raw, plan[k]) && !Pulled(plan, k)
  {
    var a := plan[k];
    assert a in plan && Recorded(ts, a);
    if a.kind != Skip {
      TargetConfirmed(x, ts, raw, plan, k);
      if x.source { SourceConfirmed(x, ts, raw, plan, k); }
      if a.kind == Move { OriginConfirmed(x, ts, raw, plan, k); }
    }
  }

  // ----- When a run gets through

  ghost predicate AllMeet(x: Checks, ts: Trees, raw: Trees, plan: seq<Action>) {
    forall a :: a in plan ==> Meets(x, ts, raw, a)
  }

  /** A coherent plan in plan order runs through, on any trees that hold at least
      those it was made for, exactly when no file is moved out of a directory an
      earlier step removes and every step meets its own conditions. Otherwise the
      run stops. */
  lemma SweepingRunExactly(x: Checks, ts: Trees, raw: Trees, plan: seq<Action>)
    requires Applicable(x, ts, raw, plan)
    ensures SweepingRun(x, raw, plan)
            == if MovesPrecedeRemovals(plan) && AllMeet(x, ts, raw, plan)
               then Some(SweepingOutcome(raw, plan)) else None
  {
    forall k | 0 <= k < |plan|
      ensures PassesAt(x, raw, plan, k) <==> Meets(x, ts, raw, plan[k]) && !Pulled(plan, k)
    {
      StepPassesExactly(x, ts, raw, plan, k);
    }
    assert plan[..|plan|] == plan;
    assert AllPass(x, raw, plan, |plan|) <==> forall k :: 0 <= k < |plan| ==> PassesAt(x, raw, plan, k);
    RunIsPasses(x, raw, plan, |plan|);
    WholePlan(x, ts, raw, plan);
  }

  lemma WholePlan(x: Checks, ts: Trees, raw: Trees, plan: seq<Action>)
    ensures (forall k :: 0 <= k < |plan| ==> Meets(x, ts, raw, plan[k]) && !Pulled(plan, k))
            <==> MovesPrecedeRemovals(plan) && AllMeet(x, ts, raw, plan)
  {
    if i, j :| 0 <= j < i < |plan| && PullsFromRemoved(plan, i, j) {
      assert Pulled(plan, i);
    }
    if forall k :: 0 <= k < |plan| ==> Meets(x, ts, raw, plan[k]) && !Pulled(plan, k) {
      forall a | a in plan ensures Meets(x, ts, raw, a) {
        var k :| 0 <= k < |plan| && plan[k] == a;
      }
    }
  }

  /** The run comes to a move whose file an earlier removal has taken along. */
  ghost predicate StopsAtMove(x: Checks, raw: Trees, plan: seq<Action>, i: nat) {
    && i < |plan| && plan[i].kind == Move && plan[i].fromPath in raw.On(plan[i].target)
    && SweepingRun(x, raw, plan[..i]).Some?
    && plan[i].fromPath !in SweepingRun(x, raw, plan[..i]).value.On(plan[i].target)
  }

  lemma {:induction false} FirstPulled(plan: seq<Action>, i: nat) returns (m: nat)
    requires i < |plan| && Pulled(plan, i)
    ensures m < |plan| && Pulled(plan, m) && forall k :: 0 <= k < m ==> !Pulled(plan, k)
    decreases i
  {
    if k :| 0 <= k < i && Pulled(plan, k) {
      m := FirstPulled(plan, k);
    } else {
      m := i;
    }
  }

  lemma PassesUntilPulled(x: Checks, ts: Trees, raw: Trees, plan: seq<Action>, m: nat)
    requires Applicable(x, ts, raw, plan) && AllMeet(x, ts, raw, plan)
    requires m <= |plan| && forall k :: 0 <= k < m ==> !Pulled(plan, k)
    ensures SweepingRun(x, raw, plan[..m]) == Some(SweepingOutcome(raw, plan[..m]))
  {
    forall k | 0 <= k < m ensures PassesAt(x, raw, plan, k) {
      StepPassesExactly(x, ts, raw, plan, k);
    }
    RunIsPasses(x, raw, plan, m);
  }

  lemma FirstPulledStops(x: Checks, ts: Trees, raw: Trees, plan: seq<Action>, m: nat)
    requires Applicable(x, ts, raw, plan) && m < |plan| && Pulled(plan, m)
    requires SweepingRun(x, raw, plan[..m]) == Some(SweepingOutcome(raw, plan[..m]))
    ensures StopsAtMove(x, raw, plan, m)
  {
    assert plan[m] in plan && Recorded(ts, plan[m]);
    OriginSwept(ts, raw, plan, m);
  }

  /** Where only the order of the steps is wrong, the run stops at such a move,
      with the file gone. */
  lemma StopsWithFileGone(x: Checks, ts: Trees, raw: Trees, plan: seq<Action>) returns (m: nat)
    requires Applicable(x, ts, raw, plan) && AllMeet(x, ts, raw, plan) && !MovesPrecedeRemovals(plan)
    ensures StopsAtMove(x, raw, plan, m)
  {
    var i := SomePulled(plan);
    m := FirstPulled(plan, i);
    PassesUntilPulled(x, ts, raw, plan, m);
    FirstPulledStops(x, ts, raw, plan, m);
  }

  lemma SomePulled(plan: seq<Action>) returns (i: nat)
    requires !MovesPrecedeRemovals(plan)
    ensures i < |plan| && Pulled(plan, i)
  {
    var j: nat;
    i, j :| 0 <= j < i < |plan| && PullsFromRemoved(plan, i, j);
  }
}
