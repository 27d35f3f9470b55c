/** The one-way planner and what a conflict-free mirror run leaves behind. In
    the terms of the executor the source is the local tree and the destination
    the remote one. */
module OneWay {
  import opened Common
  import opened Paths
  import opened Entries
  import opened Actions
  import opened Executor
  import opened Filters

  datatype Options = Options(delete: bool, overwrite: bool)

  function NewStep(kind: Kind, p: Path, typ: EntryType, replace: bool, source: Entry, destination: Entry): Action {
    Action(kind, p, "", NoSide, typ, replace, source, destination)
  }

  function PlanPath(p: Path, source: Entry, sourceExists: bool, destination: Entry, destinationExists: bool,
                    baseline: Option<Record>, options: Options): Action
    requires sourceExists || destinationExists
  {
    if sourceExists && !destinationExists then
      if baseline.Some? && baseline.value.destination.Present() && !options.overwrite then
        NewStep(Conflict, p, source.typ, false, source, destination)
      else if source.typ == Directory then
        NewStep(CreateDirectory, p, source.typ, false, source, destination)
      else
        NewStep(Transfer, p, source.typ, false, source, destination)
    else if !sourceExists then
      if !options.delete then
        NewStep(Skip, p, destination.typ, false, source, destination)
      else if baseline.Some? && !destination.Equal(baseline.value.destination) && !options.overwrite then
        NewStep(Conflict, p, destination.typ, false, source, destination)
      else
        NewStep(Delete, p, destination.typ, false, source, destination)
    else if source.Equal(destination) then
      NewStep(Skip, p, source.typ, false, source, destination)
    else if source.typ != destination.typ then
      if !options.overwrite then
        NewStep(Conflict, p, source.typ, false, source, destination)
      else if source.typ == File && destination.typ == Directory && !options.delete then
        NewStep(Conflict, p, source.typ, false, source, destination)
      else
        NewStep(if source.typ == Directory then CreateDirectory else Transfer, p, source.typ, true,
                source, destination)
    else if baseline.None? then
      NewStep(if options.overwrite then Transfer else Conflict, p, source.typ, false, source, destination)
    else
      var sourceChanged := !source.Equal(baseline.value.source);
      var destinationChanged := !destination.Equal(baseline.value.destination);
      if sourceChanged && !destinationChanged then
        NewStep(Transfer, p, source.typ, false, source, destination)
      else if !options.overwrite then
        NewStep(Conflict, p, source.typ, false, source, destination)
      else
        NewStep(Transfer, p, source.typ, false, source, destination)
  }

  function PlanAt(p: Path, source: Snapshot, destination: Snapshot, previous: Option<Baseline>,
                  options: Options): Action
    requires p in source || p in destination
  {
    PlanPath(p, Lookup(source, p), p in source, Lookup(destination, p), p in destination,
             SavedRecord(previous, p), options)
  }

  ghost function PlanEach(paths: seq<Path>, source: Snapshot, destination: Snapshot,
                          previous: Option<Baseline>, options: Options): seq<Action>
    requires Elements(paths) <= source.Keys + destination.Keys
  {
    seq(|paths|, i requires 0 <= i < |paths| =>
          assert paths[i] in Elements(paths);
          PlanAt(paths[i], source, destination, previous, options))
  }

  ghost function Unordered(source: Snapshot, destination: Snapshot, previous: Option<Baseline>,
                           options: Options): seq<Action>
  {
    PlanEach(SortedPaths(source.Keys + destination.Keys), source, destination, previous, options)
  }

  ghost function MirrorPlan(source: Snapshot, destination: Snapshot, previous: Option<Baseline>,
                            options: Options): seq<Action>
  {
    Sorted(Unordered(source, destination, previous, options))
  }

  method PlanList(paths: seq<Path>, source: Snapshot, destination: Snapshot, previous: Option<Baseline>,
                  options: Options)
    returns (actions: array<Action>)
    requires Elements(paths) <= source.Keys + destination.Keys
    ensures fresh(actions)
    ensures actions[..] == PlanEach(paths, source, destination, previous, options)
  {
    actions := new Action[|paths|];
    ghost var goal := PlanEach(paths, source, destination, previous, options);
    for i := 0 to |paths|
      invariant forall k :: 0 <= k < i ==> actions[k] == goal[k]
    {
      assert paths[i] in Elements(paths);
      actions[i] := PlanAt(paths[i], source, destination, previous, options);
    }
    assert actions[..] == goal;
  }

  const PUSH := "push"
  const PULL := "pull"

  method Build(host: Host, direction: string, source: Snapshot, destination: Snapshot,
               previous: Option<Baseline>, options: Options, includes: seq<string>, excludes: seq<string>)
    returns (r: Result<Plan>)
    ensures r.Ok? <==> && (direction == PUSH || direction == PULL)
                       && ValidPatterns(host, includes) && ValidPatterns(host, excludes)
    ensures r.Ok? ==>
              && r.value.actions == MirrorPlan(Filtered(host, source, includes, excludes),
                                               Filtered(host, destination, includes, excludes), previous, options)
              && Counted(r.value)
  {
    if direction != PUSH && direction != PULL {
      return Err;
    }
    var sourceResult := Filter(host, source, includes, excludes);
    if sourceResult.Err? {
      return Err;
    }
    var destinationResult := Filter(host, destination, includes, excludes);
    if destinationResult.Err? {
      return Err;
    }
    var s, d := sourceResult.value, destinationResult.value;
    var actions := PlanList(SortedPaths(s.Keys + d.Keys), s, d, previous, options);
    SortActions(actions);
    var plan := Tally(actions[..]);
    return Ok(plan);
  }

  // ----- The plan against the two trees

  /** The step as the executor runs it, on the destination. */
  function Aimed(a: Action): Action {
    if a.kind == Skip || a.kind == Conflict then a else a.(target := Remote)
  }

  ghost function AimedSteps(plan: seq<Action>): seq<Action> {
    seq(|plan|, i requires 0 <= i < |plan| => Aimed(plan[i]))
  }

  lemma PlanEachMembers(paths: seq<Path>, s: Snapshot, d: Snapshot, previous: Option<Baseline>, options: Options)
    requires StrictlySorted(paths) && Elements(paths) == s.Keys + d.Keys
    ensures var u := PlanEach(paths, s, d, previous, options);
            && DistinctPaths(u)
            && (forall a :: a in u ==> (a.path in s || a.path in d) && a == PlanAt(a.path, s, d, previous, options))
            && (forall p :: p in s || p in d ==> PlanAt(p, s, d, previous, options) in u)
  {
    var u := PlanEach(paths, s, d, previous, options);
    forall k | 0 <= k < |paths|
      ensures paths[k] in s.Keys + d.Keys && u[k] == PlanAt(paths[k], s, d, previous, options)
              && u[k].path == paths[k]
    {
      assert paths[k] in Elements(paths);
    }
    DistinctFromSorted(paths, u);
    forall p | p in s || p in d ensures PlanAt(p, s, d, previous, options) in u {
      assert p in Elements(paths);
      var k :| 0 <= k < |paths| && paths[k] == p;
      assert u[k] in u;
    }
  }

  /** The steps of the finished plan: one for every path of either tree. */
  lemma MirrorMembers(s: Snapshot, d: Snapshot, previous: Option<Baseline>, options: Options)
    ensures var plan := MirrorPlan(s, d, previous, options);
            && DistinctPaths(plan) && Ordered(plan)
            && (forall a :: a in plan ==> (a.path in s || a.path in d) && a == PlanAt(a.path, s, d, previous, options))
            && (forall p :: p in s || p in d ==> PlanAt(p, s, d, previous, options) in plan)
  {
    PlanEachMembers(SortedPaths(s.Keys + d.Keys), s, d, previous, options);
    SortedIsSort(Unordered(s, d, previous, options));
  }

  /** What the table decides, in terms of the two trees. */
  ghost predicate Sound(a: Action, s: Snapshot, d: Snapshot, options: Options) {
    var p := a.path;
    a.source == Lookup(s, p) && a.destination == Lookup(d, p) && a.fromPath == "" &&
    match a.kind
    case Skip => if p in s then p in d && s[p].Equal(d[p]) else p in d && !options.delete
    case Conflict => true
    case Delete => p !in s && p in d && options.delete && !a.replace
    case CreateDirectory =>
      p in s && s[p].typ == Directory && (p in d ==> d[p].typ == File && a.replace)
    case Transfer =>
      && p in s && s[p].typ == File
      && (p in d ==> d[p].typ == if a.replace then Directory else File)
      && (a.replace ==> p in d && options.delete)
    case _ => false
  }

  lemma PlanAtIsSound(p: Path, s: Snapshot, d: Snapshot, previous: Option<Baseline>, options: Options)
    requires Scanned(s) && Scanned(d) && (p in s || p in d)
    ensures Sound(PlanAt(p, s, d, previous, options), s, d, options)
    ensures PlanAt(p, s, d, previous, options).path == p
  {
  }
}
