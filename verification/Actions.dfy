/** Planned steps and the order in which a plan runs them. */
module Actions {
  import opened Paths
  import opened Entries

  datatype Kind = CreateDirectory | Transfer | Move | Copy | Delete | Skip | Conflict

  datatype Side = NoSide | Local | Remote

  datatype Action = Action(
    kind: Kind,
    path: Path,
    fromPath: Path,
    target: Side,
    typ: EntryType,
    replace: bool,
    source: Entry,
    destination: Entry)

  function Opposite(side: Side): Side {
    if side == Local then Remote else Local
  }

  function Rank(a: Action): nat {
    match a.kind
    case Conflict => 0
    case Delete => 1
    case CreateDirectory => 2
    case Transfer => 3
    case Move => 3
    case Copy => 3
    case Skip => 4
  }

  /** The comparator of the plan order: conflicts, then deletions deepest
      first, then directories shallowest first, then files, then skips. */
  predicate Before(left: Action, right: Action) {
    if Rank(left) != Rank(right) then Rank(left) < Rank(right)
    else if Depth(left.path) != Depth(right.path) then
      if left.kind == Delete then Depth(left.path) > Depth(right.path)
      else Depth(left.path) < Depth(right.path)
    else Less(left.path, right.path)
  }

  lemma BeforeIsWeakOrder(a: Action, b: Action, c: Action)
    ensures !Before(b, a) && !Before(c, b) ==> !Before(c, a)
    ensures !(Before(a, b) && Before(b, a))
  {
    if Rank(a) == Rank(b) { assert a.kind == Delete <==> b.kind == Delete; }
    LessAsymmetric(a.path, b.path);
    LessTotal(a.path, b.path);
    LessTotal(b.path, c.path);
    if Less(c.path, a.path) {
      if Less(b.path, c.path) { LessTransitive(b.path, c.path, a.path); }
      if Less(a.path, b.path) { LessTransitive(c.path, a.path, b.path); }
    }
  }

  ghost predicate Ordered(s: seq<Action>) {
    forall i, j :: 0 <= i < j < |s| ==> !Before(s[j], s[i])
  }

  /** What the order means for two steps: conflicts come first and skips last,
      deletions before everything that is written and deepest first, directories
      before files and shallowest first; paths decide between steps of one depth. */
  lemma OrderMeans(s: seq<Action>, i: nat, j: nat)
    requires Ordered(s) && i < j < |s|
    ensures s[j].kind == Conflict ==> s[i].kind == Conflict
    ensures s[j].kind == Delete ==> s[i].kind == Conflict || s[i].kind == Delete
    ensures s[j].kind == CreateDirectory ==> s[i].kind in {Conflict, Delete, CreateDirectory}
    ensures s[i].kind == Skip ==> s[j].kind == Skip
    ensures s[i].kind == s[j].kind ==>
              if s[i].kind == Delete then Depth(s[i].path) >= Depth(s[j].path)
              else Depth(s[i].path) <= Depth(s[j].path)
    ensures s[i].kind == s[j].kind && Depth(s[i].path) == Depth(s[j].path) ==> !Less(s[j].path, s[i].path)
    ensures s[i].kind in {Transfer, Move, Copy} && s[j].kind in {Transfer, Move, Copy} ==>
              && Depth(s[i].path) <= Depth(s[j].path)
              && (Depth(s[i].path) == Depth(s[j].path) ==> !Less(s[j].path, s[i].path))
  {
    assert !Before(s[j], s[i]);
  }

  ghost predicate DistinctPaths(s: seq<Action>) {
    forall i, j :: 0 <= i < j < |s| ==> s[i].path != s[j].path
  }

  /** Actions planned path by path. */
  lemma DistinctFromSorted(paths: seq<Path>, planned: seq<Action>)
    requires StrictlySorted(paths) && |planned| == |paths|
    requires forall k :: 0 <= k < |paths| ==> planned[k].path == paths[k]
    ensures DistinctPaths(planned)
  {
    forall i, j | 0 <= i < j < |paths| ensures paths[i] != paths[j] {
      LessIrreflexive(paths[i]);
    }
  }

  function Insert(a: Action, s: seq<Action>): seq<Action> {
    if s == [] then [a]
    else if Before(a, s[0]) then [a] + s
    else [s[0]] + Insert(a, s[1..])
  }

  /** A stable sort by `Before`. */
  function Sorted(s: seq<Action>): seq<Action> {
    if s == [] then [] else Insert(s[|s| - 1], Sorted(s[..|s| - 1]))
  }

  lemma {:induction false} InsertMembers(a: Action, s: seq<Action>)
    ensures multiset(Insert(a, s)) == multiset(s) + multiset{a}
    ensures forall x :: x in Insert(a, s) <==> x == a || x in s
  {
    if s != [] && !Before(a, s[0]) {
      InsertMembers(a, s[1..]);
      assert s == [s[0]] + s[1..];
    }
    var r := Insert(a, s);
    forall x ensures x in r <==> x == a || x in s {
      assert x in r <==> x in multiset(r);
    }
  }

  lemma {:induction false} InsertOrdered(a: Action, s: seq<Action>)
    requires Ordered(s)
    ensures Ordered(Insert(a, s))
  {
    if s != [] {
      if Before(a, s[0]) {
        forall j | 0 <= j < |s| ensures !Before(s[j], a) {
          BeforeIsWeakOrder(a, s[0], s[j]);
        }
      } else {
        var rest := Insert(a, s[1..]);
        InsertOrdered(a, s[1..]);
        InsertMembers(a, s[1..]);
        forall j | 0 <= j < |rest| ensures !Before(rest[j], s[0]) {
          assert rest[j] in rest;
          if rest[j] != a {
            var k :| 0 <= k < |s[1..]| && s[1..][k] == rest[j];
            assert s[k + 1] == rest[j];
          }
        }
      }
    }
  }

  lemma {:induction false} InsertDistinct(a: Action, s: seq<Action>)
    requires DistinctPaths(s)
    requires forall x :: x in s ==> x.path != a.path
    ensures DistinctPaths(Insert(a, s))
  {
    if s != [] && !Before(a, s[0]) {
      InsertDistinct(a, s[1..]);
      InsertMembers(a, s[1..]);
      var rest := Insert(a, s[1..]);
      forall j | 0 <= j < |rest| ensures rest[j].path != s[0].path {
        assert rest[j] in rest;
        if rest[j] != a {
          var k :| 0 <= k < |s[1..]| && s[1..][k] == rest[j];
          assert s[k + 1] == rest[j];
        }
      }
    } else {
      assert forall j :: 0 <= j < |s| ==> s[j] in s;
    }
  }

  /** Sorting permutes the plan and leaves no pair out of order. */
  lemma {:induction false} SortedIsSort(s: seq<Action>)
    ensures Ordered(Sorted(s))
    ensures multiset(Sorted(s)) == multiset(s)
    ensures forall x :: x in Sorted(s) <==> x in s
    ensures DistinctPaths(s) ==> DistinctPaths(Sorted(s))
  {
    if s != [] {
      var init, last := s[..|s| - 1], s[|s| - 1];
      assert s == init + [last];
      SortedIsSort(init);
      InsertMembers(last, Sorted(init));
      InsertOrdered(last, Sorted(init));
      if DistinctPaths(s) {
        forall x | x in Sorted(init) ensures x.path != last.path {
          var k :| 0 <= k < |init| && init[k] == x;
          assert s[k] == x;
        }
        InsertDistinct(last, Sorted(init));
      }
    }
  }

  method SortActions(actions: array<Action>)
    modifies actions
    ensures actions[..] == Sorted(old(actions[..]))
  {
    var sorted := Sorted(actions[..]);
    SortedIsSort(actions[..]);
    assert |multiset(sorted)| == |multiset(actions[..])|;
    for i := 0 to actions.Length
      invariant |sorted| == actions.Length
      invariant forall k :: 0 <= k < i ==> actions[k] == sorted[k]
    {
      actions[i] := sorted[i];
    }
    assert actions[..] == sorted;
  }

  // ----- The finished plan

  function Count(kind: Kind, actions: seq<Action>): nat {
    if actions == [] then 0
    else Count(kind, actions[..|actions| - 1]) + if actions[|actions| - 1].kind == kind then 1 else 0
  }

  ghost function Positions(kind: Kind, actions: seq<Action>): set<int> {
    set i | 0 <= i < |actions| && actions[i].kind == kind
  }

  lemma LastPosition(kind: Kind, actions: seq<Action>, init: seq<Action>, n: nat)
    requires |actions| == n + 1 && init == actions[..n]
    ensures Positions(kind, actions) == Positions(kind, init) + (if actions[n].kind == kind then {n} else {})
    ensures n !in Positions(kind, init)
  {
    forall i ensures i in Positions(kind, actions)
                     <==> i in Positions(kind, init) || (i == n && actions[n].kind == kind) {
    }
  }

  /** The number of actions of a kind. */
  lemma {:induction false} CountIsNumber(kind: Kind, actions: seq<Action>)
    ensures Count(kind, actions) == |Positions(kind, actions)|
  {
    if actions == [] {
      assert Positions(kind, actions) == {};
    } else {
      var n := |actions| - 1;
      CountIsNumber(kind, actions[..n]);
      LastPosition(kind, actions, actions[..n], n);
    }
  }

  datatype Plan = Plan(actions: seq<Action>, conflicts: nat, transfers: nat, moves: nat, deletions: nat)

  ghost predicate Counted(plan: Plan) {
    && plan.conflicts == Count(Conflict, plan.actions)
    && plan.transfers == Count(Transfer, plan.actions)
    && plan.moves == Count(Move, plan.actions)
    && plan.deletions == Count(Delete, plan.actions)
  }

  method Tally(actions: seq<Action>) returns (plan: Plan)
    ensures plan.actions == actions && Counted(plan)
  {
    plan := Plan(actions, 0, 0, 0, 0);
    for i := 0 to |actions|
      invariant plan.actions == actions
      invariant plan.conflicts == Count(Conflict, actions[..i])
      invariant plan.transfers == Count(Transfer, actions[..i])
      invariant plan.moves == Count(Move, actions[..i])
      invariant plan.deletions == Count(Delete, actions[..i])
    {
      assert actions[..i + 1][..i] == actions[..i];
      match actions[i].kind {
        case Conflict => plan := plan.(conflicts := plan.conflicts + 1);
        case Transfer => plan := plan.(transfers := plan.transfers + 1);
        case Move => plan := plan.(moves := plan.moves + 1);
        case Delete => plan := plan.(deletions := plan.deletions + 1);
        case _ =>
      }
    }
    assert actions[..|actions|] == actions;
  }
}
