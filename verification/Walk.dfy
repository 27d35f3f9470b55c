/** The bounded walk over a remote tree behind `tree` and `du`. */
module Walk {
  import opened Common
  import opened Paths

  datatype Item = Item(name: string, directory: bool, size: int)

  /** A remote tree. Only directories are listed, so what a file's children are
      does not matter. */
  datatype Node = Node(item: Item, children: seq<Node>)

  datatype WalkEntry = WalkEntry(item: Item, depth: int, last: bool, parentsLast: seq<bool>)

  // ----- Sorting by name

  /** `lower` is Unicode lower-casing. */
  predicate NameBefore(lower: string -> string, a: Node, b: Node) {
    var left, right := lower(a.item.name), lower(b.item.name);
    if left == right then Less(a.item.name, b.item.name) else Less(left, right)
  }

  function Insert(lower: string -> string, x: Node, s: seq<Node>): seq<Node> {
    if s == [] then [x]
    else if NameBefore(lower, x, s[0]) then [x] + s
    else [s[0]] + Insert(lower, x, s[1..])
  }

  /** A stable sort by name. */
  function ByName(lower: string -> string, s: seq<Node>): seq<Node> {
    if s == [] then [] else Insert(lower, s[|s| - 1], ByName(lower, s[..|s| - 1]))
  }

  ghost predicate NameOrdered(lower: string -> string, s: seq<Node>) {
    forall i, j :: 0 <= i < j < |s| ==> !NameBefore(lower, s[j], s[i])
  }

  /** The nodes of one name, in their order. */
  function Named(name: string, s: seq<Node>): seq<Node> {
    if s == [] then []
    else if s[0].item.name == name then [s[0]] + Named(name, s[1..])
    else Named(name, s[1..])
  }

  lemma Regroup(a: seq<Node>, b: seq<Node>, c: seq<Node>)
    ensures (a + b) + c == a + (b + c)
  {
  }

  lemma {:induction false} NamedAppend(name: string, a: seq<Node>, b: seq<Node>)
    ensures Named(name, a + b) == Named(name, a) + Named(name, b)
  {
    if a == [] {
      assert a + b == b;
    } else {
      var rest := a[1..];
      NamedAppend(name, rest, b);
      assert (a + b)[0] == a[0] && (a + b)[1..] == rest + b;
      Regroup([a[0]], Named(name, rest), Named(name, b));
    }
  }

  /** Once x stands before y it stands before whatever is not before y. */
  lemma NameOrderIsWeak(lower: string -> string, x: Node, y: Node, z: Node)
    requires NameBefore(lower, x, y) && !NameBefore(lower, z, y)
    ensures !NameBefore(lower, z, x)
  {
    if NameBefore(lower, z, x) {
      var a, b, c := lower(z.item.name), lower(x.item.name), lower(y.item.name);
      if a == b && b == c {
        LessTransitive(z.item.name, x.item.name, y.item.name);
      } else if a != b && b != c {
        LessTransitive(a, b, c);
        LessAsymmetric(a, b);
      }
      assert false;
    }
  }

  lemma {:induction false} InsertPermutes(lower: string -> string, x: Node, s: seq<Node>)
    ensures multiset(Insert(lower, x, s)) == multiset(s) + multiset{x}
  {
    if s != [] && !NameBefore(lower, x, s[0]) {
      InsertPermutes(lower, x, s[1..]);
      assert s == [s[0]] + s[1..];
    }
  }

  lemma {:induction false} InsertOrders(lower: string -> string, x: Node, s: seq<Node>)
    requires NameOrdered(lower, s)
    ensures NameOrdered(lower, Insert(lower, x, s))
  {
    if s == [] {
    } else if NameBefore(lower, x, s[0]) {
      forall j | 0 <= j < |s| ensures !NameBefore(lower, s[j], x) {
        NotBeforeFirst(lower, s, j);
        NameOrderIsWeak(lower, x, s[0], s[j]);
      }
    } else {
      InsertOrders(lower, x, s[1..]);
      var rest := Insert(lower, x, s[1..]);
      forall j | 0 <= j < |rest| ensures !NameBefore(lower, rest[j], s[0]) {
        InsertedFrom(lower, x, s[1..], j);
      }
    }
  }

  lemma InsertedFrom(lower: string -> string, x: Node, s: seq<Node>, j: nat)
    requires j < |Insert(lower, x, s)|
    ensures Insert(lower, x, s)[j] == x || Insert(lower, x, s)[j] in s
  {
    InsertPermutes(lower, x, s);
    assert Insert(lower, x, s)[j] in multiset(Insert(lower, x, s));
  }

  lemma NotBeforeFirst(lower: string -> string, s: seq<Node>, j: nat)
    requires NameOrdered(lower, s) && j < |s|
    ensures !NameBefore(lower, s[j], s[0])
  {
    if j == 0 {
      LessIrreflexive(s[0].item.name);
    }
  }

  lemma {:induction false} InsertIsStable(lower: string -> string, x: Node, s: seq<Node>, name: string)
    requires NameOrdered(lower, s)
    ensures Named(name, Insert(lower, x, s)) == Named(name, s) + Named(name, [x])
  {
    if s == [] {
    } else if NameBefore(lower, x, s[0]) {
      NamedAppend(name, [x], s);
      if x.item.name == name {
        NoneNamed(lower, x, s, |s|);
      }
    } else {
      var rest := Insert(lower, x, s[1..]);
      InsertIsStable(lower, x, s[1..], name);
      assert ([s[0]] + rest)[1..] == rest;
    }
  }

  /** No node in order from y on bears the name of an x that goes before y. */
  lemma {:induction false} NoneNamed(lower: string -> string, x: Node, s: seq<Node>, n: nat)
    requires s != [] && NameOrdered(lower, s) && NameBefore(lower, x, s[0]) && n <= |s|
    ensures Named(x.item.name, s[|s| - n..]) == []
  {
    if n > 0 {
      var j := |s| - n;
      NoneNamed(lower, x, s, n - 1);
      assert s[j..][1..] == s[|s| - (n - 1)..];
      NotBeforeFirst(lower, s, j);
    } else {
      assert s[|s|..] == [];
    }
  }

  /** Sorting permutes the children, puts them in order of their names and keeps
      the order of those with the same name. */
  lemma {:induction false} ByNameIsStableSort(lower: string -> string, s: seq<Node>, name: string)
    ensures multiset(ByName(lower, s)) == multiset(s)
    ensures NameOrdered(lower, ByName(lower, s))
    ensures Named(name, ByName(lower, s)) == Named(name, s)
  {
    if s != [] {
      var init, x := s[..|s| - 1], s[|s| - 1];
      assert s == init + [x];
      ByNameIsStableSort(lower, init, name);
      InsertPermutes(lower, x, ByName(lower, init));
      InsertOrders(lower, x, ByName(lower, init));
      InsertIsStable(lower, x, ByName(lower, init), name);
      NamedAppend(name, init, [x]);
    }
  }

  // ----- The listing

  lemma ChildIsSmaller(parent: Node, child: Node)
    requires child in parent.children
    ensures child < parent
  {
    var i :| 0 <= i < |parent.children| && parent.children[i] == child;
    assert parent.children[i] < parent;
  }

  /** A child and all below it, as seen from its parent. */
  function Family(lower: string -> string, node: Node, last: bool): seq<WalkEntry>
    decreases node, 2
  {
    [WalkEntry(node.item, 1, last, [])] + Lifted(last, Preorder(lower, node))
  }

  /** One level further down, below a child. */
  function Lifted(last: bool, entries: seq<WalkEntry>): seq<WalkEntry> {
    seq(|entries|, i requires 0 <= i < |entries| =>
      WalkEntry(entries[i].item, entries[i].depth + 1, entries[i].last, [last] + entries[i].parentsLast))
  }

  /** Everything below a directory in preorder, children sorted by name. */
  function Preorder(lower: string -> string, node: Node): seq<WalkEntry>
    decreases node, 1
  {
    if !node.item.directory then []
    else
      Contained(lower, node.children);
      Flat(Families(lower, node, ByName(lower, node.children)), |node.children|)
  }

  /** The families of a directory's sorted children, the last one marked. */
  function Families(lower: string -> string, parent: Node, sorted: seq<Node>): seq<seq<WalkEntry>>
    requires forall x :: x in sorted ==> x in parent.children
    decreases parent, 0
  {
    seq(|sorted|, i requires 0 <= i < |sorted| =>
      assert sorted[i] in sorted;
      ChildIsSmaller(parent, sorted[i]);
      Family(lower, sorted[i], i == |sorted| - 1))
  }

  /** The first n families one after the other. */
  function Flat(families: seq<seq<WalkEntry>>, n: nat): seq<WalkEntry>
    requires n <= |families|
  {
    if n == 0 then [] else Flat(families, n - 1) + families[n - 1]
  }

  lemma Contained(lower: string -> string, s: seq<Node>)
    ensures |ByName(lower, s)| == |s|
    ensures forall x :: x in ByName(lower, s) ==> x in s
  {
    ByNameIsStableSort(lower, s, "");
    assert |multiset(ByName(lower, s))| == |multiset(s)|;
    forall x | x in ByName(lower, s) ensures x in s {
      assert x in multiset(ByName(lower, s));
    }
  }

  /** The whole tree. */
  function Listing(lower: string -> string, root: Node): seq<WalkEntry> {
    [WalkEntry(root.item, 0, true, [])] + Preorder(lower, root)
  }

  /** The entries of at most some depth. */
  function Cut(levels: int, entries: seq<WalkEntry>): (r: seq<WalkEntry>)
    ensures |r| <= |entries|
  {
    if entries == [] then []
    else
      var e := entries[|entries| - 1];
      Cut(levels, entries[..|entries| - 1]) + if e.depth <= levels then [e] else []
  }

  // ----- Cutting and moving listings

  lemma {:induction false} CutAppend(levels: int, a: seq<WalkEntry>, b: seq<WalkEntry>)
    ensures Cut(levels, a + b) == Cut(levels, a) + Cut(levels, b)
  {
    if b == [] {
      assert a + b == a;
    } else {
      CutAppend(levels, a, b[..|b| - 1]);
      assert (a + b)[..|a + b| - 1] == a + b[..|b| - 1];
    }
  }

  lemma {:induction false} CutLifted(levels: int, last: bool, s: seq<WalkEntry>)
    ensures Cut(levels, Lifted(last, s)) == Lifted(last, Cut(levels - 1, s))
  {
    if s != [] {
      CutLifted(levels, last, s[..|s| - 1]);
      assert Lifted(last, s)[..|s| - 1] == Lifted(last, s[..|s| - 1]);
    }
  }

  /** The listing of a directory that lies `depth` deep below ancestors with
      these flags. */
  function Placed(depth: int, parentsLast: seq<bool>, entries: seq<WalkEntry>): seq<WalkEntry> {
    seq(|entries|, i requires 0 <= i < |entries| =>
      WalkEntry(entries[i].item, entries[i].depth + depth, entries[i].last, parentsLast + entries[i].parentsLast))
  }

  lemma PlacedAppend(depth: int, parentsLast: seq<bool>, a: seq<WalkEntry>, b: seq<WalkEntry>)
    ensures Placed(depth, parentsLast, a + b) == Placed(depth, parentsLast, a) + Placed(depth, parentsLast, b)
  {
  }

  lemma PlacedLifted(depth: int, parentsLast: seq<bool>, last: bool, s: seq<WalkEntry>)
    ensures Placed(depth, parentsLast, Lifted(last, s)) == Placed(depth + 1, parentsLast + [last], s)
  {
    forall i | 0 <= i < |s|
      ensures parentsLast + ([last] + s[i].parentsLast) == (parentsLast + [last]) + s[i].parentsLast
    {
    }
  }

  lemma PlacedAtRoot(s: seq<WalkEntry>)
    ensures Placed(0, [], s) == s
  {
    forall i | 0 <= i < |s|
      ensures Placed(0, [], s)[i] == s[i]
    {
      assert [] + s[i].parentsLast == s[i].parentsLast;
    }
  }

  /** What a child's family looks like within a walk, cut at maxDepth. */
  lemma FamilyPlaced(lower: string -> string, node: Node, last: bool, depth: int, parentsLast: seq<bool>, maxDepth: int)
    requires depth < maxDepth
    ensures var below := Preorder(lower, node);
            Placed(depth, parentsLast, Cut(maxDepth - depth, Family(lower, node, last)))
            == [WalkEntry(node.item, depth + 1, last, parentsLast)]
               + Placed(depth + 1, parentsLast + [last], Cut(maxDepth - (depth + 1), below))
    ensures |Cut(maxDepth - depth, Family(lower, node, last))|
            == 1 + |Cut(maxDepth - (depth + 1), Preorder(lower, node))|
  {
    var below := Preorder(lower, node);
    var head := [WalkEntry(node.item, 1, last, [])];
    var levels := maxDepth - depth;
    CutAppend(levels, head, Lifted(last, below));
    assert head[..0] == [] && Cut(levels, head) == head;
    CutLifted(levels, last, below);
    PlacedAppend(depth, parentsLast, head, Lifted(last, Cut(levels - 1, below)));
    PlacedLifted(depth, parentsLast, last, Cut(levels - 1, below));
    assert parentsLast + [] == parentsLast;
    assert Placed(depth, parentsLast, head) == [WalkEntry(node.item, depth + 1, last, parentsLast)];
  }

  lemma {:induction false} NothingAbove(entries: seq<WalkEntry>, levels: int)
    requires forall i :: 0 <= i < |entries| ==> entries[i].depth > levels
    ensures Cut(levels, entries) == []
  {
    if entries != [] {
      NothingAbove(entries[..|entries| - 1], levels);
    }
  }

  lemma {:induction false} FlatDepth(families: seq<seq<WalkEntry>>, n: nat)
    requires n <= |families|
    requires forall i, k :: 0 <= i < n && 0 <= k < |families[i]| ==> families[i][k].depth >= 1
    requires forall i :: 0 <= i < n ==> families[i] != []
    ensures forall k :: 0 <= k < |Flat(families, n)| ==> Flat(families, n)[k].depth >= 1
    ensures Flat(families, n) == [] <==> n == 0
  {
    if n > 0 {
      FlatDepth(families, n - 1);
    }
  }

  /** All entries below a directory are at least one deep; there are some exactly
      when it has children. */
  lemma {:induction false} Below(lower: string -> string, node: Node)
    ensures forall i :: 0 <= i < |Preorder(lower, node)| ==> Preorder(lower, node)[i].depth >= 1
    ensures Preorder(lower, node) == [] <==> !node.item.directory || node.children == []
  {
    if node.item.directory {
      Contained(lower, node.children);
      var sorted := ByName(lower, node.children);
      var families: seq<seq<WalkEntry>> := Families(lower, node, sorted);
      forall i: int, k: int | 0 <= i < |families| && 0 <= k < |families[i]|
        ensures families[i][k].depth >= 1
      {
        assert sorted[i] in sorted;
        ChildIsSmaller(node, sorted[i]);
        Below(lower, sorted[i]);
        assert families[i] == Family(lower, sorted[i], i == |sorted| - 1);
      }
      forall i | 0 <= i < |families|
        ensures families[i] != []
      {
        assert families[i] == Family(lower, sorted[i], i == |sorted| - 1);
      }
      FlatDepth(families, |families|);
    }
  }

  // ----- The walk

  class FilesystemWalk {
    var entries: seq<WalkEntry>
    var depthLimited: bool

    constructor (first: WalkEntry)
      ensures entries == [first] && !depthLimited
    {
      entries, depthLimited := [first], false;
    }
  }

  /** Appends what lies below a directory. It gives up at the first entry that
      would be one too many. */
  method AppendFilesystemWalk(lower: string -> string, node: Node, depth: int, parentsLast: seq<bool>,
                              maxDepth: int, maxEntries: int, detect: bool, result: FilesystemWalk)
    returns (ok: bool)
    requires node.item.directory && depth < maxDepth
    modifies result
    ensures var below := Preorder(lower, node);
            var more := Placed(depth, parentsLast, Cut(maxDepth - depth, below));
            && ok == (more == [] || |old(result.entries)| + |more| <= maxEntries)
            && (ok ==> result.entries == old(result.entries) + more)
            && (ok ==> result.depthLimited == (old(result.depthLimited) || (detect && |more| < |below|)))
    decreases node, 1
  {
    Contained(lower, node.children);
    var children := ByName(lower, node.children);
    ghost var families := Families(lower, node, children);
    ghost var pieces := seq(|children|, i requires 0 <= i < |children| =>
      PieceOf(depth, parentsLast, maxDepth, families[i]));
    PiecesAddUp(families, pieces, |children|, depth, parentsLast, maxDepth);
    ok := AppendChildren(lower, node, children, pieces, depth, parentsLast, maxDepth, maxEntries, detect, result);
  }

  /** What a family adds to the walk, and whether the cut left anything out. */
  datatype Piece = Piece(entries: seq<WalkEntry>, cut: bool)

  function PieceOf(depth: int, parentsLast: seq<bool>, maxDepth: int, family: seq<WalkEntry>): Piece {
    var entries := Placed(depth, parentsLast, Cut(maxDepth - depth, family));
    Piece(entries, |entries| < |family|)
  }

  /** The first n pieces one after the other. */
  function Pieced(pieces: seq<Piece>, n: nat): seq<WalkEntry>
    requires n <= |pieces|
  {
    if n == 0 then [] else Pieced(pieces, n - 1) + pieces[n - 1].entries
  }

  predicate AnyCut(pieces: seq<Piece>, n: nat)
    requires n <= |pieces|
  {
    n > 0 && (AnyCut(pieces, n - 1) || pieces[n - 1].cut)
  }

  lemma {:induction false} PiecesAddUp(families: seq<seq<WalkEntry>>, pieces: seq<Piece>, n: nat,
                                       depth: int, parentsLast: seq<bool>, maxDepth: int)
    requires n <= |families| == |pieces|
    requires forall i :: 0 <= i < n ==> pieces[i] == PieceOf(depth, parentsLast, maxDepth, families[i])
    ensures Pieced(pieces, n) == Placed(depth, parentsLast, Cut(maxDepth - depth, Flat(families, n)))
    ensures AnyCut(pieces, n) <==> |Pieced(pieces, n)| < |Flat(families, n)|
  {
    if n > 0 {
      PiecesAddUp(families, pieces, n - 1, depth, parentsLast, maxDepth);
      OneMorePiece(Flat(families, n - 1), families[n - 1], depth, parentsLast, maxDepth);
    }
  }

  lemma OneMorePiece(seen: seq<WalkEntry>, family: seq<WalkEntry>, depth: int, parentsLast: seq<bool>, maxDepth: int)
    ensures var piece := PieceOf(depth, parentsLast, maxDepth, family);
            var before := Cut(maxDepth - depth, seen);
            && Placed(depth, parentsLast, Cut(maxDepth - depth, seen + family))
               == Placed(depth, parentsLast, before) + piece.entries
            && (|before| + |piece.entries| < |seen + family| <==> |before| < |seen| || piece.cut)
  {
    var levels := maxDepth - depth;
    CutAppend(levels, seen, family);
    PlacedAppend(depth, parentsLast, Cut(levels, seen), Cut(levels, family));
  }

  lemma {:induction false} MorePieces(pieces: seq<Piece>, n: nat)
    requires n <= |pieces|
    ensures |Pieced(pieces, n)| <= |Pieced(pieces, |pieces|)|
    decreases |pieces| - n
  {
    if n < |pieces| {
      MorePieces(pieces, n + 1);
    }
  }

  /** The loop over a directory's sorted children. */
  method AppendChildren(lower: string -> string, ghost parent: Node, children: seq<Node>, ghost pieces: seq<Piece>,
                        depth: int, parentsLast: seq<bool>,
                        maxDepth: int, maxEntries: int, detect: bool, result: FilesystemWalk)
    returns (ok: bool)
    requires depth < maxDepth && |pieces| == |children|
    requires forall x :: x in children ==> x in parent.children
    requires forall i :: 0 <= i < |children| ==>
               pieces[i] == PieceOf(depth, parentsLast, maxDepth, Family(lower, children[i], i == |children| - 1))
    modifies result
    ensures var more := Pieced(pieces, |pieces|);
            && ok == (more == [] || |old(result.entries)| + |more| <= maxEntries)
            && (ok ==> result.entries == old(result.entries) + more)
            && (ok ==> result.depthLimited == (old(result.depthLimited) || (detect && AnyCut(pieces, |pieces|))))
    decreases parent, 0
  {
    ghost var before, limited := result.entries, result.depthLimited;
    var index := 0;
    while index < |children|
      invariant index <= |children|
      invariant result.entries == before + Pieced(pieces, index)
      invariant Pieced(pieces, index) == [] || |result.entries| <= maxEntries
      invariant result.depthLimited == (limited || (detect && AnyCut(pieces, index)))
    {
      MorePieces(pieces, index + 1);
      assert children[index] in children;
      ChildIsSmaller(parent, children[index]);
      ok := AppendChild(lower, children[index], index == |children| - 1, pieces[index],
                        depth, parentsLast, maxDepth, maxEntries, detect, result);
      if !ok {
        return;
      }
      Associative(before, Pieced(pieces, index), pieces[index].entries);
      index := index + 1;
    }
    ok := true;
  }

  /** A child's piece is its own entry and, if it is a directory above maxDepth,
      what its own walk adds; otherwise something is cut exactly when it has
      children. */
  lemma PieceOfChild(lower: string -> string, child: Node, last: bool, depth: int, parentsLast: seq<bool>,
                     maxDepth: int)
    returns (more: seq<WalkEntry>)
    requires depth < maxDepth
    ensures var piece := PieceOf(depth, parentsLast, maxDepth, Family(lower, child, last));
            && piece.entries == [WalkEntry(child.item, depth + 1, last, parentsLast)] + more
            && (piece.cut <==> |more| < |Preorder(lower, child)|)
            && (!child.item.directory ==> more == [] && !piece.cut)
            && (child.item.directory && depth + 1 >= maxDepth ==> more == [] && (piece.cut <==> child.children != []))
    ensures more == Placed(depth + 1, parentsLast + [last], Cut(maxDepth - (depth + 1), Preorder(lower, child)))
  {
    FamilyPlaced(lower, child, last, depth, parentsLast, maxDepth);
    Below(lower, child);
    if depth + 1 >= maxDepth {
      NothingAbove(Preorder(lower, child), 0);
    }
    more := Placed(depth + 1, parentsLast + [last], Cut(maxDepth - (depth + 1), Preorder(lower, child)));
  }

  /** One turn of that loop: a child and what lies below it. */
  method AppendChild(lower: string -> string, child: Node, last: bool, ghost piece: Piece,
                     depth: int, parentsLast: seq<bool>,
                     maxDepth: int, maxEntries: int, detect: bool, result: FilesystemWalk)
    returns (ok: bool)
    requires depth < maxDepth && piece == PieceOf(depth, parentsLast, maxDepth, Family(lower, child, last))
    modifies result
    ensures piece.entries != [] && ok == (|old(result.entries)| + |piece.entries| <= maxEntries)
    ensures ok ==> result.entries == old(result.entries) + piece.entries
    ensures ok ==> result.depthLimited == (old(result.depthLimited) || (detect && piece.cut))
    decreases child, 3
  {
    ghost var more := PieceOfChild(lower, child, last, depth, parentsLast, maxDepth);
    ok := AppendEntry(lower, child, last, piece, more, depth, parentsLast, maxDepth, maxEntries, detect, result);
  }

  /** `more` is what lies below the child; `piece` has the child before it. */
  method AppendEntry(lower: string -> string, child: Node, last: bool, ghost piece: Piece,
                     ghost more: seq<WalkEntry>, depth: int, parentsLast: seq<bool>,
                     maxDepth: int, maxEntries: int, detect: bool, result: FilesystemWalk)
    returns (ok: bool)
    requires depth < maxDepth
    requires piece.entries == [WalkEntry(child.item, depth + 1, last, parentsLast)] + more
    requires piece.cut <==> |more| < |Preorder(lower, child)|
    requires !child.item.directory ==> more == [] && !piece.cut
    requires child.item.directory && depth + 1 >= maxDepth ==> more == [] && (piece.cut <==> child.children != [])
    requires more == Placed(depth + 1, parentsLast + [last], Cut(maxDepth - (depth + 1), Preorder(lower, child)))
    modifies result
    ensures ok == (|old(result.entries)| + |piece.entries| <= maxEntries)
    ensures ok ==> result.entries == old(result.entries) + piece.entries
    ensures ok ==> result.depthLimited == (old(result.depthLimited) || (detect && piece.cut))
    decreases child, 2
  {
    var entry := WalkEntry(child.item, depth + 1, last, parentsLast);
    Associative(result.entries, [entry], more);
    if |result.entries| >= maxEntries {
      return false;
    }
    result.entries := result.entries + [entry];
    if !child.item.directory {
      return true;
    }
    if depth + 1 < maxDepth {
      ok := AppendFilesystemWalk(lower, child, depth + 1, parentsLast + [last], maxDepth, maxEntries, detect, result);
      return;
    }
    if detect && |child.children| > 0 {
      result.depthLimited := true;
    }
    return true;
  }

  lemma Associative(a: seq<WalkEntry>, b: seq<WalkEntry>, c: seq<WalkEntry>)
    ensures (a + b) + c == a + (b + c)
  {
  }

  /** The walk is the sorted preorder listing cut at maxDepth. It fails exactly
      when that listing has more than the root and more than maxEntries entries,
      and, when asked to, notes exactly whether the cut left anything out. */
  method WalkFilesystem(lower: string -> string, root: Node, maxDepth: nat, maxEntries: int, detect: bool)
    returns (ok: bool, entries: seq<WalkEntry>, depthLimited: bool)
    ensures var listing := Cut(maxDepth, Listing(lower, root));
            && ok == (|listing| <= 1 || |listing| <= maxEntries)
            && (ok ==> entries == listing)
            && (ok ==> depthLimited == (detect && |listing| < |Listing(lower, root)|))
  {
    var result := new FilesystemWalk(WalkEntry(root.item, 0, true, []));
    Below(lower, root);
    RootStays(lower, root, maxDepth);
    if !root.item.directory {
      return true, result.entries, false;
    }
    if maxDepth == 0 {
      NothingAbove(Preorder(lower, root), 0);
      if detect {
        result.depthLimited := |root.children| > 0;
      }
      return true, result.entries, result.depthLimited;
    }
    ok := AppendFilesystemWalk(lower, root, 0, [], maxDepth, maxEntries, detect, result);
    PlacedAtRoot(Cut(maxDepth, Preorder(lower, root)));
    entries, depthLimited := result.entries, result.depthLimited;
  }

  lemma RootStays(lower: string -> string, root: Node, maxDepth: nat)
    ensures Cut(maxDepth, Listing(lower, root))
            == [WalkEntry(root.item, 0, true, [])] + Cut(maxDepth, Preorder(lower, root))
  {
    var head := [WalkEntry(root.item, 0, true, [])];
    CutAppend(maxDepth, head, Preorder(lower, root));
    assert head[..0] == [] && Cut(maxDepth, head) == head;
  }

  // ----- Disk usage

  function FileCount(item: Item): int {
    if item.directory then 0 else 1
  }

  function DirectoryCount(item: Item): int {
    if item.directory then 1 else 0
  }

  function Bytes(item: Item): int {
    if item.directory then 0 else item.size
  }

  function Sum(f: Item -> int, entries: seq<WalkEntry>): int {
    if entries == [] then 0 else Sum(f, entries[..|entries| - 1]) + f(entries[|entries| - 1].item)
  }

  datatype Usage = Usage(entries: int, files: int, directories: int, bytes: int, complete: bool)

  /** The loop of `du` over a walk. */
  method Measure(entries: seq<WalkEntry>, depthLimited: bool) returns (usage: Usage)
    ensures usage.entries == |entries| && usage.complete == !depthLimited
    ensures usage.files == Sum(FileCount, entries) && usage.directories == Sum(DirectoryCount, entries)
    ensures usage.bytes == Sum(Bytes, entries)
  {
    usage := Usage(|entries|, 0, 0, 0, !depthLimited);
    for i := 0 to |entries|
      invariant usage.entries == |entries| && usage.complete == !depthLimited
      invariant usage.files == Sum(FileCount, entries[..i])
      invariant usage.directories == Sum(DirectoryCount, entries[..i])
      invariant usage.bytes == Sum(Bytes, entries[..i])
    {
      assert entries[..i + 1][..i] == entries[..i];
      if entries[i].item.directory {
        usage := usage.(directories := usage.directories + 1);
      } else {
        usage := usage.(files := usage.files + 1, bytes := usage.bytes + entries[i].item.size);
      }
    }
    assert entries[..|entries|] == entries;
  }

  /** What a tree holds within some levels, in whatever order its children come. */
  function Held(f: Item -> int, node: Node, levels: int): int
    decreases node, 1
  {
    f(node.item)
    + if node.item.directory && levels > 0 then HeldByAll(f, node, node.children, levels - 1) else 0
  }

  function HeldByAll(f: Item -> int, parent: Node, nodes: seq<Node>, levels: int): int
    requires forall x :: x in nodes ==> x in parent.children
    decreases parent, 0, |nodes|
  {
    if nodes == [] then 0
    else
      assert nodes[|nodes| - 1] in nodes;
      ChildIsSmaller(parent, nodes[|nodes| - 1]);
      HeldByAll(f, parent, nodes[..|nodes| - 1], levels) + Held(f, nodes[|nodes| - 1], levels)
  }

  /** The sum over the entries of at most some depth. */
  function Within(f: Item -> int, levels: int, entries: seq<WalkEntry>): int {
    if entries == [] then 0
    else
      var e := entries[|entries| - 1];
      Within(f, levels, entries[..|entries| - 1]) + if e.depth <= levels then f(e.item) else 0
  }

  lemma {:induction false} WithinIsCut(f: Item -> int, levels: int, s: seq<WalkEntry>)
    ensures Sum(f, Cut(levels, s)) == Within(f, levels, s)
  {
    if s != [] {
      WithinIsCut(f, levels, s[..|s| - 1]);
      var e := s[|s| - 1];
      var cut := Cut(levels, s[..|s| - 1]);
      assert (cut + [e])[..|cut|] == cut;
      assert cut + [] == cut;
    }
  }

  lemma {:induction false} WithinBoth(f: Item -> int, levels: int, a: seq<WalkEntry>, b: seq<WalkEntry>)
    ensures Within(f, levels, a + b) == Within(f, levels, a) + Within(f, levels, b)
  {
    if b == [] {
      assert a + b == a;
    } else {
      WithinBoth(f, levels, a, b[..|b| - 1]);
      assert (a + b)[..|a + b| - 1] == a + b[..|b| - 1];
    }
  }

  lemma {:induction false} WithinLifted(f: Item -> int, levels: int, last: bool, s: seq<WalkEntry>)
    ensures Within(f, levels, Lifted(last, s)) == Within(f, levels - 1, s)
  {
    if s != [] {
      WithinLifted(f, levels, last, s[..|s| - 1]);
      assert Lifted(last, s)[..|s| - 1] == Lifted(last, s[..|s| - 1]);
    }
  }

  lemma HeadAndBelow(f: Item -> int, head: WalkEntry, last: bool, below: seq<WalkEntry>, levels: int)
    requires head.depth <= levels
    ensures Within(f, levels, [head] + Lifted(last, below)) == f(head.item) + Within(f, levels - 1, below)
  {
    WithinBoth(f, levels, [head], Lifted(last, below));
    assert [head][..0] == [];
    WithinLifted(f, levels, last, below);
  }

  lemma {:induction false} HeldByCons(f: Item -> int, parent: Node, x: Node, s: seq<Node>, levels: int)
    requires x in parent.children && forall y :: y in s ==> y in parent.children
    ensures HeldByAll(f, parent, [x] + s, levels) == Held(f, x, levels) + HeldByAll(f, parent, s, levels)
  {
    var all := [x] + s;
    if s == [] {
      assert all[..0] == [];
    } else {
      HeldByCons(f, parent, x, s[..|s| - 1], levels);
      assert all[..|all| - 1] == [x] + s[..|s| - 1];
    }
  }

  lemma {:induction false} HeldAfterInsert(f: Item -> int, lower: string -> string, parent: Node, x: Node,
                                           s: seq<Node>, levels: int)
    requires x in parent.children && forall y :: y in s ==> y in parent.children
    ensures forall y :: y in Insert(lower, x, s) ==> y in parent.children
    ensures HeldByAll(f, parent, Insert(lower, x, s), levels) == Held(f, x, levels) + HeldByAll(f, parent, s, levels)
  {
    if s == [] || NameBefore(lower, x, s[0]) {
      HeldByCons(f, parent, x, s, levels);
      assert s == [] ==> [x] + s == [x];
    } else {
      HeldAfterInsert(f, lower, parent, x, s[1..], levels);
      HeldByCons(f, parent, s[0], s[1..], levels);
      HeldByCons(f, parent, s[0], Insert(lower, x, s[1..]), levels);
      assert s == [s[0]] + s[1..];
    }
  }

  /** Sorting the children does not change what they hold. */
  lemma {:induction false} HeldWhenSorted(f: Item -> int, lower: string -> string, parent: Node, s: seq<Node>,
                                          levels: int)
    requires forall y :: y in s ==> y in parent.children
    ensures forall y :: y in ByName(lower, s) ==> y in parent.children
    ensures HeldByAll(f, parent, ByName(lower, s), levels) == HeldByAll(f, parent, s, levels)
  {
    if s != [] {
      var init, x := s[..|s| - 1], s[|s| - 1];
      assert x in s;
      HeldWhenSorted(f, lower, parent, init, levels);
      HeldAfterInsert(f, lower, parent, x, ByName(lower, init), levels);
    }
  }

  lemma {:induction false} FamiliesHold(f: Item -> int, parent: Node, sorted: seq<Node>,
                                        families: seq<seq<WalkEntry>>, n: nat, levels: int)
    requires n <= |sorted| == |families| && forall x :: x in sorted ==> x in parent.children
    requires forall i :: 0 <= i < n ==> Within(f, levels, families[i]) == Held(f, sorted[i], levels - 1)
    ensures Within(f, levels, Flat(families, n)) == HeldByAll(f, parent, sorted[..n], levels - 1)
  {
    if n > 0 {
      FamiliesHold(f, parent, sorted, families, n - 1, levels);
      WithinBoth(f, levels, Flat(families, n - 1), families[n - 1]);
      assert sorted[..n][..n - 1] == sorted[..n - 1];
    }
  }

  lemma NothingWithin(f: Item -> int, lower: string -> string, node: Node)
    ensures Within(f, 0, Preorder(lower, node)) == 0
  {
    Below(lower, node);
    NothingAbove(Preorder(lower, node), 0);
    WithinIsCut(f, 0, Preorder(lower, node));
  }

  /** What is listed below a node, with the node itself, is what it holds. */
  lemma {:induction false} BelowHolds(f: Item -> int, lower: string -> string, node: Node, levels: int)
    requires levels >= 0
    ensures f(node.item) + Within(f, levels, Preorder(lower, node)) == Held(f, node, levels)
    decreases node, 1
  {
    if levels == 0 {
      NothingWithin(f, lower, node);
    } else if node.item.directory {
      Contained(lower, node.children);
      var sorted := ByName(lower, node.children);
      var families := Families(lower, node, sorted);
      forall i | 0 <= i < |sorted|
        ensures Within(f, levels, families[i]) == Held(f, sorted[i], levels - 1)
      {
        assert sorted[i] in sorted;
        ChildIsSmaller(node, sorted[i]);
        FamilyHolds(f, lower, sorted[i], i == |sorted| - 1, levels);
      }
      SortedHold(f, lower, node, families, levels);
    }
  }

  lemma SortedHold(f: Item -> int, lower: string -> string, node: Node, families: seq<seq<WalkEntry>>, levels: int)
    requires var sorted := ByName(lower, node.children);
             |families| == |sorted| == |node.children| && forall i :: 0 <= i < |sorted| ==>
               Within(f, levels, families[i]) == Held(f, sorted[i], levels - 1)
    ensures Within(f, levels, Flat(families, |families|)) == HeldByAll(f, node, node.children, levels - 1)
  {
    var sorted := ByName(lower, node.children);
    HeldWhenSorted(f, lower, node, node.children, levels - 1);
    FamiliesHold(f, node, sorted, families, |sorted|, levels);
    assert sorted[..|sorted|] == sorted;
  }

  lemma {:induction false} FamilyHolds(f: Item -> int, lower: string -> string, node: Node, last: bool, levels: int)
    requires levels > 0
    ensures Within(f, levels, Family(lower, node, last)) == Held(f, node, levels - 1)
    decreases node, 2
  {
    BelowHolds(f, lower, node, levels - 1);
    HeadAndBelow(f, WalkEntry(node.item, 1, last, []), last, Preorder(lower, node), levels);
  }

  /** Any sum over the listing down to a depth is that over the tree. */
  lemma ListingHolds(f: Item -> int, lower: string -> string, root: Node, maxDepth: nat)
    ensures Sum(f, Cut(maxDepth, Listing(lower, root))) == Held(f, root, maxDepth)
  {
    var head := WalkEntry(root.item, 0, true, []);
    WithinIsCut(f, maxDepth, Listing(lower, root));
    WithinBoth(f, maxDepth, [head], Preorder(lower, root));
    assert [head][..0] == [];
    BelowHolds(f, lower, root, maxDepth);
  }

  /** A cut that loses nothing loses nothing further down either. */
  lemma {:induction false} NothingCut(levels: int, more: int, s: seq<WalkEntry>)
    requires levels <= more && |Cut(levels, s)| == |s|
    ensures Cut(more, s) == s
  {
    if s != [] {
      NothingCut(levels, more, s[..|s| - 1]);
    }
  }

  function One(item: Item): int {
    1
  }

  lemma {:induction false} EntriesCounted(entries: seq<WalkEntry>)
    ensures Sum(One, entries) == |entries|
  {
    if entries != [] {
      EntriesCounted(entries[..|entries| - 1]);
    }
  }

  /** A walk that was not depth-limited found all the tree holds. */
  lemma CompleteHolds(f: Item -> int, lower: string -> string, root: Node, maxDepth: nat, depth: nat)
    requires maxDepth <= depth && |Cut(maxDepth, Listing(lower, root))| == |Listing(lower, root)|
    ensures Held(f, root, depth) == Held(f, root, maxDepth)
  {
    NothingCut(maxDepth, maxDepth, Listing(lower, root));
    NothingCut(maxDepth, depth, Listing(lower, root));
    ListingHolds(f, lower, root, maxDepth);
    ListingHolds(f, lower, root, depth);
  }

  /** `du` after its option checks: the files, directories and bytes the tree
      holds down to maxDepth, in any order of its children; when complete, what it
      holds down to any depth. It fails exactly when there are too many. */
  method Du(lower: string -> string, root: Node, maxDepth: nat, maxEntries: int) returns (ok: bool, usage: Usage)
    requires maxEntries >= 1
    ensures ok <==> Held(One, root, maxDepth) <= maxEntries
    ensures ok ==>
              && usage.entries == Held(One, root, maxDepth) && usage.files == Held(FileCount, root, maxDepth)
              && usage.directories == Held(DirectoryCount, root, maxDepth) && usage.bytes == Held(Bytes, root, maxDepth)
    ensures ok ==> (usage.complete <==> |Cut(maxDepth, Listing(lower, root))| == |Listing(lower, root)|)
    ensures ok && usage.complete ==> forall depth: nat :: depth >= maxDepth ==> Held(Bytes, root, depth) == usage.bytes
  {
    var entries, depthLimited;
    ok, entries, depthLimited := WalkFilesystem(lower, root, maxDepth, maxEntries, true);
    EntriesCounted(Cut(maxDepth, Listing(lower, root)));
    ListingHolds(One, lower, root, maxDepth);
    ListingHolds(FileCount, lower, root, maxDepth);
    ListingHolds(DirectoryCount, lower, root, maxDepth);
    ListingHolds(Bytes, lower, root, maxDepth);
    if !ok {
      return false, Usage(0, 0, 0, 0, false);
    }
    usage := Measure(entries, depthLimited);
    forall depth: nat | depth >= maxDepth && usage.complete
      ensures Held(Bytes, root, depth) == usage.bytes
    {
      CompleteHolds(Bytes, lower, root, maxDepth, depth);
    }
  }
}
