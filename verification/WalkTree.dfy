/** What the listing of a walk shows of its tree: which entries lie below which,
    whether an entry is the last among its siblings and in what order these come. */
module WalkTree {
  import opened Common
  import opened Paths
  import opened Walk

  /** The next entry at the same depth with nothing shallower in between. */
  predicate NextSibling(e: seq<WalkEntry>, i: int, j: int) {
    0 <= i < j < |e| && e[j].depth == e[i].depth && forall k :: i < k < j ==> e[k].depth > e[i].depth
  }

  /** The i-th entry lies below the k-th. */
  predicate Encloses(e: seq<WalkEntry>, k: int, i: int) {
    0 <= k < i < |e| && forall m :: k < m <= i ==> e[m].depth > e[k].depth
  }

  /** An entry is one deeper than the one before only below a directory, and has one
      flag for each level above it but the root's. */
  predicate Nested(e: seq<WalkEntry>, i: nat)
    requires i < |e|
  {
    && e[i].depth >= 1 && |e[i].parentsLast| == e[i].depth - 1
    && (i + 1 < |e| ==> e[i + 1].depth <= e[i].depth
                        || (e[i + 1].depth == e[i].depth + 1 && e[i].item.directory))
  }

  ghost predicate LastExactly(e: seq<WalkEntry>, i: nat)
    requires i < |e|
  {
    e[i].last <==> forall j :: !NextSibling(e, i, j)
  }

  /** The flags are those of the entries above. */
  ghost predicate FlagsExactly(e: seq<WalkEntry>, i: nat)
    requires i < |e|
  {
    forall k :: Encloses(e, k, i) && 1 <= e[k].depth <= |e[i].parentsLast| ==>
                  e[i].parentsLast[e[k].depth - 1] == e[k].last
  }

  /** Names are compared in lower case first and as they are when that is equal. */
  predicate InNameOrder(lower: string -> string, a: string, b: string) {
    if lower(a) == lower(b) then !Less(b, a) else Less(lower(a), lower(b))
  }

  ghost predicate SiblingsOrdered(lower: string -> string, e: seq<WalkEntry>, i: nat) {
    forall j :: NextSibling(e, i, j) ==> InNameOrder(lower, e[i].item.name, e[j].item.name)
  }

  ghost predicate Fits(lower: string -> string, e: seq<WalkEntry>, i: nat)
    requires i < |e|
  {
    Nested(e, i) && FlagsExactly(e, i) && SiblingsOrdered(lower, e, i)
  }

  /** The entries below a directory. */
  ghost predicate Listed(lower: string -> string, e: seq<WalkEntry>) {
    && (e != [] ==> e[0].depth == 1)
    && forall i :: 0 <= i < |e| ==> Fits(lower, e, i) && LastExactly(e, i)
  }

  /** An entry and what lies below it. */
  ghost predicate IsFamily(lower: string -> string, f: seq<WalkEntry>) {
    && f != [] && f[0].depth == 1
    && (forall i :: 0 < i < |f| ==> f[i].depth >= 2 && LastExactly(f, i))
    && forall i :: 0 <= i < |f| ==> Fits(lower, f, i)
  }

  // ----- From what lies below a node to its family

  lemma LiftedSiblings(head: WalkEntry, last: bool, e: seq<WalkEntry>, i: nat, j: nat)
    requires i < |e| && j < |e|
    ensures NextSibling([head] + Lifted(last, e), i + 1, j + 1) <==> NextSibling(e, i, j)
  {
    var f := [head] + Lifted(last, e);
    assert forall k :: 0 <= k < |e| ==> f[k + 1].depth == e[k].depth + 1;
    if NextSibling(f, i + 1, j + 1) {
      forall k | i < k < j ensures e[k].depth > e[i].depth {
        assert f[k + 1].depth > f[i + 1].depth;
      }
    }
  }

  lemma LiftedEncloses(head: WalkEntry, last: bool, e: seq<WalkEntry>, k: nat, i: nat)
    requires i < |e| && k < |e|
    ensures Encloses([head] + Lifted(last, e), k + 1, i + 1) <==> Encloses(e, k, i)
  {
    var f := [head] + Lifted(last, e);
    assert forall m :: 0 <= m < |e| ==> f[m + 1].depth == e[m].depth + 1;
    if Encloses(f, k + 1, i + 1) {
      forall m | k < m <= i ensures e[m].depth > e[k].depth {
        assert f[m + 1].depth > f[k + 1].depth;
      }
    }
  }

  lemma LiftedLast(lower: string -> string, head: WalkEntry, last: bool, e: seq<WalkEntry>, i: nat)
    requires i < |e| && LastExactly(e, i) && SiblingsOrdered(lower, e, i)
    ensures LastExactly([head] + Lifted(last, e), i + 1) && SiblingsOrdered(lower, [head] + Lifted(last, e), i + 1)
  {
    var f, n := [head] + Lifted(last, e), i + 1;
    forall j ensures NextSibling(f, n, j) ==> NextSibling(e, i, j - 1) {
      if NextSibling(f, n, j) { LiftedSiblings(head, last, e, i, j - 1); }
    }
    forall j ensures NextSibling(e, i, j) ==> NextSibling(f, n, j + 1) {
      if NextSibling(e, i, j) { LiftedSiblings(head, last, e, i, j); }
    }
  }

  lemma LiftedFlags(head: WalkEntry, last: bool, e: seq<WalkEntry>, i: nat)
    requires i < |e| && FlagsExactly(e, i) && Nested(e, i) && head.depth == 1 && head.last == last
    requires forall k :: 0 <= k < |e| ==> e[k].depth >= 1
    ensures FlagsExactly([head] + Lifted(last, e), i + 1)
  {
    var f, n := [head] + Lifted(last, e), i + 1;
    forall k | Encloses(f, k, n) && 1 <= f[k].depth <= |f[n].parentsLast|
      ensures f[n].parentsLast[f[k].depth - 1] == f[k].last
    {
      if k > 0 { LiftedEncloses(head, last, e, k - 1, i); }
    }
  }

  lemma LiftedNested(head: WalkEntry, last: bool, e: seq<WalkEntry>, i: nat)
    requires i < |e| && Nested(e, i)
    ensures Nested([head] + Lifted(last, e), i + 1)
  {
  }

  lemma LiftedEntry(lower: string -> string, head: WalkEntry, last: bool, e: seq<WalkEntry>, i: nat)
    requires Listed(lower, e) && i < |e| && head.depth == 1 && head.last == last
    ensures var f := [head] + Lifted(last, e);
            && f[i + 1].depth >= 2 && LastExactly(f, i + 1)
            && Fits(lower, f, i + 1)
  {
    assert Fits(lower, e, i);
    LiftedLast(lower, head, last, e, i);
    LiftedNested(head, last, e, i);
    forall k | 0 <= k < |e| ensures e[k].depth >= 1 {
      assert Fits(lower, e, k);
    }
    LiftedFlags(head, last, e, i);
  }

  lemma HeadEntry(lower: string -> string, f: seq<WalkEntry>)
    requires f != [] && f[0].depth == 1 && f[0].parentsLast == [] && forall i :: 0 < i < |f| ==> f[i].depth >= 2
    requires |f| > 1 ==> f[0].item.directory && f[1].depth == 2
    ensures Fits(lower, f, 0)
  {
  }

  lemma FamilyOf(lower: string -> string, head: WalkEntry, last: bool, e: seq<WalkEntry>)
    requires Listed(lower, e) && head == WalkEntry(head.item, 1, last, []) && (e != [] ==> head.item.directory)
    ensures IsFamily(lower, [head] + Lifted(last, e))
  {
    var f := [head] + Lifted(last, e);
    forall i | 0 < i < |f|
      ensures f[i].depth >= 2 && LastExactly(f, i) && Fits(lower, f, i)
    {
      LiftedEntry(lower, head, last, e, i - 1);
    }
    HeadEntry(lower, f);
  }

  // ----- From families to what lies below their parent

  /** Families one after the other, the last of which starts at `final`; `more` says
      that another one is to come. */
  ghost predicate Growing(lower: string -> string, e: seq<WalkEntry>, final: int, more: bool) {
    && (e == [] <==> final == -1) && -1 <= final < |e|
    && (e != [] ==> e[0].depth == 1 && e[final].depth == 1 && e[final].last == !more)
    && (forall i :: final < i < |e| ==> e[i].depth >= 2)
    && forall i :: 0 <= i < |e| ==> Fits(lower, e, i) && (i != final ==> LastExactly(e, i))
  }

  lemma GrownIsListed(lower: string -> string, e: seq<WalkEntry>, final: int)
    requires Growing(lower, e, final, false)
    ensures Listed(lower, e)
  {
    if e != [] {
      forall j ensures !NextSibling(e, final, j) {
      }
    }
  }

  /** Siblings and enclosing entries on either side of a join. */
  lemma JoinedBefore(e: seq<WalkEntry>, f: seq<WalkEntry>, i: nat, j: int)
    requires i < |e| && f != [] && f[0].depth == 1 && e[i].depth >= 1
    ensures j < |e| ==> (NextSibling(e + f, i, j) <==> NextSibling(e, i, j))
    ensures j >= |e| && NextSibling(e + f, i, j) ==>
              j == |e| && e[i].depth == 1 && forall k :: i < k < |e| ==> e[k].depth > 1
    ensures Encloses(e + f, j, i) <==> Encloses(e, j, i)
  {
    var all := e + f;
    assert all[|e|] == f[0];
    assert forall k :: 0 <= k < |e| ==> all[k] == e[k];
    if j < |e| && NextSibling(all, i, j) {
      forall k | i < k < j ensures e[k].depth > e[i].depth {
        assert all[k].depth > all[i].depth;
      }
    }
    if j >= |e| && NextSibling(all, i, j) {
      forall k | i < k < |e| ensures e[k].depth > 1 {
        assert all[k].depth > all[i].depth;
      }
    }
    if Encloses(all, j, i) {
      forall m | j < m <= i ensures e[m].depth > e[j].depth {
        assert all[m].depth > all[j].depth;
      }
    }
  }

  lemma SiblingsAfter(e: seq<WalkEntry>, f: seq<WalkEntry>, all: seq<WalkEntry>, i: nat, j: int)
    requires all == e + f && i < |f|
    ensures NextSibling(all, |e| + i, |e| + j) <==> NextSibling(f, i, j)
  {
    var n := |e|;
    assert forall k :: 0 <= k < |f| ==> all[n + k] == f[k];
    if NextSibling(all, n + i, n + j) {
      forall k | i < k < j ensures f[k].depth > f[i].depth {
        assert all[n + k].depth > all[n + i].depth;
      }
    }
    if NextSibling(f, i, j) {
      forall k | n + i < k < n + j ensures all[k].depth > all[n + i].depth {
        assert f[k - n].depth > f[i].depth;
      }
    }
  }

  lemma EnclosedAfter(e: seq<WalkEntry>, f: seq<WalkEntry>, all: seq<WalkEntry>, i: nat, j: int)
    requires all == e + f && i < |f| && f[0].depth == 1 && forall k :: 0 <= k < |e| ==> e[k].depth >= 1
    ensures Encloses(all, |e| + j, |e| + i) ==> Encloses(f, j, i)
  {
    var n := |e|;
    assert forall k :: 0 <= k < |f| ==> all[n + k] == f[k];
    assert forall k :: 0 <= k < |e| ==> all[k] == e[k];
    if Encloses(all, n + j, n + i) {
      assert all[n + 0] == f[0];
      forall m | j < m <= i && 0 <= m ensures 0 <= j ==> f[m].depth > f[j].depth {
        assert all[n + m].depth > all[n + j].depth;
      }
    }
  }

  lemma JoinedSiblings(lower: string -> string, e: seq<WalkEntry>, final: int, f: seq<WalkEntry>, all: seq<WalkEntry>,
                       i: nat)
    requires Growing(lower, e, final, true) && f != [] && f[0].depth == 1 && all == e + f && i < |e|
    requires InNameOrder(lower, e[final].item.name, f[0].item.name)
    ensures SiblingsOrdered(lower, all, i) && LastExactly(all, i)
  {
    assert Fits(lower, e, i);
    assert forall k :: 0 <= k < |e| ==> all[k] == e[k];
    forall j ensures NextSibling(all, i, j) <==> NextSibling(e, i, j) || (i == final && j == |e|) {
      JoinedBefore(e, f, i, j);
    }
    if i == final { assert NextSibling(all, final, |e|); }
  }

  lemma JoinedFlags(e: seq<WalkEntry>, f: seq<WalkEntry>, all: seq<WalkEntry>, i: nat)
    requires i < |e| && all == e + f && f != [] && f[0].depth == 1 && e[i].depth >= 1 && FlagsExactly(e, i)
    ensures FlagsExactly(all, i)
  {
    assert forall k :: 0 <= k < |e| ==> all[k] == e[k];
    forall k ensures Encloses(all, k, i) <==> Encloses(e, k, i) {
      JoinedBefore(e, f, i, k);
    }
  }

  lemma JoinedEntry(lower: string -> string, e: seq<WalkEntry>, final: int, f: seq<WalkEntry>, i: nat)
    requires Growing(lower, e, final, true) && f != [] && f[0].depth == 1 && i < |e|
    requires InNameOrder(lower, e[final].item.name, f[0].item.name)
    ensures Fits(lower, e + f, i) && LastExactly(e + f, i)
  {
    assert Fits(lower, e, i);
    JoinedSiblings(lower, e, final, f, e + f, i);
    JoinedFlags(e, f, e + f, i);
    JoinedNested(e, f, e + f, i);
  }

  lemma JoinedNested(e: seq<WalkEntry>, f: seq<WalkEntry>, all: seq<WalkEntry>, i: nat)
    requires i < |e| && all == e + f && f != [] && f[0].depth == 1 && Nested(e, i)
    ensures Nested(all, i)
  {
  }

  /** All entries before the join, and all after it. */
  lemma AllBefore(lower: string -> string, e: seq<WalkEntry>, final: int, f: seq<WalkEntry>)
    requires Growing(lower, e, final, true) && IsFamily(lower, f)
    requires e != [] ==> InNameOrder(lower, e[final].item.name, f[0].item.name)
    ensures forall i :: 0 <= i < |e| ==> e[i].depth >= 1 && Fits(lower, e + f, i) && LastExactly(e + f, i)
  {
    forall i | 0 <= i < |e| ensures e[i].depth >= 1 && Fits(lower, e + f, i) && LastExactly(e + f, i) {
      assert Fits(lower, e, i);
      JoinedEntry(lower, e, final, f, i);
    }
  }

  lemma AddedSiblings(lower: string -> string, e: seq<WalkEntry>, f: seq<WalkEntry>, all: seq<WalkEntry>, i: nat,
                      n: nat)
    requires all == e + f && i < |f| && n == |e| + i && SiblingsOrdered(lower, f, i)
    ensures SiblingsOrdered(lower, all, n) && (LastExactly(f, i) ==> LastExactly(all, n))
  {
    assert forall k :: 0 <= k < |f| ==> all[|e| + k] == f[k];
    forall j ensures NextSibling(all, n, j) ==> NextSibling(f, i, j - |e|) {
      SiblingsAfter(e, f, all, i, j - |e|);
    }
    forall j ensures NextSibling(f, i, j) ==> NextSibling(all, n, |e| + j) {
      SiblingsAfter(e, f, all, i, j);
    }
  }

  lemma AddedFlags(e: seq<WalkEntry>, f: seq<WalkEntry>, all: seq<WalkEntry>, i: nat, n: nat)
    requires all == e + f && i < |f| && n == |e| + i && f[0].depth == 1 && FlagsExactly(f, i)
    requires forall k :: 0 <= k < |e| ==> e[k].depth >= 1
    ensures FlagsExactly(all, n)
  {
    assert forall k :: 0 <= k < |f| ==> all[|e| + k] == f[k];
    forall k ensures Encloses(all, k, n) ==> Encloses(f, k - |e|, i) {
      EnclosedAfter(e, f, all, i, k - |e|);
    }
  }

  lemma AddedNested(e: seq<WalkEntry>, f: seq<WalkEntry>, all: seq<WalkEntry>, i: nat, n: nat)
    requires all == e + f && i < |f| && n == |e| + i && Nested(f, i)
    ensures Nested(all, n)
  {
    assert all[n] == f[i] && (i + 1 < |f| ==> all[n + 1] == f[i + 1]);
  }

  lemma EntryAfter(lower: string -> string, e: seq<WalkEntry>, f: seq<WalkEntry>, all: seq<WalkEntry>, n: nat)
    requires IsFamily(lower, f) && all == e + f && |e| <= n < |all| && forall k :: 0 <= k < |e| ==> e[k].depth >= 1
    ensures Fits(lower, all, n) && (n > |e| ==> LastExactly(all, n))
  {
    var i := n - |e|;
    assert Fits(lower, f, i);
    AddedSiblings(lower, e, f, all, i, n);
    AddedFlags(e, f, all, i, n);
    AddedNested(e, f, all, i, n);
  }

  lemma AllAfter(lower: string -> string, e: seq<WalkEntry>, f: seq<WalkEntry>, all: seq<WalkEntry>)
    requires IsFamily(lower, f) && all == e + f && forall k :: 0 <= k < |e| ==> e[k].depth >= 1
    ensures forall i :: |e| <= i < |all| ==> Fits(lower, all, i) && (i > |e| ==> LastExactly(all, i))
  {
    forall i | |e| <= i < |all| ensures Fits(lower, all, i) && (i > |e| ==> LastExactly(all, i)) {
      EntryAfter(lower, e, f, all, i);
    }
  }

  lemma OneMoreFamily(lower: string -> string, e: seq<WalkEntry>, final: int, f: seq<WalkEntry>, more: bool)
    requires Growing(lower, e, final, true) && IsFamily(lower, f) && f[0].last == !more
    requires e != [] ==> InNameOrder(lower, e[final].item.name, f[0].item.name)
    ensures Growing(lower, e + f, |e|, more)
  {
    AllBefore(lower, e, final, f);
    AllAfter(lower, e, f, e + f);
    Assembled(lower, e + f, |e|, more, f);
  }

  lemma Assembled(lower: string -> string, all: seq<WalkEntry>, n: nat, more: bool, f: seq<WalkEntry>)
    requires f != [] && |all| == n + |f| && all[n..] == f
    requires f[0].depth == 1 && f[0].last == !more && all[0].depth == 1
    requires forall i :: 0 < i < |f| ==> f[i].depth >= 2
    requires forall i :: 0 <= i < |all| ==> Fits(lower, all, i) && (i != n ==> LastExactly(all, i))
    ensures Growing(lower, all, n, more)
  {
    assert all[n] == f[0];
    forall i | n < i < |all| ensures all[i].depth >= 2 {
      assert all[i] == f[i - n];
    }
  }

  // ----- The whole listing

  lemma SortedInOrder(lower: string -> string, sorted: seq<Node>, i: nat)
    requires NameOrdered(lower, sorted) && i + 1 < |sorted|
    ensures InNameOrder(lower, sorted[i].item.name, sorted[i + 1].item.name)
  {
    assert !NameBefore(lower, sorted[i + 1], sorted[i]);
    LessTotal(lower(sorted[i].item.name), lower(sorted[i + 1].item.name));
  }

  /** One family for each child, with the last one marked. */
  ghost predicate FamiliesOf(lower: string -> string, sorted: seq<Node>, families: seq<seq<WalkEntry>>) {
    && |families| == |sorted|
    && forall i :: 0 <= i < |sorted| ==> FamilyAt(lower, sorted[i].item, i == |sorted| - 1, families[i])
  }

  ghost predicate FamilyAt(lower: string -> string, item: Item, last: bool, f: seq<WalkEntry>) {
    IsFamily(lower, f) && f[0].item == item && f[0].last == last
  }

  lemma NextFamily(lower: string -> string, e: seq<WalkEntry>, before: int, f: seq<WalkEntry>, sorted: seq<Node>,
                   n: nat)
    requires 0 < n <= |sorted| && Growing(lower, e, before, true)
    requires FamilyAt(lower, sorted[n - 1].item, n - 1 == |sorted| - 1, f)
    requires n > 1 ==> 0 <= before < |e| && e[before].item == sorted[n - 2].item
    requires n > 1 ==> InNameOrder(lower, sorted[n - 2].item.name, sorted[n - 1].item.name)
    requires n == 1 ==> e == []
    ensures Growing(lower, e + f, |e|, n < |sorted|) && (e + f)[|e|].item == sorted[n - 1].item
  {
    OneMoreFamily(lower, e, before, f, n < |sorted|);
    assert (e + f)[|e|] == f[0];
  }

  /** The families of sorted children, up to the n-th. */
  lemma {:induction false} FamiliesGrow(lower: string -> string, sorted: seq<Node>, families: seq<seq<WalkEntry>>,
                                        n: nat)
    returns (final: int)
    requires NameOrdered(lower, sorted) && FamiliesOf(lower, sorted, families) && n <= |sorted|
    ensures Growing(lower, Flat(families, n), final, n < |sorted|)
    ensures n > 0 ==> 0 <= final < |Flat(families, n)| && Flat(families, n)[final].item == sorted[n - 1].item
  {
    if n == 0 {
      final := -1;
      NoneGrown(lower, Flat(families, n), n < |sorted|);
    } else {
      var before := FamiliesGrow(lower, sorted, families, n - 1);
      if n > 1 { SortedInOrder(lower, sorted, n - 2); }
      final := |Flat(families, n - 1)|;
      NextFamily(lower, Flat(families, n - 1), before, families[n - 1], sorted, n);
    }
  }

  lemma NoneGrown(lower: string -> string, e: seq<WalkEntry>, more: bool)
    requires e == []
    ensures Growing(lower, e, -1, more)
  {
  }

  lemma FamilyIsFamily(lower: string -> string, node: Node, last: bool)
    requires Listed(lower, Preorder(lower, node))
    ensures FamilyAt(lower, node.item, last, Family(lower, node, last))
  {
    Below(lower, node);
    FamilyOf(lower, WalkEntry(node.item, 1, last, []), last, Preorder(lower, node));
  }

  lemma FlatIsListed(lower: string -> string, sorted: seq<Node>, families: seq<seq<WalkEntry>>)
    requires NameOrdered(lower, sorted) && FamiliesOf(lower, sorted, families)
    ensures Listed(lower, Flat(families, |sorted|))
  {
    var final := FamiliesGrow(lower, sorted, families, |sorted|);
    GrownIsListed(lower, Flat(families, |sorted|), final);
  }

  /** Whatever the tree: each entry lies below a directory and knows which of its
      ancestors are last, it is marked last exactly when no sibling follows, and
      siblings come in the order of their names. */
  lemma {:induction false} PreorderIsListed(lower: string -> string, node: Node)
    ensures Listed(lower, Preorder(lower, node))
    decreases node, 1
  {
    if node.item.directory {
      Contained(lower, node.children);
      ByNameIsStableSort(lower, node.children, "");
      var sorted := ByName(lower, node.children);
      ChildrenAreFamilies(lower, node, sorted);
      FlatIsListed(lower, sorted, Families(lower, node, sorted));
    }
  }

  lemma {:induction false} ChildrenAreFamilies(lower: string -> string, node: Node, sorted: seq<Node>)
    requires forall x :: x in sorted ==> x in node.children
    ensures FamiliesOf(lower, sorted, Families(lower, node, sorted))
    decreases node, 0
  {
    forall i | 0 <= i < |sorted|
      ensures FamilyAt(lower, sorted[i].item, i == |sorted| - 1, Families(lower, node, sorted)[i])
    {
      assert sorted[i] in sorted;
      ChildIsSmaller(node, sorted[i]);
      PreorderIsListed(lower, sorted[i]);
      FamilyIsFamily(lower, sorted[i], i == |sorted| - 1);
    }
  }
}
