/** What filtering keeps of a tree, and the canonical form of its patterns. */
module FilterShape {
  import opened Common
  import opened Paths
  import opened Entries
  import opened Actions
  import opened Filters
  import OneWay

  /** The one law of glob matching used here: a pattern with a slash needs at
      least one character. */
  ghost predicate SlashNeedsText(host: Host) {
    forall pattern :: HasSlash(pattern) ==> !host.glob(pattern, "")
  }

  lemma {:induction false} ChainIsClosed(r: Path, p: Path)
    requires p in Chain(r) && p != "" && p != "."
    ensures Dir(p) in Chain(r)
    decreases Climb(r)
  {
    if p != r { ChainIsClosed(Dir(r), p); }
  }

  lemma {:induction false} ChainsNest(p: Path, q: Path)
    requires q in Chain(p)
    ensures Chain(q) <= Chain(p)
    decreases Climb(p)
  {
    if p != q { ChainsNest(Dir(p), q); }
  }

  /** Every chain ends at the root, or at the "." above the top level. */
  lemma {:induction false} ChainEnds(p: Path) returns (top: Path)
    ensures ChainTop(top) && top in Chain(p)
    decreases Climb(p)
  {
    if p == "" || p == "." {
      top := p;
    } else {
      top := ChainEnds(Dir(p));
    }
  }

  /** The two names a chain can end with. */
  predicate ChainTop(p: Path) {
    p == "" || p == "."
  }

  lemma TopBase(p: Path)
    requires ChainTop(p)
    ensures Base(p) == "."
  {
    if p != "" {
      assert LastSlash(p) < 0;
      assert p[0..] == p;
    }
  }

  /** A pattern that matches one top matches the other, unless it needs the dot
      of a path. */
  lemma RootLikeDot(host: Host, patterns: seq<string>, root: Path, dot: Path)
    requires SlashNeedsText(host) && root == "" && dot == "."
    requires MatchesAny(host, root, patterns)
    ensures MatchesAny(host, dot, patterns)
  {
    var i :| 0 <= i < |patterns| && Matches(host, root, patterns[i]);
    TopBase(root);
    TopBase(dot);
    assert Matches(host, dot, patterns[i]);
  }

  lemma ParentIsFiltered(host: Host, s: Snapshot, includes: seq<string>, excludes: seq<string>, p: Path)
    requires SlashNeedsText(host) && Scanned(s) && ParentClosed(s)
    requires p in Filtered(host, s, includes, excludes) && p != ""
    ensures Parent(p) in Filtered(host, s, includes, excludes)
  {
    var q := Parent(p);
    ParentNormal(p);
    if q == "" {
      if Excluded(host, "", excludes) {
        RootLikeDot(host, excludes, "", ".");
        assert "." in Chain(p) by { TopLevelHasDot(p); }
      }
      if includes != [] {
        var r :| r in s && MatchesAny(host, r, includes) && (p == "" || p in Chain(r));
      }
    } else {
      assert Dir(p) == q;
      if includes != [] {
        var r :| r in s && MatchesAny(host, r, includes) && (p == "" || p in Chain(r));
        ChainIsClosed(r, p);
      }
      ChainIsClosed(p, p);
      ChainsNest(p, q);
    }
  }

  lemma TopLevelHasDot(p: Path)
    requires Normal(p) && p != "" && p != "." && Parent(p) == ""
    ensures "." in Chain(p)
  {
    assert Dir(p) in Chain(p) by { ChainIsClosed(p, p); }
  }

  /** Filter shape: whatever is included or excluded, a parent-closed tree stays
      parent-closed, with the entries it had. */
  lemma FilterKeepsShape(host: Host, s: Snapshot, includes: seq<string>, excludes: seq<string>)
    requires SlashNeedsText(host) && Scanned(s) && ParentClosed(s)
    ensures var f := Filtered(host, s, includes, excludes);
            Scanned(f) && ParentClosed(f) && f.Keys <= s.Keys && forall p :: p in f ==> f[p] == s[p]
  {
    var f := Filtered(host, s, includes, excludes);
    forall p | p in f && p != "" ensures Parent(p) in f {
      ParentIsFiltered(host, s, includes, excludes, p);
    }
  }

  // ----- Canonical patterns

  function Bag(patterns: seq<string>): set<string> {
    Elements(patterns)
  }

  lemma MatchesSameBag(host: Host, p: Path, a: seq<string>, b: seq<string>)
    requires Bag(a) == Bag(b)
    ensures MatchesAny(host, p, a) == MatchesAny(host, p, b)
  {
    MatchesWider(host, p, a, b);
    MatchesWider(host, p, b, a);
  }

  lemma MatchesWider(host: Host, p: Path, a: seq<string>, b: seq<string>)
    requires Bag(a) <= Bag(b)
    ensures MatchesAny(host, p, a) ==> MatchesAny(host, p, b)
  {
    if i :| 0 <= i < |a| && Matches(host, p, a[i]) {
      assert a[i] in Bag(b);
      var j :| 0 <= j < |b| && b[j] == a[i];
    }
  }

  /** Order and repetition of patterns do not matter. */
  lemma FilterIgnoresOrder(host: Host, s: Snapshot, includes: seq<string>, excludes: seq<string>,
                           includes': seq<string>, excludes': seq<string>)
    requires Bag(includes) == Bag(includes') && Bag(excludes) == Bag(excludes')
    ensures Filtered(host, s, includes, excludes) == Filtered(host, s, includes', excludes')
  {
    forall p ensures MatchesAny(host, p, includes) == MatchesAny(host, p, includes')
                     && MatchesAny(host, p, excludes) == MatchesAny(host, p, excludes') {
      MatchesSameBag(host, p, includes, includes');
      MatchesSameBag(host, p, excludes, excludes');
    }
    assert includes == [] <==> includes' == [] by {
      assert includes != [] ==> includes[0] in Bag(includes');
      assert includes' != [] ==> includes'[0] in Bag(includes);
    }
    forall p ensures Excluded(host, p, excludes) == Excluded(host, p, excludes') {
    }
    forall p ensures Selected(host, s, p, includes) == Selected(host, s, p, includes') {
    }
  }

  ghost predicate WeaklySorted(s: seq<string>) {
    forall i, j :: 0 <= i < j < |s| ==> s[i] == s[j] || Less(s[i], s[j])
  }

  function InsertString(x: string, s: seq<string>): seq<string> {
    if s == [] || Less(x, s[0]) then [x] + s else [s[0]] + InsertString(x, s[1..])
  }

  /** `sort.Strings`. */
  function SortStrings(s: seq<string>): seq<string> {
    if s == [] then [] else InsertString(s[0], SortStrings(s[1..]))
  }

  lemma {:induction false} InsertStringElements(x: string, s: seq<string>)
    ensures Elements(InsertString(x, s)) == Elements(s) + {x} && |InsertString(x, s)| == |s| + 1
  {
    if s != [] && !Less(x, s[0]) {
      InsertStringElements(x, s[1..]);
      ConsElements(s[0], s[1..]);
      ConsElements(s[0], InsertString(x, s[1..]));
      assert s == [s[0]] + s[1..];
    } else {
      ConsElements(x, s);
      if s == [] { assert [x] + s == [x]; }
    }
  }

  lemma {:induction false} InsertStringSorts(x: string, s: seq<string>)
    requires WeaklySorted(s)
    ensures WeaklySorted(InsertString(x, s))
  {
    if s != [] && !Less(x, s[0]) {
      InsertStringSorts(x, s[1..]);
      InsertStringElements(x, s[1..]);
      var rest := InsertString(x, s[1..]);
      LessTotal(x, s[0]);
      forall j | 0 <= j < |rest| ensures s[0] == rest[j] || Less(s[0], rest[j]) {
        assert rest[j] in Elements(rest);
        if rest[j] != x {
          var k :| 0 <= k < |s[1..]| && s[1..][k] == rest[j];
          assert s[k + 1] == rest[j];
        }
      }
    } else {
      forall j | 0 <= j < |s| ensures x == s[j] || Less(x, s[j]) {
        if j > 0 && s[0] != s[j] { LessTransitive(x, s[0], s[j]); }
      }
    }
  }

  lemma {:induction false} SortStringsSorts(s: seq<string>)
    ensures WeaklySorted(SortStrings(s)) && Elements(SortStrings(s)) == Elements(s)
    ensures |SortStrings(s)| == |s|
  {
    if s != [] {
      SortStringsSorts(s[1..]);
      InsertStringSorts(s[0], SortStrings(s[1..]));
      InsertStringElements(s[0], SortStrings(s[1..]));
      ConsElements(s[0], s[1..]);
      assert s == [s[0]] + s[1..];
    }
  }

  /** What the in-place pass has kept of a sorted prefix. */
  ghost predicate Compacted(kept: seq<string>, prefix: seq<string>) {
    && StrictlySorted(kept) && Elements(kept) == Elements(prefix)
    && (prefix != [] ==> kept != [] && kept[|kept| - 1] == prefix[|prefix| - 1])
  }

  lemma SnocElements(s: seq<string>, x: string)
    ensures Elements(s + [x]) == Elements(s) + {x}
  {
    assert (s + [x])[|s|] == x;
    forall p | p in Elements(s) ensures p in Elements(s + [x]) {
      var i :| 0 <= i < |s| && s[i] == p;
      assert (s + [x])[i] == p;
    }
  }

  lemma CompactRepeat(kept: seq<string>, prefix: seq<string>, x: string)
    requires Compacted(kept, prefix) && kept != [] && kept[|kept| - 1] == x
    ensures Compacted(kept, prefix + [x])
  {
    SnocElements(prefix, x);
    assert kept[|kept| - 1] in Elements(kept);
  }

  lemma CompactNew(kept: seq<string>, prefix: seq<string>, x: string)
    requires Compacted(kept, prefix) && WeaklySorted(prefix + [x])
    requires kept == [] || kept[|kept| - 1] != x
    ensures Compacted(kept + [x], prefix + [x])
  {
    SnocElements(prefix, x);
    SnocElements(kept, x);
    if kept != [] {
      var n := |prefix| - 1;
      assert prefix != [] by { assert kept[0] in Elements(prefix); }
      assert (prefix + [x])[n] == prefix[n] && (prefix + [x])[n + 1] == x;
      forall k | 0 <= k < |kept| ensures Less(kept[k], x) {
        if k < |kept| - 1 { LessTransitive(kept[k], kept[|kept| - 1], x); }
      }
    }
  }

  /** Sorts and removes repetitions in place: strictly sorted afterwards, with
      the same elements. */
  method SortedUniqueStrings(values: seq<string>) returns (r: seq<string>)
    ensures StrictlySorted(r)
    ensures Elements(r) == Elements(values)
  {
    var sorted := SortStrings(values);
    SortStringsSorts(values);
    var result := new string[|sorted|](i requires 0 <= i < |sorted| => sorted[i]);
    assert result[..] == sorted;
    var write := Compact(result);
    r := result[..write];
  }

  /** Moves the first of each run of equal strings to the front. */
  method Compact(result: array<string>) returns (write: nat)
    requires WeaklySorted(result[..])
    modifies result
    ensures write <= result.Length && Compacted(result[..write], old(result[..]))
  {
    ghost var sorted := result[..];
    write := 0;
    for read := 0 to result.Length
      invariant write <= read
      invariant forall k :: read <= k < result.Length ==> result[k] == sorted[k]
      invariant Compacted(result[..write], sorted[..read])
    {
      assert sorted[..read + 1] == sorted[..read] + [sorted[read]];
      var value := result[read];
      ghost var kept := result[..write];
      if write > 0 && result[write - 1] == value {
        CompactRepeat(kept, sorted[..read], value);
        continue;
      }
      CompactNew(kept, sorted[..read], value);
      result[write] := value;
      assert result[..write + 1] == kept + [value];
      write := write + 1;
    }
    assert sorted[..|sorted|] == sorted;
  }

  method NormalizePatterns(host: Host, includes: seq<string>, excludes: seq<string>)
    returns (r: Result<(seq<string>, seq<string>)>)
    ensures r.Ok? <==> ValidPatterns(host, includes) && ValidPatterns(host, excludes)
    ensures r.Ok? ==> StrictlySorted(r.value.0) && Elements(r.value.0) == Elements(includes)
    ensures r.Ok? ==> StrictlySorted(r.value.1) && Elements(r.value.1) == Elements(excludes)
    ensures r.Ok? ==> forall s :: Filtered(host, s, r.value.0, r.value.1) == Filtered(host, s, includes, excludes)
  {
    if !ValidPatterns(host, includes) || !ValidPatterns(host, excludes) {
      return Err;
    }
    var i := SortedUniqueStrings(includes);
    var e := SortedUniqueStrings(excludes);
    forall s ensures Filtered(host, s, i, e) == Filtered(host, s, includes, excludes) {
      FilterIgnoresOrder(host, s, i, e, includes, excludes);
    }
    return Ok((i, e));
  }

  // ----- Filters that select nothing

  /** A slash-free exclude that matches the name "." excludes every path of
      every tree, since each path's chain ends at a name ".". */
  lemma DotPatternExcludesEverything(host: Host, s: Snapshot, includes: seq<string>, excludes: seq<string>, i: nat)
    requires i < |excludes| && !HasSlash(excludes[i]) && host.glob(excludes[i], ".")
    ensures Filtered(host, s, includes, excludes) == map[]
  {
    forall p | p in s ensures Excluded(host, p, excludes) {
      var top := ChainEnds(p);
      TopBase(top);
      assert Matches(host, top, excludes[i]);
    }
  }

  /** Excludes leave nothing of a tree exactly when one of them is slash-free and
      matches the name ".". */
  lemma ExcludesEverythingExactly(host: Host, s: Snapshot, excludes: seq<string>)
    requires SlashNeedsText(host) && "" in s
    ensures Filtered(host, s, [], excludes) == map[] <==>
            exists i :: 0 <= i < |excludes| && !HasSlash(excludes[i]) && host.glob(excludes[i], ".")
  {
    if i :| 0 <= i < |excludes| && !HasSlash(excludes[i]) && host.glob(excludes[i], ".") {
      DotPatternExcludesEverything(host, s, [], excludes, i);
    } else {
      assert !Excluded(host, "", excludes);
      assert "" in Filtered(host, s, [], excludes);
    }
  }

  /** When no source path matches the includes the filtered source has not even
      a root, and a deleting one-way plan deletes the destination root. */
  lemma UnmatchedIncludesDeleteRoot(host: Host, source: Snapshot, d: Snapshot, previous: Option<Baseline>,
                                    options: OneWay.Options, includes: seq<string>, excludes: seq<string>)
    requires includes != [] && forall r :: r in source ==> !MatchesAny(host, r, includes)
    requires "" in d && Scanned(d) && options.delete
    requires previous.Some? && "" in previous.value ==> previous.value[""].destination.typ == Directory
    ensures Filtered(host, source, includes, excludes) == map[]
    ensures exists a :: a in OneWay.MirrorPlan(Filtered(host, source, includes, excludes), d, previous, options)
                        && a.kind == Delete && a.path == ""
  {
    assert Filtered(host, source, includes, excludes) == map[];
    OneWay.MirrorMembers(map[], d, previous, options);
    assert OneWay.PlanAt("", map[], d, previous, options).kind == Delete;
  }
}
