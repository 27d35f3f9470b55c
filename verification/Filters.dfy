/** Include and exclude globs over a snapshot. */
module Filters {
  import opened Common
  import opened Paths
  import opened Entries

  /** What the planner takes from elsewhere: glob matching, glob syntax and the
      case-folded, normalised identity of a path. */
  datatype Host = Host(
    glob: (string, string) -> bool,
    validPattern: string -> bool,
    identity: string -> string)

  /** `path.Dir` on a normalised path: "." above a top-level name. */
  function Dir(p: Path): Path {
    if LastSlash(p) < 0 then "." else Parent(p)
  }

  /** `path.Base` on a normalised path: "." for the root. */
  function Base(p: Path): string {
    if p == "" then "." else p[LastSlash(p) + 1..]
  }

  predicate HasSlash(pattern: string) {
    '/' in pattern
  }

  /** A pattern with a slash is matched against the whole path, any other
      against its last component. */
  predicate Matches(host: Host, relative: Path, pattern: string) {
    host.glob(pattern, if HasSlash(pattern) then relative else Base(relative))
  }

  predicate MatchesAny(host: Host, relative: Path, patterns: seq<string>) {
    exists i :: 0 <= i < |patterns| && Matches(host, relative, patterns[i])
  }

  function Climb(p: Path): nat {
    if p == "" || p == "." then 0 else |p| + 1
  }

  /** The path and everything `path.Dir` reaches from it. */
  function Chain(p: Path): (c: set<Path>)
    ensures p in c
    decreases Climb(p)
  {
    {p} + if p == "" || p == "." then {} else Chain(Dir(p))
  }

  predicate Excluded(host: Host, relative: Path, patterns: seq<string>) {
    exists p :: p in Chain(relative) && MatchesAny(host, p, patterns)
  }

  predicate Selected(host: Host, snapshot: Snapshot, p: Path, includes: seq<string>) {
    || includes == []
    || exists r :: r in snapshot && MatchesAny(host, r, includes) && (p == "" || p in Chain(r))
  }

  predicate ValidPatterns(host: Host, patterns: seq<string>) {
    forall i :: 0 <= i < |patterns| ==> !Blank(patterns[i]) && host.validPattern(patterns[i])
  }

  // ----- What paths and patterns mean

  /** A path is its directory, a slash and its last component; a top-level path has
      no directory but ".". */
  lemma PathParts(p: Path)
    ensures '/' !in Base(p)
    ensures '/' in p ==> p == Dir(p) + "/" + Base(p)
    ensures '/' !in p ==> Dir(p) == "." && Base(p) == if p == "" then "." else p
  {
    var i := LastSlash(p);
    if '/' in p {
      var k :| 0 <= k < |p| && p[k] == '/';
      assert p == p[..i] + [p[i]] + p[i + 1..];
      assert p[..i] + [p[i]] + p[i + 1..] == p[..i] + "/" + p[i + 1..];
    } else if p != "" {
      assert p[i + 1..] == p;
    }
  }

  lemma LastPart(directory: Path, name: string)
    requires '/' !in name
    ensures Base(directory + "/" + name) == name && Dir(directory + "/" + name) == directory
  {
    var p := directory + "/" + name;
    assert p[|directory|] == '/';
    assert forall k :: |directory| < k < |p| ==> p[k] == name[k - |directory| - 1] && p[k] in name;
    assert LastSlash(p) == |directory|;
    assert p[..|directory|] == directory && p[|directory| + 1..] == name;
  }

  /** A pattern without a slash matches a name in any directory, one with a slash the
      path as a whole. */
  lemma MatchesExactly(host: Host, directory: Path, name: string, pattern: string)
    requires '/' !in name && name != ""
    ensures '/' !in pattern ==>
              && Matches(host, directory + "/" + name, pattern) == host.glob(pattern, name)
              && Matches(host, name, pattern) == host.glob(pattern, name)
    ensures '/' in pattern ==>
              && Matches(host, directory + "/" + name, pattern) == host.glob(pattern, directory + "/" + name)
              && Matches(host, name, pattern) == host.glob(pattern, name)
  {
    LastPart(directory, name);
    PathParts(name);
  }

  lemma PrefixHasSlash(r: Path, p: Path)
    ensures HasPrefix(r, p) ==> LastSlash(r) >= 0
  {
    if HasPrefix(r, p) {
      assert r[..|p| + 1][|p|] == r[|p|] == '/';
    }
  }

  lemma InChain(r: Path, p: Path)
    ensures r != "" && r != "." ==> (p in Chain(r) <==> p == r || p in Chain(Dir(r)))
    ensures r == "" || r == "." ==> (p in Chain(r) <==> p == r)
  {
  }

  /** The chain of a path is the path itself, every directory above it and, below
      the top level, ".". */
  lemma {:induction false} ChainExactly(r: Path, p: Path)
    requires Normal(r) && r != "" && r != "."
    ensures p in Chain(r) <==> p == r || p == "." || (p != "" && HasPrefix(r, p))
    decreases |r|
  {
    InChain(r, p);
    if LastSlash(r) < 0 {
      InChain(".", p);
      PrefixHasSlash(r, p);
    } else {
      ParentNormal(r);
      if p != "" { ChainAbove(r, p); }
      if Parent(r) == "." {
        InChain(".", p);
      } else {
        ChainExactly(Parent(r), p);
      }
      DotHasNoPrefix(p);
    }
  }

  lemma DotHasNoPrefix(p: Path)
    ensures !HasPrefix(".", p)
  {
  }

  /** Above a path are its directory and what is above that. */
  lemma ChainAbove(r: Path, p: Path)
    requires Normal(r) && LastSlash(r) >= 0 && p != ""
    ensures HasPrefix(r, p) <==> p == Parent(r) || HasPrefix(Parent(r), p)
  {
    var i := LastSlash(r);
    var q := Parent(r);
    assert q == r[..i] && r[i] == '/';
    if HasPrefix(r, p) {
      ParentOfDescendant(r, p);
    }
    if p == q {
      assert r[..|p| + 1] == p + "/";
    }
    if HasPrefix(q, p) {
      assert r[..|p| + 1] == q[..|p| + 1];
    }
  }

  /** Excluded are the paths that match and all below them, and everything when the
      name "." matches. */
  lemma ExcludedExactly(host: Host, p: Path, patterns: seq<string>)
    requires Normal(p) && p != "."
    ensures Excluded(host, p, patterns) <==>
              || MatchesAny(host, p, patterns)
              || (p != "" && MatchesAny(host, ".", patterns))
              || (exists q :: q != "" && HasPrefix(p, q) && MatchesAny(host, q, patterns))
  {
    if p == "" {
      assert Chain(p) == {""};
    } else {
      forall q ensures q in Chain(p) <==> q == p || q == "." || (q != "" && HasPrefix(p, q)) {
        ChainExactly(p, q);
      }
    }
  }

  /** Includes select what they match, the directories above it and the root. */
  lemma SelectedExactly(host: Host, snapshot: Snapshot, p: Path, includes: seq<string>)
    requires Scanned(snapshot) && p != "."
    ensures Selected(host, snapshot, p, includes) <==>
              || includes == []
              || exists r :: r in snapshot && MatchesAny(host, r, includes) && (p == "" || p == r || HasPrefix(r, p))
  {
    forall r | r in snapshot && p != "" ensures p in Chain(r) <==> p == r || HasPrefix(r, p) {
      if r == "" {
        assert Chain(r) == {""};
      } else {
        ChainExactly(r, p);
      }
    }
  }

  ghost function Filtered(host: Host, snapshot: Snapshot, includes: seq<string>,
                          excludes: seq<string>): Snapshot
  {
    map p | p in snapshot && Selected(host, snapshot, p, includes) && !Excluded(host, p, excludes) ::
      snapshot[p]
  }

  method IsExcluded(host: Host, relative: Path, patterns: seq<string>) returns (excluded: bool)
    ensures excluded == Excluded(host, relative, patterns)
  {
    var current := relative;
    while true
      invariant Chain(current) <= Chain(relative)
      invariant forall p :: p in Chain(relative) - Chain(current) ==> !MatchesAny(host, p, patterns)
      decreases Climb(current)
    {
      if MatchesAny(host, current, patterns) {
        return true;
      }
      if current == "" || current == "." {
        return false;
      }
      current := Dir(current);
    }
  }

  method SelectChain(snapshot: Snapshot, relative: Path, selected: set<Path>) returns (wider: set<Path>)
    ensures wider == selected + (Chain(relative) * snapshot.Keys)
  {
    wider := selected;
    var current := relative;
    ghost var visited: set<Path> := {};
    while true
      invariant Chain(relative) == visited + Chain(current)
      invariant wider == selected + (visited * snapshot.Keys)
      decreases Climb(current)
    {
      visited := visited + {current};
      if current in snapshot {
        wider := wider + {current};
      }
      if current == "" || current == "." {
        break;
      }
      current := Dir(current);
    }
  }

  /** The paths the includes select. */
  method SelectPaths(host: Host, snapshot: Snapshot, includes: seq<string>) returns (selected: set<Path>)
    ensures forall p :: p in selected <==> p in snapshot && Selected(host, snapshot, p, includes)
  {
    if includes == [] {
      return snapshot.Keys;
    }
    selected := {};
    var rest := snapshot.Keys;
    while rest != {}
      invariant rest <= snapshot.Keys
      invariant forall p :: p in selected <==>
                  p in snapshot && exists r :: r in snapshot.Keys - rest && MatchesAny(host, r, includes)
                                               && (p == "" || p in Chain(r))
      decreases rest
    {
      var relative :| relative in rest;
      if MatchesAny(host, relative, includes) {
        if "" in snapshot {
          selected := selected + {""};
        }
        selected := SelectChain(snapshot, relative, selected);
      }
      rest := rest - {relative};
    }
  }

  method Filter(host: Host, snapshot: Snapshot, includes: seq<string>, excludes: seq<string>)
    returns (r: Result<Snapshot>)
    ensures r.Ok? <==> ValidPatterns(host, includes) && ValidPatterns(host, excludes)
    ensures r.Ok? ==> r.value == Filtered(host, snapshot, includes, excludes)
  {
    if !ValidPatterns(host, includes) || !ValidPatterns(host, excludes) {
      return Err;
    }
    var selected := SelectPaths(host, snapshot, includes);
    var result: Snapshot := map[];
    var rest := snapshot.Keys;
    while rest != {}
      invariant rest <= snapshot.Keys
      invariant result == map p | p in snapshot && p !in rest && p in selected
                                  && !Excluded(host, p, excludes) :: snapshot[p]
      decreases rest
    {
      var relative :| relative in rest;
      rest := rest - {relative};
      if relative in selected {
        var excluded := IsExcluded(host, relative, excludes);
        if !excluded {
          result := result[relative := snapshot[relative]];
        }
      }
    }
    return Ok(result);
  }

  /** Two paths of the trees that a case-insensitive or normalising filesystem
      cannot tell apart. */
  predicate AmbiguousPaths(host: Host, left: Snapshot, right: Snapshot) {
    exists p, q :: p in left.Keys + right.Keys && q in left.Keys + right.Keys
                   && p != q && host.identity(p) == host.identity(q)
  }
}
