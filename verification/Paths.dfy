/** Slash-separated relative paths, as the keys of a snapshot: the root is the
    empty string and no path starts, ends or doubles a slash. */
module Paths {
  type Path = string

  /** The number of slashes, which is how the planner measures depth: both the
      root and a top-level name have depth 0. */
  function Depth(p: Path): nat {
    if p == "" then 0
    else Depth(p[..|p| - 1]) + if p[|p| - 1] == '/' then 1 else 0
  }

  predicate Normal(p: Path) {
    forall i :: 0 <= i < |p| && p[i] == '/' ==> 0 < i < |p| - 1 && p[i + 1] != '/'
  }

  /** The planner's test that `relative` lies strictly below `parent`. */
  predicate IsDescendant(relative: Path, parent: Path) {
    if parent == "" then relative != "" else HasPrefix(relative, parent)
  }

  /** `relative` is `directory`, a slash and at least one more character. */
  predicate HasPrefix(relative: Path, directory: Path) {
    |relative| > |directory| + 1 && relative[..|directory| + 1] == directory + "/"
  }

  /** The index of the last slash, or -1. */
  function LastSlash(p: Path): (i: int)
    ensures -1 <= i < |p|
    ensures i >= 0 ==> p[i] == '/'
    ensures forall k :: i < k < |p| ==> p[k] != '/'
  {
    if p == "" then -1
    else if p[|p| - 1] == '/' then |p| - 1
    else LastSlash(p[..|p| - 1])
  }

  /** The containing directory: the root for a top-level name. */
  function Parent(p: Path): Path {
    if LastSlash(p) < 0 then "" else p[..LastSlash(p)]
  }

  lemma {:induction false} DepthConcat(p: Path, q: Path)
    ensures Depth(p + q) == Depth(p) + Depth(q)
  {
    if q == "" {
      assert p + q == p;
    } else {
      DepthConcat(p, q[..|q| - 1]);
      assert (p + q)[..|p + q| - 1] == p + q[..|q| - 1];
    }
  }

  lemma {:induction false} NoSlashDepth(p: Path)
    requires forall i :: 0 <= i < |p| ==> p[i] != '/'
    ensures Depth(p) == 0
  {
    if p != "" {
      NoSlashDepth(p[..|p| - 1]);
    }
  }

  lemma ParentDepth(p: Path)
    ensures if LastSlash(p) < 0 then Depth(p) == 0 else Depth(Parent(p)) == Depth(p) - 1
  {
    var i := LastSlash(p);
    if i < 0 {
      NoSlashDepth(p);
    } else {
      var rest := p[i + 1..];
      NoSlashDepth(rest);
      DepthConcat(p[..i], "/" + rest);
      DepthConcat("/", rest);
      assert p == p[..i] + ("/" + rest);
      assert Depth("/") == 1;
    }
  }

  lemma ParentNormal(p: Path)
    requires Normal(p) && p != ""
    ensures Normal(Parent(p)) && IsDescendant(p, Parent(p)) && |Parent(p)| < |p|
  {
    var i := LastSlash(p);
    if i >= 0 {
      assert Parent(p) == p[..i];
      assert p[..i + 1] == p[..i] + "/";
      forall k | 0 <= k < i && p[..i][k] == '/'
        ensures 0 < k < i - 1 && p[..i][k + 1] != '/'
      {
        assert p[k] == '/';
      }
    }
  }

  /** Walking up from a path below `q` either reaches `q` or stays below it. */
  lemma ParentOfDescendant(p: Path, q: Path)
    requires Normal(p) && IsDescendant(p, q)
    ensures Parent(p) == q || IsDescendant(Parent(p), q)
  {
    if q != "" {
      var i := LastSlash(p);
      assert p[|q|] == '/' by { assert p[..|q| + 1][|q|] == '/'; }
      assert i >= |q|;
      assert p[..|q|] == q by { assert p[..|q| + 1][..|q|] == q; }
      if i > |q| {
        assert p[|q| + 1] != '/';
        assert Parent(p)[..|q| + 1] == p[..|q| + 1];
      }
    }
  }

  /** Below a directory other than the root means strictly deeper. */
  lemma DescendantDeeper(p: Path, q: Path)
    requires IsDescendant(p, q)
    ensures q != "" ==> Depth(p) > Depth(q)
    ensures p != q
  {
    if q != "" {
      var rest := p[|q| + 1..];
      assert p == (q + "/") + rest;
      DepthConcat(q + "/", rest);
      DepthConcat(q, "/");
      assert Depth("/") == 1;
    }
  }

  /** Byte-wise string order, as Go's `<` on strings and `sort.Strings`. */
  predicate Less(a: Path, b: Path) {
    if b == "" then false
    else if a == "" then true
    else if a[0] != b[0] then a[0] < b[0]
    else Less(a[1..], b[1..])
  }

  lemma {:induction false} LessIrreflexive(a: Path)
    ensures !Less(a, a)
  {
    if a != "" { LessIrreflexive(a[1..]); }
  }

  lemma {:induction false} LessTotal(a: Path, b: Path)
    ensures a == b || Less(a, b) || Less(b, a)
  {
    if a != "" && b != "" && a[0] == b[0] {
      LessTotal(a[1..], b[1..]);
      if a[1..] == b[1..] {
        assert a == [a[0]] + a[1..];
        assert b == [b[0]] + b[1..];
      }
    }
  }

  lemma {:induction false} LessTransitive(a: Path, b: Path, c: Path)
    requires Less(a, b) && Less(b, c)
    ensures Less(a, c)
  {
    if a != "" && a[0] == b[0] && b[0] == c[0] {
      LessTransitive(a[1..], b[1..], c[1..]);
    }
  }

  lemma LessAsymmetric(a: Path, b: Path)
    ensures !(Less(a, b) && Less(b, a))
  {
    if Less(a, b) && Less(b, a) {
      LessTransitive(a, b, a);
      LessIrreflexive(a);
    }
  }

  predicate StrictlySorted(s: seq<Path>) {
    forall i, j :: 0 <= i < j < |s| ==> Less(s[i], s[j])
  }

  function Elements(s: seq<Path>): set<Path> {
    set p | p in s
  }

  predicate IsLeast(m: Path, s: set<Path>) {
    m in s && forall q :: q in s ==> q == m || Less(m, q)
  }

  lemma {:induction false} LeastExists(s: set<Path>)
    requires s != {}
    ensures exists m :: IsLeast(m, s)
    decreases |s|
  {
    var x :| x in s;
    if s == {x} {
      assert IsLeast(x, s);
    } else {
      var rest := s - {x};
      assert rest != {};
      LeastExists(rest);
      var m :| IsLeast(m, rest);
      LessTotal(x, m);
      if Less(m, x) {
        assert IsLeast(m, s);
      } else {
        forall q | q in s ensures q == x || Less(x, q) {
          if q != x && q != m { LessTransitive(x, m, q); }
        }
        assert IsLeast(x, s);
      }
    }
  }

  lemma LeastUnique(s: set<Path>)
    ensures forall a, b :: IsLeast(a, s) && IsLeast(b, s) ==> a == b
  {
    forall a, b | IsLeast(a, s) && IsLeast(b, s) ensures a == b {
      LessAsymmetric(a, b);
    }
  }

  lemma ConsElements(m: Path, rest: seq<Path>)
    ensures Elements([m] + rest) == {m} + Elements(rest)
  {
    forall p | p in {m} + Elements(rest) ensures p in [m] + rest {
      if p != m {
        var i :| 0 <= i < |rest| && rest[i] == p;
        assert ([m] + rest)[i + 1] == p;
      } else {
        assert ([m] + rest)[0] == m;
      }
    }
  }

  lemma PrependLeast(m: Path, s: set<Path>, rest: seq<Path>)
    requires IsLeast(m, s) && StrictlySorted(rest) && Elements(rest) == s - {m}
    ensures StrictlySorted([m] + rest) && Elements([m] + rest) == s
  {
    forall i | 0 <= i < |rest| ensures Less(m, rest[i]) {
      assert rest[i] in Elements(rest);
    }
    ConsElements(m, rest);
  }

  /** The members of a set in order: what collecting map keys and sorting them
      yields whatever order the keys came in. */
  function SortedPaths(s: set<Path>): (r: seq<Path>)
    ensures StrictlySorted(r)
    ensures Elements(r) == s
    decreases |s|
  {
    if s == {} then []
    else
      LeastExists(s);
      LeastUnique(s);
      var m :| m in s && IsLeast(m, s);
      var rest := SortedPaths(s - {m});
      PrependLeast(m, s, rest);
      [m] + rest
  }
}
