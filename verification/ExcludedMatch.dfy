/** A bidirectional run that gets through and then fails its own verification: the
    only file that selects a directory is excluded. */
module ExcludedMatch {
  import opened Common
  import opened Paths
  import opened Entries
  import opened Actions
  import opened Executor
  import opened Filters
  import opened Bidirectional
  import opened Planning
  import opened Reconciliation
  import opened Sweeping
  import opened EndToEnd
  import opened Instances
  import opened Verification
  import Renames
  import Unselected

  function WholeTrees(d: Path, x: Path, k: Path, root: Entry, file: Entry): Trees {
    Trees(map["" := root, k := file], map["" := root, d := root, x := file, k := file])
  }

  function PlannedTrees(d: Path, k: Path, root: Entry, file: Entry): Trees {
    Trees(map["" := root, k := file], map["" := root, d := root, k := file])
  }

  function SavedPairs(k: Path, root: Entry, file: Entry): Baseline {
    map["" := Record(root, root), k := Record(file, file)]
  }

  /** The remote side has a new directory `d`, whose one file `x` matches the
      includes and the excludes; `k` has been synchronised. */
  ghost predicate OnlyExcluded(host: Host, raw: Trees, previous: Option<Baseline>, includes: seq<string>,
                               excludes: seq<string>, d: Path, x: Path, k: Path, root: Entry, file: Entry)
  {
    && TopLevel(d) && TopLevel(k) && Inside(x, d) && d != k && Typical(root, file)
    && raw == WholeTrees(d, x, k, root, file) && previous == Some(SavedPairs(k, root, file))
    && Matching(host, includes, excludes, d, x, k)
  }

  predicate Matching(host: Host, includes: seq<string>, excludes: seq<string>, d: Path, x: Path, k: Path) {
    && (forall p :: p in {"", d, x, k} ==> (MatchesAny(host, p, includes) <==> p == x || p == k))
    && (forall p :: p in {"", d, x, k} ==> (Excluded(host, p, excludes) <==> p == x))
  }

  ghost predicate Apart(d: Path, x: Path, k: Path) {
    && Chain(x) == {x, d, "."} && Chain(k) == {k, "."} && Parent(d) == "" && Parent(k) == "" && Parent(x) == d
    && d != "" && x != "" && k != "" && d != x && d != k && x != k && d != "." && x != "." && k != "."
  }

  lemma LaidApart(d: Path, x: Path, k: Path)
    requires TopLevel(d) && TopLevel(k) && Inside(x, d) && d != k
    ensures Apart(d, x, k)
  {
    assert Dir(d) == "." && Dir(x) == d && Dir(k) == ".";
    assert Chain(".") == {"."} && Chain(d) == {d, "."};
  }

  lemma SelectsLocal(matches: Path -> bool, excluded: Path -> bool, s: Snapshot, d: Path, x: Path, k: Path,
                     root: Entry, file: Entry)
    requires Apart(d, x, k) && s == WholeTrees(d, x, k, root, file).local
    requires forall p :: p in {"", d, x, k} ==> (matches(p) <==> p == x || p == k) && (excluded(p) <==> p == x)
    ensures Unselected.OnlyMatches(matches, s, k, k) && OnlyExcludes(excluded, s, x) && OnChains(s, k, k)
    ensures s - {x} == PlannedTrees(d, k, root, file).local
  {
  }

  lemma SelectsRemote(matches: Path -> bool, excluded: Path -> bool, s: Snapshot, d: Path, x: Path, k: Path,
                      root: Entry, file: Entry)
    requires Apart(d, x, k) && s == WholeTrees(d, x, k, root, file).remote
    requires forall p :: p in {"", d, x, k} ==> (matches(p) <==> p == x || p == k) && (excluded(p) <==> p == x)
    ensures Unselected.OnlyMatches(matches, s, x, k) && OnlyExcludes(excluded, s, x) && OnChains(s, x, k)
    ensures s - {x} == PlannedTrees(d, k, root, file).remote
  {
  }

  ghost predicate OnlyExcludes(excluded: Path -> bool, s: Snapshot, x: Path) {
    forall p :: p in s ==> (excluded(p) <==> p == x)
  }

  predicate OnChains(s: Snapshot, x: Path, k: Path) {
    forall p :: p in s ==> p == "" || p in Chain(x) || p in Chain(k)
  }

  lemma KeptBut(host: Host, s: Snapshot, includes: seq<string>, excludes: seq<string>, x: Path, k: Path, hidden: Path)
    requires Unselected.OnlyMatches(q => MatchesAny(host, q, includes), s, x, k) && OnChains(s, x, k)
    requires OnlyExcludes(q => Excluded(host, q, excludes), s, hidden)
    ensures Filtered(host, s, includes, excludes) == s - {hidden}
  {
    forall p | p in s ensures p in Filtered(host, s, includes, excludes) <==> p in s - {hidden} {
      Unselected.SelectedAt(host, s, includes, x, k, p);
      assert Excluded(host, p, excludes) <==> p == hidden;
    }
    SameKept(host, s, includes, excludes, s - {hidden});
  }

  lemma SameKept(host: Host, s: Snapshot, includes: seq<string>, excludes: seq<string>, kept: Snapshot)
    requires kept.Keys <= s.Keys && forall p :: p in kept ==> kept[p] == s[p]
    requires forall p :: p in s ==> (p in Filtered(host, s, includes, excludes) <==> p in kept)
    ensures Filtered(host, s, includes, excludes) == kept
  {
  }

  lemma ShownLocal(host: Host, s: Snapshot, includes: seq<string>, excludes: seq<string>, d: Path, x: Path, k: Path,
                   root: Entry, file: Entry)
    requires Apart(d, x, k) && s == WholeTrees(d, x, k, root, file).local
    requires Matching(host, includes, excludes, d, x, k)
    ensures Filtered(host, s, includes, excludes) == PlannedTrees(d, k, root, file).local
  {
    SelectsLocal(q => MatchesAny(host, q, includes), q => Excluded(host, q, excludes), s, d, x, k, root, file);
    KeptBut(host, s, includes, excludes, k, k, x);
  }

  lemma ShownRemote(host: Host, s: Snapshot, includes: seq<string>, excludes: seq<string>, d: Path, x: Path, k: Path,
                    root: Entry, file: Entry)
    requires Apart(d, x, k) && s == WholeTrees(d, x, k, root, file).remote
    requires Matching(host, includes, excludes, d, x, k)
    ensures Filtered(host, s, includes, excludes) == PlannedTrees(d, k, root, file).remote
  {
    SelectsRemote(q => MatchesAny(host, q, includes), q => Excluded(host, q, excludes), s, d, x, k, root, file);
    KeptBut(host, s, includes, excludes, x, k, x);
  }

  lemma PlannerIsShown(host: Host, raw: Trees, includes: seq<string>, excludes: seq<string>, d: Path, x: Path, k: Path,
                       root: Entry, file: Entry)
    requires Apart(d, x, k) && raw == WholeTrees(d, x, k, root, file) && Matching(host, includes, excludes, d, x, k)
    ensures FilteredTrees(host, raw, includes, excludes) == PlannedTrees(d, k, root, file)
  {
    ShownLocal(host, raw.local, includes, excludes, d, x, k, root, file);
    ShownRemote(host, raw.remote, includes, excludes, d, x, k, root, file);
  }

  /** What the planner makes of it. */
  ghost predicate Showing(ts: Trees, previous: Option<Baseline>, d: Path, k: Path, root: Entry, file: Entry) {
    && ts == PlannedTrees(d, k, root, file) && previous == Some(SavedPairs(k, root, file))
    && d != "" && k != "" && d != k && Typical(root, file)
  }

  lemma PlannedAre(ts: Trees, previous: Option<Baseline>, d: Path, k: Path, root: Entry, file: Entry)
    requires Showing(ts, previous, d, k, root, file)
    ensures AllPaths(ts.local, ts.remote, previous) == {"", d, k}
    ensures Idle(PlanFor("", ts, previous)) && Idle(PlanFor(k, ts, previous))
    ensures PlanFor(d, ts, previous) == Action(CreateDirectory, d, "", Local, Directory, false, root, ZERO)
  {
    EqualReflexivity(file);
    PlanWhenSame(file, k);
    PlanWhenSame(root, "");
  }

  lemma PlannedIsPeaceful(ts: Trees, previous: Option<Baseline>, d: Path, k: Path, root: Entry, file: Entry, p: Path)
    requires Showing(ts, previous, d, k, root, file) && p in AllPaths(ts.local, ts.remote, previous)
    ensures PlanFor(p, ts, previous).kind != Conflict && !Addition(PlanFor(p, ts, previous))
    ensures !Endangered(PlanFor(p, ts, previous), ts.local, ts.remote, previous.value)
  {
    PlannedAre(ts, previous, d, k, root, file);
  }

  lemma PlannedShape(ts: Trees, d: Path, k: Path, root: Entry, file: Entry)
    requires ts == PlannedTrees(d, k, root, file) && root.typ == Directory && file.typ == File
    requires TopLevel(d) && TopLevel(k) && d != k
    ensures WellFormed(ts)
  {
    Unselected.ShownRemoteShape(ts.local, k, root, file);
    RemoteShape(ts.remote, d, k, root, file);
  }

  lemma RemoteShape(s: Snapshot, d: Path, k: Path, root: Entry, file: Entry)
    requires s == map["" := root, d := root, k := file] && root.typ == Directory && file.typ == File
    requires TopLevel(d) && TopLevel(k) && d != k
    ensures Scanned(s) && ParentClosed(s)
  {
    assert Parent(d) == "" && Parent(k) == "";
  }

  lemma PlannedIsConflictFree(ts: Trees, previous: Option<Baseline>, d: Path, k: Path, root: Entry, file: Entry)
    requires Showing(ts, previous, d, k, root, file)
    ensures ConflictFree(Steps(ts, previous)) && NoAdditions(ts, previous)
  {
    PlannedMembers(ts.local, ts.remote, previous);
    forall p | p in AllPaths(ts.local, ts.remote, previous)
      ensures PlanFor(p, ts, previous).kind != Conflict && !Addition(PlanFor(p, ts, previous))
      ensures !Endangered(PlanFor(p, ts, previous), ts.local, ts.remote, previous.value)
    {
      PlannedIsPeaceful(ts, previous, d, k, root, file, p);
    }
    Renames.PeacefulStaysConflictFree(ts, previous);
  }

  lemma CreationPasses(ts: Trees, raw: Trees, previous: Option<Baseline>, d: Path, k: Path, root: Entry, file: Entry,
                       strict: Side, p: Path)
    requires Showing(ts, previous, d, k, root, file) && p in AllPaths(ts.local, ts.remote, previous)
    requires ShownAs(ts, raw, Local, d) && ShownAs(ts, raw, Remote, d)
    ensures Passable(ts, raw, PlanFor(p, ts, previous), strict)
    ensures PlanFor(p, ts, previous).target != Remote && (Writes(PlanFor(p, ts, previous)) ==> p == d)
  {
    PlannedAre(ts, previous, d, k, root, file);
  }

  /** The one step creates `d` locally. */
  lemma Creates(ts: Trees, raw: Trees, previous: Option<Baseline>, d: Path, k: Path, root: Entry, file: Entry,
                strict: Side) returns (a: Action)
    requires Showing(ts, previous, d, k, root, file) && WellFormed(ts)
    requires ShownAs(ts, raw, Local, d) && ShownAs(ts, raw, Remote, d)
    ensures ConflictFreePlan(ts, previous) && GetsThrough(ts, raw, PlanOf(ts, previous), strict)
    ensures a in PlanOf(ts, previous) && Writes(a) && a.path == d
    ensures forall b :: b in PlanOf(ts, previous) ==> b.target != Remote && (Writes(b) ==> b.path == d)
  {
    PlannedIsConflictFree(ts, previous, d, k, root, file);
    PlannedAre(ts, previous, d, k, root, file);
    a := StepAt(ts, previous, d);
    forall p | p in AllPaths(ts.local, ts.remote, previous)
      ensures Passable(ts, raw, PlanFor(p, ts, previous), strict)
      ensures PlanFor(p, ts, previous).target != Remote && (Writes(PlanFor(p, ts, previous)) ==> p == d)
    {
      CreationPasses(ts, raw, previous, d, k, root, file, strict, p);
    }
    PlannedGetsThrough(ts, raw, previous, strict);
    PlannedSteps(ts, previous);
  }

  /** Locally nothing below the new directory matches. */
  lemma NotSelectedLocally(host: Host, includes: seq<string>, ts: Trees, raw: Trees, plan: seq<Action>, after: Trees,
                           rec: Trees, d: Path, k: Path)
    requires Swept(ts, raw, plan, after, rec) && includes != [] && d != "" && d !in Chain(k)
    requires forall b :: b in plan && Writes(b) ==> b.path == d
    requires !MatchesAny(host, d, includes) && forall r :: r in raw.local && MatchesAny(host, r, includes) ==> r == k
    ensures !Selected(host, after.local, d, includes)
  {
    forall r | r in after.local && MatchesAny(host, r, includes) ensures r == k {
      if r !in raw.local {
        var a := AppearedIsWritten(ts, raw, plan, after, rec, Local, r);
      }
    }
  }

  /** Remotely the excluded file is still there and selects it. */
  lemma SelectedRemotely(host: Host, includes: seq<string>, after: Trees, d: Path, x: Path)
    requires x in after.remote && MatchesAny(host, x, includes) && d in Chain(x)
    ensures Selected(host, after.remote, d, includes)
  {
  }

  lemma ExcludedStays(host: Host, raw: Trees, includes: seq<string>, excludes: seq<string>, previous: Option<Baseline>,
                      strict: Side, ts: Trees, after: Trees, x: Path)
    requires Finished(host, raw, includes, excludes, previous, strict, ts, after)
    requires x in raw.remote && x !in ts.local && x !in ts.remote
    requires forall b :: b in PlanOf(ts, previous) ==> b.target != Remote
    ensures x in after.remote
  {
    LeftOutSurvives(host, raw, includes, excludes, previous, strict, Remote, x);
  }

  lemma NotAlike(host: Host, raw: Trees, includes: seq<string>, excludes: seq<string>, previous: Option<Baseline>,
                 strict: Side, ts: Trees, after: Trees, d: Path)
    requires Finished(host, raw, includes, excludes, previous, strict, ts, after)
    requires d in Reconciled(ts, previous).local
    requires Selected(host, after.remote, d, includes) && !Selected(host, after.local, d, includes)
    ensures !Verified(FilteredTrees(host, after, includes, excludes))
  {
    VerifiedExactly(host, raw, includes, excludes, previous, strict, ts, after);
  }

  predicate HiddenFile(ts: Trees, raw: Trees, d: Path, x: Path) {
    && ShownAs(ts, raw, Local, d) && ShownAs(ts, raw, Remote, d)
    && x in raw.remote && x !in ts.local && x !in ts.remote
  }

  lemma FileIsHidden(ts: Trees, raw: Trees, d: Path, x: Path, k: Path, root: Entry, file: Entry)
    requires ts == PlannedTrees(d, k, root, file) && raw == WholeTrees(d, x, k, root, file)
    requires d != "" && x != "" && k != "" && d != x && d != k && x != k
    ensures HiddenFile(ts, raw, d, x)
  {
  }

  lemma WholeShape(raw: Trees, d: Path, x: Path, k: Path, root: Entry, file: Entry)
    requires raw == WholeTrees(d, x, k, root, file) && root.typ == Directory && file.typ == File
    requires TopLevel(d) && TopLevel(k) && Inside(x, d) && d != k
    ensures WellFormed(raw)
  {
    Unselected.ShownRemoteShape(raw.local, k, root, file);
    Unselected.ShownLocalShape(raw.remote, d, x, k, root, file);
  }

  /** Only the hidden file matches below `d`. */
  predicate MatchesHidden(host: Host, includes: seq<string>, local: Snapshot, d: Path, x: Path, k: Path) {
    && MatchesAny(host, x, includes) && !MatchesAny(host, d, includes)
    && forall r :: r in local && MatchesAny(host, r, includes) ==> r == k
  }

  lemma HiddenMatches(host: Host, includes: seq<string>, excludes: seq<string>, local: Snapshot, d: Path, x: Path,
                      k: Path, root: Entry, file: Entry)
    requires local == map["" := root, k := file] && Matching(host, includes, excludes, d, x, k)
    requires d != "" && x != "" && k != "" && d != x && d != k && x != k
    ensures MatchesHidden(host, includes, local, d, x, k)
  {
  }

  /** The layout, with what the theorems need of it. */
  lemma LayoutHolds(host: Host, raw: Trees, previous: Option<Baseline>, includes: seq<string>, excludes: seq<string>,
                    d: Path, x: Path, k: Path, root: Entry, file: Entry) returns (ts: Trees)
    requires OnlyExcluded(host, raw, previous, includes, excludes, d, x, k, root, file)
    ensures ts == FilteredTrees(host, raw, includes, excludes) && Showing(ts, previous, d, k, root, file)
    ensures WellFormed(ts) && WellFormed(raw) && HiddenFile(ts, raw, d, x)
    ensures d in Chain(x) && d !in Chain(k) && MatchesHidden(host, includes, raw.local, d, x, k)
  {
    LaidApart(d, x, k);
    ts := PlannedTrees(d, k, root, file);
    PlannerIsShown(host, raw, includes, excludes, d, x, k, root, file);
    PlannedShape(ts, d, k, root, file);
    WholeShape(raw, d, x, k, root, file);
    FileIsHidden(ts, raw, d, x, k, root, file);
    HiddenMatches(host, includes, excludes, raw.local, d, x, k, root, file);
  }

  lemma RunFails(host: Host, raw: Trees, previous: Option<Baseline>, includes: seq<string>, excludes: seq<string>,
                 ts: Trees, d: Path, x: Path, k: Path, a: Action, strict: Side) returns (after: Trees)
    requires ts == FilteredTrees(host, raw, includes, excludes) && WellFormed(raw) && d != ""
    requires ConflictFreePlan(ts, previous) && GetsThrough(ts, raw, PlanOf(ts, previous), strict)
    requires a in PlanOf(ts, previous) && Writes(a) && a.path == d
    requires forall b :: b in PlanOf(ts, previous) ==> b.target != Remote && (Writes(b) ==> b.path == d)
    requires HiddenFile(ts, raw, d, x) && d in Chain(x) && d !in Chain(k)
    requires MatchesHidden(host, includes, raw.local, d, x, k)
    ensures SweepingRun(TwoWay(strict), raw, PlanOf(ts, previous)) == Some(after)
    ensures !Verified(FilteredTrees(host, after, includes, excludes))
  {
    after := SweepingOutcome(raw, PlanOf(ts, previous));
    FilteredRunExactly(host, raw, includes, excludes, previous, strict);
    FinishedIsSwept(host, raw, includes, excludes, previous, strict, ts, after);
    NotSelectedLocally(host, includes, ts, raw, PlanOf(ts, previous), after, Reconciled(ts, previous), d, k);
    ExcludedStays(host, raw, includes, excludes, previous, strict, ts, after, x);
    SelectedRemotely(host, includes, after, d, x);
    WrittenConverges(ts, previous, a);
    NotAlike(host, raw, includes, excludes, previous, strict, ts, after, d);
  }

  /** The plan is free of conflicts, the run gets through and creates `d` locally.
      The verification then finds `d` on the remote side only, because nothing
      selects it locally. */
  lemma VerificationFails(host: Host, raw: Trees, previous: Option<Baseline>, includes: seq<string>,
                          excludes: seq<string>, d: Path, x: Path, k: Path, root: Entry, file: Entry, strict: Side)
    returns (ts: Trees, after: Trees)
    requires OnlyExcluded(host, raw, previous, includes, excludes, d, x, k, root, file)
    ensures ts == FilteredTrees(host, raw, includes, excludes) && ConflictFreePlan(ts, previous)
    ensures SweepingRun(TwoWay(strict), raw, PlanOf(ts, previous)) == Some(after)
    ensures !Verified(FilteredTrees(host, after, includes, excludes))
  {
    ts := LayoutHolds(host, raw, previous, includes, excludes, d, x, k, root, file);
    var a := Creates(ts, raw, previous, d, k, root, file, strict);
    after := RunFails(host, raw, previous, includes, excludes, ts, d, x, k, a, strict);
  }
}
