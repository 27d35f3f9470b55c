/** The fingerprint of one path, the snapshots built from it and the baseline
    saved after a run. */
module Entries {
  import opened Common
  import opened Paths

  datatype EntryType = NoType | File | Directory

  /** A modification time as recorded: RFC 3339 text and, when it parses, the
      instant it names in nanoseconds. */
  datatype Timestamp =
    | Missing
    | Unparsable(text: string)
    | Parsed(text: string, nanos: int)

  /** `content` stands for the bytes the fingerprint was taken from. Nothing in
      the planner reads it; the theorems do. */
  datatype Entry = Entry(
    typ: EntryType,
    size: int,
    modified: Timestamp,
    etag: string,
    checksum: string,
    content: Bytes)
  {
    predicate Present() {
      typ != NoType
    }

    /** Whether two fingerprints stand for the same current content: the
        strongest fingerprint both sides carry decides. */
    predicate Equal(other: Entry) {
      if !Present() || !other.Present() || typ != other.typ then false
      else if typ == Directory then true
      else if checksum != "" && other.checksum != "" then EqualFold(checksum, other.checksum)
      else if etag != "" && other.etag != "" then etag == other.etag
      else size == other.size && TimestampsEquivalent(modified, other.modified)
    }

    /** Whether a verified transfer may be recorded as the same content: like
        `Equal`, but equal sizes are enough when nothing stronger compares. */
    predicate Converged(other: Entry) {
      if !Present() || !other.Present() || typ != other.typ then false
      else if typ == Directory then true
      else if checksum != "" && other.checksum != "" then EqualFold(checksum, other.checksum)
      else if etag != "" && other.etag != "" then etag == other.etag
      else size == other.size
    }

    /** A file with something `Equal` can compare with itself. */
    predicate Fingerprinted() {
      typ == Directory || checksum != "" || etag != "" || modified != Missing
    }
  }

  /** The zero entry a map lookup yields for an absent path. */
  const ZERO: Entry := Entry(NoType, 0, Missing, "", "", [])

  /** `time.Time.Sub`: the difference, held at the ends of int64. */
  function SaturatedDifference(left: int, right: int): int {
    var d := left - right;
    if d < MIN_INT64 then MIN_INT64 else if d > MAX_INT64 then MAX_INT64 else d
  }

  /** Two's-complement negation of an int64. */
  function WrappedNegation(d: int): int {
    if d == MIN_INT64 then MIN_INT64 else -d
  }

  predicate TimestampsEquivalent(left: Timestamp, right: Timestamp) {
    if left == Missing || right == Missing then false
    else if left.text == right.text then true
    else if left.Unparsable? || right.Unparsable? then false
    else
      var difference := SaturatedDifference(left.nanos, right.nanos);
      (if difference < 0 then WrappedNegation(difference) else difference) <= 2 * SECOND
  }

  /** The instants lie so far apart that their difference does not fit int64:
      more than about 292 years. */
  predicate FarApart(left: Timestamp, right: Timestamp) {
    && left.Parsed? && right.Parsed? && left.text != right.text
    && (left.nanos - right.nanos <= MIN_INT64 || right.nanos - left.nanos <= MIN_INT64)
  }

  /** The comparison of two entries falls through to their timestamps. */
  predicate TimestampsDecide(a: Entry, b: Entry) {
    && a.typ == b.typ == File
    && (a.checksum == "" || b.checksum == "")
    && (a.etag == "" || b.etag == "")
    && a.size == b.size
  }

  /** What the tolerance admits: two seconds either way, and, because the
      saturated difference wraps when negated, any earlier instant at least
      2^63 nanoseconds before the right-hand one. */
  lemma ToleranceMeaning(left: Timestamp, right: Timestamp)
    requires left.Parsed? && right.Parsed? && left.text != right.text
    ensures TimestampsEquivalent(left, right) <==>
            -2 * SECOND <= left.nanos - right.nanos <= 2 * SECOND
            || left.nanos - right.nanos <= MIN_INT64
  {
    var d := left.nanos - right.nanos;
    if d <= MIN_INT64 {
      assert SaturatedDifference(left.nanos, right.nanos) == MIN_INT64;
    } else if d > MAX_INT64 {
      assert SaturatedDifference(left.nanos, right.nanos) == MAX_INT64;
    } else {
      assert SaturatedDifference(left.nanos, right.nanos) == d;
    }
  }

  /** The year-1 zero time on the left equals any time in 2026, but not the
      other way round. */
  lemma DistantTimestampsCompareEqual()
    ensures var early := Parsed("0001-01-01T00:00:00Z", -62_135_596_800 * SECOND);
            var late := Parsed("2026-08-01T10:00:00Z", 1_785_578_400 * SECOND);
            TimestampsEquivalent(early, late) && !TimestampsEquivalent(late, early)
  {
  }

  /** `Equal` is symmetric exactly when no saturated timestamp difference
      decides it. */
  lemma EqualSymmetry(a: Entry, b: Entry)
    ensures a.Equal(b) == b.Equal(a) <==>
            !(TimestampsDecide(a, b) && FarApart(a.modified, b.modified))
  {
    if TimestampsDecide(a, b) && a.modified.Parsed? && b.modified.Parsed?
       && a.modified.text != b.modified.text {
      ToleranceMeaning(a.modified, b.modified);
      ToleranceMeaning(b.modified, a.modified);
    }
  }

  /** An entry equals itself exactly when it is present and fingerprinted. */
  lemma EqualReflexivity(a: Entry)
    ensures a.Equal(a) <==> a.Present() && a.Fingerprinted()
  {
  }

  /** Which fingerprint decides: nothing but the type for directories; for files the
      checksums whatever their case, or else the ETags, or else size and time; and an
      absent entry equals nothing. */
  lemma EqualDecision(a: Entry, b: Entry)
    ensures a.Equal(b) ==> a.typ == b.typ && (a.typ == File || a.typ == Directory)
    ensures a.typ == b.typ == Directory ==> a.Equal(b)
    ensures a.typ == b.typ == File && a.checksum != "" && b.checksum != "" ==>
              (a.Equal(b) <==> EqualFold(a.checksum, b.checksum))
    ensures a.typ == b.typ == File && (a.checksum == "" || b.checksum == "") && a.etag != "" && b.etag != "" ==>
              (a.Equal(b) <==> a.etag == b.etag)
    ensures TimestampsDecide(a, b) ==> (a.Equal(b) <==> TimestampsEquivalent(a.modified, b.modified))
    ensures a.Equal(b) && (a.checksum == "" || b.checksum == "") && (a.etag == "" || b.etag == "") && a.typ == File ==>
              TimestampsDecide(a, b)
  {
  }

  /** The looser comparison leaves the times out and is otherwise the same. */
  lemma ConvergedDecision(a: Entry, b: Entry)
    ensures a.Converged(b) <==>
              || a.Equal(b)
              || (TimestampsDecide(a, b) && !TimestampsEquivalent(a.modified, b.modified))
  {
  }

  /** Times that are missing equal nothing, not even each other; times that cannot
      be read only equal the same text. */
  lemma UnreadableTimes(left: Timestamp, right: Timestamp)
    requires left == Missing || right == Missing || left.Unparsable? || right.Unparsable?
    ensures TimestampsEquivalent(left, right) <==> left != Missing && right != Missing && left.text == right.text
  {
  }

  type Snapshot = map<Path, Entry>

  function Lookup(s: Snapshot, p: Path): Entry {
    if p in s then s[p] else ZERO
  }

  /** What a scan produces: normalised paths, each with a type, below a root
      directory. */
  predicate Scanned(s: Snapshot) {
    && "." !in s && ("" in s ==> s[""].typ == Directory)
    && forall p :: p in s ==> Normal(p) && s[p].Present()
  }

  /** Every path but the root lies in a directory of the same tree. */
  predicate ParentClosed(s: Snapshot) {
    forall p :: p in s && p != "" ==> Parent(p) in s && s[Parent(p)].typ == Directory
  }

  lemma {:induction false} AncestorsAreDirectories(s: Snapshot, p: Path, q: Path)
    requires Scanned(s) && ParentClosed(s)
    requires p in s && IsDescendant(p, q)
    ensures q in s && s[q].typ == Directory
    decreases |p|
  {
    DescendantDeeper(p, q);
    if p == "" {
      assert false;
    } else {
      ParentNormal(p);
      ParentOfDescendant(p, q);
      if Parent(p) != q {
        AncestorsAreDirectories(s, Parent(p), q);
      }
    }
  }

  /** The two fingerprints of one path after a successful run. */
  datatype Record = Record(source: Entry, destination: Entry)

  type Baseline = map<Path, Record>

  function SavedRecord(previous: Option<Baseline>, p: Path): Option<Record> {
    if previous.Some? && p in previous.value then Some(previous.value[p]) else None
  }

  function RecordOf(baseline: Baseline, p: Path): Record {
    if p in baseline then baseline[p] else Record(ZERO, ZERO)
  }

  /** Same type and, for files, the same bytes. */
  predicate SameContent(a: Entry, b: Entry) {
    a.typ == b.typ && (a.typ == File ==> a.content == b.content)
  }

  /** Fingerprints tell the truth about this collection of entries: equal ones
      were taken from equal bytes. */
  predicate Faithful(entries: set<Entry>) {
    forall a, b :: a in entries && b in entries && a.Equal(b) ==> SameContent(a, b)
  }

  function EntriesOf(s: Snapshot): set<Entry> {
    set p | p in s :: s[p]
  }

  function RecordedEntries(baseline: Baseline): set<Entry> {
    (set p | p in baseline :: baseline[p].source) + (set p | p in baseline :: baseline[p].destination)
  }

  /** Records with both halves present pair equal content. */
  predicate Paired(baseline: Baseline) {
    forall p :: p in baseline && baseline[p].source.Present() && baseline[p].destination.Present()
                ==> SameContent(baseline[p].source, baseline[p].destination)
  }
}
