/** The resumable download: a `.part` file and a sidecar naming the validator of
    the entity its bytes came from, kept across interruptions while the server's
    entity may change.

    The disk records every state it passes through, so that a promise about the
    whole log is a promise about a crash between any two file operations. */
module Download {
  import opened Common
  import opened Decimal
  import Retry

  // ----- Content-Range

  function FormatContentRange(start: nat, last: nat, size: nat): string {
    "bytes" + [' '] + (Print(start) + ['-'] + Print(last) + ['/'] + Print(size))
  }

  /** The first position and the complete size, when the header has both. */
  function ParseContentRange(value: string): Option<(int, int)> {
    var (units, rangeAndSize, spaced) := Cut(value, ' ');
    var (byteRange, total, slashed) := Cut(rangeAndSize, '/');
    var (first, _, dashed) := Cut(byteRange, '-');
    var start, size := ParseInt(first), ParseInt(total);
    if !spaced || !EqualFold(units, "bytes") || !slashed || !dashed then None
    else if start.Number? && size.Number? && start.value >= 0 && size.value >= 0
    then Some((start.value, size.value))
    else None
  }

  /** Any range a server may print is read back exactly. */
  lemma ContentRangeRoundTrip(start: nat, last: nat, size: nat)
    requires start <= MAX_INT64 && size <= MAX_INT64
    ensures ParseContentRange(FormatContentRange(start, last, size)) == Some((start, size))
  {
    var byteRange := Print(start) + ['-'] + Print(last);
    CutAt("bytes", ' ', byteRange + ['/'] + Print(size));
    assert FormatContentRange(start, last, size) == "bytes" + [' '] + (byteRange + ['/'] + Print(size));
    CutAt(byteRange, '/', Print(size));
    CutAt(Print(start), '-', Print(last));
    ParsePrinted(start);
    ParsePrinted(size);
  }

  lemma CutParts(s: string, c: char)
    ensures Cut(s, c).2 ==> s == Cut(s, c).0 + [c] + Cut(s, c).1 && c !in Cut(s, c).0
    ensures Cut(s, c).2 <==> c in s
  {
    var i := IndexOf(s, c);
    if i < |s| {
      assert s == s[..i] + [s[i]] + s[i + 1..];
    }
  }

  /** And only headers of that shape are read: the unit in any case, a first position
      and a complete size that are no negative numbers. */
  lemma ContentRangeShape(value: string) returns (units: string, first: string, last: string, total: string)
    requires ParseContentRange(value).Some?
    ensures value == units + [' '] + (first + ['-'] + last + ['/'] + total) && EqualFold(units, "bytes")
    ensures ParseInt(first) == Number(ParseContentRange(value).value.0) && ParseContentRange(value).value.0 >= 0
    ensures ParseInt(total) == Number(ParseContentRange(value).value.1) && ParseContentRange(value).value.1 >= 0
  {
    var rangeAndSize, byteRange;
    units, rangeAndSize := Cut(value, ' ').0, Cut(value, ' ').1;
    byteRange, total := Cut(rangeAndSize, '/').0, Cut(rangeAndSize, '/').1;
    first, last := Cut(byteRange, '-').0, Cut(byteRange, '-').1;
    CutParts(value, ' ');
    CutParts(rangeAndSize, '/');
    CutParts(byteRange, '-');
  }

  // ----- Validators

  /** The validator a sidecar file stands for, empty when there is none. */
  function Label(sidecar: Option<string>): string {
    if sidecar.None? then "" else TrimSpace(sidecar.value)
  }

  // ----- The server

  datatype Entity = Entity(etag: string, content: Bytes)

  datatype Reply =
    | NoAnswer
    | Refused(status: int)
    | Answer(partial: bool, etag: string, contentRange: string, contentLength: int,
             chunks: seq<Bytes>, intact: bool)

  function Concat(chunks: seq<Bytes>): Bytes {
    if chunks == [] then [] else Concat(chunks[..|chunks| - 1]) + chunks[|chunks| - 1]
  }

  /** What a server may answer about the entity it holds: the whole entity from
      the start, cut short or not; or, to a range request, a stretch of it from a
      position within it (RFC 9110 section 14.4), which may end cleanly before the
      entity does (section 15.3.7). A continuation without an ETag is only given
      for the validator that was asked about; one with an ETag may be given for
      any entity, which the client has to notice. */
  predicate Honest(e: Entity, r: Reply, offset: nat, validator: string) {
    r.Answer? ==>
      && (r.etag == e.etag || r.etag == "") && TrimSpace(e.etag) == e.etag
      && var body := Concat(r.chunks);
         if r.partial then
           && offset > 0
           && (r.etag == "" ==> e.etag == validator)
           && var range := ParseContentRange(r.contentRange);
              range.Some? ==>
                && range.value.0 < |e.content| && range.value.1 == |e.content|
                && body <= e.content[range.value.0..]
         else
           && body <= e.content && (r.intact ==> body == e.content)
           && (r.contentLength == -1 || r.contentLength == |e.content|)
  }

  datatype Exchange = Exchange(entity: Entity, reply: Reply)

  /** The n-th answer of a script, as long as it is an honest one. */
  function ReplyAt(script: seq<Exchange>, n: nat, offset: nat, validator: string): Reply {
    if n < |script| && Honest(script[n].entity, script[n].reply, offset, validator) then script[n].reply else NoAnswer
  }

  /** A server whose entity may change between requests. `versions` gives the
      bytes of every entity that ever had an ETag. */
  class Server {
    const versions: string -> Bytes
    const script: seq<Exchange>
    var next: nat

    constructor (versions: string -> Bytes, script: seq<Exchange>)
      ensures this.versions == versions && this.script == script && next == 0
    {
      this.versions := versions;
      this.script := script;
      next := 0;
    }

    /** Validators name one content each. */
    ghost predicate Consistent()
      reads this
    {
      forall i :: 0 <= i < |script| && script[i].entity.etag != "" ==>
                    script[i].entity.content == versions(script[i].entity.etag)
    }

    /** The content of some entity of this server. */
    ghost predicate Whole(b: Bytes)
      reads this
    {
      exists i :: 0 <= i < |script| && script[i].entity.content == b
    }

    /** Every answer carries an ETag. */
    ghost predicate NamesItself()
      reads this
    {
      forall i :: 0 <= i < |script| && script[i].reply.Answer? ==> script[i].reply.etag != ""
    }

    method Do(offset: nat, validator: string) returns (r: Reply, ghost e: Entity)
      requires Consistent()
      modifies this
      ensures Consistent() && next == old(next) + 1
      ensures r == ReplyAt(script, old(next), offset, validator)
      ensures Honest(e, r, offset, validator)
      ensures old(next) < |script| && r.Answer? ==> e == script[old(next)].entity
      ensures r.Answer? ==> Whole(e.content) && (e.etag != "" ==> e.content == versions(e.etag))
    {
      r, e := NoAnswer, Entity("", []);
      if next < |script| {
        var exchange := script[next];
        if Honest(exchange.entity, exchange.reply, offset, validator) {
          r, e := exchange.reply, exchange.entity;
        }
      }
      next := next + 1;
    }
  }

  // ----- The disk

  datatype DiskState = DiskState(part: Option<Bytes>, sidecar: Option<string>, dest: Option<Bytes>)

  /** A labelled part is a prefix of the entity its label names. */
  ghost predicate Labelled(s: DiskState, versions: string -> Bytes) {
    s.part.Some? && Label(s.sidecar) != "" ==> s.part.value <= versions(Label(s.sidecar))
  }

  /** Any operation may fail; `fails` decides by the number of operations so
      far. */
  class Disk {
    var state: DiskState
    var log: seq<DiskState>
    var operations: nat
    const fails: nat -> bool

    constructor (state: DiskState, fails: nat -> bool)
      ensures this.state == state && log == [state]
    {
      this.state := state;
      this.fails := fails;
      log := [state];
      operations := 0;
    }

    /** One operation: takes effect or fails, and is logged. */
    method Apply(after: DiskState) returns (ok: bool)
      modifies this
      ensures state == if ok then after else old(state)
      ensures log == old(log) + [state]
      ensures (forall n :: !fails(n)) ==> ok
    {
      ok := !fails(operations);
      if ok {
        state := after;
      }
      operations := operations + 1;
      log := log + [state];
    }

    /** The machine stops and comes back with the disk as it was at some logged
        moment. */
    method Crash(moment: nat)
      requires moment < |log|
      modifies this
      ensures log == old(log) && state == log[moment]
    {
      state := log[moment];
    }
  }

  ghost predicate Faultless(disk: Disk) {
    forall n :: !disk.fails(n)
  }

  /** Every state logged since `base` is safe and leaves the destination alone. */
  ghost predicate AllSafe(log: seq<DiskState>, base: nat, versions: string -> Bytes, dest: Option<Bytes>) {
    base <= |log| && forall k :: base <= k < |log| ==> Labelled(log[k], versions) && log[k].dest == dest
  }

  method DiscardPartValidator(disk: Disk) returns (ok: bool)
    modifies disk
    ensures disk.state == if ok then old(disk.state).(sidecar := None) else old(disk.state)
    ensures disk.log == old(disk.log) + [disk.state]
    ensures Faultless(disk) ==> ok
  {
    ok := disk.Apply(disk.state.(sidecar := None));
  }

  /** Removes the part, then its label: while the part is there, so is the label
      it had. */
  method DiscardPartial(disk: Disk, ghost base: nat, ghost versions: string -> Bytes) returns (ok: bool)
    requires Labelled(disk.state, versions) && AllSafe(disk.log, base, versions, disk.state.dest)
    modifies disk
    ensures old(disk.log) <= disk.log
    ensures disk.state.dest == old(disk.state.dest)
    ensures Labelled(disk.state, versions) && AllSafe(disk.log, base, versions, disk.state.dest)
    ensures forall k :: |old(disk.log)| <= k < |disk.log| && disk.log[k].part.Some? ==>
              disk.log[k] == old(disk.state)
    ensures ok ==> disk.state == old(disk.state).(part := None, sidecar := None)
    ensures Faultless(disk) ==> ok
  {
    ok := disk.Apply(disk.state.(part := None));
    if ok {
      ok := DiscardPartValidator(disk);
    }
  }

  function SidecarFor(validator: string): Option<string> {
    if TrimSpace(validator) == "" then None else Some(validator)
  }

  /** Records the validator of the entity about to be written to the empty part.
      The write is not atomic: every prefix of it may survive a crash. */
  method WritePartValidator(disk: Disk, validator: string, ghost base: nat, ghost versions: string -> Bytes)
    returns (ok: bool)
    requires disk.state.part == Some([])
    requires AllSafe(disk.log, base, versions, disk.state.dest)
    modifies disk
    ensures old(disk.log) <= disk.log
    ensures disk.state.dest == old(disk.state.dest) && disk.state.part == Some([])
    ensures AllSafe(disk.log, base, versions, disk.state.dest)
    ensures ok ==> disk.state.sidecar == SidecarFor(validator)
    ensures Faultless(disk) ==> ok
  {
    if TrimSpace(validator) == "" {
      ok := DiscardPartValidator(disk);
      return;
    }
    ok := disk.Apply(disk.state.(sidecar := Some("")));
    var written := 0;
    while ok && written < |validator|
      invariant old(disk.log) <= disk.log
      invariant disk.state.dest == old(disk.state.dest) && disk.state.part == Some([])
      invariant AllSafe(disk.log, base, versions, disk.state.dest)
      invariant written <= |validator| && (ok ==> disk.state.sidecar == Some(validator[..written]))
      invariant Faultless(disk) ==> ok
      decreases ok, |validator| - written
    {
      written := written + 1;
      ok := disk.Apply(disk.state.(sidecar := Some(validator[..written])));
    }
    assert ok ==> validator[..written] == validator;
  }

  /** Appends the body chunk by chunk until it ends or a write fails. */
  method CopyBody(disk: Disk, chunks: seq<Bytes>, ghost base: nat, ghost versions: string -> Bytes,
                  ghost content: Bytes)
    returns (ok: bool)
    requires disk.state.part.Some? && disk.state.part.value + Concat(chunks) <= content
    requires Label(disk.state.sidecar) != "" ==> versions(Label(disk.state.sidecar)) == content
    requires AllSafe(disk.log, base, versions, disk.state.dest)
    modifies disk
    ensures old(disk.log) <= disk.log
    ensures disk.state.dest == old(disk.state.dest) && disk.state.sidecar == old(disk.state.sidecar)
    ensures disk.state.part.Some? && disk.state.part.value <= content
    ensures old(disk.state.part.value) <= disk.state.part.value
    ensures AllSafe(disk.log, base, versions, disk.state.dest)
    ensures ok ==> disk.state.part.value == old(disk.state.part.value) + Concat(chunks)
    ensures Faultless(disk) ==> ok
  {
    ok := true;
    var i := 0;
    ghost var start := disk.state.part.value;
    assert start <= content by { assert start <= start + Concat(chunks); }
    assert chunks[..0] == [];
    while ok && i < |chunks|
      invariant i <= |chunks| && old(disk.log) <= disk.log
      invariant disk.state.dest == old(disk.state.dest) && disk.state.sidecar == old(disk.state.sidecar)
      invariant disk.state.part.Some? && start <= disk.state.part.value <= content
      invariant AllSafe(disk.log, base, versions, disk.state.dest)
      invariant Faultless(disk) ==> ok
      invariant ok ==> disk.state.part.value == start + Concat(chunks[..i])
      decreases ok, |chunks| - i
    {
      ConcatPrefix(chunks, i + 1);
      assert chunks[..i + 1][..i] == chunks[..i];
      assert start + Concat(chunks[..i + 1]) <= start + Concat(chunks);
      ok := disk.Apply(disk.state.(part := Some(disk.state.part.value + chunks[i])));
      i := i + 1;
    }
    assert i == |chunks| ==> chunks[..i] == chunks;
  }

  lemma {:induction false} ConcatPrefix(chunks: seq<Bytes>, i: nat)
    requires i <= |chunks|
    ensures Concat(chunks[..i]) <= Concat(chunks)
    decreases |chunks|
  {
    if i == |chunks| {
      assert chunks[..i] == chunks;
    } else {
      ConcatPrefix(chunks[..|chunks| - 1], i);
      assert chunks[..|chunks| - 1][..i] == chunks[..i];
    }
  }

  // ----- The transfer

  datatype Options = Options(noClobber: bool, resume: bool, verify: bool)

  /** The destination has its old content or one complete entity. */
  ghost predicate Intact(s: DiskState, dest: Option<Bytes>, server: Server)
    reads server
  {
    s.dest == dest || (s.dest.Some? && server.Whole(s.dest.value))
  }

  /** What every logged state since `base` promises. */
  ghost predicate Recoverable(log: seq<DiskState>, base: nat, dest: Option<Bytes>, server: Server)
    reads server
  {
    base <= |log| && forall k :: base <= k < |log| ==>
                                   Labelled(log[k], server.versions) && Intact(log[k], dest, server)
  }

  datatype AttemptResult = Again | Failed | Complete(expectedSize: int, etag: string)

  /** A received part belongs to an entity whose size is expected, or is all of
      an entity of unannounced size. Whether the former is complete is for the
      final check to find out. */
  ghost predicate Received(s: DiskState, expectedSize: int, content: Bytes) {
    && s.part.Some? && s.part.value <= content
    && (if expectedSize >= 0 then expectedSize == |content| else s.part.value == content)
  }

  /** It was received from this server, and the ETag it is known by is that of its
      entity, whenever the answer named one. */
  ghost predicate ReceivedFrom(s: DiskState, result: AttemptResult, server: Server)
    requires result.Complete?
    reads server
  {
    exists i :: 0 <= i < |server.script| && ReceivedAs(s, result, server.script[i], server.versions)
  }

  ghost predicate ReceivedAs(s: DiskState, result: AttemptResult, x: Exchange, versions: string -> Bytes)
    requires result.Complete?
  {
    && x.reply.Answer? && Received(s, result.expectedSize, x.entity.content)
    && (result.etag != "" ==> x.entity.content == versions(result.etag))
    && (x.reply.etag != "" ==> result.etag != "")
  }

  // ----- One attempt, on a disk that does not fail

  /** What the disk holds when an attempt may use it: an unlabelled part is
      dropped. */
  function Usable(s: DiskState, resume: bool): DiskState {
    if resume && s.part.Some? && Label(s.sidecar) == "" then s.(part := None, sidecar := None) else s
  }

  /** The bytes a request leaves out, and the validator they are known by. */
  function Kept(s: DiskState, resume: bool): (nat, string) {
    if resume && s.part.Some? && Label(s.sidecar) != "" then (|s.part.value|, Label(s.sidecar)) else (0, "")
  }

  /** How an attempt ends once the body has been copied. */
  function Ended(intact: bool, expectedSize: int, etag: string, retryable: bool): AttemptResult {
    if intact then Complete(expectedSize, etag) else if retryable then Again else Failed
  }

  function Restarted(s: DiskState, r: Reply, retryable: bool): (DiskState, AttemptResult)
    requires r.Answer?
  {
    (DiskState(Some(Concat(r.chunks)), SidecarFor(r.etag), s.dest),
     Ended(r.intact, r.contentLength, r.etag, retryable))
  }

  function Continued(s: DiskState, r: Reply, range: Option<(int, int)>, offset: nat, validator: string,
                     retryable: bool): (DiskState, AttemptResult)
    requires r.Answer? && s.part.Some?
  {
    if range.None? || range.value.0 != offset || (r.etag != "" && r.etag != validator) then (s, Failed)
    else
      (s.(part := Some(s.part.value + Concat(r.chunks))), Ended(r.intact, range.value.1, validator, retryable))
  }

  function Answered(s: DiskState, r: Reply, offset: nat, validator: string, retryable: bool): (DiskState, AttemptResult)
    requires r.Answer? && (offset > 0 ==> s.part.Some?)
  {
    if r.partial && offset > 0
    then Continued(s, r, ParseContentRange(r.contentRange), offset, validator, retryable)
    else Restarted(s, r, retryable)
  }

  function Attempted(s: DiskState, resume: bool, r: Reply, retryable: bool): (DiskState, AttemptResult) {
    var t := Usable(s, resume);
    var (offset, validator) := Kept(s, resume);
    match r
    case NoAnswer => (t, if retryable then Again else Failed)
    case Refused(status) => (t, if retryable && Retry.RetryableStatus(status) then Again else Failed)
    case Answer(_, _, _, _, _, _) => Answered(t, r, offset, validator, retryable)
  }

  function ReplyTo(script: seq<Exchange>, n: nat, s: DiskState, resume: bool): Reply {
    ReplyAt(script, n, Kept(s, resume).0, Kept(s, resume).1)
  }

  /** No part, or one that may be resumed. */
  predicate Settled(s: DiskState) {
    s.part.None? || Label(s.sidecar) != ""
  }

  /** The retained prefix a resumed attempt may continue, and its validator.
      An unlabelled part is discarded. */
  method ReadPartial(disk: Disk, resume: bool, ghost base: nat, ghost versions: string -> Bytes)
    returns (ok: bool, offset: nat, validator: string)
    requires Labelled(disk.state, versions) && AllSafe(disk.log, base, versions, disk.state.dest)
    modifies disk
    ensures old(disk.log) <= disk.log
    ensures disk.state.dest == old(disk.state.dest)
    ensures Labelled(disk.state, versions) && AllSafe(disk.log, base, versions, disk.state.dest)
    ensures (offset, validator) == Kept(old(disk.state), resume)
    ensures offset > 0 || Settled(old(disk.state)) ==>
              ok && disk.state == old(disk.state) && disk.log == old(disk.log)
    ensures ok ==> disk.state == Usable(old(disk.state), resume)
    ensures Faultless(disk) ==> ok
  {
    ok, offset, validator := true, 0, "";
    if resume && disk.state.part.Some? {
      var saved := Label(disk.state.sidecar);
      if saved == "" {
        ok := DiscardPartial(disk, base, versions);
      } else {
        offset, validator := |disk.state.part.value|, saved;
      }
    }
  }

  /** A continuation of a part, at the position asked for. */
  predicate Continues(r: Reply, offset: nat) {
    r.Answer? && r.partial
    && var range := ParseContentRange(r.contentRange); range.Some? && range.value.0 == offset
  }

  /** One request and, if it is answered, the transfer of its body. */
  method Attempt(disk: Disk, server: Server, options: Options, retryable: bool, ghost base: nat)
    returns (result: AttemptResult, ghost answered: bool)
    requires server.Consistent()
    requires Labelled(disk.state, server.versions) && AllSafe(disk.log, base, server.versions, disk.state.dest)
    modifies disk, server
    ensures old(disk.log) <= disk.log
    ensures server.Consistent() && (result.Again? ==> server.next == old(server.next) + 1)
    ensures disk.state.dest == old(disk.state.dest)
    ensures Labelled(disk.state, server.versions) && AllSafe(disk.log, base, server.versions, disk.state.dest)
    ensures result.Complete? ==> ReceivedFrom(disk.state, result, server)
    ensures !retryable ==> !result.Again?
    ensures Faultless(disk) ==>
              var r := ReplyTo(server.script, old(server.next), old(disk.state), options.resume);
              (disk.state, result) == Attempted(old(disk.state), options.resume, r, retryable)
    ensures var r := ReplyTo(server.script, old(server.next), old(disk.state), options.resume);
            var offset := Kept(old(disk.state), options.resume).0;
            offset > 0 && (r.Answer? ==> r.partial && !Continues(r, offset)) ==>
              !result.Complete? && disk.state == old(disk.state)
    ensures !answered ==> !result.Complete?
    ensures !answered && Settled(old(disk.state)) ==> disk.state == old(disk.state)
  {
    answered := false;
    var ok, offset, validator := ReadPartial(disk, options.resume, base, server.versions);
    if !ok {
      return Failed, answered;
    }
    ghost var e: Entity;
    var reply;
    reply, e := server.Do(offset, validator);
    match reply {
      case NoAnswer =>
        result := if retryable then Again else Failed;
      case Refused(status) =>
        result := if retryable && Retry.RetryableStatus(status) then Again else Failed;
      case Answer(partial, etag, contentRange, contentLength, chunks, intact) =>
        answered := true;
        if partial && offset > 0 {
          result := Continue(disk, reply, offset, validator, retryable, base, server.versions, e);
        } else {
          result := Restart(disk, reply, retryable, base, server.versions, e);
        }
    }
  }

  /** Appends a granted continuation, unless it starts elsewhere or names
      another entity. */
  method Continue(disk: Disk, reply: Reply, offset: nat, validator: string, retryable: bool,
                  ghost base: nat, ghost versions: string -> Bytes, ghost e: Entity)
    returns (result: AttemptResult)
    requires reply.Answer? && reply.partial && offset > 0 && Honest(e, reply, offset, validator)
    requires e.etag != "" ==> e.content == versions(e.etag)
    requires Labelled(disk.state, versions) && AllSafe(disk.log, base, versions, disk.state.dest)
    requires disk.state.part.Some? && |disk.state.part.value| == offset
    requires validator == Label(disk.state.sidecar) && validator != ""
    modifies disk
    ensures old(disk.log) <= disk.log
    ensures disk.state.dest == old(disk.state.dest) && disk.state.sidecar == old(disk.state.sidecar)
    ensures Labelled(disk.state, versions) && AllSafe(disk.log, base, versions, disk.state.dest)
    ensures disk.state.part.Some? && old(disk.state.part.value) <= disk.state.part.value
    ensures result.Complete? ==> ReceivedAs(disk.state, result, Exchange(e, reply), versions)
    ensures !retryable ==> !result.Again?
    ensures !Continues(reply, offset) ==> result == Failed && disk.state == old(disk.state)
    ensures Faultless(disk) ==>
              (disk.state, result) == Answered(old(disk.state), reply, offset, validator, retryable)
  {
    var range := ParseContentRange(reply.contentRange);
    if range.None? || range.value.0 != offset {
      return Failed;
    }
    if reply.etag != "" && reply.etag != validator {
      return Failed;
    }
    ContinuationFits(disk.state.part.value, e.content, offset, Concat(reply.chunks));
    var copied := CopyBody(disk, reply.chunks, base, versions, e.content);
    result := Finish(disk, copied && reply.intact, range.value.1, validator, retryable, base, versions);
  }

  /** A stretch of an entity fits a prefix of the same entity. */
  lemma ContinuationFits(part: Bytes, content: Bytes, offset: nat, body: Bytes)
    requires part <= content && |part| == offset && offset <= |content| && body <= content[offset..]
    ensures part + body <= content
  {
    assert part == content[..offset];
    assert content == content[..offset] + content[offset..];
  }

  /** Starts over: invalidates the label before anything else changes, empties
      the part, labels it anew and writes the entity from its start. Whatever is
      received stays labelled with the answer's validator. */
  method Restart(disk: Disk, reply: Reply, retryable: bool, ghost base: nat,
                 ghost versions: string -> Bytes, ghost e: Entity)
    returns (result: AttemptResult)
    requires reply.Answer? && TrimSpace(e.etag) == e.etag && (reply.etag == e.etag || reply.etag == "")
    requires Concat(reply.chunks) <= e.content && (reply.intact ==> Concat(reply.chunks) == e.content)
    requires reply.contentLength == -1 || reply.contentLength == |e.content|
    requires e.etag != "" ==> e.content == versions(e.etag)
    requires Labelled(disk.state, versions) && AllSafe(disk.log, base, versions, disk.state.dest)
    modifies disk
    ensures old(disk.log) <= disk.log
    ensures disk.state.dest == old(disk.state.dest)
    ensures Labelled(disk.state, versions) && AllSafe(disk.log, base, versions, disk.state.dest)
    ensures Invalidated(disk.log, |old(disk.log)|, old(disk.state))
    ensures !result.Failed? ==>
              && disk.state.sidecar == SidecarFor(reply.etag)
              && disk.state.part.Some? && disk.state.part.value <= e.content
    ensures result.Complete? ==> ReceivedAs(disk.state, result, Exchange(e, reply), versions)
    ensures !retryable ==> !result.Again?
    ensures Faultless(disk) ==>
              (disk.state, result) == Restarted(old(disk.state), reply, retryable)
  {
    var ok := DiscardPartValidator(disk);
    if !ok {
      return Failed;
    }
    ghost var first := disk.log;
    result := Rewrite(disk, reply, retryable, base, versions, e);
    assert disk.log[|old(disk.log)|] == first[|old(disk.log)|];
  }

  /** The first operation since `base` removes the label, and nothing more happens
      unless it succeeds. */
  ghost predicate Invalidated(log: seq<DiskState>, base: nat, was: DiskState) {
    base < |log| && (log[base] == was.(sidecar := None) || (log[base] == was && |log| == base + 1))
  }

  method Rewrite(disk: Disk, reply: Reply, retryable: bool, ghost base: nat,
                 ghost versions: string -> Bytes, ghost e: Entity)
    returns (result: AttemptResult)
    requires reply.Answer? && TrimSpace(e.etag) == e.etag && (reply.etag == e.etag || reply.etag == "")
    requires Concat(reply.chunks) <= e.content && (reply.intact ==> Concat(reply.chunks) == e.content)
    requires reply.contentLength == -1 || reply.contentLength == |e.content|
    requires e.etag != "" ==> e.content == versions(e.etag)
    requires disk.state.sidecar == None && AllSafe(disk.log, base, versions, disk.state.dest)
    modifies disk
    ensures old(disk.log) <= disk.log
    ensures disk.state.dest == old(disk.state.dest)
    ensures Labelled(disk.state, versions) && AllSafe(disk.log, base, versions, disk.state.dest)
    ensures !result.Failed? ==>
              && disk.state.sidecar == SidecarFor(reply.etag)
              && disk.state.part.Some? && disk.state.part.value <= e.content
    ensures result.Complete? ==> ReceivedAs(disk.state, result, Exchange(e, reply), versions)
    ensures !retryable ==> !result.Again?
    ensures Faultless(disk) ==>
              (disk.state, result) == Restarted(old(disk.state), reply, retryable)
  {
    var ok := disk.Apply(disk.state.(part := Some([])));
    if !ok {
      return Failed;
    }
    ok := WritePartValidator(disk, reply.etag, base, versions);
    if !ok {
      return Failed;
    }
    assert [] + Concat(reply.chunks) == Concat(reply.chunks);
    var copied := CopyBody(disk, reply.chunks, base, versions, e.content);
    result := Finish(disk, copied && reply.intact, reply.contentLength, reply.etag, retryable, base, versions);
  }

  /** Closes the part, which may fail as well. */
  method Finish(disk: Disk, copied: bool, expectedSize: int, etag: string, retryable: bool,
                ghost base: nat, ghost versions: string -> Bytes)
    returns (result: AttemptResult)
    requires Labelled(disk.state, versions) && AllSafe(disk.log, base, versions, disk.state.dest)
    modifies disk
    ensures old(disk.log) <= disk.log
    ensures disk.state == old(disk.state)
    ensures AllSafe(disk.log, base, versions, disk.state.dest)
    ensures result.Complete? ==> copied && result == Complete(expectedSize, etag)
    ensures !retryable ==> !result.Again?
    ensures Faultless(disk) ==> result == Ended(copied, expectedSize, etag, retryable)
  {
    var closed := disk.Apply(disk.state);
    result := if copied && closed then Complete(expectedSize, etag) else if retryable then Again else Failed;
  }

  /** The remote size and ETag at verification time, or no answer. */
  datatype RemoteInfo = Unknown | Info(size: int, etag: string)

  predicate Verified(partSize: int, expectedSize: int, etag: string, verify: bool, remote: RemoteInfo) {
    && (expectedSize >= 0 ==> partSize == expectedSize)
    && (verify ==> remote.Info? && remote.size == partSize
                   && (etag == "" || remote.etag == "" || etag == remote.etag))
  }

  /** What was downloaded has the size the server reports and, if both the answers
      and the report carry ETags, is the entity the report is about. */
  ghost predicate VerifiedAgainst(content: Bytes, remote: RemoteInfo, server: Server)
    reads server
  {
    && remote.Info? && remote.size == |content|
    && (remote.etag != "" && server.NamesItself() ==> content == server.versions(remote.etag))
  }

  /** A received part of the expected size is a complete entity. */
  lemma VerifiedIsWhole(s: DiskState, result: AttemptResult, verify: bool, remote: RemoteInfo, server: Server)
    requires result.Complete? && ReceivedFrom(s, result, server)
    requires s.part.Some? && Verified(|s.part.value|, result.expectedSize, result.etag, verify, remote)
    ensures server.Whole(s.part.value)
    ensures result.etag != "" ==> s.part.value == server.versions(result.etag)
    ensures server.NamesItself() ==> result.etag != ""
  {
    var i :| 0 <= i < |server.script| && ReceivedAs(s, result, server.script[i], server.versions);
    assert s.part.value == server.script[i].entity.content;
  }

  // ----- All attempts

  /** The attempts from the n-th answer on, with `left` retries left. */
  function Attempts(s: DiskState, resume: bool, script: seq<Exchange>, n: nat, left: nat, attempt: nat,
                    waits: nat -> bool): (DiskState, AttemptResult)
    decreases left
  {
    var (t, r) := Attempted(s, resume, ReplyTo(script, n, s, resume), left > 0);
    if !r.Again? then (t, r)
    else if left > 0 && waits(attempt) then Attempts(t, resume, script, n + 1, left - 1, attempt + 1, waits)
    else (t, Failed)
  }

  /** What is left of the disk by a whole invocation, and whether it succeeded,
      when no file operation fails. */
  function Downloaded(s: DiskState, options: Options, retries: nat, script: seq<Exchange>, n: nat,
                      waits: nat -> bool, remote: RemoteInfo): (DiskState, bool)
  {
    if options.noClobber && s.dest.Some? then (s, false)
    else
      var start := if options.resume then s else s.(part := None, sidecar := None);
      Committed(Attempts(start, options.resume, script, n, retries, 0, waits), options.verify, remote)
  }

  function Committed(last: (DiskState, AttemptResult), verify: bool, remote: RemoteInfo): (DiskState, bool) {
    var (t, r) := last;
    if !r.Complete? || t.part.None? || !Verified(|t.part.value|, r.expectedSize, r.etag, verify, remote) then (t, false)
    else (DiskState(None, None, t.part), true)
  }

  /** Every answer from the n-th on leaves a part of this size as it is: a refusal,
      or a stretch of an entity that is no longer than the part. */
  predicate NothingToAdd(script: seq<Exchange>, n: nat, size: nat) {
    forall i :: n <= i < |script| && script[i].reply.Answer? ==>
                  script[i].reply.partial && |script[i].entity.content| <= size
  }

  lemma NoContinuation(script: seq<Exchange>, n: nat, m: nat, offset: nat, validator: string)
    requires NothingToAdd(script, n, offset) && n <= m
    ensures var r := ReplyAt(script, m, offset, validator); r.Answer? ==> r.partial && !Continues(r, offset)
  {
  }

  /** The loop over attempts. */
  method Transfer(disk: Disk, server: Server, options: Options, retries: nat, waits: nat -> bool, ghost base: nat)
    returns (result: AttemptResult, ghost answered: bool)
    requires server.Consistent()
    requires Labelled(disk.state, server.versions) && AllSafe(disk.log, base, server.versions, disk.state.dest)
    modifies disk, server
    ensures server.Consistent() && old(disk.log) <= disk.log
    ensures disk.state.dest == old(disk.state.dest)
    ensures Labelled(disk.state, server.versions) && AllSafe(disk.log, base, server.versions, disk.state.dest)
    ensures !result.Again?
    ensures result.Complete? ==> ReceivedFrom(disk.state, result, server)
    ensures Faultless(disk) ==>
              (disk.state, result)
              == Attempts(old(disk.state), options.resume, server.script, old(server.next), retries, 0, waits)
    ensures var offset := Kept(old(disk.state), options.resume).0;
            offset > 0 && NothingToAdd(server.script, old(server.next), offset) ==>
              !result.Complete? && disk.state == old(disk.state)
    ensures !answered ==> !result.Complete?
    ensures !answered && Settled(old(disk.state)) ==> disk.state == old(disk.state)
  {
    result, answered := Again, false;
    var attempt := 0;
    ghost var first, n := disk.state, server.next;
    ghost var offset, validator := Kept(disk.state, options.resume).0, Kept(disk.state, options.resume).1;
    ghost var stuck := offset > 0 && NothingToAdd(server.script, n, offset);
    while attempt <= retries && result.Again?
      invariant attempt <= retries + 1 && server.Consistent()
      invariant disk.state.dest == first.dest && old(disk.log) <= disk.log
      invariant Labelled(disk.state, server.versions) && AllSafe(disk.log, base, server.versions, disk.state.dest)
      invariant result.Complete? ==> ReceivedFrom(disk.state, result, server)
      invariant attempt > retries ==> !result.Again?
      invariant result.Again? ==> server.next == n + attempt
      invariant Faultless(disk) ==>
                  Attempts(first, options.resume, server.script, n, retries, 0, waits)
                  == if result.Again?
                     then Attempts(disk.state, options.resume, server.script, server.next, retries - attempt,
                                   attempt, waits)
                     else (disk.state, result)
      invariant stuck ==> !result.Complete? && disk.state == first
      invariant !answered ==> !result.Complete?
      invariant !answered && Settled(first) ==> disk.state == first
      decreases retries + 1 - attempt
    {
      if stuck {
        NoContinuation(server.script, n, server.next, offset, validator);
      }
      ghost var reached;
      result, reached := Attempt(disk, server, options, attempt < retries, base);
      answered := answered || reached;
      if result.Again? && !waits(attempt) {
        result := Failed;
      }
      attempt := attempt + 1;
    }
  }

  /** Downloads one file. In every state the disk passes through, a labelled part
      is a prefix of the entity its label names and the destination has its old
      content or one complete entity; success means the latter. Without file
      faults the outcome is that of `Downloaded`. Under whatever faults, a labelled
      part that the server has nothing to add to is left alone and never becomes
      the destination. */
  method DownloadWithOptions(disk: Disk, server: Server, options: Options, retries: nat,
                             waits: nat -> bool, remote: RemoteInfo)
    returns (ok: bool, ghost answered: bool)
    requires server.Consistent() && Labelled(disk.state, server.versions)
    modifies disk, server
    ensures server.Consistent() && Labelled(disk.state, server.versions)
    ensures Recoverable(disk.log, |old(disk.log)|, old(disk.state.dest), server)
    ensures old(disk.log) <= disk.log
    ensures ok ==> disk.state.dest.Some? && server.Whole(disk.state.dest.value) && disk.state.part == None
    ensures !ok ==> disk.state.dest == old(disk.state.dest)
    ensures options.noClobber && old(disk.state.dest).Some? ==> !ok && disk.state == old(disk.state)
    ensures Faultless(disk) ==>
              (disk.state, ok)
              == Downloaded(old(disk.state), options, retries, server.script, old(server.next), waits, remote)
    ensures var offset := Kept(old(disk.state), options.resume).0;
            offset > 0 && NothingToAdd(server.script, old(server.next), offset) ==>
              !ok && disk.state == old(disk.state)
    ensures ok && options.verify ==> VerifiedAgainst(disk.state.dest.value, remote, server)
    ensures !answered ==> !ok
    ensures !answered && options.resume && Settled(old(disk.state)) ==> disk.state == old(disk.state)
  {
    ghost var base := |disk.log|;
    answered := false;
    if options.noClobber && disk.state.dest.Some? {
      return false, answered;
    }
    if !options.resume {
      ok := DiscardPartial(disk, base, server.versions);
      if !ok {
        return;
      }
    }
    var result;
    result, answered := Transfer(disk, server, options, retries, waits, base);
    ok := Commit(disk, server, result, options.verify, remote, base);
  }

  /** The size and ETag checks, and the replacement of the destination. The label
      goes first; that it could not be removed does not matter. */
  method Commit(disk: Disk, server: Server, result: AttemptResult, verify: bool, remote: RemoteInfo, ghost base: nat)
    returns (ok: bool)
    requires !result.Again? && (result.Complete? ==> ReceivedFrom(disk.state, result, server))
    requires Labelled(disk.state, server.versions) && AllSafe(disk.log, base, server.versions, disk.state.dest)
    modifies disk
    ensures Labelled(disk.state, server.versions)
    ensures Recoverable(disk.log, base, old(disk.state.dest), server)
    ensures old(disk.log) <= disk.log
    ensures ok ==> disk.state.dest.Some? && server.Whole(disk.state.dest.value) && disk.state.part == None
    ensures !ok ==> disk.state.dest == old(disk.state.dest)
    ensures !result.Complete? ==> !ok && disk.state == old(disk.state)
    ensures ok && verify ==> VerifiedAgainst(disk.state.dest.value, remote, server)
    ensures Faultless(disk) ==> (disk.state, ok) == Committed((old(disk.state), result), verify, remote)
  {
    if !result.Complete? || disk.state.part.None?
       || !Verified(|disk.state.part.value|, result.expectedSize, result.etag, verify, remote) {
      return false;
    }
    VerifiedIsWhole(disk.state, result, verify, remote, server);
    var discarded := DiscardPartValidator(disk);
    ok := disk.Apply(DiskState(None, disk.state.sidecar, disk.state.part));
  }

  // ----- When a resumed run succeeds

  /** What a server that grants continuations answers to a request for what
      follows the first `offset` bytes of its entity: all of it or, when there is
      nothing, a refusal or some other stretch. */
  predicate Granted(x: Exchange, e: Entity, offset: nat) {
    && x.entity == e
    && if offset < |e.content| then
         && Continues(x.reply, offset) && ParseContentRange(x.reply.contentRange).value.1 == |e.content|
         && (x.reply.etag == e.etag || x.reply.etag == "") && x.reply.intact
         && Concat(x.reply.chunks) == e.content[offset..]
       else x.reply.Answer? ==> x.reply.partial
  }

  /** A labelled part of an entity. */
  predicate PartOf(s: DiskState, e: Entity) {
    && s.part.Some? && s.part.value != [] && s.part.value <= e.content
    && e.etag != "" && TrimSpace(e.etag) == e.etag && Label(s.sidecar) == e.etag
  }

  lemma ContinuationIsTaken(s: DiskState, e: Entity, x: Exchange, retryable: bool)
    requires PartOf(s, e) && |s.part.value| < |e.content| && Granted(x, e, |s.part.value|)
    ensures Honest(e, x.reply, |s.part.value|, e.etag)
    ensures Attempted(s, true, x.reply, retryable)
            == (s.(part := Some(e.content)), Complete(|e.content|, e.etag))
  {
    var offset := |s.part.value|;
    GrantIsHonest(x, e, offset);
    var range := GrantedRange(x, e, offset);
    RangeIsTaken(s, e, x.reply, range, retryable);
    assert Attempted(s, true, x.reply, retryable) == Answered(s, x.reply, offset, e.etag, retryable);
  }

  lemma GrantedRange(x: Exchange, e: Entity, offset: nat) returns (range: Option<(int, int)>)
    requires offset < |e.content| && Granted(x, e, offset)
    ensures x.reply.Answer? && x.reply.partial && range == ParseContentRange(x.reply.contentRange)
    ensures range == Some((offset, |e.content|))
    ensures (x.reply.etag == e.etag || x.reply.etag == "") && x.reply.intact
    ensures Concat(x.reply.chunks) == e.content[offset..]
  {
    range := ParseContentRange(x.reply.contentRange);
  }

  lemma RangeIsTaken(s: DiskState, e: Entity, r: Reply, range: Option<(int, int)>, retryable: bool)
    requires PartOf(s, e) && r.Answer? && range == Some((|s.part.value|, |e.content|))
    requires (r.etag == e.etag || r.etag == "") && r.intact
    requires |s.part.value| < |e.content| && Concat(r.chunks) == e.content[|s.part.value|..]
    ensures Continued(s, r, range, |s.part.value|, e.etag, retryable)
            == (s.(part := Some(e.content)), Complete(|e.content|, e.etag))
  {
    assert s.part.value + e.content[|s.part.value|..] == e.content;
  }

  lemma GrantIsHonest(x: Exchange, e: Entity, offset: nat)
    requires 0 < offset < |e.content| && TrimSpace(e.etag) == e.etag && Granted(x, e, offset)
    ensures Honest(e, x.reply, offset, e.etag)
  {
  }

  lemma {:induction false} StuckAttempts(s: DiskState, script: seq<Exchange>, n: nat, left: nat, attempt: nat,
                                         waits: nat -> bool)
    requires Kept(s, true).0 > 0 && NothingToAdd(script, n, Kept(s, true).0)
    ensures Attempts(s, true, script, n, left, attempt, waits) == (s, Failed)
    decreases left
  {
    NoContinuation(script, n, n, Kept(s, true).0, Kept(s, true).1);
    if left > 0 {
      StuckAttempts(s, script, n + 1, left - 1, attempt + 1, waits);
    }
  }

  /** A resumed run against a server that grants continuations of the labelled
      entity succeeds, and then has the whole entity in place, exactly when part
      of the entity is missing. A part that is already complete is never finished:
      however often it is tried, everything stays as it is. */
  lemma ResumeSucceedsExactly(s: DiskState, options: Options, retries: nat, script: seq<Exchange>, n: nat,
                              waits: nat -> bool, remote: RemoteInfo, e: Entity)
    requires PartOf(s, e) && options.resume && !(options.noClobber && s.dest.Some?)
    requires n < |script| && forall i :: n <= i < |script| ==> Granted(script[i], e, |s.part.value|)
    requires Verified(|e.content|, |e.content|, e.etag, options.verify, remote)
    ensures Downloaded(s, options, retries, script, n, waits, remote)
            == if |s.part.value| < |e.content| then (DiskState(None, None, Some(e.content)), true) else (s, false)
  {
    if |s.part.value| < |e.content| {
      ContinuationIsTaken(s, e, script[n], retries > 0);
    } else {
      StuckAttempts(s, script, n, retries, 0, waits);
    }
  }

  /** Nothing received is lost: when the first answer breaks off, the part it
      leaves is taken up by the next run, which completes the entity. */
  lemma InterruptedIsResumed(s: DiskState, options: Options, script: seq<Exchange>, n: nat, waits: nat -> bool,
                             remote: RemoteInfo, e: Entity, received: nat)
    requires options.resume && s.part == None && !(options.noClobber && s.dest.Some?)
    requires n + 1 < |script| && 0 < received < |e.content| && e.etag != "" && TrimSpace(e.etag) == e.etag
    requires Honest(e, script[n].reply, 0, "") && script[n].entity == e
    requires var r := script[n].reply;
             r.Answer? && !r.intact && r.etag == e.etag && Concat(r.chunks) == e.content[..received]
    requires forall i :: n < i < |script| ==> Granted(script[i], e, received)
    requires Verified(|e.content|, |e.content|, e.etag, options.verify, remote)
    ensures var (t, ok) := Downloaded(s, options, 0, script, n, waits, remote);
            && !ok && t == DiskState(Some(e.content[..received]), Some(e.etag), s.dest)
            && Downloaded(t, options, 0, script, n + 1, waits, remote) == (DiskState(None, None, Some(e.content)), true)
  {
    var t := DiskState(Some(e.content[..received]), Some(e.etag), s.dest);
    assert Attempted(s, true, script[n].reply, false) == (t, Failed);
    ResumeSucceedsExactly(t, options, 0, script, n + 1, waits, remote, e);
  }

  // ----- What a run makes of its answers

  /** The whole entity, unbroken, with its ETag. */
  predicate WholeAnswer(x: Exchange) {
    && x.reply.Answer? && !x.reply.partial && x.reply.intact && x.reply.etag == x.entity.etag
    && TrimSpace(x.entity.etag) == x.entity.etag && Concat(x.reply.chunks) == x.entity.content
    && (x.reply.contentLength == -1 || x.reply.contentLength == |x.entity.content|)
  }

  /** No answer at all, or one that asks for patience. */
  predicate Unavailable(x: Exchange) {
    x.reply.NoAnswer? || (x.reply.Refused? && (x.reply.status == 429 || x.reply.status >= 500))
  }

  /** What the final check asks of an entity that has just been received. */
  predicate StillThere(e: Entity, verify: bool, remote: RemoteInfo) {
    verify ==>
      remote.Info? && remote.size == |e.content| && (e.etag == "" || remote.etag == "" || e.etag == remote.etag)
  }

  lemma WholeAttempt(s: DiskState, resume: bool, script: seq<Exchange>, n: nat, retryable: bool)
    requires n < |script| && WholeAnswer(script[n])
    ensures Attempted(s, resume, ReplyTo(script, n, s, resume), retryable)
            == (DiskState(Some(script[n].entity.content), SidecarFor(script[n].entity.etag), s.dest),
                Complete(script[n].reply.contentLength, script[n].entity.etag))
  {
  }

  lemma UnavailableAttempt(s: DiskState, resume: bool, script: seq<Exchange>, n: nat, retryable: bool)
    requires n < |script| && Unavailable(script[n])
    ensures Attempted(s, resume, ReplyTo(script, n, s, resume), retryable)
            == (Usable(s, resume), if retryable then Again else Failed)
  {
  }

  /** Attempts that are told to come back later are repeated while retries last. */
  lemma {:induction false} Patience(s: DiskState, resume: bool, script: seq<Exchange>, n: nat, k: nat, left: nat,
                                    attempt: nat, waits: nat -> bool)
    requires n + k < |script| && k <= left && WholeAnswer(script[n + k])
    requires forall i :: n <= i < n + k ==> Unavailable(script[i])
    requires forall i :: attempt <= i < attempt + k ==> waits(i)
    ensures var x := script[n + k];
            Attempts(s, resume, script, n, left, attempt, waits)
            == (DiskState(Some(x.entity.content), SidecarFor(x.entity.etag), s.dest),
                Complete(x.reply.contentLength, x.entity.etag))
    decreases k
  {
    if k == 0 {
      WholeAttempt(s, resume, script, n, left > 0);
    } else {
      UnavailableAttempt(s, resume, script, n, left > 0);
      Patience(Usable(s, resume), resume, script, n + 1, k - 1, left - 1, attempt + 1, waits);
    }
  }

  /** A run succeeds whatever part it finds, once a whole answer comes within its
      retries after nothing worse than unavailability, and then the destination has
      that entity. */
  lemma WholeAnswerSucceeds(s: DiskState, options: Options, retries: nat, script: seq<Exchange>, n: nat, k: nat,
                            waits: nat -> bool, remote: RemoteInfo)
    requires !(options.noClobber && s.dest.Some?) && k <= retries && n + k < |script| && WholeAnswer(script[n + k])
    requires forall i :: n <= i < n + k ==> Unavailable(script[i])
    requires forall i :: 0 <= i < k ==> waits(i)
    requires StillThere(script[n + k].entity, options.verify, remote)
    ensures Downloaded(s, options, retries, script, n, waits, remote)
            == (DiskState(None, None, Some(script[n + k].entity.content)), true)
  {
    var start := if options.resume then s else s.(part := None, sidecar := None);
    Patience(start, options.resume, script, n, k, retries, 0, waits);
  }

  /** It does not when the entity has changed since, or cannot be asked about. */
  lemma ChangedAnswerFails(s: DiskState, options: Options, retries: nat, script: seq<Exchange>, n: nat,
                           waits: nat -> bool, remote: RemoteInfo)
    requires n < |script| && WholeAnswer(script[n]) && !StillThere(script[n].entity, options.verify, remote)
    ensures var (t, ok) := Downloaded(s, options, retries, script, n, waits, remote); !ok && t.dest == s.dest
  {
    var start := if options.resume then s else s.(part := None, sidecar := None);
    WholeAttempt(start, options.resume, script, n, retries > 0);
  }

  /** A refusal of any other kind ends the run at once. A labelled part is kept, one
      without a label or not to be resumed is not. */
  lemma RefusalEnds(s: DiskState, options: Options, retries: nat, script: seq<Exchange>, n: nat, waits: nat -> bool,
                    remote: RemoteInfo)
    requires n < |script| && script[n].reply.Refused? && script[n].reply.status != 429 && script[n].reply.status < 500
    ensures var (t, ok) := Downloaded(s, options, retries, script, n, waits, remote);
            && !ok && t.dest == s.dest
            && (options.resume && Settled(s) ==> t == s)
            && (!Settled(s) || !options.resume ==>
                  (options.noClobber && s.dest.Some?) || (t.part == None && t.sidecar == None))
  {
  }

  /** Unavailability throughout the retries ends the run. */
  lemma {:induction false} PatienceEnds(s: DiskState, resume: bool, script: seq<Exchange>, n: nat, left: nat,
                                        attempt: nat, waits: nat -> bool)
    requires n + left < |script| && forall i :: n <= i <= n + left ==> Unavailable(script[i])
    ensures var (t, r) := Attempts(s, resume, script, n, left, attempt, waits); r == Failed && t.dest == s.dest
    decreases left
  {
    UnavailableAttempt(s, resume, script, n, left > 0);
    if left > 0 {
      PatienceEnds(Usable(s, resume), resume, script, n + 1, left - 1, attempt + 1, waits);
    }
  }

  lemma UnavailableFails(s: DiskState, options: Options, retries: nat, script: seq<Exchange>, n: nat,
                         waits: nat -> bool, remote: RemoteInfo)
    requires n + retries < |script| && forall i :: n <= i <= n + retries ==> Unavailable(script[i])
    ensures var (t, ok) := Downloaded(s, options, retries, script, n, waits, remote); !ok && t.dest == s.dest
  {
    var start := if options.resume then s else s.(part := None, sidecar := None);
    PatienceEnds(start, options.resume, script, n, retries, 0, waits);
  }

  /** An answer that breaks off is followed within the run by a request for the
      rest. */
  lemma BrokenIsContinued(s: DiskState, options: Options, retries: nat, script: seq<Exchange>, n: nat,
                          waits: nat -> bool, remote: RemoteInfo, e: Entity, received: nat)
    requires options.resume && s.part == None && !(options.noClobber && s.dest.Some?) && retries > 0 && waits(0)
    requires n + 1 < |script| && 0 < received < |e.content| && e.etag != "" && TrimSpace(e.etag) == e.etag
    requires Honest(e, script[n].reply, 0, "") && script[n].entity == e
    requires var r := script[n].reply;
             r.Answer? && !r.intact && r.etag == e.etag && Concat(r.chunks) == e.content[..received]
    requires Granted(script[n + 1], e, received)
    requires StillThere(e, options.verify, remote)
    ensures Downloaded(s, options, retries, script, n, waits, remote) == (DiskState(None, None, Some(e.content)), true)
  {
    var t := DiskState(Some(e.content[..received]), Some(e.etag), s.dest);
    BrokenAttempt(s, script, n, e, received);
    ContinuedAttempt(t, e, script, n + 1, retries - 1, waits);
    assert Attempts(s, true, script, n, retries, 0, waits) == Attempts(t, true, script, n + 1, retries - 1, 1, waits);
  }

  lemma BrokenAttempt(s: DiskState, script: seq<Exchange>, n: nat, e: Entity, received: nat)
    requires s.part == None && n < |script| && e.etag != "" && TrimSpace(e.etag) == e.etag
    requires Honest(e, script[n].reply, 0, "") && script[n].entity == e && received <= |e.content|
    requires var r := script[n].reply;
             r.Answer? && !r.intact && r.etag == e.etag && Concat(r.chunks) == e.content[..received]
    ensures Attempted(s, true, ReplyTo(script, n, s, true), true)
            == (DiskState(Some(e.content[..received]), Some(e.etag), s.dest), Again)
  {
  }

  lemma ContinuedAttempt(t: DiskState, e: Entity, script: seq<Exchange>, n: nat, left: nat, waits: nat -> bool)
    requires n < |script| && PartOf(t, e) && |t.part.value| < |e.content| && Granted(script[n], e, |t.part.value|)
    ensures Attempts(t, true, script, n, left, 1, waits) == (t.(part := Some(e.content)), Complete(|e.content|, e.etag))
  {
    ContinuationIsTaken(t, e, script[n], left > 0);
  }

  // ----- Every run

  /** One invocation and, if the machine stops during it, the logged moment it
      comes back with. */
  datatype Session = Session(options: Options, retries: nat, remote: RemoteInfo, crash: Option<nat>)

  /** Crash-safe resume over every run: any number of invocations with any
      options, each interrupted between any two file operations or not, while
      files fail and the server changes its entity between any two requests. A
      labelled part stays a prefix of the entity its label names, and the
      destination never holds anything but its old content or one complete
      entity. */
  method RunSessions(disk: Disk, server: Server, sessions: seq<Session>, waits: nat -> bool)
    requires server.Consistent() && Labelled(disk.state, server.versions)
    modifies disk, server
    ensures server.Consistent() && Labelled(disk.state, server.versions)
    ensures Recoverable(disk.log, |old(disk.log)|, old(disk.state.dest), server)
    ensures Intact(disk.state, old(disk.state.dest), server)
  {
    for i := 0 to |sessions|
      invariant server.Consistent() && Labelled(disk.state, server.versions)
      invariant Intact(disk.state, old(disk.state.dest), server)
      invariant Recoverable(disk.log, |old(disk.log)|, old(disk.state.dest), server)
    {
      var session := sessions[i];
      var base := |disk.log|;
      ghost var before := disk.log;
      var ok;
      ghost var answered;
      ok, answered := DownloadWithOptions(disk, server, session.options, session.retries, waits, session.remote);
      assert forall k :: 0 <= k < base ==> disk.log[k] == before[k];
      if session.crash.Some? && base + session.crash.value < |disk.log| {
        disk.Crash(base + session.crash.value);
      }
    }
  }
}
