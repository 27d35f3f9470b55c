/** Resumable uploads (tus 1.0.0): the upload loop, and the store of sessions that
    lets a later run continue where an earlier one stopped. As with downloads, the
    log of states stands for the moments at which the client can stop. */
module Tus {
  import opened Common
  import Retry

  /** What the server holds at an upload URL. `owner` is the fingerprint of the
      file the upload was created for. */
  datatype Upload = Upload(owner: string, stored: Bytes, gone: bool)

  datatype Session = Session(url: string, fingerprint: string, expiresAt: int)

  /** The server's uploads and the client's saved sessions. */
  datatype Cloud = Cloud(uploads: map<string, Upload>, sessions: map<string, Session>)

  /** Every upload holds a prefix of the file it was created for. */
  ghost predicate Prefixes(c: Cloud, contents: string -> Bytes) {
    forall url :: url in c.uploads ==> c.uploads[url].stored <= contents(c.uploads[url].owner)
  }

  predicate Owns(c: Cloud, url: string, fingerprint: string) {
    url in c.uploads && c.uploads[url].owner == fingerprint
  }

  /** A saved session leads to an upload of the file it was saved for. */
  ghost predicate Sound(c: Cloud, contents: string -> Bytes) {
    && Prefixes(c, contents)
    && forall key :: key in c.sessions ==> Owns(c, c.sessions[key].url, c.sessions[key].fingerprint)
  }

  ghost predicate AllSound(log: seq<Cloud>, base: nat, contents: string -> Bytes) {
    base <= |log| && forall k :: base <= k < |log| ==> Sound(log[k], contents)
  }

  /** Nothing stored is lost or changes owner, and what is dropped stays so. */
  ghost predicate Extends(a: Cloud, b: Cloud) {
    forall url :: url in a.uploads ==>
                    && Owns(b, url, a.uploads[url].owner) && a.uploads[url].stored <= b.uploads[url].stored
                    && (a.uploads[url].gone ==> b.uploads[url].gone)
  }

  /** What happens to one operation: whether it fails, how much of a PATCH body
      arrives and whether its answer does, what a server that is not truthful
      claims, and so on. */
  datatype Chance = Chance(fails: bool, arrives: nat, lost: bool, gone: bool, offset: int, size: int, status: int,
                           location: string, expiresAt: int, resolves: bool)

  datatype Inspection = Inspected(offset: int, size: int) | DoesNotExist | NotInspected

  datatype StreamError = OffsetsNotSynced | Network | Status(code: int) | Incomplete(lastStatus: int)

  /** `contents` gives the file of each fingerprint. A truthful server reports
      the offset it is at, and no size or that of the whole file. */
  class World {
    const contents: string -> Bytes
    const script: nat -> Chance
    const truthful: bool
    const keepsSessions: bool
    var cloud: Cloud
    var log: seq<Cloud>
    var operations: nat
    var streams: nat

    constructor (contents: string -> Bytes, script: nat -> Chance, truthful: bool, keepsSessions: bool)
      ensures cloud == Cloud(map[], map[]) && log == [] && streams == 0
      ensures this.contents == contents && this.script == script && this.truthful == truthful
      ensures this.keepsSessions == keepsSessions
    {
      this.contents, this.script, this.truthful, this.keepsSessions := contents, script, truthful, keepsSessions;
      cloud, log, operations, streams := Cloud(map[], map[]), [], 0, 0;
    }

    /** Nothing fails, every answer arrives, and no chunk is cut short. */
    ghost predicate Calm() {
      truthful && forall n :: var c := script(n); !c.fails && !c.lost && !c.gone && c.resolves && Whole(c)
    }

    ghost predicate Whole(c: Chance) {
      forall fingerprint :: |contents(fingerprint)| <= c.arrives
    }

    method Chances() returns (c: Chance)
      modifies this`operations
      ensures c == script(old(operations)) && operations == old(operations) + 1
    {
      c := script(operations);
      operations := operations + 1;
    }

    method Become(after: Cloud)
      modifies this`cloud, this`log
      ensures cloud == after && log == old(log) + [after]
    {
      cloud := after;
      log := log + [after];
    }

    /** A new upload at a URL not handed out before. The answer may be lost. */
    method CreateUpload(owner: string) returns (location: Option<string>, expiresAt: int)
      modifies this`cloud, this`log, this`operations
      ensures old(log) <= log && |log| <= |old(log)| + 1 && (|log| > |old(log)| ==> log[|old(log)|] == cloud)
      ensures cloud.sessions == old(cloud).sessions
      ensures cloud == old(cloud)
              || exists url :: url !in old(cloud).uploads
                               && cloud.uploads == old(cloud).uploads[url := Upload(owner, [], false)]
      ensures location.Some? ==>
                && location.value !in old(cloud).uploads
                && cloud.uploads == old(cloud).uploads[location.value := Upload(owner, [], false)]
      ensures Calm() && (forall n :: script(n).location !in old(cloud).uploads) ==> location.Some?
      ensures operations == old(operations) + 1
    {
      var c := Chances();
      location, expiresAt := None, c.expiresAt;
      if !c.fails && c.location !in cloud.uploads {
        Become(cloud.(uploads := cloud.uploads[c.location := Upload(owner, [], false)]));
        if !c.lost && c.resolves {
          location := Some(c.location);
        }
      }
    }

    /** HEAD: the offset and size of an upload. The server may have dropped it. */
    method GetUpload(url: string) returns (r: Inspection)
      modifies this`cloud, this`log, this`operations
      ensures old(log) <= log && |log| <= |old(log)| + 1 && (|log| > |old(log)| ==> log[|old(log)|] == cloud)
      ensures cloud.sessions == old(cloud).sessions
      ensures cloud == old(cloud)
              || (url in old(cloud).uploads
                  && cloud.uploads == old(cloud).uploads[url := old(cloud).uploads[url].(gone := true)])
      ensures r.Inspected? && truthful ==>
                && url in cloud.uploads && !cloud.uploads[url].gone && r.offset == |cloud.uploads[url].stored|
                && (r.size == 0 || r.size == |contents(cloud.uploads[url].owner)|)
      ensures r.NotInspected? ==> script(old(operations)).fails
      ensures operations == old(operations) + 1
      ensures r.DoesNotExist? && truthful && url in cloud.uploads ==> cloud.uploads[url].gone
    {
      var c := Chances();
      if c.fails {
        return NotInspected;
      }
      if c.gone && url in cloud.uploads {
        Become(cloud.(uploads := cloud.uploads[url := cloud.uploads[url].(gone := true)]));
      }
      if !truthful {
        return if c.lost then DoesNotExist else Inspected(c.offset, c.size);
      }
      if url !in cloud.uploads || cloud.uploads[url].gone {
        return DoesNotExist;
      }
      var upload := cloud.uploads[url];
      return Inspected(|upload.stored|, if c.size == 0 then 0 else |contents(upload.owner)|);
    }

    /** PATCH: accepted only at the server's own offset. A prefix of the body may
        be stored, and the answer may be lost either way. */
    method Patch(url: string, offset: int, body: Bytes) returns (error: Option<StreamError>, acknowledged: int)
      modifies this`cloud, this`log, this`operations
      ensures old(log) <= log && |log| <= |old(log)| + 1 && (|log| > |old(log)| ==> log[|old(log)|] == cloud)
      ensures cloud.sessions == old(cloud).sessions
      ensures cloud == old(cloud)
              || (&& url in old(cloud).uploads && offset == |old(cloud).uploads[url].stored|
                  && exists n: nat :: n <= |body| && cloud.uploads
                       == old(cloud).uploads[url :=
                            old(cloud).uploads[url].(stored := old(cloud).uploads[url].stored + body[..n])])
      ensures error.None? && truthful ==> url in cloud.uploads && acknowledged == |cloud.uploads[url].stored|
      ensures operations == old(operations) + 1
      ensures Calm() && url in old(cloud).uploads && !old(cloud).uploads[url].gone
              && offset == |old(cloud).uploads[url].stored|
              && (exists fingerprint :: |body| <= |contents(fingerprint)|) ==>
                error.None? && acknowledged == offset + |body| && url in cloud.uploads && !cloud.uploads[url].gone
    {
      var c := Chances();
      acknowledged := offset;
      if c.fails {
        return Some(if c.lost then Network else Status(c.status)), offset;
      }
      if url !in cloud.uploads || cloud.uploads[url].gone {
        return Some(Status(404)), offset;
      }
      var upload := cloud.uploads[url];
      if offset != |upload.stored| {
        return Some(OffsetsNotSynced), offset;
      }
      var n := if c.arrives <= |body| then c.arrives else |body|;
      Become(cloud.(uploads := cloud.uploads[url := upload.(stored := upload.stored + body[..n])]));
      if c.lost {
        return Some(Network), offset;
      }
      error, acknowledged := None, if truthful then |cloud.uploads[url].stored| else c.offset;
    }

    /** The session store; each of its operations may fail. */
    method LoadSession(key: string) returns (ok: bool, session: Option<Session>)
      modifies this`operations
      ensures ok == !script(old(operations)).fails && operations == old(operations) + 1
      ensures session == if key in cloud.sessions then Some(cloud.sessions[key]) else None
    {
      var c := Chances();
      ok := !c.fails;
      session := if key in cloud.sessions then Some(cloud.sessions[key]) else None;
    }

    method SaveSession(key: string, session: Session) returns (ok: bool)
      modifies this`cloud, this`log, this`operations
      ensures old(log) <= log && |log| <= |old(log)| + 1 && (|log| > |old(log)| ==> log[|old(log)|] == cloud)
      ensures cloud == if ok && keepsSessions then old(cloud).(sessions := old(cloud).sessions[key := session])
                       else old(cloud)
      ensures !ok ==> keepsSessions && script(old(operations)).fails
      ensures operations == old(operations) + if keepsSessions then 1 else 0
    {
      ok := true;
      if keepsSessions {
        var c := Chances();
        ok := !c.fails;
        if ok {
          Become(cloud.(sessions := cloud.sessions[key := session]));
        }
      }
    }

    method DeleteSession(key: string) returns (ok: bool)
      modifies this`cloud, this`log, this`operations
      ensures old(log) <= log && |log| <= |old(log)| + 1 && (|log| > |old(log)| ==> log[|old(log)|] == cloud)
      ensures cloud == if ok && keepsSessions then old(cloud).(sessions := old(cloud).sessions - {key})
                       else old(cloud)
      ensures !ok ==> keepsSessions && script(old(operations)).fails
      ensures operations == old(operations) + if keepsSessions then 1 else 0
    {
      ok := true;
      if keepsSessions {
        var c := Chances();
        ok := !c.fails;
        if ok {
          Become(cloud.(sessions := cloud.sessions - {key}));
        }
      }
    }

    /** The client stops and leaves everything as it was at a logged moment. */
    method Stop(moment: nat)
      requires moment < |log|
      modifies this`cloud
      ensures cloud == log[moment]
    {
      cloud := log[moment];
    }
  }

  /** What every part of an upload keeps. */
  ghost predicate Safe(world: World, base: nat)
    reads world
  {
    Sound(world.cloud, world.contents) && AllSound(world.log, base, world.contents)
  }

  /** Some operation since `first` failed, or a URL did not resolve. */
  ghost predicate Faulted(world: World, first: nat)
    reads world
  {
    exists k :: first <= k < world.operations && (world.script(k).fails || !world.script(k).resolves)
  }

  predicate Alive(c: Cloud, url: string) {
    url in c.uploads && !c.uploads[url].gone
  }

  // ----- Each operation keeps the cloud sound

  /** One more logged state. */
  lemma LogStaysSound(was: seq<Cloud>, log: seq<Cloud>, now: Cloud, base: nat, contents: string -> Bytes)
    requires AllSound(was, base, contents) && Sound(now, contents)
    requires was <= log && |log| <= |was| + 1 && (|log| > |was| ==> log[|was|] == now)
    ensures AllSound(log, base, contents)
  {
    forall k | base <= k < |log| ensures Sound(log[k], contents) {
      assert k < |was| ==> log[k] == was[k];
    }
  }

  lemma CreationIsSound(a: Cloud, b: Cloud, url: string, owner: string, contents: string -> Bytes)
    requires Sound(a, contents) && url !in a.uploads
    requires b == a.(uploads := a.uploads[url := Upload(owner, [], false)])
    ensures Sound(b, contents) && Extends(a, b)
  {
  }

  lemma DroppingIsSound(a: Cloud, b: Cloud, url: string, contents: string -> Bytes)
    requires Sound(a, contents) && url in a.uploads
    requires b == a.(uploads := a.uploads[url := a.uploads[url].(gone := true)])
    ensures Sound(b, contents) && Extends(a, b)
  {
  }

  /** A PATCH at the server's own offset with the file's bytes from there. */
  lemma AppendingIsSound(a: Cloud, b: Cloud, url: string, body: Bytes, n: nat, contents: string -> Bytes)
    requires Sound(a, contents) && url in a.uploads && n <= |body|
    requires var upload := a.uploads[url];
             && upload.stored + body <= contents(upload.owner)
             && b == a.(uploads := a.uploads[url := upload.(stored := upload.stored + body[..n])])
    ensures Sound(b, contents) && Extends(a, b)
  {
    var upload := a.uploads[url];
    assert upload.stored + body[..n] <= upload.stored + body;
  }

  lemma SavingIsSound(a: Cloud, b: Cloud, key: string, session: Session, contents: string -> Bytes)
    requires Sound(a, contents) && Owns(a, session.url, session.fingerprint)
    requires b == a.(sessions := a.sessions[key := session])
    ensures Sound(b, contents) && Extends(a, b)
  {
  }

  lemma RemovingIsSound(a: Cloud, b: Cloud, key: string, contents: string -> Bytes)
    requires Sound(a, contents) && b == a.(sessions := a.sessions - {key})
    ensures Sound(b, contents) && Extends(a, b)
  {
  }

  lemma ExtendsTransitive(a: Cloud, b: Cloud, c: Cloud)
    requires Extends(a, b) && Extends(b, c)
    ensures Extends(a, c)
  {
  }

  // ----- The stream

  /** Sends the file from `offset` on, chunk by chunk. The position in the file
      and the offset announced move together; the stream ends with the file, an
      error, or an answer that acknowledges something other than the chunk. */
  method ReadFrom(world: World, url: string, fingerprint: string, start: nat, chunkSize: nat, ghost base: nat)
    returns (error: Option<StreamError>, offset: int)
    requires Safe(world, base) && Owns(world.cloud, url, fingerprint) && chunkSize > 0
    modifies world
    ensures Safe(world, base) && Owns(world.cloud, url, fingerprint)
    ensures Extends(old(world.cloud), world.cloud) && world.cloud.sessions == old(world.cloud).sessions
    ensures old(world.log) <= world.log
    ensures world.streams == old(world.streams) + 1
    ensures error.None? && world.truthful && start == |old(world.cloud).uploads[url].stored| ==>
              offset == |world.cloud.uploads[url].stored|
    ensures world.Calm() && Alive(old(world.cloud), url) && start == |old(world.cloud).uploads[url].stored| ==>
              error.None? && offset == |world.contents(fingerprint)|
    ensures old(world.operations) <= world.operations
  {
    world.streams := world.streams + 1;
    var content := world.contents(fingerprint);
    offset, error := start, None;
    while 0 <= offset < |content|
      invariant Safe(world, base) && Owns(world.cloud, url, fingerprint)
      invariant Extends(old(world.cloud), world.cloud) && world.cloud.sessions == old(world.cloud).sessions
      invariant old(world.log) <= world.log && world.streams == old(world.streams) + 1
      invariant error.None? && old(world.operations) <= world.operations
      invariant world.Calm() && Alive(old(world.cloud), url) && start == |old(world.cloud).uploads[url].stored| ==>
                  Alive(world.cloud, url) && offset <= |content|
      invariant world.truthful && start == |old(world.cloud).uploads[url].stored| ==>
                  offset == |world.cloud.uploads[url].stored|
      decreases |content| - offset
    {
      var end := if offset + chunkSize < |content| then offset + chunkSize else |content|;
      var acknowledged;
      error, acknowledged := SendChunk(world, url, fingerprint, offset, end, base);
      if error.Some? {
        return;
      }
      if acknowledged != end {
        return Some(Incomplete(204)), acknowledged;
      }
      offset := end;
    }
  }

  method SendChunk(world: World, url: string, fingerprint: string, offset: nat, end: nat, ghost base: nat)
    returns (error: Option<StreamError>, acknowledged: int)
    requires Safe(world, base) && Owns(world.cloud, url, fingerprint)
    requires offset <= end <= |world.contents(fingerprint)|
    modifies world`cloud, world`log, world`operations
    ensures Safe(world, base) && Owns(world.cloud, url, fingerprint)
    ensures Extends(old(world.cloud), world.cloud) && world.cloud.sessions == old(world.cloud).sessions
    ensures old(world.log) <= world.log
    ensures error.None? && world.truthful ==> acknowledged == |world.cloud.uploads[url].stored|
    ensures world.Calm() && Alive(old(world.cloud), url) && offset == |old(world.cloud).uploads[url].stored| ==>
              error.None? && acknowledged == end && Alive(world.cloud, url)
    ensures old(world.operations) <= world.operations
  {
    ghost var before := world.cloud;
    assert |world.contents(fingerprint)[offset..end]| <= |world.contents(fingerprint)|;
    var body := world.contents(fingerprint)[offset..end];
    error, acknowledged := world.Patch(url, offset, body);
    if world.cloud != before {
      ghost var n: nat :| n <= |body| && world.cloud.uploads
        == before.uploads[url := before.uploads[url].(stored := before.uploads[url].stored + body[..n])];
      ChunkFits(before.uploads[url].stored, world.contents(fingerprint), offset, end);
      AppendingIsSound(before, world.cloud, url, body, n, world.contents);
    }
  }

  lemma ChunkFits(stored: Bytes, content: Bytes, offset: nat, end: nat)
    requires stored <= content && |stored| == offset <= end <= |content|
    ensures stored + content[offset..end] <= content
  {
    assert stored == content[..offset];
    assert stored + content[offset..end] == content[..end];
  }

  // ----- Finding or creating the upload

  datatype Handle = Handle(url: string, offset: int)

  predicate Expired(session: Session, now: int) {
    session.expiresAt > 0 && now >= session.expiresAt
  }

  datatype Resumption = Resume(handle: Handle) | Create | GiveUp

  predicate Dropped(c: Cloud, url: string) {
    url in c.uploads && c.uploads[url].gone
  }

  /** The saved session may still be used for this file. */
  predicate Usable(c: Cloud, key: string, fingerprint: string, now: int) {
    && key in c.sessions && c.sessions[key].fingerprint == fingerprint
    && (c.sessions[key].expiresAt <= 0 || now < c.sessions[key].expiresAt)
  }

  /** What a saved session is good for. A session for another file, an expired one
      and one whose upload is gone or has another size are removed. */
  method TryResume(world: World, key: string, fingerprint: string, now: int, ghost base: nat) returns (r: Resumption)
    requires Safe(world, base) && world.keepsSessions
    modifies world`cloud, world`log, world`operations
    ensures Safe(world, base) && Extends(old(world.cloud), world.cloud)
    ensures old(world.log) <= world.log
    ensures world.cloud.uploads.Keys == old(world.cloud).uploads.Keys
    ensures r.Resume? ==>
              && Owns(world.cloud, r.handle.url, fingerprint)
              && 0 <= r.handle.offset <= |world.contents(fingerprint)|
              && (world.truthful ==> r.handle.offset == |world.cloud.uploads[r.handle.url].stored|)
              && world.cloud.sessions == old(world.cloud).sessions && Usable(world.cloud, key, fingerprint, now)
              && r.handle.url == world.cloud.sessions[key].url
    ensures r.Create? ==> key !in world.cloud.sessions
    ensures r.Resume? && world.truthful ==> Alive(world.cloud, r.handle.url)
    ensures r.GiveUp? ==> Faulted(world, old(world.operations)) || !world.truthful
    ensures old(world.operations) <= world.operations
    ensures r.Create? && world.truthful && Usable(old(world.cloud), key, fingerprint, now) ==>
              Dropped(world.cloud, old(world.cloud).sessions[key].url)
  {
    var size := |world.contents(fingerprint)|;
    var ok, session := world.LoadSession(key);
    if !ok {
      return GiveUp;
    }
    if session.None? {
      return Create;
    }
    var c := world.Chances();
    if Expired(session.value, now) || session.value.fingerprint != fingerprint {
      r := Discard(world, key, base);
      return;
    }
    if !c.resolves {
      return GiveUp;
    }
    var inspection := Inspect(world, session.value.url, base);
    match inspection {
      case NotInspected => r := GiveUp;
      case DoesNotExist => r := Discard(world, key, base);
      case Inspected(offset, remoteSize) =>
        if remoteSize != 0 && remoteSize != size {
          r := Discard(world, key, base);
        } else if offset < 0 || offset > size {
          r := GiveUp;
        } else {
          r := Resume(Handle(session.value.url, offset));
        }
    }
  }

  method Inspect(world: World, url: string, ghost base: nat) returns (r: Inspection)
    requires Safe(world, base)
    modifies world`cloud, world`log, world`operations
    ensures Safe(world, base) && Extends(old(world.cloud), world.cloud)
    ensures old(world.log) <= world.log && world.cloud.sessions == old(world.cloud).sessions
    ensures world.cloud.uploads.Keys == old(world.cloud).uploads.Keys
    ensures r.Inspected? && world.truthful ==>
              && Alive(world.cloud, url) && r.offset == |world.cloud.uploads[url].stored|
              && (r.size == 0 || r.size == |world.contents(world.cloud.uploads[url].owner)|)
    ensures r.NotInspected? ==> Faulted(world, old(world.operations))
    ensures old(world.operations) <= world.operations
    ensures r.DoesNotExist? && world.truthful && url in world.cloud.uploads ==> Dropped(world.cloud, url)
  {
    ghost var before := world.cloud;
    r := world.GetUpload(url);
    if world.cloud != before {
      DroppingIsSound(before, world.cloud, url, world.contents);
    }
  }

  method Discard(world: World, key: string, ghost base: nat) returns (r: Resumption)
    requires Safe(world, base) && world.keepsSessions
    modifies world`cloud, world`log, world`operations
    ensures Safe(world, base) && Extends(old(world.cloud), world.cloud) && old(world.log) <= world.log
    ensures world.cloud.uploads == old(world.cloud).uploads
    ensures !r.Resume? && (r.Create? ==> key !in world.cloud.sessions)
    ensures r.GiveUp? ==> Faulted(world, old(world.operations))
    ensures old(world.operations) <= world.operations
  {
    ghost var before := world.cloud;
    var ok := world.DeleteSession(key);
    if ok {
      RemovingIsSound(before, world.cloud, key, world.contents);
    }
    r := if ok then Create else GiveUp;
  }

  method Save(world: World, key: string, session: Session, ghost base: nat) returns (ok: bool)
    requires Safe(world, base) && Owns(world.cloud, session.url, session.fingerprint)
    modifies world`cloud, world`log, world`operations
    ensures Safe(world, base) && Extends(old(world.cloud), world.cloud) && old(world.log) <= world.log
    ensures world.cloud.uploads == old(world.cloud).uploads
    ensures ok && world.keepsSessions ==> key in world.cloud.sessions && world.cloud.sessions[key] == session
    ensures !ok ==> Faulted(world, old(world.operations))
    ensures old(world.operations) <= world.operations
  {
    ghost var before := world.cloud;
    ok := world.SaveSession(key, session);
    if ok && world.keepsSessions {
      SavingIsSound(before, world.cloud, key, session, world.contents);
    }
    LogStaysSound(old(world.log), world.log, world.cloud, base, world.contents);
  }

  /** A new upload, saved before its first byte is sent. */
  method CreateAndSave(world: World, key: string, fingerprint: string, ghost base: nat) returns (handle: Option<Handle>)
    requires Safe(world, base)
    modifies world`cloud, world`log, world`operations
    ensures Safe(world, base) && Extends(old(world.cloud), world.cloud) && old(world.log) <= world.log
    ensures handle.Some? ==>
              && handle.value.url !in old(world.cloud).uploads && Owns(world.cloud, handle.value.url, fingerprint)
              && handle.value.offset == 0 && world.cloud.uploads[handle.value.url].stored == []
              && (world.keepsSessions ==> key in world.cloud.sessions
                                          && world.cloud.sessions[key].url == handle.value.url)
    ensures world.Calm() && (forall n :: world.script(n).location !in old(world.cloud).uploads) ==>
              handle.Some? && Alive(world.cloud, handle.value.url)
  {
    ghost var before := world.cloud;
    var location, expiresAt := world.CreateUpload(fingerprint);
    if world.cloud != before {
      ghost var url :| url !in before.uploads
                       && world.cloud.uploads == before.uploads[url := Upload(fingerprint, [], false)];
      CreationIsSound(before, world.cloud, url, fingerprint, world.contents);
    }
    LogStaysSound(old(world.log), world.log, world.cloud, base, world.contents);
    if location.None? {
      return None;
    }
    ghost var created := world.cloud;
    var ok := Save(world, key, Session(location.value, fingerprint, expiresAt), base);
    ExtendsTransitive(before, created, world.cloud);
    var c := world.Chances();
    handle := if ok && !c.fails then Some(Handle(location.value, 0)) else None;
  }

  /** A run that ought to continue an earlier one. */
  ghost predicate Continues(world: World, before: Cloud, key: string, fingerprint: string, now: int) {
    world.keepsSessions && world.truthful && Usable(before, key, fingerprint, now)
  }

  method LoadOrCreate(world: World, key: string, fingerprint: string, now: int, ghost base: nat)
    returns (handle: Option<Handle>)
    requires Safe(world, base)
    modifies world`cloud, world`log, world`operations
    ensures Safe(world, base) && Extends(old(world.cloud), world.cloud) && old(world.log) <= world.log
    ensures handle.Some? ==>
              && Owns(world.cloud, handle.value.url, fingerprint)
              && 0 <= handle.value.offset <= |world.contents(fingerprint)|
              && (world.truthful ==> handle.value.offset == |world.cloud.uploads[handle.value.url].stored|)
              && (world.keepsSessions ==> key in world.cloud.sessions
                                          && world.cloud.sessions[key].url == handle.value.url)
    ensures handle.Some? && Continues(world, old(world.cloud), key, fingerprint, now) ==>
              handle.value.url == old(world.cloud).sessions[key].url
              || Dropped(world.cloud, old(world.cloud).sessions[key].url)
    ensures world.Calm() && (forall n :: world.script(n).location !in old(world.cloud).uploads) ==>
              handle.Some? && Alive(world.cloud, handle.value.url)
  {
    if world.keepsSessions {
      var r := TryResume(world, key, fingerprint, now, base);
      match r {
        case GiveUp => return None;
        case Resume(found) => return Some(found);
        case Create =>
      }
    }
    ghost var before := world.cloud;
    handle := CreateAndSave(world, key, fingerprint, base);
    ExtendsTransitive(old(world.cloud), before, world.cloud);
  }

  // ----- The upload loop

  predicate Retryable(error: StreamError) {
    match error
    case OffsetsNotSynced => true
    case Network => true
    case Status(code) => Retry.RetryableStatus(code)
    case Incomplete(code) => Retry.RetryableStatus(code)
  }

  /** Uploads one file, from where the server is. Every state passed through is
      sound: whatever is lost, refused or stored in part, an upload holds a prefix
      of the file it was created for and a session leads to an upload of its own
      file. Success with a truthful server means the whole file is stored and the
      session removed. A usable session is continued unless the server dropped its
      upload. No more than `retries` + 1 streams are opened. */
  method UploadTus(world: World, key: string, fingerprint: string, now: int, chunkSize: nat, retries: nat,
                   waits: nat -> bool, ghost base: nat)
    returns (ok: bool, url: string)
    requires Safe(world, base) && chunkSize > 0
    modifies world
    ensures Safe(world, base) && Extends(old(world.cloud), world.cloud) && old(world.log) <= world.log
    ensures world.streams <= old(world.streams) + retries + 1
    ensures ok ==> Owns(world.cloud, url, fingerprint) && (world.keepsSessions ==> key !in world.cloud.sessions)
    ensures ok && world.truthful ==> world.cloud.uploads[url].stored == world.contents(fingerprint)
    ensures ok && Continues(world, old(world.cloud), key, fingerprint, now) ==>
              url == old(world.cloud).sessions[key].url || Dropped(world.cloud, old(world.cloud).sessions[key].url)
    ensures world.Calm() && (forall n :: world.script(n).location !in old(world.cloud).uploads) ==> ok
  {
    ok, url := false, "";
    var handle := LoadOrCreate(world, key, fingerprint, now, base);
    if handle.None? {
      return;
    }
    url := handle.value.url;
    ghost var prepared := world.cloud;
    var done := StreamAll(world, key, fingerprint, handle.value, chunkSize, retries, waits, base);
    if !done {
      return;
    }
    PrefixOfFullLength(world, url, fingerprint);
    ok := Complete(world, key, url, fingerprint, base);
    ExtendsTransitive(old(world.cloud), prepared, world.cloud);
  }

  /** The loop over streams, until one finishes the file. */
  method StreamAll(world: World, key: string, fingerprint: string, handle: Handle, chunkSize: nat, retries: nat,
                   waits: nat -> bool, ghost base: nat)
    returns (done: bool)
    requires Safe(world, base) && Owns(world.cloud, handle.url, fingerprint) && chunkSize > 0
    requires world.truthful ==> handle.offset == |world.cloud.uploads[handle.url].stored|
    modifies world
    ensures Safe(world, base) && Owns(world.cloud, handle.url, fingerprint)
    ensures Extends(old(world.cloud), world.cloud) && old(world.log) <= world.log
    ensures world.streams <= old(world.streams) + retries + 1
    ensures done && world.truthful ==>
              |world.cloud.uploads[handle.url].stored| == |world.contents(fingerprint)|
    ensures world.Calm() && Alive(old(world.cloud), handle.url) ==> done
  {
    var offset, attempt := handle.offset, 0;
    while true
      invariant Safe(world, base) && Owns(world.cloud, handle.url, fingerprint)
      invariant Extends(old(world.cloud), world.cloud) && old(world.log) <= world.log
      invariant attempt <= retries && world.streams <= old(world.streams) + attempt
      invariant world.truthful ==> offset == |world.cloud.uploads[handle.url].stored|
      invariant world.Calm() && Alive(old(world.cloud), handle.url) ==> Alive(world.cloud, handle.url)
      decreases retries - attempt
    {
      ghost var before := world.cloud;
      var next;
      ghost var failure, streamed;
      next, failure, streamed :=
        AttemptStream(world, key, fingerprint, handle.url, offset, chunkSize, attempt, retries, waits, base);
      ExtendsTransitive(old(world.cloud), before, world.cloud);
      match next {
        case Finished => return true;
        case Stopped => return false;
        case Resumed(from) => offset := from;
      }
      attempt := attempt + 1;
    }
  }

  lemma PrefixOfFullLength(world: World, url: string, fingerprint: string)
    requires Sound(world.cloud, world.contents) && Owns(world.cloud, url, fingerprint)
    ensures |world.cloud.uploads[url].stored| == |world.contents(fingerprint)| ==>
              world.cloud.uploads[url].stored == world.contents(fingerprint)
  {
  }

  datatype Attempted = Finished | Resumed(offset: int) | Stopped

  /** An error that may not be there the next time. */
  predicate Temporary(error: StreamError) {
    match error
    case OffsetsNotSynced => true
    case Network => true
    case Status(code) => code == 429 || code >= 500
    case Incomplete(code) => code == 429 || code >= 500
  }

  /** One stream and, unless it finished the file, what it takes to go on: the
      session is saved, the error must be retryable, and the server is asked for
      its offset again. */
  method AttemptStream(world: World, key: string, fingerprint: string, url: string, offset: int, chunkSize: nat,
                       attempt: nat, retries: nat, waits: nat -> bool, ghost base: nat)
    returns (r: Attempted, ghost failure: StreamError, ghost streamed: nat)
    requires Safe(world, base) && Owns(world.cloud, url, fingerprint) && chunkSize > 0
    requires world.truthful ==> offset == |world.cloud.uploads[url].stored|
    modifies world
    ensures Safe(world, base) && Owns(world.cloud, url, fingerprint)
    ensures Extends(old(world.cloud), world.cloud) && old(world.log) <= world.log
    ensures world.streams <= old(world.streams) + 1
    ensures r.Finished? && world.truthful ==>
              |world.cloud.uploads[url].stored| == |world.contents(fingerprint)|
    ensures r.Resumed? ==> attempt < retries && (world.truthful ==> r.offset == |world.cloud.uploads[url].stored|)
    ensures r.Resumed? && world.keepsSessions ==> key in world.cloud.sessions && world.cloud.sessions[key].url == url
    ensures r.Resumed? ==> Temporary(failure) && waits(attempt)
    ensures r.Stopped? && world.truthful ==>
              || attempt >= retries || !waits(attempt) || !Temporary(failure)
              || Faulted(world, streamed) || Dropped(world.cloud, url)
    ensures world.Calm() && Alive(old(world.cloud), url) ==> r.Finished?
  {
    failure, streamed := Network, world.operations;
    var size := |world.contents(fingerprint)|;
    if offset < 0 {
      r := Stopped;
      return;
    }
    var error, reached := ReadFrom(world, url, fingerprint, offset, chunkSize, base);
    if error.None? && reached == size {
      r := Finished;
      return;
    }
    streamed := world.operations;
    ghost var sent := world.cloud;
    var c := world.Chances();
    failure := if error.Some? then error.value else Incomplete(c.status);
    var saved := Save(world, key, Session(url, fingerprint, c.expiresAt), base);
    ExtendsTransitive(old(world.cloud), sent, world.cloud);
    var retryable := Retryable(if error.Some? then error.value else Incomplete(c.status));
    if !saved || c.fails || attempt >= retries || !retryable || !waits(attempt) {
      r := Stopped;
      return;
    }
    ghost var rested := world.cloud;
    var inspection := Inspect(world, url, base);
    ExtendsTransitive(old(world.cloud), rested, world.cloud);
    if !inspection.Inspected? || (inspection.size != 0 && inspection.size != size) {
      r := Stopped;
      return;
    }
    r := Resumed(inspection.offset);
  }

  /** Removes the session of a finished upload. */
  method Complete(world: World, key: string, url: string, fingerprint: string, ghost base: nat) returns (ok: bool)
    requires Safe(world, base)
    modifies world`cloud, world`log, world`operations
    ensures Safe(world, base) && Extends(old(world.cloud), world.cloud) && old(world.log) <= world.log
    ensures world.cloud.uploads == old(world.cloud).uploads
    ensures ok && world.keepsSessions ==> key !in world.cloud.sessions
    ensures world.Calm() ==> ok
  {
    ghost var before := world.cloud;
    ok := world.DeleteSession(key);
    if world.cloud != before {
      RemovingIsSound(before, world.cloud, key, world.contents);
    }
  }

  // ----- Every run

  /** One upload of a file to a key and, if the client stops during it, when. */
  datatype Invocation = Invocation(key: string, fingerprint: string, now: int, chunkSize: nat, retries: nat,
                                   stop: Option<nat>)

  /** Any number of uploads, of any files, to any keys, each run to its end or
      stopped between any two operations: whatever a later run resumes is a prefix
      of its own file. */
  method RunUploads(world: World, invocations: seq<Invocation>, waits: nat -> bool)
    requires Sound(world.cloud, world.contents)
    requires forall i :: 0 <= i < |invocations| ==> invocations[i].chunkSize > 0
    modifies world
    ensures Safe(world, |old(world.log)|)
  {
    ghost var base := |world.log|;
    for i := 0 to |invocations|
      invariant Safe(world, base)
    {
      var run := invocations[i];
      var first := |world.log|;
      var ok, url := UploadTus(world, run.key, run.fingerprint, run.now, run.chunkSize, run.retries, waits, base);
      if run.stop.Some? && first + run.stop.value < |world.log| {
        world.Stop(first + run.stop.value);
      }
    }
  }
}
