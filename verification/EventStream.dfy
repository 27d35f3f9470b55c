/** The server-sent-events decoder, line by line. Strings stand for the bytes of
    the stream. */
module EventStream {
  import opened Common
  import opened Decimal

  const MAX_LINE_BYTES: int := 0x10_0000
  const MAX_EVENT_DATA: int := 0x40_0000
  const MILLISECOND: int := 1_000_000

  datatype Event = Event(typ: string, data: string, id: string, retry: int)

  /** The event being collected. `dataBytes` counts what its data will be once
      joined. */
  datatype State = State(typ: string, id: string, data: seq<string>, dataBytes: int, retryDelay: int)

  const START: State := State("", "", [], 0, 0)

  function Join(data: seq<string>): string {
    if data == [] then ""
    else if |data| == 1 then data[0]
    else Join(data[..|data| - 1]) + "\n" + data[|data| - 1]
  }

  function TrimSuffixCR(s: string): string {
    if s != "" && s[|s| - 1] == '\r' then s[..|s| - 1] else s
  }

  /** The scanner drops one carriage return and the decoder a second one. */
  function Token(raw: string): string {
    TrimSuffixCR(TrimSuffixCR(raw))
  }

  function TrimPrefixSpace(s: string): string {
    if s != "" && s[0] == ' ' then s[1..] else s
  }

  /** The field and value of a line that is neither blank nor a comment. */
  function FieldOf(line: string): (string, string) {
    var (field, value, found) := Cut(line, ':');
    if found then (field, TrimPrefixSpace(value)) else (line, "")
  }

  /** One line: the next state and the event it completes, or no result when the
      data outgrow the limit. */
  function Feed(st: State, raw: string): Option<(State, seq<Event>)> {
    var line := Token(raw);
    if line == "" then Some(Dispatch(st))
    else if line[0] == ':' then Some((st, []))
    else
      var (field, value) := FieldOf(line);
      FeedField(st, field, value)
  }

  function FeedField(st: State, field: string, value: string): Option<(State, seq<Event>)> {
    if field == "event" then Some((st.(typ := value), []))
    else if field == "data" then
      var bytes := st.dataBytes + |value| + if st.data != [] then 1 else 0;
      if bytes > MAX_EVENT_DATA then None
      else Some((st.(data := st.data + [value], dataBytes := bytes), []))
    else if field == "id" then
      Some((if '\0' in value then st else st.(id := value), []))
    else if field == "retry" then
      var ms := ParseInt(value);
      Some((if ms.Number? && 0 <= ms.value <= MAX_INT64 / MILLISECOND
            then st.(retryDelay := ms.value * MILLISECOND) else st, []))
    else Some((st, []))
  }

  /** A blank line: hands over the event if it has data, and starts afresh. */
  function Dispatch(st: State): (State, seq<Event>) {
    if st.data == [] then (st.(typ := "", id := ""), [])
    else (Emptied(st.retryDelay),
          [Event(if st.typ == "" then "message" else st.typ, Join(st.data), st.id, st.retryDelay)])
  }

  type Progress = Option<(State, seq<Event>)>

  /** The lines of a stretch one after the other, each read by `feed`. */
  function FoldWith(feed: (State, string) -> Progress, st: State, lines: seq<string>): Progress {
    if lines == [] then Some((st, []))
    else After(feed, FoldWith(feed, st, lines[..|lines| - 1]), lines[|lines| - 1])
  }

  function After(feed: (State, string) -> Progress, sofar: Progress, line: string): Progress {
    match sofar
    case None => None
    case Some((mid, events)) => Prepend(events, feed(mid, line))
  }

  function Prepend(events: seq<Event>, rest: Progress): Progress {
    match rest
    case None => None
    case Some((next, more)) => Some((next, events + more))
  }

  /** All lines from a state on, with the events completed along the way. */
  function Fold(st: State, lines: seq<string>): Progress {
    FoldWith(Feed, st, lines)
  }

  function Decoded(lines: seq<string>): Option<(State, seq<Event>)> {
    Fold(START, lines)
  }

  datatype Ending = Closed | Cancelled | HandlerFailed | DataTooLarge | LineTooLong

  datatype LineResult = Accepted | Refused | TooLarge

  /** What the decoder keeps between lines, and the handler: it refuses event n
      unless `accepts(n)`, and was given each of `handled`. */
  class Decoder {
    const accepts: nat -> bool
    var typ: string
    var id: string
    var data: seq<string>
    var dataBytes: int
    var retryDelay: int
    var handled: seq<Event>

    constructor (accepts: nat -> bool)
      ensures Current() == START && handled == [] && this.accepts == accepts
    {
      this.accepts := accepts;
      typ, id, data, dataBytes, retryDelay, handled := "", "", [], 0, 0, [];
    }

    ghost function Current(): State
      reads this
    {
      State(typ, id, data, dataBytes, retryDelay)
    }

    /** Gives the handler the event collected, if any. When the handler refuses
        it the collected fields are left as they are. */
    method DispatchEvent() returns (ok: bool)
      modifies this
      ensures handled == old(handled) + Dispatch(old(Current())).1
      ensures ok ==> Current() == Dispatch(old(Current())).0
      ensures !ok ==> handled != [] && !accepts(|handled| - 1)
    {
      if data == [] {
        typ, id := "", "";
        return true;
      }
      var event := Event(if typ == "" then "message" else typ, Join(data), id, retryDelay);
      handled := handled + [event];
      if !accepts(|handled| - 1) {
        return false;
      }
      typ, id, data, dataBytes := "", "", [], 0;
      return true;
    }

    /** One field; refused only when the data outgrow the limit. */
    method ReadField(field: string, value: string) returns (ok: bool)
      modifies this
      ensures handled == old(handled)
      ensures FeedField(old(Current()), field, value) == if ok then Some((Current(), [])) else None
    {
      ok := true;
      if field == "event" {
        typ := value;
      } else if field == "data" {
        dataBytes := dataBytes + |value|;
        if |data| > 0 {
          dataBytes := dataBytes + 1;
        }
        if dataBytes > MAX_EVENT_DATA {
          return false;
        }
        data := data + [value];
      } else if field == "id" {
        if '\0' !in value {
          id := value;
        }
      } else if field == "retry" {
        var ms := ParseInt(value);
        if ms.Number? && 0 <= ms.value <= MAX_INT64 / MILLISECOND {
          retryDelay := ms.value * MILLISECOND;
        }
      }
    }

    /** One line of the stream. */
    method ReadLine(raw: string) returns (result: LineResult)
      modifies this
      ensures result == TooLarge <==> Feed(old(Current()), raw).None?
      ensures result == TooLarge ==> handled == old(handled)
      ensures result != TooLarge ==> handled == old(handled) + Feed(old(Current()), raw).value.1
      ensures result == Accepted ==> Current() == Feed(old(Current()), raw).value.0
      ensures result == Refused ==> handled != [] && !accepts(|handled| - 1)
    {
      var line := Token(raw);
      if line == "" {
        var ok := DispatchEvent();
        return if ok then Accepted else Refused;
      }
      if line[0] == ':' {
        return Accepted;
      }
      var (field, value) := FieldOf(line);
      var ok := ReadField(field, value);
      return if ok then Accepted else TooLarge;
    }
  }

  /** Reads the next line of a stream. */
  method ConsumeLine(decoder: Decoder, lines: seq<string>, n: nat) returns (result: LineResult)
    requires n < |lines| && Decoded(lines[..n]) == Some((decoder.Current(), decoder.handled))
    modifies decoder
    ensures result == TooLarge ==> decoder.handled == old(decoder.handled) && Decoded(lines[..n + 1]).None?
    ensures result == Accepted ==> Decoded(lines[..n + 1]) == Some((decoder.Current(), decoder.handled))
    ensures result == Refused ==>
              && Decoded(lines[..n + 1]).Some? && Decoded(lines[..n + 1]).value.1 == decoder.handled
              && decoder.handled != [] && !decoder.accepts(|decoder.handled| - 1)
  {
    DecodedLine(lines, n, decoder.Current(), decoder.handled);
    result := decoder.ReadLine(lines[n]);
  }

  /** Reads lines until the stream ends, the caller cancels, a line or an event
      outgrows its limit, or the handler refuses an event. `handled` are the
      events given to the handler, exactly those of the lines consumed. */
  method Decode(lines: seq<string>, cancelled: nat -> bool, accepts: nat -> bool)
    returns (handled: seq<Event>, consumed: nat, ending: Ending)
    ensures consumed <= |lines|
    ensures Decoded(lines[..consumed]).Some? && handled == Decoded(lines[..consumed]).value.1
    ensures ending == Closed ==> consumed == |lines|
    ensures ending == Cancelled ==> cancelled(consumed)
    ensures ending == HandlerFailed ==> handled != [] && !accepts(|handled| - 1)
    ensures ending == DataTooLarge ==> consumed < |lines| && Decoded(lines[..consumed + 1]).None?
    ensures ending == LineTooLong ==> consumed < |lines| && |lines[consumed]| >= 1024 * 1024
  {
    var decoder := new Decoder(accepts);
    consumed := 0;
    while consumed < |lines|
      invariant consumed <= |lines|
      invariant fresh(decoder) && decoder.accepts == accepts
      invariant Decoded(lines[..consumed]) == Some((decoder.Current(), decoder.handled))
    {
      if cancelled(consumed) {
        return decoder.handled, consumed, Cancelled;
      }
      if |lines[consumed]| >= MAX_LINE_BYTES {
        return decoder.handled, consumed, LineTooLong;
      }
      var result := ConsumeLine(decoder, lines, consumed);
      if result == TooLarge {
        return decoder.handled, consumed, DataTooLarge;
      }
      consumed := consumed + 1;
      if result == Refused {
        return decoder.handled, consumed, HandlerFailed;
      }
    }
    assert lines[..consumed] == lines;
    return decoder.handled, consumed, if cancelled(consumed) then Cancelled else Closed;
  }

  lemma DecodedLine(lines: seq<string>, n: nat, st: State, events: seq<Event>)
    requires n < |lines| && Decoded(lines[..n]) == Some((st, events))
    ensures Decoded(lines[..n + 1]) == Prepend(events, Feed(st, lines[n]))
    ensures events + [] == events
  {
    OneMoreLine(Feed, START, lines, n, st, events);
  }

  lemma OneMoreLine(feed: (State, string) -> Progress, start: State, lines: seq<string>, n: nat,
                    st: State, events: seq<Event>)
    requires n < |lines| && FoldWith(feed, start, lines[..n]) == Some((st, events))
    ensures FoldWith(feed, start, lines[..n + 1]) == Prepend(events, feed(st, lines[n]))
    ensures events + [] == events
  {
    assert lines[..n + 1][..n] == lines[..n];
  }

  // ----- Composition

  lemma {:induction false} FoldAppend(feed: (State, string) -> Progress, st: State, a: seq<string>, b: seq<string>)
    ensures FoldWith(feed, st, a + b)
            == match FoldWith(feed, st, a)
               case None => None
               case Some((mid, events)) => Prepend(events, FoldWith(feed, mid, b))
  {
    if b == [] {
      assert a + b == a;
      assert FoldWith(feed, st, a).Some? ==>
               FoldWith(feed, st, a).value.1 + [] == FoldWith(feed, st, a).value.1;
    } else {
      var init, last := b[..|b| - 1], b[|b| - 1];
      FoldAppend(feed, st, a, init);
      assert (a + b)[..|a + b| - 1] == a + init;
      if FoldWith(feed, st, a).Some? {
        var (mid, events) := FoldWith(feed, st, a).value;
        PrependAfter(feed, events, FoldWith(feed, mid, init), last);
      }
    }
  }

  lemma PrependAfter(feed: (State, string) -> Progress, events: seq<Event>, rest: Progress, line: string)
    ensures After(feed, Prepend(events, rest), line) == Prepend(events, After(feed, rest, line))
  {
    if rest.Some? {
      var (mid, more) := rest.value;
      var fed := feed(mid, line);
      assert fed.Some? ==> (events + more) + fed.value.1 == events + (more + fed.value.1);
    }
  }

  /** Decoding a prefix of the lines gives a prefix of the events. */
  lemma PrefixOfLines(lines: seq<string>, n: nat)
    requires n <= |lines| && Decoded(lines).Some?
    ensures Decoded(lines[..n]).Some? && Decoded(lines[..n]).value.1 <= Decoded(lines).value.1
  {
    assert lines == lines[..n] + lines[n..];
    FoldAppend(Feed, START, lines[..n], lines[n..]);
  }

  // ----- The data limit

  /** `dataBytes` is the length of the data joined, and within the limit. */
  ghost predicate Measured(st: State) {
    st.dataBytes == |Join(st.data)| && st.dataBytes <= MAX_EVENT_DATA && (st.data == [] ==> st.dataBytes == 0)
  }

  lemma JoinLength(data: seq<string>, value: string)
    ensures |Join(data + [value])| == |Join(data)| + |value| + if data != [] then 1 else 0
  {
    if data != [] {
      assert (data + [value])[..|data|] == data;
    }
  }

  lemma FieldMeasured(st: State, field: string, value: string)
    requires Measured(st) && FeedField(st, field, value).Some?
    ensures Measured(FeedField(st, field, value).value.0) && FeedField(st, field, value).value.1 == []
  {
    JoinLength(st.data, value);
  }

  lemma FeedMeasured(st: State, raw: string)
    requires Measured(st) && Feed(st, raw).Some?
    ensures Measured(Feed(st, raw).value.0)
    ensures forall e :: e in Feed(st, raw).value.1 ==> |e.data| <= MAX_EVENT_DATA
  {
    var line := Token(raw);
    if line != "" && line[0] != ':' {
      FieldMeasured(st, FieldOf(line).0, FieldOf(line).1);
    }
  }

  /** No event handed over carries more than the limit of data. */
  lemma {:induction false} DataWithinLimit(lines: seq<string>)
    requires Decoded(lines).Some?
    ensures Measured(Decoded(lines).value.0)
    ensures forall e :: e in Decoded(lines).value.1 ==> |e.data| <= 4 * 1024 * 1024
  {
    if lines != [] {
      DataWithinLimit(lines[..|lines| - 1]);
      FeedMeasured(Decoded(lines[..|lines| - 1]).value.0, lines[|lines| - 1]);
    }
  }

  // ----- Round trip

  predicate OneLine(s: string) {
    '\n' !in s && '\r' !in s
  }

  /** An event a stream can carry. */
  predicate Printable(e: Event) {
    && e.typ != "" && OneLine(e.typ) && OneLine(e.id) && '\0' !in e.id
    && '\r' !in e.data && |e.data| <= MAX_EVENT_DATA
    && e.retry % MILLISECOND == 0 && 0 <= e.retry / MILLISECOND <= MAX_INT64 / MILLISECOND
  }

  function SplitLines(s: string): (r: seq<string>)
    ensures r != []
  {
    var i := IndexOf(s, '\n');
    if i < |s| then [s[..i]] + SplitLines(s[i + 1..]) else [s]
  }

  function DataLines(values: seq<string>): seq<string> {
    if values == [] then [] else DataLines(values[..|values| - 1]) + [Line("data", values[|values| - 1])]
  }

  /** The lines of one event. The ID is left out when it is empty. */
  function PrintEvent(e: Event): seq<string> {
    [Line("event", e.typ)]
    + (if e.id == "" then [] else [Line("id", e.id)])
    + [Line("retry", Print(if e.retry >= 0 then e.retry / MILLISECOND else 0))]
    + DataLines(SplitLines(e.data))
    + [""]
  }

  function PrintAll(events: seq<Event>): seq<string> {
    PrintWith(PrintEvent, events)
  }

  function PrintWith(lines: Event -> seq<string>, events: seq<Event>): seq<string> {
    if events == [] then [] else PrintWith(lines, events[..|events| - 1]) + lines(events[|events| - 1])
  }

  lemma Regroup(a: string, b: string, c: string, d: string, e: string)
    ensures (a + b + c) + d + e == a + b + (c + d + e)
  {
  }

  lemma {:induction false} JoinCons(a: string, rest: seq<string>)
    requires rest != []
    ensures Join([a] + rest) == a + "\n" + Join(rest)
  {
    var all := [a] + rest;
    if |rest| == 1 {
      assert all[..1] == [a];
    } else {
      JoinCons(a, rest[..|rest| - 1]);
      assert all[..|all| - 1] == [a] + rest[..|rest| - 1];
      Regroup(a, "\n", Join(rest[..|rest| - 1]), "\n", rest[|rest| - 1]);
    }
  }

  lemma {:induction false} JoinSplit(s: string)
    ensures Join(SplitLines(s)) == s
    decreases |s|
  {
    var i := IndexOf(s, '\n');
    if i < |s| {
      var rest := s[i + 1..];
      JoinSplit(rest);
      JoinCons(s[..i], SplitLines(rest));
      BrokenAt(s, i, "\n");
    }
  }

  lemma BrokenAt(s: string, i: nat, middle: string)
    requires i < |s| && middle == [s[i]]
    ensures s == s[..i] + middle + s[i + 1..]
  {
  }

  lemma {:induction false} SplitIntoLines(s: string)
    requires '\r' !in s
    ensures forall v :: v in SplitLines(s) ==> OneLine(v)
    decreases |s|
  {
    var i := IndexOf(s, '\n');
    if i < |s| {
      SplitIntoLines(s[i + 1..]);
    }
  }

  function Line(field: string, value: string): string {
    field + ": " + value
  }

  /** A printed field line is read back as its field and value. */
  lemma FieldLine(st: State, field: string, value: string)
    requires field != "" && ':' !in field && OneLine(value)
    ensures Feed(st, Line(field, value)) == FeedField(st, field, value)
  {
    LineParts(field, value, " ");
    CutAt(field, ':', " " + value);
  }

  /** A line is its field, a colon and a space before the value, and ends in no
      carriage return. */
  lemma LineParts(field: string, value: string, space: string)
    requires field != "" && ':' !in field && OneLine(value) && space == " "
    ensures var line := Line(field, value);
            && line == field + [':'] + (space + value) && Token(line) == line && line != "" && line[0] != ':'
    ensures TrimPrefixSpace(space + value) == value
  {
    var line := Line(field, value);
    assert line == field + [':'] + (space + value);
    assert line[|line| - 1] != '\r' && line[0] == field[0] && field[0] in field;
    assert (space + value)[1..] == value;
  }

  lemma {:induction false} JoinPrefixLength(values: seq<string>, n: nat)
    requires n <= |values|
    ensures |Join(values[..n])| <= |Join(values)|
    decreases |values|
  {
    if n == |values| {
      assert values[..n] == values;
    } else {
      JoinPrefixLength(values[..|values| - 1], n);
      assert values[..|values| - 1][..n] == values[..n];
      assert values == values[..|values| - 1] + [values[|values| - 1]];
      JoinLength(values[..|values| - 1], values[|values| - 1]);
    }
  }

  lemma OneMoreData(st: State, init: seq<string>, last: string)
    requires st.data == init && st.dataBytes == |Join(init)|
    requires |Join(init + [last])| <= MAX_EVENT_DATA
    ensures FeedField(st, "data", last)
            == Some((st.(data := init + [last], dataBytes := |Join(init + [last])|), []))
  {
    JoinLength(init, last);
  }

  /** The last of a list of data lines. */
  lemma FeedLastData(st: State, init: seq<string>, last: string)
    requires st.data == init && st.dataBytes == |Join(init)| && OneLine(last)
    requires |Join(init + [last])| <= MAX_EVENT_DATA
    ensures Feed(st, Line("data", last))
            == Some((st.(data := init + [last], dataBytes := |Join(init + [last])|), []))
  {
    FieldLine(st, "data", last);
    OneMoreData(st, init, last);
  }

  lemma OneMoreQuiet(feed: (State, string) -> Progress, st: State, lines: seq<string>, mid: State, line: string,
                     next: State)
    requires FoldWith(feed, st, lines) == Some((mid, [])) && feed(mid, line) == Some((next, []))
    ensures FoldWith(feed, st, lines + [line]) == Some((next, []))
  {
    var all := lines + [line];
    assert all[..|all| - 1] == lines;
    NothingPrepended(feed(mid, line));
  }

  /** Data lines add up to the joined data when each is read as one more. */
  lemma {:induction false} FeedDataWith(feed: (State, string) -> Progress, st: State, values: seq<string>)
    requires st.data == [] && st.dataBytes == 0
    requires forall n :: 0 <= n < |values| ==>
               feed(Collected(st, values[..n]), Line("data", values[n]))
               == Some((Collected(st, values[..n] + [values[n]]), []))
    ensures FoldWith(feed, st, DataLines(values)) == Some((Collected(st, values), []))
  {
    if values == [] {
      assert DataLines(values) == [] && Collected(st, values) == st;
    } else {
      var k := |values| - 1;
      var init := values[..k];
      forall n | 0 <= n < k
        ensures feed(Collected(st, init[..n]), Line("data", init[n]))
                == Some((Collected(st, init[..n] + [init[n]]), []))
      {
        assert init[..n] == values[..n] && init[n] == values[n];
      }
      FeedDataWith(feed, st, init);
      assert init + [values[k]] == values;
      OneMoreQuiet(feed, st, DataLines(init), Collected(st, init), Line("data", values[k]), Collected(st, values));
    }
  }

  function Collected(st: State, values: seq<string>): State {
    st.(data := values, dataBytes := |Join(values)|)
  }

  lemma PrefixWithin(values: seq<string>, n: nat)
    requires n < |values|
    ensures |Join(values[..n] + [values[n]])| <= |Join(values)|
  {
    JoinPrefixLength(values, n + 1);
    assert values[..n + 1] == values[..n] + [values[n]];
  }

  lemma FeedData(st: State, values: seq<string>)
    requires st.data == [] && st.dataBytes == 0
    requires |Join(values)| <= MAX_EVENT_DATA && forall v :: v in values ==> OneLine(v)
    ensures Fold(st, DataLines(values)) == Some((Collected(st, values), []))
  {
    forall n | 0 <= n < |values|
      ensures Feed(Collected(st, values[..n]), Line("data", values[n]))
              == Some((Collected(st, values[..n] + [values[n]]), []))
    {
      PrefixWithin(values, n);
      FeedLastData(Collected(st, values[..n]), values[..n], values[n]);
    }
    FeedDataWith(Feed, st, values);
  }

  lemma NothingPrepended(p: Progress)
    ensures Prepend([], p) == p
  {
    if p.Some? {
      assert [] + p.value.1 == p.value.1;
    }
  }

  lemma FoldOneWith(feed: (State, string) -> Progress, st: State, line: string)
    ensures FoldWith(feed, st, [line]) == feed(st, line)
  {
    assert [line][..0] == [];
    assert FoldWith(feed, st, [line]) == After(feed, FoldWith(feed, st, []), line);
    NothingPrepended(feed(st, line));
  }

  lemma FoldOne(st: State, line: string)
    ensures Fold(st, [line]) == Feed(st, line)
  {
    FoldOneWith(Feed, st, line);
  }

  /** Two quiet stretches of lines in a row. */
  lemma FoldQuiet(st: State, a: seq<string>, mid: State, b: seq<string>)
    requires Fold(st, a) == Some((mid, []))
    ensures Fold(st, a + b) == Fold(mid, b)
  {
    FoldAppend(Feed, st, a, b);
    NothingPrepended(Fold(mid, b));
  }

  function Emptied(retryDelay: int): State {
    State("", "", [], 0, retryDelay)
  }

  ghost predicate Fresh(st: State) {
    st.typ == "" && st.id == "" && st.data == [] && st.dataBytes == 0
  }

  /** The type, ID and retry lines. */
  lemma PrintedHead(st: State, e: Event) returns (head: seq<string>)
    requires Printable(e) && Fresh(st)
    ensures head == [Line("event", e.typ)] + (if e.id == "" then [] else [Line("id", e.id)])
                    + [Line("retry", Print(e.retry / MILLISECOND))]
    ensures Fold(st, head) == Some((State(e.typ, e.id, [], 0, e.retry), []))
  {
    var st1, st2 := st.(typ := e.typ), st.(typ := e.typ, id := e.id);
    var typLine := TypeLine(st, e);
    var idLines := IdLines(st1, e);
    var retryLine := RetryLine(st2, e);
    head := [typLine] + idLines + [retryLine];
    ThreeQuiet(Feed, st, [typLine], st1, idLines, st2, [retryLine], State(e.typ, e.id, [], 0, e.retry));
  }

  lemma ThreeQuiet(feed: (State, string) -> Progress, st0: State, a: seq<string>, st1: State, b: seq<string>,
                   st2: State, c: seq<string>, st3: State)
    requires FoldWith(feed, st0, a) == Some((st1, [])) && FoldWith(feed, st1, b) == Some((st2, []))
    requires FoldWith(feed, st2, c) == Some((st3, []))
    ensures FoldWith(feed, st0, a + b + c) == Some((st3, []))
  {
    FoldAppend(feed, st0, a, b);
    FoldAppend(feed, st0, a + b, c);
  }

  lemma FoldField(st: State, field: string, value: string, next: State)
    requires field != "" && ':' !in field && OneLine(value)
    requires FeedField(st, field, value) == Some((next, []))
    ensures Fold(st, [Line(field, value)]) == Some((next, []))
  {
    FieldLine(st, field, value);
    FoldOne(st, Line(field, value));
  }

  lemma TypeLine(st: State, e: Event) returns (line: string)
    requires Printable(e)
    ensures line == Line("event", e.typ)
    ensures Fold(st, [line]) == Some((st.(typ := e.typ), []))
  {
    line := Line("event", e.typ);
    FoldField(st, "event", e.typ, st.(typ := e.typ));
  }

  lemma IdLines(st: State, e: Event) returns (lines: seq<string>)
    requires Printable(e) && st.id == ""
    ensures lines == if e.id == "" then [] else [Line("id", e.id)]
    ensures Fold(st, lines) == Some((st.(id := e.id), []))
  {
    lines := if e.id == "" then [] else [Line("id", e.id)];
    FoldField(st, "id", e.id, st.(id := e.id));
  }

  /** The data lines and the blank line. */
  lemma PrintedTail(st: State, e: Event)
    requires Printable(e) && st == State(e.typ, e.id, [], 0, e.retry)
    ensures Fold(st, DataLines(SplitLines(e.data)) + [""]) == Some((Emptied(e.retry), [e]))
  {
    var values := SplitLines(e.data);
    JoinSplit(e.data);
    SplitIntoLines(e.data);
    FeedData(st, values);
    var full := st.(data := values, dataBytes := |Join(values)|);
    FoldOne(full, "");
    FoldQuiet(st, DataLines(values), full, [""]);
  }

  /** Printing one event from a fresh state hands over that event and leaves a
      fresh state. */
  lemma PrintedEvent(st: State, e: Event)
    requires Printable(e) && Fresh(st)
    ensures Fold(st, PrintEvent(e)) == Some((Emptied(e.retry), [e]))
  {
    var head := PrintedHead(st, e);
    var mid := State(e.typ, e.id, [], 0, e.retry);
    var tail := DataLines(SplitLines(e.data)) + [""];
    PrintedTail(mid, e);
    FoldQuiet(st, head, mid, tail);
    assert PrintEvent(e) == head + tail;
  }

  lemma RetryField(st: State, value: string, ms: int)
    requires ParseInt(value) == Number(ms) && 0 <= ms <= MAX_INT64 / MILLISECOND
    ensures FeedField(st, "retry", value) == Some((st.(retryDelay := ms * MILLISECOND), []))
  {
  }

  lemma RetryLine(st: State, e: Event) returns (line: string)
    requires Printable(e)
    ensures line == Line("retry", Print(e.retry / MILLISECOND))
    ensures Fold(st, [line]) == Some((st.(retryDelay := e.retry), []))
  {
    var ms := e.retry / MILLISECOND;
    line := Line("retry", Print(ms));
    ParsePrinted(ms);
    RetryField(st, Print(ms), ms);
    FoldField(st, "retry", Print(ms), st.(retryDelay := e.retry));
  }

  lemma {:induction false} RoundTripWith(feed: (State, string) -> Progress, lines: Event -> seq<string>,
                                         events: seq<Event>)
    returns (end: State)
    requires forall e :: e in events ==> Printable(e)
    requires forall st, e :: Printable(e) && Fresh(st) ==>
               FoldWith(feed, st, lines(e)) == Some((Emptied(e.retry), [e]))
    ensures FoldWith(feed, START, PrintWith(lines, events)) == Some((end, events)) && Fresh(end)
  {
    if events == [] {
      end := START;
    } else {
      var init, last := events[..|events| - 1], events[|events| - 1];
      var mid := RoundTripWith(feed, lines, init);
      end := Emptied(last.retry);
      OneMorePrinted(feed, START, PrintWith(lines, init), mid, init, lines(last), end, last);
      assert events == init + [last];
    }
  }

  lemma OneMorePrinted(feed: (State, string) -> Progress, start: State, a: seq<string>, mid: State, events: seq<Event>,
                       b: seq<string>, end: State, last: Event)
    requires FoldWith(feed, start, a) == Some((mid, events)) && FoldWith(feed, mid, b) == Some((end, [last]))
    ensures FoldWith(feed, start, a + b) == Some((end, events + [last]))
  {
    FoldAppend(feed, start, a, b);
  }

  /** Round trip: printing any list of printable events and decoding the lines
      gives the same list. */
  lemma RoundTrip(events: seq<Event>)
    requires forall e :: e in events ==> Printable(e)
    ensures Decoded(PrintAll(events)).Some? && Decoded(PrintAll(events)).value.1 == events
  {
    forall st, e | Printable(e) && Fresh(st)
      ensures Fold(st, PrintEvent(e)) == Some((Emptied(e.retry), [e]))
    {
      PrintedEvent(st, e);
    }
    var end := RoundTripWith(Feed, PrintEvent, events);
  }

  // ----- Line ends, spellings and lines that say nothing

  predicate EndsInCR(s: string) {
    s != "" && s[|s| - 1] == '\r'
  }

  /** The same line, ended in one of the ways a stream may. */
  predicate SameLine(line: string, raw: string) {
    !EndsInCR(line) && (raw == line || raw == line + ['\r'] || raw == line + ['\r', '\r'])
  }

  lemma EndOfLine(st: State, line: string, raw: string)
    requires SameLine(line, raw)
    ensures Feed(st, raw) == Feed(st, line)
  {
    assert (line + ['\r'])[..|line|] == line;
    assert (line + ['\r', '\r'])[..|line| + 1] == line + ['\r'];
  }

  lemma {:induction false} FoldSame(feed: (State, string) -> Progress, st: State, lines: seq<string>, raws: seq<string>)
    requires |raws| == |lines|
    requires forall s, i :: 0 <= i < |lines| ==> feed(s, raws[i]) == feed(s, lines[i])
    ensures FoldWith(feed, st, raws) == FoldWith(feed, st, lines)
  {
    if lines != [] {
      FoldSame(feed, st, lines[..|lines| - 1], raws[..|raws| - 1]);
    }
  }

  /** Line ends do not matter: lines that end in no carriage return are decoded as
      they are with one or two put after any of them. */
  lemma LineEndsDoNotMatter(lines: seq<string>, raws: seq<string>)
    requires |raws| == |lines| && forall i :: 0 <= i < |lines| ==> SameLine(lines[i], raws[i])
    ensures Decoded(raws) == Decoded(lines)
  {
    forall s, i | 0 <= i < |lines| ensures Feed(s, raws[i]) == Feed(s, lines[i]) {
      EndOfLine(s, lines[i], raws[i]);
    }
    FoldSame(Feed, START, lines, raws);
  }

  lemma {:induction false} DataLinesClean(values: seq<string>)
    requires forall v :: v in values ==> OneLine(v)
    ensures forall l :: l in DataLines(values) ==> '\r' !in l
  {
    if values != [] {
      DataLinesClean(values[..|values| - 1]);
      assert values[|values| - 1] in values;
      LineClean("data", values[|values| - 1]);
    }
  }

  lemma LineClean(field: string, value: string)
    requires '\r' !in field && '\r' !in value
    ensures '\r' !in Line(field, value)
  {
  }

  lemma DigitsClean(n: nat)
    ensures '\r' !in Print(n)
  {
  }

  lemma PrintedClean(e: Event)
    requires Printable(e)
    ensures forall l :: l in PrintEvent(e) ==> '\r' !in l
  {
    SplitIntoLines(e.data);
    DataLinesClean(SplitLines(e.data));
    LineClean("event", e.typ);
    LineClean("id", e.id);
    DigitsClean(e.retry / MILLISECOND);
    LineClean("retry", Print(e.retry / MILLISECOND));
  }

  lemma {:induction false} AllClean(lines: Event -> seq<string>, events: seq<Event>)
    requires forall e :: e in events ==> forall l :: l in lines(e) ==> '\r' !in l
    ensures forall l :: l in PrintWith(lines, events) ==> '\r' !in l
  {
    if events != [] {
      AllClean(lines, events[..|events| - 1]);
    }
  }

  /** The same lines, each ended in a carriage return. */
  function WithCR(lines: seq<string>): (r: seq<string>)
    ensures |r| == |lines| && forall i :: 0 <= i < |r| ==> r[i] == lines[i] + ['\r']
  {
    seq(|lines|, i requires 0 <= i < |lines| => lines[i] + ['\r'])
  }

  /** The round trip over a stream whose lines end in CR LF. */
  lemma RoundTripCRLF(events: seq<Event>)
    requires forall e :: e in events ==> Printable(e)
    ensures Decoded(WithCR(PrintAll(events))).Some? && Decoded(WithCR(PrintAll(events))).value.1 == events
  {
    RoundTrip(events);
    forall e | e in events ensures forall l :: l in PrintEvent(e) ==> '\r' !in l {
      PrintedClean(e);
    }
    AllClean(PrintEvent, events);
    var lines := PrintAll(events);
    forall i | 0 <= i < |lines| ensures SameLine(lines[i], WithCR(lines)[i]) {
      assert lines[i] in lines;
    }
    LineEndsDoNotMatter(lines, WithCR(lines));
  }

  /** A line that neither completes an event nor adds to it. */
  predicate SaysNothing(line: string) {
    && !EndsInCR(line) && line != ""
    && (line[0] == ':' || FieldOf(line).0 !in {"event", "data", "id", "retry"})
  }

  /** A comment, in particular, and a field of another name. */
  lemma CommentSaysNothing(text: string, field: string, value: string)
    requires !EndsInCR(text) && !EndsInCR(value) && field != "" && ':' !in field
    requires field !in {"event", "data", "id", "retry"}
    ensures SaysNothing(":" + text) && SaysNothing(field + ":" + value)
  {
    CutAt(field, ':', value);
    assert field + ":" + value == field + [':'] + value;
    assert (field + ":" + value)[0] == field[0];
  }

  lemma FeedNothing(st: State, line: string)
    requires SaysNothing(line)
    ensures Feed(st, line) == Some((st, []))
  {
  }

  /** Such lines can be left out anywhere. */
  lemma SilentLinesDoNotMatter(before: seq<string>, line: string, after: seq<string>)
    requires SaysNothing(line)
    ensures Decoded(before + [line] + after) == Decoded(before + after)
  {
    FoldAppend(Feed, START, before, after);
    FoldAppend(Feed, START, before + [line], after);
    FoldAppend(Feed, START, before, [line]);
    if Decoded(before).Some? {
      var (mid, events) := Decoded(before).value;
      FeedNothing(mid, line);
      FoldOne(mid, line);
      assert events + [] == events;
    }
  }

  /** Spellings of a field: the space after the colon may be left out unless the
      value starts with one, and so may the colon of an empty value. */
  lemma Spellings(st: State, field: string, value: string)
    requires field != "" && ':' !in field && OneLine(field) && OneLine(value)
    ensures Feed(st, field + ": " + value) == FeedField(st, field, value)
    ensures value == "" || value[0] != ' ' ==> Feed(st, field + ":" + value) == FeedField(st, field, value)
    ensures Feed(st, field) == FeedField(st, field, "")
  {
    FieldLine(st, field, value);
    if value == "" || value[0] != ' ' { ShortLine(st, field, value); }
    BareField(st, field);
  }

  lemma ShortLine(st: State, field: string, value: string)
    requires field != "" && ':' !in field && OneLine(value) && (value == "" || value[0] != ' ')
    ensures Feed(st, field + ":" + value) == FeedField(st, field, value)
  {
    var line := field + ":" + value;
    CutAt(field, ':', value);
    assert line == field + [':'] + value && line[0] == field[0];
    assert line[|line| - 1] == if value == "" then ':' else value[|value| - 1];
  }

  lemma BareField(st: State, field: string)
    requires field != "" && ':' !in field && OneLine(field)
    ensures Feed(st, field) == FeedField(st, field, "")
  {
    assert field[|field| - 1] in field && field[0] in field;
    assert IndexOf(field, ':') == |field|;
  }

  /** What a field does: the last type counts, data add up, an ID with a NUL and a
      delay that is no number of milliseconds are ignored. */
  lemma FieldMeaning(st: State, value: string)
    ensures FeedField(st, "event", value) == Some((st.(typ := value), []))
    ensures |Join(st.data + [value])| <= MAX_EVENT_DATA && Measured(st) ==>
              FeedField(st, "data", value) == Some((Collected(st, st.data + [value]), []))
    ensures |Join(st.data + [value])| > MAX_EVENT_DATA && Measured(st) ==> FeedField(st, "data", value) == None
    ensures FeedField(st, "id", value) == Some((if '\0' in value then st else st.(id := value), []))
    ensures FeedField(st, "retry", value).Some? && FeedField(st, "retry", value).value.1 == []
    ensures !ParseInt(value).Number? || ParseInt(value).value < 0 ==> FeedField(st, "retry", value) == Some((st, []))
    ensures ParseInt(value).Number? && 0 <= ParseInt(value).value && ParseInt(value).value * 1_000_000 <= MAX_INT64 ==>
              FeedField(st, "retry", value) == Some((st.(retryDelay := ParseInt(value).value * 1_000_000), []))
  {
    JoinLength(st.data, value);
  }

  /** A blank line ends the event, whether or not there is anything to hand over:
      nothing but the delay is left of it. Without data nothing is handed over. */
  lemma BlankLineEndsEvent(st: State)
    requires Measured(st)
    ensures Feed(st, "").Some? && Feed(st, "").value.0 == Emptied(st.retryDelay)
    ensures Feed(st, "").value.1
            == if st.data == [] then []
               else [Event(if st.typ == "" then "message" else st.typ, Join(st.data), st.id, st.retryDelay)]
  {
  }
}
