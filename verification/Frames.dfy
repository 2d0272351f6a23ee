/** Length-prefixed frames: `read_frame` and `write_frame` in
    crates/openwhisper-protocol/src/lib.rs, and the client's incremental decoder
    `receive` in cli/src/ipc.ts. */
module Frames {
  import opened Prelude

  const MAX_FRAME_BYTES := 8 * 1024 * 1024

  // ---- encoding ----

  /** A 32-bit big-endian length. */
  function Header(n: nat): (h: seq<Byte>)
    requires n <= MAX_FRAME_BYTES
    ensures |h| == 4 && ReadHeader(h) == n
  {
    [n / 0x100_0000, n / 0x1_0000 % 0x100, n / 0x100 % 0x100, n % 0x100]
  }

  function ReadHeader(buffer: seq<Byte>): nat
    requires |buffer| >= 4
  {
    buffer[0] as int * 0x100_0000 + buffer[1] as int * 0x1_0000 + buffer[2] as int * 0x100 + buffer[3] as int
  }

  /** write_frame and send: None stands for the oversized error. */
  function WriteFrame(payload: seq<Byte>): Option<seq<Byte>> {
    if |payload| > MAX_FRAME_BYTES then None else Some(FrameOf(payload))
  }

  function FrameOf(payload: seq<Byte>): seq<Byte>
    requires |payload| <= MAX_FRAME_BYTES
  {
    Header(|payload|) + payload
  }

  ghost predicate Sendable(messages: seq<seq<Byte>>) {
    forall i | 0 <= i < |messages| :: |messages[i]| <= MAX_FRAME_BYTES
  }

  /** The frames of several messages; the first oversized one is an error. */
  function WriteAll(messages: seq<seq<Byte>>): Option<seq<Byte>> {
    if messages == [] then Some([])
    else match (WriteFrame(messages[0]), WriteAll(messages[1..]))
      case (Some(first), Some(rest)) => Some(first + rest)
      case _ => None
  }

  function FramesOf(messages: seq<seq<Byte>>): seq<seq<Byte>>
    requires Sendable(messages)
  {
    seq(|messages|, i requires 0 <= i < |messages| => FrameOf(messages[i]))
  }

  /** Writing fails exactly when some message is oversized. */
  lemma {:induction false} WriteAllSpec(messages: seq<seq<Byte>>)
    ensures WriteAll(messages).Some? <==> Sendable(messages)
    ensures Sendable(messages) ==> WriteAll(messages) == Some(Flatten(FramesOf(messages)))
  {
    if messages != [] {
      var rest := messages[1..];
      WriteAllSpec(rest);
      if Sendable(rest) && |messages[0]| <= MAX_FRAME_BYTES {
        forall i | 0 <= i < |messages| ensures |messages[i]| <= MAX_FRAME_BYTES {
          assert i > 0 ==> messages[i] == rest[i - 1];
        }
        assert FramesOf(messages)[1..] == FramesOf(rest);
      } else if !Sendable(rest) {
        var i :| 0 <= i < |rest| && |rest[i]| > MAX_FRAME_BYTES;
        assert messages[i + 1] == rest[i];
      }
    }
  }

  // ---- the blocking reader ----

  datatype ReadResult =
    | Frame(payload: seq<Byte>, rest: seq<Byte>)
    | EndOfStream
    | Truncated
    | Oversized(actual: nat)

  /** read_frame on everything the peer will ever send: an end inside the header counts as a
      clean end, an end inside the payload as an I/O error. */
  function ReadFrame(stream: seq<Byte>): ReadResult {
    if |stream| < 4 then EndOfStream
    else
      var length := ReadHeader(stream);
      if length > MAX_FRAME_BYTES then Oversized(length)
      else if |stream| < 4 + length then Truncated
      else Frame(stream[4..4 + length], stream[4 + length..])
  }

  // ---- the incremental decoder ----

  datatype Drained = Drained(payloads: seq<seq<Byte>>, rest: seq<Byte>, oversized: bool)

  /** All complete frames at the front of a buffer, and what is left. */
  function Drain(buffer: seq<Byte>): Drained
    decreases |buffer|
  {
    if |buffer| < 4 then Drained([], buffer, false)
    else
      var length := ReadHeader(buffer);
      if length > MAX_FRAME_BYTES then Drained([], buffer, true)
      else if |buffer| < length + 4 then Drained([], buffer, false)
      else
        var d := Drain(buffer[4 + length..]);
        d.(payloads := [buffer[4..4 + length]] + d.payloads)
  }

  /** `routed` are the messages delivered; a malformed payload or an oversized header closes
      the connection, the former without leaving the loop. */
  datatype Client = Client(buffer: seq<Byte>, routed: seq<seq<Byte>>, closed: bool)

  const CONNECTED := Client([], [], false)

  function WellFormed(valid: seq<Byte> -> bool, payloads: seq<seq<Byte>>): seq<seq<Byte>> {
    if payloads == [] then []
    else
      var last := payloads[|payloads| - 1];
      WellFormed(valid, payloads[..|payloads| - 1]) + if valid(last) then [last] else []
  }

  predicate AllValid(valid: seq<Byte> -> bool, payloads: seq<seq<Byte>>) {
    forall i | 0 <= i < |payloads| :: valid(payloads[i])
  }

  function ReceiveStep(valid: seq<Byte> -> bool, c: Client, chunk: seq<Byte>): Client {
    var d := Drain(c.buffer + chunk);
    Client(d.rest, c.routed + WellFormed(valid, d.payloads),
           c.closed || d.oversized || !AllValid(valid, d.payloads))
  }

  function Routed(valid: seq<Byte> -> bool, c: Client, payload: seq<Byte>): Client {
    if valid(payload) then c.(routed := c.routed + [payload]) else c.(closed := true)
  }

  class IpcClient {
    const valid: seq<Byte> -> bool
    var buffer: seq<Byte>
    var routed: seq<seq<Byte>>
    var closed: bool

    function Value(): Client
      reads this
    {
      Client(buffer, routed, closed)
    }

    constructor (valid: seq<Byte> -> bool)
      ensures this.valid == valid && Value() == CONNECTED
    {
      this.valid := valid;
      buffer, routed, closed := [], [], false;
    }

    method Route(payload: seq<Byte>)
      modifies this`routed, this`closed
      ensures Value() == Routed(valid, old(Value()), payload)
    {
      if valid(payload) {
        routed := routed + [payload];
      } else {
        closed := true;
      }
    }

    method Receive(chunk: seq<Byte>)
      modifies this
      ensures Value() == ReceiveStep(valid, old(Value()), chunk)
    {
      ghost var start := Value();
      ghost var done: seq<seq<Byte>> := [];
      buffer := buffer + chunk;
      Begun(valid, start, chunk);
      while |buffer| >= 4
        invariant InProgress(valid, start, chunk, done, Value())
        decreases |buffer|
      {
        var length := ReadHeader(buffer);
        if length > MAX_FRAME_BYTES {
          Refused(valid, start, chunk, done, Value());
          closed := true;
          return;
        }
        if |buffer| < length + 4 {
          break;
        }
        var payload := buffer[4..4 + length];
        NextPayload(valid, start, chunk, done, Value(), length);
        buffer := buffer[4 + length..];
        done := done + [payload];
        Route(payload);
      }
      Waiting(valid, start, chunk, done, Value());
    }
  }

  /** After the payloads `done`, the client is `now`. */
  ghost predicate InProgress(valid: seq<Byte> -> bool, start: Client, chunk: seq<Byte>, done: seq<seq<Byte>>, now: Client) {
    var all, left := Drain(start.buffer + chunk), Drain(now.buffer);
    && all.payloads == done + left.payloads && all.rest == left.rest && all.oversized == left.oversized
    && now.routed == start.routed + WellFormed(valid, done)
    && now.closed == (start.closed || !AllValid(valid, done))
  }

  lemma Begun(valid: seq<Byte> -> bool, start: Client, chunk: seq<Byte>)
    ensures InProgress(valid, start, chunk, [], start.(buffer := start.buffer + chunk))
  {
    assert [] + Drain(start.buffer + chunk).payloads == Drain(start.buffer + chunk).payloads;
    assert start.routed + [] == start.routed;
  }

  lemma Refused(valid: seq<Byte> -> bool, start: Client, chunk: seq<Byte>, done: seq<seq<Byte>>, now: Client)
    requires InProgress(valid, start, chunk, done, now)
    requires |now.buffer| >= 4 && ReadHeader(now.buffer) > MAX_FRAME_BYTES
    ensures now.(closed := true) == ReceiveStep(valid, start, chunk)
  {
    DrainOne(now.buffer);
    assert done + [] == done;
  }

  lemma Waiting(valid: seq<Byte> -> bool, start: Client, chunk: seq<Byte>, done: seq<seq<Byte>>, now: Client)
    requires InProgress(valid, start, chunk, done, now)
    requires |now.buffer| >= 4 ==> ReadHeader(now.buffer) <= MAX_FRAME_BYTES && |now.buffer| < 4 + ReadHeader(now.buffer)
    ensures now == ReceiveStep(valid, start, chunk)
  {
    DrainOne(now.buffer);
    assert done + [] == done;
  }

  lemma NextPayload(valid: seq<Byte> -> bool, start: Client, chunk: seq<Byte>, done: seq<seq<Byte>>, now: Client, length: nat)
    requires InProgress(valid, start, chunk, done, now) && |now.buffer| >= 4
    requires length == ReadHeader(now.buffer) && length <= MAX_FRAME_BYTES && |now.buffer| >= 4 + length
    ensures var payload := now.buffer[4..4 + length];
            InProgress(valid, start, chunk, done + [payload], Routed(valid, now.(buffer := now.buffer[4 + length..]), payload))
  {
    DrainOne(now.buffer);
    var payload := now.buffer[4..4 + length];
    MoveOne(done, payload, Drain(now.buffer[4 + length..]).payloads);
    RouteOne(valid, start, done, now, payload);
  }

  lemma MoveOne(done: seq<seq<Byte>>, payload: seq<Byte>, rest: seq<seq<Byte>>)
    ensures done + ([payload] + rest) == done + [payload] + rest
  {}

  lemma RouteOne(valid: seq<Byte> -> bool, start: Client, done: seq<seq<Byte>>, now: Client, payload: seq<Byte>)
    requires now.routed == start.routed + WellFormed(valid, done)
    requires now.closed == (start.closed || !AllValid(valid, done))
    ensures Routed(valid, now, payload).routed == start.routed + WellFormed(valid, done + [payload])
    ensures Routed(valid, now, payload).closed == (start.closed || !AllValid(valid, done + [payload]))
  {
    ValidSnoc(valid, done, payload);
    var w := WellFormed(valid, done);
    assert start.routed + (w + [payload]) == start.routed + w + [payload] && w + [] == w;
  }

  lemma ValidSnoc(valid: seq<Byte> -> bool, done: seq<seq<Byte>>, payload: seq<Byte>)
    ensures WellFormed(valid, done + [payload]) == WellFormed(valid, done) + if valid(payload) then [payload] else []
    ensures AllValid(valid, done + [payload]) <==> AllValid(valid, done) && valid(payload)
  {
    assert (done + [payload])[..|done|] == done;
    if AllValid(valid, done + [payload]) {
      assert valid((done + [payload])[|done|]);
      forall i | 0 <= i < |done| ensures valid(done[i]) {
        assert (done + [payload])[i] == done[i];
      }
    }
  }

  /** Chunks are only delivered while the socket is open. */
  function ReceiveAll(valid: seq<Byte> -> bool, chunks: seq<seq<Byte>>): Client {
    if chunks == [] then CONNECTED
    else
      var c := ReceiveAll(valid, chunks[..|chunks| - 1]);
      if c.closed then c else ReceiveStep(valid, c, chunks[|chunks| - 1])
  }

  // ---- proofs ----

  lemma ReadWrittenFrame(payload: seq<Byte>, rest: seq<Byte>)
    requires |payload| <= MAX_FRAME_BYTES
    ensures ReadFrame(FrameOf(payload) + rest) == Frame(payload, rest)
  {
    var h := Header(|payload|);
    var s := FrameOf(payload) + rest;
    assert s[0] == h[0] && s[1] == h[1] && s[2] == h[2] && s[3] == h[3];
    assert s[4..4 + |payload|] == payload && s[4 + |payload|..] == rest;
  }

  /** One turn of the decoder, in terms of the reader. */
  lemma DrainOne(buffer: seq<Byte>)
    ensures match ReadFrame(buffer)
            case Frame(payload, rest) =>
              |rest| < |buffer| && Drain(buffer) == Drain(rest).(payloads := [payload] + Drain(rest).payloads)
            case Oversized(_) => Drain(buffer) == Drained([], buffer, true)
            case _ => Drain(buffer) == Drained([], buffer, false)
  {}

  function ReadAll(stream: seq<Byte>): (seq<seq<Byte>>, ReadResult)
    decreases |stream|
  {
    match ReadFrame(stream)
    case Frame(payload, rest) => var r := ReadAll(rest); ([payload] + r.0, r.1)
    case other => ([], other)
  }

  /** Each frame reads back as its message, whatever follows it. */
  ghost predicate Decodes(frames: seq<seq<Byte>>, messages: seq<seq<Byte>>) {
    && |frames| == |messages|
    && forall i, rest | 0 <= i < |frames| :: ReadFrame(frames[i] + rest) == Frame(messages[i], rest)
  }

  lemma WrittenDecodes(messages: seq<seq<Byte>>)
    requires Sendable(messages)
    ensures Decodes(FramesOf(messages), messages)
  {
    forall i, rest | 0 <= i < |messages| ensures ReadFrame(FrameOf(messages[i]) + rest) == Frame(messages[i], rest) {
      ReadWrittenFrame(messages[i], rest);
    }
  }

  lemma DecodesFirst(frames: seq<seq<Byte>>, messages: seq<seq<Byte>>, rest: seq<Byte>)
    requires Decodes(frames, messages) && frames != []
    ensures Decodes(frames[1..], messages[1..])
    ensures ReadFrame(frames[0] + rest) == Frame(messages[0], rest)
    ensures ReadAll(frames[0] + rest) == ([messages[0]] + ReadAll(rest).0, ReadAll(rest).1)
    ensures Drain(frames[0] + rest) == Drain(rest).(payloads := [messages[0]] + Drain(rest).payloads)
  {
    DrainOne(frames[0] + rest);
  }

  lemma FlattenFirst(frames: seq<seq<Byte>>, tail: seq<Byte>)
    requires frames != []
    ensures Flatten(frames) + tail == frames[0] + (Flatten(frames[1..]) + tail)
  {}

  lemma FirstAndRest(messages: seq<seq<Byte>>, after: seq<seq<Byte>>)
    ensures messages == [] ==> messages + after == after
    ensures messages != [] ==> [messages[0]] + (messages[1..] + after) == messages + after
  {}

  lemma {:induction false} ReadFlattened(frames: seq<seq<Byte>>, messages: seq<seq<Byte>>, tail: seq<Byte>)
    requires Decodes(frames, messages)
    ensures ReadAll(Flatten(frames) + tail) == (messages + ReadAll(tail).0, ReadAll(tail).1)
  {
    FirstAndRest(messages, ReadAll(tail).0);
    if frames == [] {
      assert Flatten(frames) + tail == tail;
    } else {
      FlattenFirst(frames, tail);
      DecodesFirst(frames, messages, Flatten(frames[1..]) + tail);
      ReadFlattened(frames[1..], messages[1..], tail);
    }
  }

  /** Writing is refused exactly when a message is oversized; otherwise reading back what was
      written gives the messages in order, then a clean end, for which a partial header after
      them is also taken. */
  lemma FramesRoundTrip(messages: seq<seq<Byte>>, tail: seq<Byte>)
    requires |tail| < 4
    ensures WriteAll(messages).None? <==> !Sendable(messages)
    ensures WriteAll(messages).Some? ==> ReadAll(WriteAll(messages).value + tail) == (messages, EndOfStream)
  {
    WriteAllSpec(messages);
    if Sendable(messages) {
      WrittenDecodes(messages);
      ReadFlattened(FramesOf(messages), messages, tail);
      assert messages + [] == messages;
    }
  }

  lemma {:induction false} DrainFlattened(frames: seq<seq<Byte>>, messages: seq<seq<Byte>>, tail: seq<Byte>)
    requires Decodes(frames, messages)
    ensures Drain(Flatten(frames) + tail) == Drain(tail).(payloads := messages + Drain(tail).payloads)
  {
    FirstAndRest(messages, Drain(tail).payloads);
    if frames == [] {
      assert Flatten(frames) + tail == tail;
    } else {
      FlattenFirst(frames, tail);
      DecodesFirst(frames, messages, Flatten(frames[1..]) + tail);
      DrainFlattened(frames[1..], messages[1..], tail);
    }
  }

  /** The two decoders take the same frames from the same bytes. */
  lemma {:induction false} DecodersAgree(stream: seq<Byte>)
    ensures Drain(stream).payloads == ReadAll(stream).0
    ensures Drain(stream).oversized <==> ReadAll(stream).1.Oversized?
    decreases |stream|
  {
    if ReadFrame(stream).Frame? {
      DecodersAgree(ReadFrame(stream).rest);
    }
  }

  /** `all` is what is drained when, after `d`, more bytes arrive and give `e`. */
  ghost predicate Continues(all: Drained, d: Drained, e: Drained) {
    && all.payloads == d.payloads + (if d.oversized then [] else e.payloads)
    && all.oversized == (d.oversized || e.oversized)
    && (!d.oversized ==> all.rest == e.rest)
  }

  lemma ContinuesAfter(payload: seq<Byte>, all: Drained, d: Drained, e: Drained)
    requires Continues(all, d, e)
    ensures Continues(all.(payloads := [payload] + all.payloads), d.(payloads := [payload] + d.payloads), e)
  {
    var more := if d.oversized then [] else e.payloads;
    assert [payload] + (d.payloads + more) == [payload] + d.payloads + more;
  }

  lemma ContinuesFromNothing(all: Drained, rest: seq<Byte>)
    ensures Continues(all, Drained([], rest, false), all)
    ensures all.payloads == [] && all.oversized ==> Continues(all, Drained([], rest, true), all)
  {
    assert [] + all.payloads == all.payloads;
  }

  lemma {:induction false} DrainMore(a: seq<Byte>, b: seq<Byte>)
    ensures Continues(Drain(a + b), Drain(a), Drain(Drain(a).rest + b))
    decreases |a|
  {
    DrainOne(a);
    if ReadFrame(a).Frame? {
      var payload, rest := ReadFrame(a).payload, ReadFrame(a).rest;
      ReadMore(a, b);
      DrainOne(a + b);
      DrainMore(rest, b);
      ContinuesAfter(payload, Drain(rest + b), Drain(rest), Drain(Drain(rest).rest + b));
    } else {
      ReadMore(a, b);
      DrainOne(a + b);
      ContinuesFromNothing(Drain(a + b), a);
    }
  }

  /** Bytes that arrive later do not change what was already read. */
  lemma ReadMore(a: seq<Byte>, b: seq<Byte>)
    ensures match ReadFrame(a)
            case Frame(payload, rest) => ReadFrame(a + b) == Frame(payload, rest + b)
            case Oversized(length) => ReadFrame(a + b) == Oversized(length)
            case _ => true
  {
    if |a| >= 4 {
      assert ReadHeader(a + b) == ReadHeader(a);
      var length := ReadHeader(a);
      if |a| >= length + 4 {
        assert (a + b)[4 + length..] == a[4 + length..] + b;
        assert (a + b)[4..4 + length] == a[4..4 + length];
      }
    }
  }

  lemma {:induction false} WellFormedAppend(valid: seq<Byte> -> bool, a: seq<seq<Byte>>, b: seq<seq<Byte>>)
    ensures WellFormed(valid, a + b) == WellFormed(valid, a) + WellFormed(valid, b)
    ensures AllValid(valid, a) ==> WellFormed(valid, a) == a
    decreases |a| + |b|
  {
    if b != [] {
      assert (a + b)[..|a + b| - 1] == a + b[..|b| - 1];
      WellFormedAppend(valid, a, b[..|b| - 1]);
    } else {
      assert a + b == a;
      if a != [] {
        WellFormedAppend(valid, a[..|a| - 1], []);
      }
    }
  }

  /** A well-formed message comes after a malformed one. */
  ghost predicate GoodAfterBad(valid: seq<Byte> -> bool, payloads: seq<seq<Byte>>) {
    exists i, j :: 0 <= i < j < |payloads| && !valid(payloads[i]) && valid(payloads[j])
  }

  lemma GoodAfterBadStays(valid: seq<Byte> -> bool, a: seq<seq<Byte>>, b: seq<seq<Byte>>)
    requires GoodAfterBad(valid, a)
    ensures GoodAfterBad(valid, a + b)
  {
    var i, j :| 0 <= i < j < |a| && !valid(a[i]) && valid(a[j]);
    assert (a + b)[i] == a[i] && (a + b)[j] == a[j];
  }

  lemma BadThenGood(valid: seq<Byte> -> bool, a: seq<seq<Byte>>, b: seq<seq<Byte>>, i: nat, j: nat)
    requires i < |a| && j < |b| && !valid(a[i]) && valid(b[j])
    ensures GoodAfterBad(valid, a + b)
  {
    assert (a + b)[i] == a[i] && (a + b)[|a| + j] == b[j];
  }

  lemma NoGoodAfterBadParts(valid: seq<Byte> -> bool, a: seq<seq<Byte>>, b: seq<seq<Byte>>)
    requires !GoodAfterBad(valid, a + b)
    ensures !GoodAfterBad(valid, a)
    ensures !AllValid(valid, a) ==> WellFormed(valid, b) == []
  {
    if GoodAfterBad(valid, a) {
      GoodAfterBadStays(valid, a, b);
    }
    if !AllValid(valid, a) {
      var i :| 0 <= i < |a| && !valid(a[i]);
      forall j | 0 <= j < |b| ensures !valid(b[j]) {
        if valid(b[j]) {
          BadThenGood(valid, a, b, i, j);
        }
      }
      NoneWellFormed(valid, b);
    }
  }

  lemma {:induction false} NoneWellFormed(valid: seq<Byte> -> bool, payloads: seq<seq<Byte>>)
    requires forall j | 0 <= j < |payloads| :: !valid(payloads[j])
    ensures WellFormed(valid, payloads) == []
  {
    if payloads != [] {
      NoneWellFormed(valid, payloads[..|payloads| - 1]);
    }
  }

  lemma AllValidAppend(valid: seq<Byte> -> bool, a: seq<seq<Byte>>, b: seq<seq<Byte>>)
    ensures AllValid(valid, a + b) <==> AllValid(valid, a) && AllValid(valid, b)
  {
    if AllValid(valid, a + b) {
      forall i | 0 <= i < |a| ensures valid(a[i]) {
        assert a[i] == (a + b)[i];
      }
      forall i | 0 <= i < |b| ensures valid(b[i]) {
        assert b[i] == (a + b)[|a| + i];
      }
    }
  }

  /** What a client that has received a stream in chunks holds. */
  ghost predicate Received(valid: seq<Byte> -> bool, c: Client, d: Drained) {
    && c.routed == WellFormed(valid, d.payloads)
    && c.closed == (d.oversized || !AllValid(valid, d.payloads))
    && (!c.closed ==> c.buffer == d.rest)
  }

  lemma ReceivedMore(valid: seq<Byte> -> bool, c: Client, d: Drained, chunk: seq<Byte>, all: Drained)
    requires Received(valid, c, d) && Continues(all, d, Drain(d.rest + chunk))
    requires !GoodAfterBad(valid, all.payloads)
    ensures Received(valid, if c.closed then c else ReceiveStep(valid, c, chunk), all)
  {
    var e := Drain(d.rest + chunk);
    if d.oversized {
      assert d.payloads + [] == d.payloads;
    } else {
      NoGoodAfterBadParts(valid, d.payloads, e.payloads);
      AllValidAppend(valid, d.payloads, e.payloads);
      WellFormedAppend(valid, d.payloads, e.payloads);
      assert WellFormed(valid, d.payloads) + [] == WellFormed(valid, d.payloads);
    }
  }

  /** Unless a well-formed message follows a malformed one, the messages routed and whether
      the connection closes do not depend on how the stream is cut into chunks. */
  lemma {:induction false} DecodingIgnoresChunking(valid: seq<Byte> -> bool, chunks: seq<seq<Byte>>)
    requires !GoodAfterBad(valid, Drain(Flatten(chunks)).payloads)
    ensures Received(valid, ReceiveAll(valid, chunks), Drain(Flatten(chunks)))
  {
    if chunks != [] {
      var init, last := chunks[..|chunks| - 1], chunks[|chunks| - 1];
      assert chunks == init + [last];
      FlattenSnoc(init, last);
      DrainMore(Flatten(init), last);
      var d, all := Drain(Flatten(init)), Drain(Flatten(chunks));
      NoGoodAfterBadParts(valid, d.payloads, if d.oversized then [] else Drain(d.rest + last).payloads);
      DecodingIgnoresChunking(valid, init);
      ReceivedMore(valid, ReceiveAll(valid, init), d, last, all);
    }
  }

  // ---- the converse: a cut that shows ----

  /** The first n frames end at k. */
  ghost predicate CutsAfter(stream: seq<Byte>, n: nat, k: nat) {
    && n <= |Drain(stream).payloads| && k <= |stream|
    && Drain(stream[..k]) == Drained(Drain(stream).payloads[..n], [], false)
  }

  lemma CutAfterNone(stream: seq<Byte>)
    ensures CutsAfter(stream, 0, 0)
  {}

  lemma CutAfterOneMore(stream: seq<Byte>, n: nat, k: nat)
    requires ReadFrame(stream).Frame? && CutsAfter(ReadFrame(stream).rest, n, k)
    ensures var size := |stream| - |ReadFrame(stream).rest|;
            CutsAfter(stream, n + 1, size + k)
  {
    var payload, rest := ReadFrame(stream).payload, ReadFrame(stream).rest;
    var size := |stream| - |rest|;
    ReadFront(stream, size, k);
    DrainOne(stream);
    DrainOne(stream[..size + k]);
    TakeOneMore(payload, Drain(rest).payloads, n + 1);
  }

  lemma {:induction false} CutAfterFrames(stream: seq<Byte>, n: nat) returns (k: nat)
    requires n <= |Drain(stream).payloads|
    ensures CutsAfter(stream, n, k)
    decreases n
  {
    if n == 0 {
      CutAfterNone(stream);
      k := 0;
    } else {
      DrainOne(stream);
      k := CutAfterFrames(ReadFrame(stream).rest, n - 1);
      CutAfterOneMore(stream, n - 1, k);
      k := |stream| - |ReadFrame(stream).rest| + k;
    }
  }

  lemma ReadFront(stream: seq<Byte>, size: nat, k: nat)
    requires ReadFrame(stream).Frame? && size == |stream| - |ReadFrame(stream).rest| && k <= |ReadFrame(stream).rest|
    ensures ReadFrame(stream[..size + k]) == Frame(ReadFrame(stream).payload, ReadFrame(stream).rest[..k])
  {
    var front := stream[..size + k];
    assert size == 4 + ReadHeader(stream) && ReadHeader(front) == ReadHeader(stream);
    assert front[size..] == stream[size..][..k] && front[4..size] == stream[4..size];
  }

  lemma TakeOneMore(first: seq<Byte>, rest: seq<seq<Byte>>, n: nat)
    requires 0 < n <= 1 + |rest|
    ensures ([first] + rest)[..n] == [first] + rest[..n - 1]
  {}

  ghost predicate RoutedAlike(valid: seq<Byte> -> bool, stream: seq<Byte>) {
    forall a: seq<seq<Byte>>, b: seq<seq<Byte>> | Flatten(a) == stream && Flatten(b) == stream ::
      ReceiveAll(valid, a).routed == ReceiveAll(valid, b).routed
  }

  lemma ReceiveTwo(valid: seq<Byte> -> bool, a: seq<Byte>, b: seq<Byte>)
    requires ReceiveStep(valid, CONNECTED, a).closed
    ensures ReceiveAll(valid, [a, b]) == ReceiveStep(valid, CONNECTED, a)
  {
    FirstChunk(valid, a);
    assert [a, b][..1] == [a];
  }

  lemma FlattenTwo(a: seq<Byte>, b: seq<Byte>)
    ensures Flatten([a, b]) == a + b && Flatten([a + b]) == a + b
  {
    FlattenSnoc([], a);
    FlattenSnoc([a], b);
    FlattenSnoc([], a + b);
    assert [] + [a] == [a] && [a] + [b] == [a, b] && [] + [a + b] == [a + b];
    assert [] + a == a && [] + (a + b) == a + b;
  }

  lemma WellFormedShort(valid: seq<Byte> -> bool, payloads: seq<seq<Byte>>, j: nat)
    requires j < |payloads| && valid(payloads[j])
    ensures WellFormed(valid, payloads[..j]) != WellFormed(valid, payloads)
  {
    var front, one, back := payloads[..j], [payloads[j]], payloads[j + 1..];
    assert payloads == front + (one + back);
    WellFormedAppend(valid, front, one + back);
    WellFormedAppend(valid, one, back);
    assert one[..0] == [] && WellFormed(valid, one) == one;
    assert |WellFormed(valid, one + back)| > 0;
  }

  /** The client holding a whole first chunk. */
  lemma ReceivedFirst(valid: seq<Byte> -> bool, chunk: seq<Byte>)
    ensures ReceiveStep(valid, CONNECTED, chunk).routed == WellFormed(valid, Drain(chunk).payloads)
    ensures !AllValid(valid, Drain(chunk).payloads) ==> ReceiveStep(valid, CONNECTED, chunk).closed
  {
    ReceiveIs(valid, CONNECTED, chunk, chunk);
    assert [] + WellFormed(valid, Drain(chunk).payloads) == WellFormed(valid, Drain(chunk).payloads);
  }

  lemma ReceiveIs(valid: seq<Byte> -> bool, c: Client, chunk: seq<Byte>, all: seq<Byte>)
    requires c.buffer + chunk == all
    ensures ReceiveStep(valid, c, chunk) ==
            Client(Drain(all).rest, c.routed + WellFormed(valid, Drain(all).payloads),
                   c.closed || Drain(all).oversized || !AllValid(valid, Drain(all).payloads))
  {}

  lemma SplitShowsMalformed(valid: seq<Byte> -> bool, stream: seq<Byte>, p: seq<seq<Byte>>, i: nat, j: nat)
    requires p == Drain(stream).payloads && i < j < |p| && !valid(p[i]) && valid(p[j])
    ensures !RoutedAlike(valid, stream)
  {
    var k := CutAfterFrames(stream, j);
    var a, b := stream[..k], stream[k..];
    assert a + b == stream;
    FlattenTwo(a, b);
    assert !valid(p[..j][i]);
    ReceivedFirst(valid, a);
    ReceivedFirst(valid, stream);
    ReceiveTwo(valid, a, b);
    FirstChunk(valid, stream);
    WellFormedShort(valid, p, j);
    NotAlike(valid, stream, [a, b], [stream]);
  }

  lemma NotAlike(valid: seq<Byte> -> bool, stream: seq<Byte>, a: seq<seq<Byte>>, b: seq<seq<Byte>>)
    requires Flatten(a) == stream && Flatten(b) == stream
    requires ReceiveAll(valid, a).routed != ReceiveAll(valid, b).routed
    ensures !RoutedAlike(valid, stream)
  {}

  /** All ways to cut a stream into chunks route the same messages exactly when no
      well-formed message in it follows a malformed one. */
  lemma ChunkingIsInvisibleIff(valid: seq<Byte> -> bool, stream: seq<Byte>)
    ensures RoutedAlike(valid, stream) <==> !GoodAfterBad(valid, Drain(stream).payloads)
  {
    var p := Drain(stream).payloads;
    if GoodAfterBad(valid, p) {
      var i, j :| 0 <= i < j < |p| && !valid(p[i]) && valid(p[j]);
      SplitShowsMalformed(valid, stream, p, i, j);
    } else {
      forall a: seq<seq<Byte>>, b: seq<seq<Byte>> | Flatten(a) == stream && Flatten(b) == stream
        ensures ReceiveAll(valid, a).routed == ReceiveAll(valid, b).routed
      {
        DecodingIgnoresChunking(valid, a);
        DecodingIgnoresChunking(valid, b);
      }
    }
  }

  /** However the bytes are split, the client routes exactly the encoded messages in order
      and retains the incomplete tail. */
  lemma ChunkedMessagesArriveIntact(valid: seq<Byte> -> bool, messages: seq<seq<Byte>>, tail: seq<Byte>, chunks: seq<seq<Byte>>)
    requires WriteAll(messages).Some? && AllValid(valid, messages)
    requires Drain(tail) == Drained([], tail, false)
    requires Flatten(chunks) == WriteAll(messages).value + tail
    ensures ReceiveAll(valid, chunks) == Client(tail, messages, false)
  {
    WriteAllSpec(messages);
    WrittenDecodes(messages);
    DrainFlattened(FramesOf(messages), messages, tail);
    assert messages + [] == messages;
    DecodingIgnoresChunking(valid, chunks);
    WellFormedAppend(valid, messages, []);
  }

  lemma FirstChunk(valid: seq<Byte> -> bool, chunk: seq<Byte>)
    ensures ReceiveAll(valid, [chunk]) == ReceiveStep(valid, CONNECTED, chunk)
  {
    assert [chunk][..0] == [];
  }

  lemma ReceiveFirst(valid: seq<Byte> -> bool, frames: seq<seq<Byte>>, messages: seq<seq<Byte>>)
    requires Decodes(frames, messages)
    ensures ReceiveStep(valid, CONNECTED, Flatten(frames))
            == Client([], WellFormed(valid, messages), !AllValid(valid, messages))
  {
    DrainFlattened(frames, messages, []);
    assert Flatten(frames) + [] == Flatten(frames) && [] + Flatten(frames) == Flatten(frames);
    assert messages + [] == messages;
    ReceiveIs(valid, CONNECTED, Flatten(frames), Flatten(frames));
    assert [] + WellFormed(valid, messages) == WellFormed(valid, messages);
  }

  lemma MalformedFrameDecoded(valid: seq<Byte> -> bool, bad: seq<Byte>, good: seq<Byte>, b: seq<Byte>, g: seq<Byte>)
    requires !valid(bad) && valid(good)
    requires Decodes([b], [bad]) && Decodes([b, g], [bad, good])
    ensures ReceiveAll(valid, [b + g]).routed == [good]
    ensures ReceiveAll(valid, [b, g]).routed == []
  {
    ReceiveFirst(valid, [b], [bad]);
    ReceiveFirst(valid, [b, g], [bad, good]);
    assert [b][1..] == [] && [b, g][1..] == [g] && [g][1..] == [];
    assert Flatten([g]) == g && Flatten([b]) == b && Flatten([b, g]) == b + g;
    assert [bad, good][..1] == [bad] && [bad][..0] == [];
    assert !valid([bad][0]);
    FirstChunk(valid, b + g);
    FirstChunk(valid, b);
    assert [b, g][..1] == [b];
  }

  lemma FrameDecodes(payload: seq<Byte>)
    requires |payload| <= MAX_FRAME_BYTES
    ensures Decodes([FrameOf(payload)], [payload])
  {
    var f := FrameOf(payload);
    forall rest ensures ReadFrame(f + rest) == Frame(payload, rest) {
      ReadWrittenFrame(payload, rest);
    }
  }

  /** A malformed frame breaks that independence: a good frame after it is still routed when
      both arrive together, and never when it arrives separately. */
  lemma MalformedFrameMakesChunkingVisible(valid: seq<Byte> -> bool, bad: seq<Byte>, good: seq<Byte>)
    requires |bad| <= MAX_FRAME_BYTES && |good| <= MAX_FRAME_BYTES && !valid(bad) && valid(good)
    ensures ReceiveAll(valid, [FrameOf(bad) + FrameOf(good)]).routed == [good]
    ensures ReceiveAll(valid, [FrameOf(bad), FrameOf(good)]).routed == []
  {
    var b, g := FrameOf(bad), FrameOf(good);
    FrameDecodes(bad);
    FrameDecodes(good);
    forall i, rest | 0 <= i < 2 ensures ReadFrame([b, g][i] + rest) == Frame([bad, good][i], rest) {
      assert ReadFrame([if i == 0 then b else g][0] + rest) == Frame([if i == 0 then bad else good][0], rest);
    }
    MalformedFrameDecoded(valid, bad, good, b, g);
  }

  // ---- the format ----

  /** The length is written in four bytes, most significant first. */
  lemma HeaderIsBigEndian(n: nat)
    requires n <= 8_388_608
    ensures var h := Header(n);
            |h| == 4 && h[0] as int * 16_777_216 + h[1] as int * 65_536 + h[2] as int * 256 + h[3] as int == n
  {}

  lemma SameHeader(buffer: seq<Byte>)
    requires |buffer| >= 4 && ReadHeader(buffer) <= MAX_FRAME_BYTES
    ensures Header(ReadHeader(buffer)) == buffer[..4]
  {
    HeaderBytes(buffer[0], buffer[1], buffer[2], buffer[3], ReadHeader(buffer));
    var h := Header(ReadHeader(buffer));
    assert h[0] == buffer[0] && h[1] == buffer[1] && h[2] == buffer[2] && h[3] == buffer[3];
  }

  lemma HeaderBytes(a: Byte, b: Byte, c: Byte, d: Byte, n: nat)
    requires n == a as int * 0x100_0000 + b as int * 0x1_0000 + c as int * 0x100 + d as int
    ensures n / 0x100_0000 == a && n / 0x1_0000 % 0x100 == b && n / 0x100 % 0x100 == c && n % 0x100 == d
  {
    var ab: nat := a as int * 0x100 + b as int;
    var abc: nat := ab * 0x100 + c as int;
    LastByte(abc, d);
    LastByte(ab, c);
    LastByte(a, b);
    assert n == abc * 0x100 + d as int && n == ab * 0x1_0000 + (c as int * 0x100 + d as int);
    assert n == a as int * 0x100_0000 + (b as int * 0x1_0000 + c as int * 0x100 + d as int);
  }

  lemma LastByte(q: nat, r: Byte)
    ensures (q * 0x100 + r as int) % 0x100 == r as int && (q * 0x100 + r as int) / 0x100 == q
  {}

  /** What the reader makes of every stream: a frame exactly when the stream begins with the
      frame of a message of at most 8 MiB, and each failure exactly under its condition. */
  lemma ReadFrameIff(stream: seq<Byte>, payload: seq<Byte>, rest: seq<Byte>)
    ensures ReadFrame(stream) == Frame(payload, rest) <==> |payload| <= 8_388_608 && stream == FrameOf(payload) + rest
    ensures ReadFrame(stream).EndOfStream? <==> |stream| < 4
    ensures ReadFrame(stream).Oversized? <==> |stream| >= 4 && ReadHeader(stream) > 8_388_608
    ensures ReadFrame(stream).Truncated? <==> |stream| >= 4 && |stream| - 4 < ReadHeader(stream) <= 8_388_608
  {
    if |payload| <= MAX_FRAME_BYTES && stream == FrameOf(payload) + rest {
      ReadWrittenFrame(payload, rest);
    }
    if ReadFrame(stream) == Frame(payload, rest) {
      SameHeader(stream);
      assert stream == stream[..4] + payload + rest;
    }
  }
}
