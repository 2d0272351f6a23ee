/** From captured bytes to the worker's sample buffer: the capture writer
    (crates/openwhisper-core/src/audio.rs), the daemon's streaming loop
    (crates/openwhisperd/src/lib.rs) and the worker's stream_append
    (crates/openwhisper-worker-native/src/main.rs). */
module AudioPipeline {
  import opened AudioWindow
  import opened Prelude

  const MAX_STREAM_SAMPLES := 16_000 * 15

  datatype Snapshot = Snapshot(sequence: nat, totalBytes: nat, pcm: seq<Byte>)

  // ---- capture writer ----

  datatype Writer = Writer(published: Snapshot, open: bool)

  function WriterStep(maximum: nat, w: Writer, read: seq<Byte>): Writer {
    if !w.open || read == [] || w.published.totalBytes + |read| > maximum then w.(open := false)
    else
      Writer(Snapshot(w.published.sequence + 1, w.published.totalBytes + |read|,
                      TrimWindow(w.published.pcm + read)), true)
  }

  class CaptureWriter {
    const maximum: nat
    var total: nat
    var sequence: nat
    var rolling: seq<Byte>
    var open: bool

    function Value(): Writer
      reads this
    {
      Writer(Snapshot(sequence, total, rolling), open)
    }

    constructor (maximum: nat)
      ensures this.maximum == maximum && Value() == Writer(Snapshot(0, 0, []), true)
    {
      this.maximum := maximum;
      total, sequence, rolling, open := 0, 0, [], true;
    }

    /** One iteration of the read loop; an empty read or an overflow ends it. */
    method Accept(read: seq<Byte>)
      requires open
      modifies this
      ensures Value() == WriterStep(maximum, old(Value()), read)
    {
      if read == [] || total + |read| > maximum {
        open := false;
        return;
      }
      total := total + |read|;
      rolling := rolling + read;
      if |rolling| > WINDOW_BYTES {
        var excess := |rolling| - WINDOW_BYTES;
        var aligned := excess + excess % 2;
        rolling := rolling[if aligned <= |rolling| then aligned else |rolling|..];
      }
      sequence := sequence + 1;
    }
  }

  // ---- daemon ----

  datatype Cursor = Cursor(lastSequence: nat, lastTotal: nat)

  datatype Selection = Selection(cursor: Cursor, chunk: Option<seq<Byte>>)

  /** Choose what to send for an observed snapshot: the bytes beyond the last total sent, as
      far as the window still holds them, and nothing less than a batch. */
  function Select(c: Cursor, s: Snapshot): Selection {
    if s.sequence == c.lastSequence || s.totalBytes <= c.lastTotal || |s.pcm| < BATCH_BYTES then
      Selection(c, None)
    else
      var appended := s.totalBytes - c.lastTotal;
      var start := if appended <= |s.pcm| then |s.pcm| - appended else 0;
      if |s.pcm| - start < BATCH_BYTES then Selection(c.(lastSequence := s.sequence), None)
      else Selection(Cursor(s.sequence, s.totalBytes), Some(s.pcm[start..]))
  }

  class StreamTask {
    var lastSequence: nat
    var lastTotalBytes: nat

    function Value(): Cursor
      reads this
    {
      Cursor(lastSequence, lastTotalBytes)
    }

    constructor ()
      ensures Value() == Cursor(0, 0)
    {
      lastSequence, lastTotalBytes := 0, 0;
    }

    method NextChunk(snapshot: Snapshot) returns (chunk: Option<seq<Byte>>)
      modifies this
      ensures Selection(Value(), chunk) == Select(old(Value()), snapshot)
    {
      if snapshot.sequence == lastSequence || snapshot.totalBytes <= lastTotalBytes || |snapshot.pcm| < BATCH_BYTES {
        return None;
      }
      lastSequence := snapshot.sequence;
      var appended := snapshot.totalBytes - lastTotalBytes;
      var start := if appended <= |snapshot.pcm| then |snapshot.pcm| - appended else 0;
      var bytes := snapshot.pcm[start..];
      if |bytes| < BATCH_BYTES {
        return None;
      }
      lastTotalBytes := snapshot.totalBytes;
      chunk := Some(bytes);
    }
  }

  // ---- worker ----

  /** i16::from_le_bytes */
  function Sample(low: Byte, high: Byte): int {
    var u := low + 256 * high;
    if u < 0x8000 then u else u - 0x1_0000
  }

  /** chunks_exact(2): a trailing odd byte is dropped. */
  function Decode(pcm: seq<Byte>): (samples: seq<int>)
    ensures |samples| == |pcm| / 2
  {
    if |pcm| < 2 then [] else [Sample(pcm[0], pcm[1])] + Decode(pcm[2..])
  }

  function KeepLast(samples: seq<int>): seq<int> {
    if |samples| > MAX_STREAM_SAMPLES then samples[|samples| - MAX_STREAM_SAMPLES..] else samples
  }

  function StreamAppend(samples: seq<int>, pcm: seq<Byte>): Option<seq<int>> {
    if |pcm| % 2 != 0 then None else Some(KeepLast(samples + Decode(pcm)))
  }

  class StreamSession {
    var samples: seq<int>

    constructor ()
      ensures samples == []
    {
      samples := [];
    }

    /** False stands for the invalid_audio reply. */
    method Append(pcm: seq<Byte>) returns (ok: bool)
      modifies this
      ensures (if ok then Some(samples) else None) == StreamAppend(old(samples), pcm)
      ensures !ok ==> samples == old(samples)
    {
      if |pcm| % 2 != 0 {
        return false;
      }
      samples := samples + Decode(pcm);
      if |samples| > MAX_STREAM_SAMPLES {
        samples := samples[|samples| - MAX_STREAM_SAMPLES..];
      }
      ok := true;
    }
  }

  // ---- the three together ----

  /** What becomes of one stream_append request. A crash restarts the worker and replays the
      whole snapshot, once per stream; any other failure ends the stream. */
  datatype Outcome = Answered | Crashed | Broken

  datatype System = System(capture: seq<Byte>, writer: Writer, cursor: Cursor, samples: seq<int>,
                           recovered: bool, alive: bool)

  const START := System([], Writer(Snapshot(0, 0, []), true), Cursor(0, 0), [], false, true)

  datatype Event = Read(bytes: seq<Byte>) | Observe(outcome: Outcome)

  function ReadStep(maximum: nat, s: System, bytes: seq<Byte>): System {
    var w := WriterStep(maximum, s.writer, bytes);
    s.(writer := w, capture := if w.open then s.capture + bytes else s.capture)
  }

  /** Send `pcm` to a worker holding `samples`; a rejected chunk ends the stream. */
  function Send(s: System, samples: seq<int>, pcm: seq<Byte>): System {
    match StreamAppend(samples, pcm)
    case Some(next) => s.(samples := next)
    case None => s.(alive := false)
  }

  function ObserveStep(s: System, outcome: Outcome): System {
    var snapshot := s.writer.published;
    var sel := Select(s.cursor, snapshot);
    var t := s.(cursor := sel.cursor);
    if !s.alive || sel.chunk.None? then if s.alive then t else s
    else match outcome
      case Answered => Send(t, t.samples, sel.chunk.value)
      case Crashed =>
        if s.recovered then t.(alive := false) else Send(t.(recovered := true), [], snapshot.pcm)
      case Broken => t.(alive := false)
  }

  function Step(maximum: nat, s: System, e: Event): System {
    match e
    case Read(bytes) => ReadStep(maximum, s, bytes)
    case Observe(outcome) => ObserveStep(s, outcome)
  }

  function Run(maximum: nat, events: seq<Event>): System {
    if events == [] then START else Step(maximum, Run(maximum, events[..|events| - 1]), events[|events| - 1])
  }

  /** The last fifteen seconds of a capture, as samples. */
  function LastSamples(capture: seq<Byte>): seq<int> {
    KeepLast(Decode(capture))
  }

  ghost predicate Inv(s: System) {
    && s.writer.published.totalBytes == |s.capture|
    && s.writer.published.pcm == Window(s.capture)
    && s.cursor.lastTotal <= |s.capture|
    && NothingDueMissed(s.writer.published.sequence, s.cursor, |s.capture|)
    && (s.alive ==> s.cursor.lastTotal % 2 == 0 && s.samples == LastSamples(s.capture[..s.cursor.lastTotal]))
  }

  /** The newest snapshot has already been looked at only when less than a batch is unsent. */
  ghost predicate NothingDueMissed(sequence: nat, c: Cursor, captured: nat) {
    && c.lastSequence <= sequence
    && (c.lastSequence == sequence ==> captured - c.lastTotal < BATCH_BYTES)
  }

  // ---- proofs ----

  lemma DecodeTwo(low: Byte, high: Byte, rest: seq<Byte>)
    ensures Decode([low, high] + rest) == [Sample(low, high)] + Decode(rest)
  {
    assert ([low, high] + rest)[2..] == rest;
  }

  lemma {:induction false} DecodeAppend(a: seq<Byte>, b: seq<Byte>)
    requires |a| % 2 == 0
    ensures Decode(a + b) == Decode(a) + Decode(b)
  {
    if a == [] {
      assert a + b == b;
    } else {
      var rest := a[2..];
      assert a == [a[0], a[1]] + rest && a + b == [a[0], a[1]] + (rest + b);
      DecodeTwo(a[0], a[1], rest);
      DecodeTwo(a[0], a[1], rest + b);
      DecodeAppend(rest, b);
    }
  }

  lemma KeepLastOfRest(s: seq<int>, k: nat)
    requires k + MAX_STREAM_SAMPLES <= |s|
    ensures KeepLast(s[k..]) == KeepLast(s)
  {}

  lemma KeepLastTwice(a: seq<int>, b: seq<int>)
    ensures KeepLast(KeepLast(a) + b) == KeepLast(a + b)
  {
    if |a| > MAX_STREAM_SAMPLES {
      var k := |a| - MAX_STREAM_SAMPLES;
      assert a[k..] + b == (a + b)[k..];
      KeepLastOfRest(a + b, k);
    }
  }

  /** An even window decodes to exactly the last samples of the capture. */
  lemma WindowSamples(capture: seq<Byte>, before: seq<int>)
    requires |capture| % 2 == 0 && |capture| > WINDOW_BYTES
    ensures KeepLast(before + Decode(Window(capture))) == LastSamples(capture)
  {
    var k := |capture| - WINDOW_BYTES;
    var w := capture[k..];
    assert capture == capture[..k] + w;
    DecodeAppend(capture[..k], w);
    assert |Decode(w)| == MAX_STREAM_SAMPLES;
    assert (before + Decode(w))[|before|..] == Decode(w);
    assert (Decode(capture[..k]) + Decode(w))[|Decode(capture[..k])|..] == Decode(w);
    assert (before + Decode(w))[|before + Decode(w)| - MAX_STREAM_SAMPLES..] == Decode(w);
  }

  /** The chunk selected has the parity of the snapshot total, and appending it to the
      buffer for the last total gives the buffer for the new one, even after falling behind. */
  lemma ChunkAdvancesBuffer(capture: seq<Byte>, from: nat, samples: seq<int>, start: nat)
    requires from < |capture| && from % 2 == 0
    requires samples == LastSamples(capture[..from])
    requires var pcm := Window(capture); var appended := |capture| - from;
             start == if appended <= |pcm| then |pcm| - appended else 0
    ensures |Window(capture)[start..]| % 2 == |capture| % 2
    ensures |capture| % 2 == 0 ==> StreamAppend(samples, Window(capture)[start..]) == Some(LastSamples(capture))
  {
    var appended := |capture| - from;
    if appended <= |Window(capture)| {
      ContinueBuffer(capture, from);
    } else {
      WindowSize(capture);
      assert Window(capture)[0..] == Window(capture);
      if |capture| % 2 == 0 {
        WindowSamples(capture, samples);
      }
    }
  }

  lemma ContinueBuffer(capture: seq<Byte>, from: nat)
    requires from <= |capture| && from % 2 == 0
    ensures KeepLast(LastSamples(capture[..from]) + Decode(capture[from..])) == LastSamples(capture)
  {
    assert capture == capture[..from] + capture[from..];
    DecodeAppend(capture[..from], capture[from..]);
    KeepLastTwice(Decode(capture[..from]), Decode(capture[from..]));
  }

  /** A fresh worker given the whole window holds the same samples as one that never crashed. */
  lemma ReplayRestoresBuffer(capture: seq<Byte>)
    requires |capture| % 2 == 0
    ensures StreamAppend([], Window(capture)) == Some(LastSamples(capture))
  {
    if |capture| > WINDOW_BYTES {
      WindowSamples(capture, []);
    } else {
      assert [] + Decode(capture) == Decode(capture);
    }
  }

  lemma ReadKeepsInv(maximum: nat, s: System, bytes: seq<Byte>)
    requires Inv(s)
    ensures Inv(ReadStep(maximum, s, bytes))
  {
    WindowAppend(s.capture, bytes);
    var t := ReadStep(maximum, s, bytes);
    assert t.capture[..s.cursor.lastTotal] == s.capture[..s.cursor.lastTotal];
  }

  /** A snapshot is chosen for sending. */
  ghost predicate Sends(s: System) {
    s.alive && Select(s.cursor, s.writer.published).chunk.Some?
  }

  lemma SentChunk(s: System)
    requires Inv(s) && Sends(s)
    ensures var sel := Select(s.cursor, s.writer.published);
            && sel.cursor.lastTotal == |s.capture|
            && (StreamAppend(s.samples, sel.chunk.value)
                == if |s.capture| % 2 == 0 then Some(LastSamples(s.capture)) else None)
            && (StreamAppend([], s.writer.published.pcm)
                == if |s.capture| % 2 == 0 then Some(LastSamples(s.capture)) else None)
  {
    var pcm := Window(s.capture);
    var appended := |s.capture| - s.cursor.lastTotal;
    var start := if appended <= |pcm| then |pcm| - appended else 0;
    ChunkAdvancesBuffer(s.capture, s.cursor.lastTotal, s.samples, start);
    WindowSize(s.capture);
    if |s.capture| % 2 == 0 {
      ReplayRestoresBuffer(s.capture);
    }
  }

  lemma ObserveKeepsInv(s: System, outcome: Outcome)
    requires Inv(s)
    ensures Inv(ObserveStep(s, outcome))
    ensures Sends(s) && outcome.Answered? ==> (ObserveStep(s, outcome).alive <==> |s.capture| % 2 == 0)
    ensures Sends(s) && outcome.Crashed? ==>
              (ObserveStep(s, outcome).alive <==> |s.capture| % 2 == 0 && !s.recovered)
  {
    if Sends(s) {
      SentChunk(s);
      assert s.capture[..|s.capture|] == s.capture;
    }
  }

  lemma StartInv()
    ensures Inv(START)
  {
    WindowSize([]);
    assert Decode([]) == [];
  }

  lemma StepKeepsInv(maximum: nat, s: System, e: Event)
    requires Inv(s)
    ensures Inv(Step(maximum, s, e))
  {
    match e
    case Read(bytes) => ReadKeepsInv(maximum, s, bytes);
    case Observe(outcome) => ObserveKeepsInv(s, outcome);
  }

  /** In every run, with reads of any length and any of the snapshots observed: while the
      stream is alive the worker holds exactly the last fifteen seconds of the capture up to
      the last snapshot sent. */
  lemma {:induction false} WorkerHoldsLastWindow(maximum: nat, events: seq<Event>)
    ensures Inv(Run(maximum, events))
  {
    if events == [] {
      StartInv();
    } else {
      WorkerHoldsLastWindow(maximum, events[..|events| - 1]);
      StepKeepsInv(maximum, Run(maximum, events[..|events| - 1]), events[|events| - 1]);
    }
  }

  /** Crashing and replaying is indistinguishable, in the worker's buffer, from not crashing;
      and an answered snapshot ends the stream exactly when its byte total is odd. */
  lemma CrashReplayIsTransparent(maximum: nat, events: seq<Event>)
    ensures var s := Run(maximum, events);
            var answered := Run(maximum, events + [Observe(Answered)]);
            var crashed := Run(maximum, events + [Observe(Crashed)]);
            && (Sends(s) ==> (answered.alive <==> |s.capture| % 2 == 0))
            && (Sends(s) && !s.recovered && answered.alive ==>
                  crashed == answered.(recovered := true)
                  && crashed.samples == LastSamples(s.capture))
  {
    var s := Run(maximum, events);
    assert (events + [Observe(Answered)])[..|events|] == events;
    assert (events + [Observe(Crashed)])[..|events|] == events;
    WorkerHoldsLastWindow(maximum, events);
    if Sends(s) {
      SentChunk(s);
    }
    assert s.capture[..|s.capture|] == s.capture;
  }

  /** Such a run: one odd read of at least a batch, observed once, ends the stream. */
  lemma OddReadEndsStream(maximum: nat, bytes: seq<Byte>)
    requires BATCH_BYTES < |bytes| <= maximum && |bytes| <= WINDOW_BYTES && |bytes| % 2 == 1
    ensures !Run(maximum, [Read(bytes), Observe(Answered)]).alive
  {
    var events := [Read(bytes), Observe(Answered)];
    assert events[..1] == [Read(bytes)] && [Read(bytes)][..0] == [];
    assert Run(maximum, []) == START;
    assert [] + bytes == bytes;
    var s := Run(maximum, [Read(bytes)]);
    assert s.writer.published == Snapshot(1, |bytes|, bytes);
    assert bytes[0..] == bytes;
    assert Select(s.cursor, s.writer.published).chunk == Some(bytes);
  }

  // ---- what is sent when, what is captured, and what the samples are ----

  /** A live stream with at least 300 ms of captured audio past the last total sent. */
  ghost predicate Due(s: System) {
    s.alive && |s.capture| - s.cursor.lastTotal >= 9_600
  }

  lemma SilentObserve(s: System, outcome: Outcome)
    requires Inv(s) && !Sends(s)
    ensures var t := ObserveStep(s, outcome); t == s.(cursor := t.cursor) && t.cursor.lastTotal == s.cursor.lastTotal
  {}

  /** After an observation of a due stream: nothing is unsent, and the worker holds the last
      fifteen seconds of the whole capture unless an odd total, a second crash or another
      failure ended the stream. */
  ghost predicate Delivered(s: System, t: System, outcome: Outcome) {
    && t.writer == s.writer && t.capture == s.capture && t.cursor.lastTotal == |s.capture|
    && (t.alive <==> |s.capture| % 2 == 0 && (outcome.Answered? || (outcome.Crashed? && !s.recovered)))
    && (t.alive ==> t.samples == LastSamples(s.capture))
    && (t.recovered <==> s.recovered || outcome.Crashed?)
  }

  lemma DueObserve(s: System, outcome: Outcome)
    requires Inv(s) && Sends(s)
    ensures Delivered(s, ObserveStep(s, outcome), outcome)
  {
    SentChunk(s);
  }

  lemma RunOfOneMore(maximum: nat, events: seq<Event>, e: Event)
    ensures Run(maximum, events + [e]) == Step(maximum, Run(maximum, events), e)
  {
    assert (events + [e])[..|events|] == events;
  }

  /** In every run, an observation delivers exactly when the stream is alive and a batch of
      captured audio is unsent; otherwise it changes no more than the cursor's sequence. */
  lemma DeliveredIffDue(maximum: nat, events: seq<Event>, outcome: Outcome)
    ensures var s := Run(maximum, events);
            var t := Run(maximum, events + [Observe(outcome)]);
            && (Due(s) ==> Delivered(s, t, outcome))
            && (!Due(s) ==> t == s.(cursor := t.cursor) && t.cursor.lastTotal == s.cursor.lastTotal)
  {
    var s := Run(maximum, events);
    WorkerHoldsLastWindow(maximum, events);
    RunOfOneMore(maximum, events, Observe(outcome));
    if Sends(s) {
      DueObserve(s, outcome);
    } else {
      SilentObserve(s, outcome);
    }
  }

  /** A second observation without a read in between never sends anything. */
  lemma NothingIsSentTwice(maximum: nat, events: seq<Event>, first: Outcome, second: Outcome)
    ensures !Due(Run(maximum, events + [Observe(first)]))
    ensures var t := Run(maximum, events + [Observe(first)]);
            var u := Run(maximum, events + [Observe(first), Observe(second)]);
            u == t.(cursor := u.cursor) && u.cursor.lastTotal == t.cursor.lastTotal
  {
    DeliveredIffDue(maximum, events, first);
    assert events + [Observe(first)] + [Observe(second)] == events + [Observe(first), Observe(second)];
    DeliveredIffDue(maximum, events + [Observe(first)], second);
  }

  function AllRead(events: seq<Event>): seq<Byte> {
    if events == [] then []
    else AllRead(events[..|events| - 1]) + match events[|events| - 1] case Read(bytes) => bytes case Observe(_) => []
  }

  lemma ObserveCapturesNothing(s: System, outcome: Outcome)
    ensures ObserveStep(s, outcome).writer == s.writer && ObserveStep(s, outcome).capture == s.capture
  {}

  /** The capture is everything read up to the first empty read or the first read that would
      take it past the maximum, and it goes on exactly until then. */
  lemma {:induction false} CaptureIsWhatWasRead(maximum: nat, events: seq<Event>)
    ensures var s := Run(maximum, events);
            && |s.capture| <= maximum && s.capture <= AllRead(events)
            && (s.writer.open ==> s.capture == AllRead(events))
            && (s.writer.open <==> |AllRead(events)| <= maximum && forall i | 0 <= i < |events| :: events[i] != Read([]))
  {
    if events != [] {
      var init, e := events[..|events| - 1], events[|events| - 1];
      CaptureIsWhatWasRead(maximum, init);
      WorkerHoldsLastWindow(maximum, init);
      assert events == init + [e];
      match e {
        case Read(bytes) => ReadCaptures(maximum, Run(maximum, init), bytes, AllRead(init));
        case Observe(outcome) => ObserveCapturesNothing(Run(maximum, init), outcome);
      }
      NoEmptyRead(init, e);
    }
  }

  lemma NoEmptyRead(init: seq<Event>, e: Event)
    ensures (forall i | 0 <= i < |init + [e]| :: (init + [e])[i] != Read([])) <==>
              e != Read([]) && forall i | 0 <= i < |init| :: init[i] != Read([])
  {
    assert (init + [e])[|init|] == e;
    forall i | 0 <= i < |init| ensures (init + [e])[i] == init[i] {}
  }

  lemma ReadCaptures(maximum: nat, s: System, bytes: seq<Byte>, all: seq<Byte>)
    requires s.writer.published.totalBytes == |s.capture| <= maximum && s.capture <= all
    requires s.writer.open ==> s.capture == all
    ensures var t := ReadStep(maximum, s, bytes);
            && |t.capture| <= maximum && t.capture <= all + bytes
            && (t.writer.open <==> s.writer.open && bytes != [] && |all + bytes| <= maximum)
            && (t.writer.open ==> t.capture == all + bytes)
  {}

  /** Each sample is the two's complement value of its two bytes, low byte first. */
  lemma {:induction false} DecodeAt(pcm: seq<Byte>, k: nat)
    requires k < |pcm| / 2
    ensures var low: int, high: int, v: int := pcm[2 * k], pcm[2 * k + 1], Decode(pcm)[k];
            -32_768 <= v < 32_768 && (v - (low + 256 * high)) % 65_536 == 0
  {
    if k > 0 {
      DecodeAt(pcm[2..], k - 1);
      assert pcm[2..][2 * (k - 1)] == pcm[2 * k] && pcm[2..][2 * (k - 1) + 1] == pcm[2 * k + 1];
    }
  }

  /** The worker's buffer is the end of the decoded capture, at most 240000 samples of it. */
  lemma LastSamplesAreTheEnd(capture: seq<Byte>)
    ensures var kept, all := LastSamples(capture), Decode(capture);
            && |kept| == (if |capture| / 2 <= 240_000 then |capture| / 2 else 240_000)
            && kept == all[|all| - |kept|..]
  {}
}
