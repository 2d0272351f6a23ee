/** The archived streaming policy (whisper_online.py): HypothesisBuffer confirms the words
    two consecutive transcriptions agree on, OnlineASRProcessor trims audio behind them.
    Times are exact reals. */
module OnlineAsr {
  import opened Prelude

  datatype Word = Word(beg: real, end: real, text: string)

  const SAMPLING_RATE := 16000

  // ---- hypothesis buffer ----

  datatype Buffer = Buffer(committedInBuffer: seq<Word>, buffer: seq<Word>, added: seq<Word>, lastCommittedTime: real)

  function Shift(words: seq<Word>, offset: real): seq<Word> {
    seq(|words|, i requires 0 <= i < |words| => Word(words[i].beg + offset, words[i].end + offset, words[i].text))
  }

  function StartingAfter(words: seq<Word>, time: real): seq<Word> {
    if words == [] then []
    else (if words[0].beg > time then [words[0]] else []) + StartingAfter(words[1..], time)
  }

  function JoinTexts(words: seq<Word>, sep: string): string {
    if words == [] then ""
    else if |words| == 1 then words[0].text
    else words[0].text + sep + JoinTexts(words[1..], sep)
  }

  function Least(a: nat, b: nat): nat {
    if a <= b then a else b
  }

  /** The last i committed words read like the first i new ones. */
  predicate Repeats(committed: seq<Word>, words: seq<Word>, i: nat)
    requires i <= |committed| && i <= |words|
  {
    JoinTexts(committed[|committed| - i..], " ") == JoinTexts(words[..i], " ")
  }

  /** The shortest n-gram from i on that ends the committed words and starts the new ones; 0 if none. */
  function RepeatedFrom(committed: seq<Word>, words: seq<Word>, i: nat, limit: nat): (n: nat)
    requires i >= 1 && limit <= |committed| && limit <= |words|
    ensures n <= limit
    decreases limit + 1 - i
  {
    if i > limit then 0
    else if Repeats(committed, words, i) then i
    else RepeatedFrom(committed, words, i + 1, limit)
  }

  function DropRepeated(committed: seq<Word>, words: seq<Word>): seq<Word> {
    words[RepeatedFrom(committed, words, 1, Least(Least(|committed|, |words|), 5))..]
  }

  function Abs(x: real): real {
    if x < 0.0 then -x else x
  }

  /** A repeated n-gram is dropped when the first word starts within a second of the last
      committed time. */
  function Unrepeated(b: Buffer, recent: seq<Word>): seq<Word> {
    if recent != [] && Abs(recent[0].beg - b.lastCommittedTime) < 1.0 && b.committedInBuffer != []
    then DropRepeated(b.committedInBuffer, recent) else recent
  }

  function InsertStep(b: Buffer, words: seq<Word>, offset: real): Buffer {
    b.(added := Unrepeated(b, StartingAfter(Shift(words, offset), b.lastCommittedTime - 0.1)))
  }

  /** How many leading words have the same text. */
  function Agreement(words: seq<Word>, previous: seq<Word>): (n: nat)
    ensures n <= |words| && n <= |previous|
  {
    if words == [] || previous == [] || words[0].text != previous[0].text then 0
    else 1 + Agreement(words[1..], previous[1..])
  }

  function EndOf(words: seq<Word>, otherwise: real): real {
    if words == [] then otherwise else words[|words| - 1].end
  }

  function FlushStep(b: Buffer): (Buffer, seq<Word>) {
    var n := Agreement(b.added, b.buffer);
    var commit := b.added[..n];
    (Buffer(b.committedInBuffer + commit, b.added[n..], [], EndOf(commit, b.lastCommittedTime)), commit)
  }

  /** After n words were flushed, these are left. */
  ghost predicate Flushing(words: seq<Word>, previous: seq<Word>, n: nat, added: seq<Word>, buffer: seq<Word>) {
    && n <= |words| && n <= |previous| && added == words[n..] && buffer == previous[n..]
    && n + Agreement(added, buffer) == Agreement(words, previous)
  }

  function DropEnded(words: seq<Word>, time: real): seq<Word> {
    if words != [] && words[0].end <= time then DropEnded(words[1..], time) else words
  }

  class HypothesisBuffer {
    var committedInBuffer: seq<Word>
    var buffer: seq<Word>
    var added: seq<Word>
    var lastCommittedTime: real

    function Value(): Buffer
      reads this
    {
      Buffer(committedInBuffer, buffer, added, lastCommittedTime)
    }

    constructor (time: real)
      ensures Value() == Buffer([], [], [], time)
    {
      committedInBuffer, buffer, added, lastCommittedTime := [], [], [], time;
    }

    method Insert(words: seq<Word>, offset: real)
      modifies this`added
      ensures Value() == InsertStep(old(Value()), words, offset)
    {
      added := StartingAfter(Shift(words, offset), lastCommittedTime - 0.1);
      if added != [] && Abs(added[0].beg - lastCommittedTime) < 1.0 && committedInBuffer != [] {
        var n := RepeatedWords(committedInBuffer, added);
        added := added[n..];
      }
    }

    /** The search for an n-gram to drop; 0 if there is none. */
    static method RepeatedWords(committed: seq<Word>, words: seq<Word>) returns (n: nat)
      ensures n <= |words| && words[n..] == DropRepeated(committed, words)
    {
      var limit := Least(Least(|committed|, |words|), 5);
      for i := 1 to limit + 1
        invariant RepeatedFrom(committed, words, i, limit) == RepeatedFrom(committed, words, 1, limit)
      {
        if Repeats(committed, words, i) {
          return i;
        }
      }
      n := 0;
    }

    method Flush() returns (commit: seq<Word>)
      modifies this
      ensures (Value(), commit) == FlushStep(old(Value()))
    {
      ghost var words, previous, start := added, buffer, lastCommittedTime;
      commit := [];
      while added != [] && buffer != [] && added[0].text == buffer[0].text
        invariant Flushing(words, previous, |commit|, added, buffer)
        invariant commit == words[..|commit|]
        invariant lastCommittedTime == EndOf(commit, start)
        invariant committedInBuffer == old(committedInBuffer)
        decreases |added|
      {
        commit := commit + [added[0]];
        lastCommittedTime := added[0].end;
        buffer := buffer[1..];
        added := added[1..];
      }
      buffer := added;
      added := [];
      committedInBuffer := committedInBuffer + commit;
    }

    method PopCommitted(time: real)
      modifies this`committedInBuffer
      ensures Value() == old(Value()).(committedInBuffer := DropEnded(old(committedInBuffer), time))
    {
      while committedInBuffer != [] && committedInBuffer[0].end <= time
        invariant DropEnded(committedInBuffer, time) == DropEnded(old(committedInBuffer), time)
        decreases |committedInBuffer|
      {
        committedInBuffer := committedInBuffer[1..];
      }
    }
  }

  // ---- online processor ----

  datatype Online = Online(buffer: Buffer, audio: seq<int>, offset: real, committed: seq<Word>)

  function Fresh(offset: real): Online {
    Online(Buffer([], [], [], offset), [], offset, [])
  }

  /** int(): towards zero. */
  function Truncate(x: real): int {
    if x >= 0.0 then x.Floor else -((-x).Floor)
  }

  /** a[k:], where a negative k counts from the end. */
  function SliceFrom(a: seq<int>, k: int): seq<int> {
    if k >= |a| then [] else if k >= 0 then a[k..] else if -k <= |a| then a[|a| + k..] else a
  }

  /** The samples between two times, before truncation. */
  function SamplesBetween(from: real, to: real): real {
    (to - from) * SAMPLING_RATE as real
  }

  function ChunkAtStep(s: Online, time: real): Online {
    s.(buffer := s.buffer.(committedInBuffer := DropEnded(s.buffer.committedInBuffer, time)),
       audio := SliceFrom(s.audio, Truncate(SamplesBetween(s.offset, time))),
       offset := time)
  }

  /** The last segment end at or below index k that is not past t, searched downwards. */
  function LastEndWithin(ends: seq<real>, offset: real, t: real, k: nat): Option<real>
    requires k < |ends|
  {
    if ends[k] + offset <= t then Some(ends[k] + offset)
    else if k == 0 then None
    else LastEndWithin(ends, offset, t, k - 1)
  }

  /** Where chunk_completed_segment cuts, if anywhere: the final segment is never considered. */
  function CutPoint(s: Online, ends: seq<real>): Option<real> {
    if s.committed == [] || |ends| <= 1 then None
    else LastEndWithin(ends, s.offset, s.committed[|s.committed| - 1].end, |ends| - 2)
  }

  function TrimStep(s: Online, ends: seq<real>): Online {
    match CutPoint(s, ends) case Some(e) => ChunkAtStep(s, e) case None => s
  }

  datatype Flushed = Flushed(beg: Option<real>, end: Option<real>, text: string)

  function ToFlush(words: seq<Word>, sep: string): Flushed {
    if words == [] then Flushed(None, None, "")
    else Flushed(Some(words[0].beg), Some(words[|words| - 1].end), JoinTexts(words, sep))
  }

  /** Confirm words; the audio is trimmed afterwards if it is longer than the limit. */
  function ConfirmStep(s: Online, words: seq<Word>): (Online, seq<Word>) {
    var f := FlushStep(InsertStep(s.buffer, words, s.offset));
    (s.(buffer := f.0, committed := s.committed + f.1), f.1)
  }

  predicate LongerThan(s: Online, trimSeconds: real) {
    |s.audio| as real / SAMPLING_RATE as real > trimSeconds
  }

  function IterStep(s: Online, trimSeconds: real, words: seq<Word>, ends: seq<real>): (Online, seq<Word>) {
    var c := ConfirmStep(s, words);
    (if LongerThan(s, trimSeconds) then TrimStep(c.0, ends) else c.0, c.1)
  }

  class OnlineASRProcessor {
    const trimSeconds: real
    const sep: string
    const transcriptBuffer: HypothesisBuffer
    var audioBuffer: seq<int>
    var bufferTimeOffset: real
    var committed: seq<Word>

    function Value(): Online
      reads this, transcriptBuffer
    {
      Online(transcriptBuffer.Value(), audioBuffer, bufferTimeOffset, committed)
    }

    constructor (trimSeconds: real, sep: string, offset: real)
      ensures Value() == Fresh(offset) && this.trimSeconds == trimSeconds && this.sep == sep && fresh(transcriptBuffer)
    {
      this.trimSeconds, this.sep := trimSeconds, sep;
      transcriptBuffer := new HypothesisBuffer(offset);
      audioBuffer, bufferTimeOffset, committed := [], offset, [];
    }

    method InsertAudioChunk(audio: seq<int>)
      modifies this`audioBuffer
      ensures Value() == old(Value()).(audio := old(audioBuffer) + audio)
    {
      audioBuffer := audioBuffer + audio;
    }

    /** `words` and `ends` are what the recogniser returned for the current audio. */
    method ProcessIter(words: seq<Word>, ends: seq<real>) returns (confirmed: Flushed)
      modifies this, transcriptBuffer
      ensures var r := IterStep(old(Value()), trimSeconds, words, ends);
              Value() == r.0 && confirmed == ToFlush(r.1, sep)
    {
      transcriptBuffer.Insert(words, bufferTimeOffset);
      var o := transcriptBuffer.Flush();
      committed := committed + o;
      if |audioBuffer| as real / SAMPLING_RATE as real > trimSeconds {
        ChunkCompletedSegment(ends);
      }
      confirmed := ToFlush(o, sep);
    }

    method ChunkCompletedSegment(segmentEnds: seq<real>)
      modifies this, transcriptBuffer
      ensures Value() == TrimStep(old(Value()), segmentEnds)
    {
      if committed == [] {
        return;
      }
      var t := committed[|committed| - 1].end;
      if |segmentEnds| > 1 {
        var e := LastCompletedEnd(segmentEnds, bufferTimeOffset, t);
        if e <= t {
          ChunkAt(e);
        }
      }
    }

    /** The loop that drops ends from the back until the last but one is not past t. */
    static method LastCompletedEnd(segmentEnds: seq<real>, offset: real, t: real) returns (e: real)
      requires |segmentEnds| > 1
      ensures LastEndWithin(segmentEnds, offset, t, |segmentEnds| - 2) == if e <= t then Some(e) else None
    {
      var ends := segmentEnds;
      e := ends[|ends| - 2] + offset;
      while |ends| > 2 && e > t
        invariant 2 <= |ends| <= |segmentEnds| && ends <= segmentEnds
        invariant e == segmentEnds[|ends| - 2] + offset
        invariant LastEndWithin(segmentEnds, offset, t, |ends| - 2)
                  == LastEndWithin(segmentEnds, offset, t, |segmentEnds| - 2)
        decreases |ends|
      {
        ends := ends[..|ends| - 1];
        e := ends[|ends| - 2] + offset;
      }
    }

    method ChunkAt(time: real)
      modifies this`audioBuffer, this`bufferTimeOffset, transcriptBuffer`committedInBuffer
      ensures Value() == ChunkAtStep(old(Value()), time)
    {
      transcriptBuffer.PopCommitted(time);
      audioBuffer := SliceFrom(audioBuffer, Truncate(SamplesBetween(bufferTimeOffset, time)));
      bufferTimeOffset := time;
    }

    method Finish() returns (rest: Flushed)
      modifies this`bufferTimeOffset
      ensures rest == ToFlush(transcriptBuffer.buffer, sep)
      ensures Value() == old(Value()).(offset := old(bufferTimeOffset) + |audioBuffer| as real / 16000.0)
    {
      rest := ToFlush(transcriptBuffer.buffer, sep);
      bufferTimeOffset := bufferTimeOffset + |audioBuffer| as real / 16000.0;
    }
  }

  // ---- whole runs ----

  datatype Event = Audio(samples: seq<int>) | Iter(words: seq<Word>, ends: seq<real>)

  function Step(s: Online, trimSeconds: real, e: Event): (Online, seq<Word>) {
    match e
    case Audio(samples) => (s.(audio := s.audio + samples), [])
    case Iter(words, ends) => IterStep(s, trimSeconds, words, ends)
  }

  function Run(offset: real, trimSeconds: real, events: seq<Event>): Online {
    if events == [] then Fresh(offset)
    else Step(Run(offset, trimSeconds, events[..|events| - 1]), trimSeconds, events[|events| - 1]).0
  }

  /** The words each event confirmed. */
  function Confirmed(offset: real, trimSeconds: real, events: seq<Event>): seq<seq<Word>> {
    if events == [] then []
    else
      var init := events[..|events| - 1];
      Confirmed(offset, trimSeconds, init) + [Step(Run(offset, trimSeconds, init), trimSeconds, events[|events| - 1]).1]
  }

  function AllAudio(events: seq<Event>): seq<int> {
    if events == [] then []
    else AllAudio(events[..|events| - 1]) + if events[|events| - 1].Audio? then events[|events| - 1].samples else []
  }

  ghost predicate IsSuffix<T>(a: seq<T>, b: seq<T>) {
    |a| <= |b| && a == b[|b| - |a|..]
  }

  lemma SuffixAppend<T>(a: seq<T>, b: seq<T>, c: seq<T>)
    requires IsSuffix(a, b)
    ensures IsSuffix(a + c, b + c)
  {
    assert (b + c)[|b| - |a|..] == b[|b| - |a|..] + c;
  }

  lemma {:induction false} DropEndedIsSuffix(words: seq<Word>, time: real)
    ensures IsSuffix(DropEnded(words, time), words)
  {
    if words != [] && words[0].end <= time {
      DropEndedIsSuffix(words[1..], time);
    }
  }

  lemma SuffixTransitive<T>(a: seq<T>, b: seq<T>, c: seq<T>)
    requires IsSuffix(a, b) && IsSuffix(b, c)
    ensures IsSuffix(a, c)
  {
    assert b[|b| - |a|..] == c[|c| - |b|..][|b| - |a|..];
  }

  ghost predicate Inv(s: Online, all: seq<int>, offset: real) {
    && IsSuffix(s.buffer.committedInBuffer, s.committed)
    && IsSuffix(s.audio, all)
    && s.buffer.added == []
    && s.buffer.lastCommittedTime == EndOf(s.committed, offset)
  }

  lemma ConfirmKeepsInv(s: Online, words: seq<Word>, all: seq<int>, offset: real)
    requires Inv(s, all, offset)
    ensures Inv(ConfirmStep(s, words).0, all, offset)
  {
    SuffixAppend(s.buffer.committedInBuffer, s.committed, ConfirmStep(s, words).1);
  }

  lemma TrimKeepsInv(s: Online, ends: seq<real>, all: seq<int>, offset: real)
    requires Inv(s, all, offset)
    ensures Inv(TrimStep(s, ends), all, offset)
  {
    if CutPoint(s, ends).Some? {
      var e := CutPoint(s, ends).value;
      DropEndedIsSuffix(s.buffer.committedInBuffer, e);
      SuffixTransitive(DropEnded(s.buffer.committedInBuffer, e), s.buffer.committedInBuffer, s.committed);
      var audio := SliceFrom(s.audio, Truncate(SamplesBetween(s.offset, e)));
      SuffixTransitive(audio, s.audio, all);
    }
  }

  lemma StepKeepsInv(s: Online, trimSeconds: real, e: Event, all: seq<int>, offset: real)
    requires Inv(s, all, offset)
    ensures Inv(Step(s, trimSeconds, e).0, all + if e.Audio? then e.samples else [], offset)
    ensures Step(s, trimSeconds, e).0.committed == s.committed + Step(s, trimSeconds, e).1
  {
    match e
    case Audio(samples) =>
      SuffixAppend(s.audio, all, samples);
    case Iter(words, ends) =>
      assert all + [] == all;
      ConfirmKeepsInv(s, words, all, offset);
      TrimKeepsInv(ConfirmStep(s, words).0, ends, all, offset);
  }

  lemma {:induction false} RunKeepsInv(offset: real, trimSeconds: real, events: seq<Event>)
    ensures Inv(Run(offset, trimSeconds, events), AllAudio(events), offset)
    ensures Flatten(Confirmed(offset, trimSeconds, events)) == Run(offset, trimSeconds, events).committed
  {
    if events != [] {
      var init, last := events[..|events| - 1], events[|events| - 1];
      RunKeepsInv(offset, trimSeconds, init);
      var s := Run(offset, trimSeconds, init);
      FlattenSnoc(Confirmed(offset, trimSeconds, init), Step(s, trimSeconds, last).1);
      StepKeepsInv(s, trimSeconds, last, AllAudio(init), offset);
    }
  }

  /** In every run: the committed words still in the buffer are a suffix of all committed
      words, the audio buffer is a suffix of all audio received, and the words returned by the
      iterations are, in order, exactly the committed words. */
  lemma {:induction false} RunIsConsistent(offset: real, trimSeconds: real, events: seq<Event>)
    ensures var s := Run(offset, trimSeconds, events);
            && IsSuffix(s.buffer.committedInBuffer, s.committed)
            && IsSuffix(s.audio, AllAudio(events))
            && Flatten(Confirmed(offset, trimSeconds, events)) == s.committed
  {
    RunKeepsInv(offset, trimSeconds, events);
  }

  /** The texts of the non-empty parts, joined by the separator as a consumer would. */
  function JoinParts(parts: seq<seq<Word>>, sep: string): string {
    if parts == [] then ""
    else
      var before := JoinParts(parts[..|parts| - 1], sep);
      var last := parts[|parts| - 1];
      if last == [] then before
      else if Flatten(parts[..|parts| - 1]) == [] then ToFlush(last, sep).text
      else before + sep + ToFlush(last, sep).text
  }

  lemma {:induction false} JoinTextsAppend(a: seq<Word>, b: seq<Word>, sep: string)
    requires a != [] && b != []
    ensures JoinTexts(a + b, sep) == JoinTexts(a, sep) + sep + JoinTexts(b, sep)
    ensures |a| == 1 ==> JoinTexts(a, sep) == a[0].text
  {
    if |a| == 1 {
      assert (a + b)[1..] == b;
    } else {
      assert (a + b)[1..] == a[1..] + b;
      JoinTextsAppend(a[1..], b, sep);
    }
  }

  lemma JoinLast(all: seq<Word>, last: seq<Word>, before: string, sep: string)
    requires before == JoinTexts(all, sep)
    ensures JoinTexts(all + last, sep) ==
            if last == [] then before
            else if all == [] then ToFlush(last, sep).text else before + sep + ToFlush(last, sep).text
  {
    if last == [] {
      assert all + last == all;
    } else if all == [] {
      assert all + last == last;
    } else {
      JoinTextsAppend(all, last, sep);
    }
  }

  lemma {:induction false} JoinPartsIsJoinAll(parts: seq<seq<Word>>, sep: string)
    ensures JoinParts(parts, sep) == JoinTexts(Flatten(parts), sep)
  {
    if parts != [] {
      var init, last := parts[..|parts| - 1], parts[|parts| - 1];
      JoinPartsIsJoinAll(init, sep);
      FlattenSnoc(init, last);
      JoinLast(Flatten(init), last, JoinParts(init, sep), sep);
      assert parts == init + [last];
    }
  }

  /** Joining the texts returned by the iterations, and then the text of finish, gives the
      joined text of all committed words and then exactly the words not yet committed. */
  lemma ReturnedTextIsComplete(offset: real, trimSeconds: real, events: seq<Event>, sep: string)
    ensures var s := Run(offset, trimSeconds, events);
            var parts := Confirmed(offset, trimSeconds, events);
            && JoinParts(parts, sep) == JoinTexts(s.committed, sep)
            && JoinParts(parts + [s.buffer.buffer], sep) == JoinTexts(s.committed + s.buffer.buffer, sep)
  {
    var s := Run(offset, trimSeconds, events);
    var parts := Confirmed(offset, trimSeconds, events);
    RunKeepsInv(offset, trimSeconds, events);
    JoinPartsIsJoinAll(parts, sep);
    JoinPartsIsJoinAll(parts + [s.buffer.buffer], sep);
    FlattenSnoc(parts, s.buffer.buffer);
  }

  /** A flush confirms the longest run of words whose texts the previous insert also had, and
      keeps the others for the next comparison. */
  lemma {:induction false} FlushConfirmsAgreement(b: Buffer)
    ensures var r := FlushStep(b);
            && b.added == r.1 + r.0.buffer && |r.1| <= |b.buffer|
            && (forall i | 0 <= i < |r.1| :: r.1[i].text == b.buffer[i].text)
            && (r.0.buffer != [] && |r.1| < |b.buffer| ==> r.0.buffer[0].text != b.buffer[|r.1|].text)
  {
    AgreementSpec(b.added, b.buffer);
  }

  lemma {:induction false} AgreementSpec(words: seq<Word>, previous: seq<Word>)
    ensures var n := Agreement(words, previous);
            && (forall i | 0 <= i < n :: words[i].text == previous[i].text)
            && (n < |words| && n < |previous| ==> words[n].text != previous[n].text)
  {
    if words != [] && previous != [] && words[0].text == previous[0].text {
      AgreementSpec(words[1..], previous[1..]);
      var n := Agreement(words, previous);
      forall i | 0 <= i < n ensures words[i].text == previous[i].text {
        if i > 0 {
          assert words[1..][i - 1].text == previous[1..][i - 1].text;
        }
      }
    }
  }

  ghost predicate Candidate(s: Online, ends: seq<real>, k: int) {
    s.committed != [] && 0 <= k < |ends| - 1 && ends[k] + s.offset <= s.committed[|s.committed| - 1].end
  }

  lemma {:induction false} LastEndSpec(ends: seq<real>, offset: real, t: real, k: nat)
    requires k < |ends|
    ensures match LastEndWithin(ends, offset, t, k)
            case Some(e) => exists i :: 0 <= i <= k && e == ends[i] + offset <= t && (forall j | i < j <= k :: ends[j] + offset > t)
            case None => forall j | 0 <= j <= k :: ends[j] + offset > t
  {
    if ends[k] + offset > t && k > 0 {
      LastEndSpec(ends, offset, t, k - 1);
    }
  }

  /** A trim happens exactly when some segment end but the final one is not past the last
      committed word, never cuts past that word, and with sorted ends cuts at the latest such end. */
  lemma TrimCutsAtLatestCommittedEnd(s: Online, ends: seq<real>)
    ensures CutPoint(s, ends).Some? <==> exists k :: Candidate(s, ends, k)
    ensures CutPoint(s, ends).Some? ==>
              var e := CutPoint(s, ends).value;
              && e <= s.committed[|s.committed| - 1].end
              && TrimStep(s, ends).offset == e
              && (exists k :: Candidate(s, ends, k) && e == ends[k] + s.offset)
              && ((forall i, j | 0 <= i < j < |ends| :: ends[i] <= ends[j]) ==>
                    forall k | Candidate(s, ends, k) :: ends[k] + s.offset <= e)
  {
    if s.committed != [] && |ends| > 1 {
      var t := s.committed[|s.committed| - 1].end;
      LastEndSpec(ends, s.offset, t, |ends| - 2);
      if CutPoint(s, ends).Some? {
        var e := CutPoint(s, ends).value;
        var i :| 0 <= i <= |ends| - 2 && e == ends[i] + s.offset <= t && (forall j | i < j <= |ends| - 2 :: ends[j] + s.offset > t);
        assert Candidate(s, ends, i);
        assert forall k | Candidate(s, ends, k) :: ends[k] + s.offset <= t && k <= i;
      }
    }
  }

  // ---- the clock ----

  /** Samples by which offset and buffer together run ahead of the audio received. */
  function Drift(s: Online, all: seq<int>, offset: real): real {
    (s.offset - offset) * SAMPLING_RATE as real + |s.audio| as real - |all| as real
  }

  /** The length of audio a cut asks to be removed, in samples. */
  function CutLength(s: Online, time: real): real {
    SamplesBetween(s.offset, time)
  }

  /** The cut falls inside the audio there is. */
  predicate InRange(s: Online, time: real) {
    0.0 <= CutLength(s, time) <= |s.audio| as real
  }

  /** How much further a cut out of range moves the offset than it removes audio. Past the
      end, all audio goes. Before the start, k whole samples are taken for the last k. */
  function Overshoot(s: Online, time: real): real {
    var cut := CutLength(s, time);
    if cut > |s.audio| as real then cut - |s.audio| as real
    else if cut >= 0.0 then 0.0
    else
      var k := (-cut).Floor;
      if k == 0 || k > |s.audio| then cut else cut - (|s.audio| - k) as real
  }

  datatype Trims = Trims(inRange: nat, overshoot: real)

  /** The trims of a run: how many fell inside the audio, and by how much the others overshot. */
  function TrimsOf(offset: real, trimSeconds: real, events: seq<Event>): Trims {
    if events == [] then Trims(0, 0.0)
    else
      var init, last := events[..|events| - 1], events[|events| - 1];
      var before := TrimsOf(offset, trimSeconds, init);
      var s := Run(offset, trimSeconds, init);
      if last.Iter? && LongerThan(s, trimSeconds) then AddTrim(before, ConfirmStep(s, last.words).0, last.ends)
      else before
  }

  function AddTrim(before: Trims, s: Online, ends: seq<real>): Trims {
    match CutPoint(s, ends)
    case None => before
    case Some(time) =>
      Trims(before.inRange + if InRange(s, time) then 1 else 0, before.overshoot + Overshoot(s, time))
  }

  /** A cut in range gains less than one sample, any other exactly its overshoot. */
  lemma ChunkDrift(s: Online, time: real, all: seq<int>, offset: real)
    ensures var gain := Drift(ChunkAtStep(s, time), all, offset) - Drift(s, all, offset);
            if InRange(s, time) then Overshoot(s, time) == 0.0 <= gain < 1.0 else gain == Overshoot(s, time)
  {
    var cut := CutLength(s, time);
    var k := Truncate(cut);
    assert (time - offset) * SAMPLING_RATE as real == (s.offset - offset) * SAMPLING_RATE as real + cut;
    if cut >= 0.0 {
      assert k as real <= cut < k as real + 1.0;
      assert |SliceFrom(s.audio, k)| == if k >= |s.audio| then 0 else |s.audio| - k;
    } else {
      assert k == -((-cut).Floor);
    }
  }

  /** For every run and any trims: offset and buffer length together run ahead of the audio
      received by the overshoot of the trims out of range, and by less than one sample more
      for every trim in range. */
  lemma {:induction false} ClockDriftIsBounded(offset: real, trimSeconds: real, events: seq<Event>)
    ensures var d := Drift(Run(offset, trimSeconds, events), AllAudio(events), offset);
            var t := TrimsOf(offset, trimSeconds, events);
            t.overshoot <= d <= t.overshoot + t.inRange as real && (t.inRange > 0 ==> d < t.overshoot + t.inRange as real)
  {
    if events != [] {
      var init, last := events[..|events| - 1], events[|events| - 1];
      ClockDriftIsBounded(offset, trimSeconds, init);
      var s := Run(offset, trimSeconds, init);
      if last.Iter? && LongerThan(s, trimSeconds) {
        var c := ConfirmStep(s, last.words).0;
        if CutPoint(c, last.ends).Some? {
          ChunkDrift(c, CutPoint(c, last.ends).value, AllAudio(init), offset);
        }
      }
    }
  }

  const ONE_SECOND_WORD := Word(0.0, 1.0, "a")

  /** Such a run: a word is confirmed that claims to end a second into audio of one sample.
      The cut after it removes that sample and moves the clock by a second. */
  lemma CutPastTheAudioMovesTheClock()
    ensures var events := [Audio([0]), Iter([ONE_SECOND_WORD], []), Iter([ONE_SECOND_WORD], [1.0, 2.0])];
            var s := Run(0.0, 0.0, events);
            && s.audio == [] && s.offset == 1.0
            && Drift(s, AllAudio(events), 0.0) == 15_999.0 == TrimsOf(0.0, 0.0, events).overshoot
  {
    var w := ONE_SECOND_WORD;
    var events := [Audio([0]), Iter([w], []), Iter([w], [1.0, 2.0])];
    var s0, s1 := Fresh(0.0), Online(Buffer([], [], [], 0.0), [0], 0.0, []);
    assert events[..0] == [] && events[..3] == events;
    assert s0.audio + [0] == [0] && [] + [0] == [0] && [0] + [] == [0];
    RunPrefix(0.0, 0.0, events, 0);
    assert Run(0.0, 0.0, events[..1]) == s1;
    HeardAgain(s1, w);
    RunPrefix(0.0, 0.0, events, 1);
    var s2 := s1.(buffer := Buffer([], [w], [], 0.0));
    assert Run(0.0, 0.0, events[..2]) == s2;
    RunPrefix(0.0, 0.0, events, 2);
    ConfirmedAgain(s2, w);
    CutAfterOneSecond(ConfirmStep(s2, [w]).0, w);
  }

  lemma RunPrefix(offset: real, trimSeconds: real, events: seq<Event>, n: nat)
    requires n < |events|
    ensures var s, e := Run(offset, trimSeconds, events[..n]), events[n];
            && Run(offset, trimSeconds, events[..n + 1]) == Step(s, trimSeconds, e).0
            && AllAudio(events[..n + 1]) == AllAudio(events[..n]) + (if e.Audio? then e.samples else [])
            && TrimsOf(offset, trimSeconds, events[..n + 1]) ==
               if e.Iter? && LongerThan(s, trimSeconds)
               then AddTrim(TrimsOf(offset, trimSeconds, events[..n]), ConfirmStep(s, e.words).0, e.ends)
               else TrimsOf(offset, trimSeconds, events[..n])
  {
    assert events[..n + 1][..n] == events[..n];
  }

  lemma CutAfterOneSecond(c: Online, w: Word)
    requires w == ONE_SECOND_WORD && c == Online(Buffer([w], [], [], 1.0), [0], 0.0, [w])
    ensures CutPoint(c, [1.0, 2.0]) == Some(1.0)
    ensures TrimStep(c, [1.0, 2.0]).audio == [] && TrimStep(c, [1.0, 2.0]).offset == 1.0
    ensures AddTrim(Trims(0, 0.0), c, [1.0, 2.0]) == Trims(0, 15_999.0)
  {
    assert LastEndWithin([1.0, 2.0], 0.0, 1.0, 0) == Some(1.0);
    assert CutLength(c, 1.0) == 16_000.0;
  }

  lemma NewWords(w: Word)
    requires w == ONE_SECOND_WORD
    ensures StartingAfter(Shift([w], 0.0), 0.0 - 0.1) == [w]
  {
    assert Shift([w], 0.0) == [w];
    assert [w][1..] == [] && [w] + [] == [w];
  }

  lemma HeardAgain(s: Online, w: Word)
    requires s == Online(Buffer([], [], [], 0.0), [0], 0.0, []) && w == ONE_SECOND_WORD
    ensures IterStep(s, 0.0, [w], []) == (Online(Buffer([], [w], [], 0.0), [0], 0.0, []), [])
  {
    NewWords(w);
    assert Agreement([w], []) == 0 && [w][..0] == [] && [w][0..] == [w];
  }

  lemma ConfirmedAgain(s: Online, w: Word)
    requires s == Online(Buffer([], [w], [], 0.0), [0], 0.0, []) && w == ONE_SECOND_WORD
    ensures ConfirmStep(s, [w]) == (Online(Buffer([w], [], [], 1.0), [0], 0.0, [w]), [w])
  {
    NewWords(w);
    assert [w][1..] == [] && Agreement([w], [w]) == 1 && [w][..1] == [w] && [] + [w] == [w];
  }

  // ---- what an insert keeps ----

  /** Selecting the words that start late enough is word by word, in order. */
  lemma {:induction false} StartingAfterAppend(a: seq<Word>, b: seq<Word>, time: real)
    ensures StartingAfter(a + b, time) == StartingAfter(a, time) + StartingAfter(b, time)
    ensures |a| == 1 ==> StartingAfter(a, time) == if a[0].beg > time then a else []
  {
    if a == [] {
      assert a + b == b;
    } else {
      assert (a + b)[1..] == a[1..] + b;
      StartingAfterAppend(a[1..], b, time);
    }
  }

  /** The words of a transcription, on the clock of the stream. */
  ghost predicate OnTheClock(shifted: seq<Word>, words: seq<Word>, offset: real) {
    && |shifted| == |words|
    && forall i | 0 <= i < |words| ::
         && shifted[i].text == words[i].text && shifted[i].beg == words[i].beg + offset
         && shifted[i].end - shifted[i].beg == words[i].end - words[i].beg
  }

  /** The first n words read like the last n committed ones, and no fewer than n do; n is 0 if
      that is so of no number up to 5. */
  ghost predicate ShortestRepeat(committed: seq<Word>, words: seq<Word>, n: nat) {
    && n <= 5 && n <= |committed| && n <= |words|
    && (n > 0 ==> Repeats(committed, words, n))
    && (forall i | 1 <= i <= 5 && i <= |committed| && i <= |words| && (n == 0 || i < n) :: !Repeats(committed, words, i))
  }

  lemma {:induction false} RepeatedFromSpec(committed: seq<Word>, words: seq<Word>, i: nat, limit: nat)
    requires i >= 1 && limit <= |committed| && limit <= |words|
    ensures var n := RepeatedFrom(committed, words, i, limit);
            && (n > 0 ==> i <= n && Repeats(committed, words, n))
            && (forall j | i <= j <= limit && (n == 0 || j < n) :: !Repeats(committed, words, j))
    decreases limit + 1 - i
  {
    if i <= limit && !Repeats(committed, words, i) {
      RepeatedFromSpec(committed, words, i + 1, limit);
    }
  }

  lemma ShortestIs(committed: seq<Word>, words: seq<Word>)
    ensures var n := RepeatedFrom(committed, words, 1, Least(Least(|committed|, |words|), 5));
            ShortestRepeat(committed, words, n) && DropRepeated(committed, words) == words[n..]
  {
    RepeatedFromSpec(committed, words, 1, Least(Least(|committed|, |words|), 5));
  }

  /** What becomes of the recent words. */
  ghost predicate Kept(b: Buffer, recent: seq<Word>, n: nat) {
    if recent != [] && b.committedInBuffer != [] && -1.0 < recent[0].beg - b.lastCommittedTime < 1.0
    then ShortestRepeat(b.committedInBuffer, recent, n) else n == 0
  }

  lemma KeptAfter(b: Buffer, recent: seq<Word>) returns (n: nat)
    ensures n <= |recent| && Kept(b, recent, n)
    ensures recent[n..] == Unrepeated(b, recent)
  {
    n := 0;
    assert recent[0..] == recent;
    if recent != [] && b.committedInBuffer != [] && -1.0 < recent[0].beg - b.lastCommittedTime < 1.0 {
      ShortestIs(b.committedInBuffer, recent);
      n := RepeatedFrom(b.committedInBuffer, recent, 1, Least(Least(|b.committedInBuffer|, |recent|), 5));
    }
  }

  /** For every buffer and transcription: an insert keeps the words that start less than 0.1
      seconds before the last committed time or later, on the clock of the stream; and if the
      first of these is within a second of that time, it drops the shortest n-gram of up to
      five words that the committed words end with. */
  lemma InsertSpec(b: Buffer, words: seq<Word>, offset: real) returns (shifted: seq<Word>, recent: seq<Word>, n: nat)
    ensures OnTheClock(shifted, words, offset) && recent == StartingAfter(shifted, b.lastCommittedTime - 0.1)
    ensures n <= |recent| && Kept(b, recent, n) && InsertStep(b, words, offset) == b.(added := recent[n..])
  {
    shifted := Shift(words, offset);
    recent := StartingAfter(shifted, b.lastCommittedTime - 0.1);
    n := KeptAfter(b, recent);
  }

  /** Exactly the leading words that end by the time are dropped. */
  lemma {:induction false} DropEndedSpec(words: seq<Word>, time: real)
    ensures var rest := DropEnded(words, time);
            && IsSuffix(rest, words)
            && (forall i | 0 <= i < |words| - |rest| :: words[i].end <= time)
            && (rest != [] ==> rest[0].end > time)
  {
    if words != [] && words[0].end <= time {
      DropEndedSpec(words[1..], time);
    }
  }

  /** In every run, what an iteration returns: nothing when it confirmed nothing; otherwise the
      begin of the first and the end of the last word confirmed, which is the new last
      committed time. */
  lemma ReturnedInterval(offset: real, trimSeconds: real, events: seq<Event>, words: seq<Word>, ends: seq<real>, sep: string)
    ensures var s := Run(offset, trimSeconds, events);
            var r := IterStep(s, trimSeconds, words, ends);
            var confirmed := ToFlush(r.1, sep);
            && r.0.committed == s.committed + r.1
            && (r.1 == [] ==> confirmed == Flushed(None, None, ""))
            && (r.1 != [] ==>
                  && confirmed.beg == Some(r.0.committed[|s.committed|].beg)
                  && confirmed.end == Some(r.0.buffer.lastCommittedTime)
                  && r.0.committed[|r.0.committed| - 1].end == r.0.buffer.lastCommittedTime)
  {
    var s := Run(offset, trimSeconds, events);
    RunKeepsInv(offset, trimSeconds, events);
    StepKeepsInv(s, trimSeconds, Iter(words, ends), AllAudio(events), offset);
    if IterStep(s, trimSeconds, words, ends).1 != [] {
      IntervalOf(s.committed, IterStep(s, trimSeconds, words, ends).1);
    }
  }

  lemma IntervalOf(before: seq<Word>, confirmed: seq<Word>)
    requires confirmed != []
    ensures (before + confirmed)[|before|] == confirmed[0]
    ensures (before + confirmed)[|before + confirmed| - 1] == confirmed[|confirmed| - 1]
  {}

  /** The audio is trimmed only when it is longer than the limit. */
  lemma TrimsOnlyLongAudio(s: Online, trimSeconds: real, words: seq<Word>, ends: seq<real>)
    ensures var c := ConfirmStep(s, words).0;
            IterStep(s, trimSeconds, words, ends).0 == if |s.audio| as real > trimSeconds * 16_000.0 then TrimStep(c, ends) else c
    ensures ConfirmStep(s, words).0.audio == s.audio && ConfirmStep(s, words).0.offset == s.offset
  {}
}
