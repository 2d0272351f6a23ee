/** Bounded line reading over a buffered reader: the worker's `read_bounded_line`
    (crates/openwhisper-worker-native/src/main.rs) and the engine host's
    (src-tauri/src/engine.rs). */
module Lines {
  import opened Prelude

  const NEWLINE: Byte := 10
  const MAX_WORKER_MESSAGE_BYTES := 1024 * 1024
  const MAX_ENGINE_FRAME_BYTES := 8 * 1024 * 1024

  /** A buffered reader: what fill_buf will return, buffer by buffer, until the end. */
  class Reader {
    var buffers: seq<seq<Byte>>

    ghost predicate Valid()
      reads this
    {
      forall i | 0 <= i < |buffers| :: buffers[i] != []
    }

    ghost function Contents(): seq<Byte>
      reads this
    {
      Flatten(buffers)
    }

    constructor (buffers: seq<seq<Byte>>)
      requires forall i | 0 <= i < |buffers| :: buffers[i] != []
      ensures Valid() && this.buffers == buffers
    {
      this.buffers := buffers;
    }

    method FillBuf() returns (available: seq<Byte>)
      requires Valid()
      ensures available <= Contents()
      ensures available == [] <==> Contents() == []
      ensures buffers == [] ==> available == []
      ensures buffers != [] ==> available == buffers[0]
    {
      available := if buffers == [] then [] else buffers[0];
    }

    method Consume(n: nat)
      requires Valid() && (n > 0 ==> buffers != [] && n <= |buffers[0]|)
      modifies this
      ensures Valid() && n <= |old(Contents())| && Contents() == old(Contents())[n..]
    {
      if n > 0 {
        if n == |buffers[0]| {
          buffers := buffers[1..];
        } else {
          buffers := [buffers[0][n..]] + buffers[1..];
        }
      }
    }
  }

  lemma {:induction false} LineLengthIs(s: seq<Byte>, n: nat)
    requires n <= |s| && NEWLINE !in s[..n] && (n < |s| ==> s[n] == NEWLINE)
    ensures LineLength(s, NEWLINE) == n
  {
    if n > 0 {
      assert s[..n][0] != NEWLINE && s[1..][..n - 1] == s[..n][1..];
      LineLengthIs(s[1..], n - 1);
    }
  }

  /** The stream is `done`, which has no newline, and then `rest`. */
  ghost predicate Reading(stream: seq<Byte>, done: seq<Byte>, rest: seq<Byte>) {
    stream == done + rest && NEWLINE !in done
  }

  lemma ReadingMore(stream: seq<Byte>, done: seq<Byte>, rest: seq<Byte>, available: seq<Byte>)
    requires Reading(stream, done, rest) && available <= rest && LineLength(available, NEWLINE) == |available|
    ensures Reading(stream, done + available, rest[|available|..])
  {
    assert available[..|available|] == available == rest[..|available|];
    SplitAfter(done, rest, |available|);
  }

  lemma SplitAfter(a: seq<Byte>, b: seq<Byte>, n: nat)
    requires n <= |b|
    ensures a + b == a + b[..n] + b[n..]
  {}

  lemma CutAtNewline(line: seq<Byte>, tail: seq<Byte>)
    requires NEWLINE !in line
    ensures var s := line + [NEWLINE] + tail;
            LineLength(s, NEWLINE) == |line| && s[..|line|] == line && s[|line| + 1..] == tail
  {
    var s := line + [NEWLINE] + tail;
    assert s[..|line|] == line;
    LineLengthIs(s, |line|);
  }

  lemma LineInBuffer(rest: seq<Byte>, available: seq<Byte>, n: nat)
    requires available <= rest && n == LineLength(available, NEWLINE) < |available|
    ensures NEWLINE !in available[..n]
    ensures available[..n + 1] == available[..n] + [NEWLINE]
    ensures rest == available[..n] + [NEWLINE] + rest[n + 1..]
  {
    CutAt(rest, available, n);
  }

  lemma CutAt(rest: seq<Byte>, available: seq<Byte>, n: nat)
    requires available <= rest && n < |available|
    ensures available[..n + 1] == available[..n] + [available[n]]
    ensures rest == available[..n] + [available[n]] + rest[n + 1..]
  {}

  lemma ReadingLine(stream: seq<Byte>, done: seq<Byte>, rest: seq<Byte>, available: seq<Byte>, n: nat)
    requires Reading(stream, done, rest) && available <= rest && n == LineLength(available, NEWLINE) < |available|
    ensures LineLength(stream, NEWLINE) == |done| + n < |stream|
    ensures stream[..|done| + n] == done + available[..n]
    ensures stream[|done| + n + 1..] == rest[n + 1..]
    ensures stream == done + available[..n + 1] + rest[n + 1..]
  {
    LineInBuffer(rest, available, n);
    var line, tail := done + available[..n], rest[n + 1..];
    Reassociate(done, available[..n], [NEWLINE], tail);
    assert stream == line + [NEWLINE] + tail;
    CutAtNewline(line, tail);
  }

  lemma Reassociate(a: seq<Byte>, b: seq<Byte>, c: seq<Byte>, d: seq<Byte>)
    ensures a + (b + c + d) == (a + b) + c + d
    ensures a + (b + c) + d == (a + b) + c + d
  {}

  lemma ReadingEnd(stream: seq<Byte>, done: seq<Byte>)
    requires Reading(stream, done, [])
    ensures stream == done && LineLength(stream, NEWLINE) == |stream|
  {
    assert done + [] == done && stream[..|stream|] == stream;
    LineLengthIs(stream, |stream|);
  }

  // ---- UTF-8 ----

  predicate IsContinuation(b: Byte) {
    0x80 <= b <= 0xBF
  }

  /** Well-formed UTF-8 (section 4 of RFC 3629). */
  predicate IsUtf8(s: seq<Byte>) {
    || s == []
    || (s[0] < 0x80 && IsUtf8(s[1..]))
    || (|s| > 1 && 0xC2 <= s[0] <= 0xDF && IsContinuation(s[1]) && IsUtf8(s[2..]))
    || (&& |s| > 2 && 0xE0 <= s[0] <= 0xEF && IsContinuation(s[1]) && IsContinuation(s[2])
        && (s[0] == 0xE0 ==> s[1] >= 0xA0) && (s[0] == 0xED ==> s[1] < 0xA0) && IsUtf8(s[3..]))
    || (&& |s| > 3 && 0xF0 <= s[0] <= 0xF4 && IsContinuation(s[1]) && IsContinuation(s[2]) && IsContinuation(s[3])
        && (s[0] == 0xF0 ==> s[1] >= 0x90) && (s[0] == 0xF4 ==> s[1] < 0x90) && IsUtf8(s[4..]))
  }

  // ---- the worker's reader ----

  /** `NotUtf8` is the I/O error that ends the worker. */
  datatype WorkerLine = EndOfInput | TooLong | NotUtf8 | Line(bytes: seq<Byte>)

  datatype Taken<+R> = Taken(result: R, rest: seq<Byte>)

  function Report(line: seq<Byte>): WorkerLine {
    if |line| > MAX_WORKER_MESSAGE_BYTES then TooLong else if IsUtf8(line) then Line(line) else NotUtf8
  }

  /** The next line of a whole stream, with no buffers in sight. */
  function NextLine(stream: seq<Byte>): Taken<WorkerLine> {
    if stream == [] then Taken(EndOfInput, [])
    else
      var n := LineLength(stream, NEWLINE);
      Taken(Report(stream[..n]), if n < |stream| then stream[n + 1..] else [])
  }

  lemma NextLineIs(stream: seq<Byte>, n: nat, line: seq<Byte>, rest: seq<Byte>)
    requires stream != [] && n == LineLength(stream, NEWLINE) && stream[..n] == line
    requires rest == if n < |stream| then stream[n + 1..] else []
    ensures NextLine(stream) == Taken(Report(line), rest)
  {
    NextLineOf(stream);
  }

  lemma NextLineOf(stream: seq<Byte>)
    requires stream != []
    ensures var n := LineLength(stream, NEWLINE);
            NextLine(stream) == Taken(Report(stream[..n]), if n < |stream| then stream[n + 1..] else [])
  {}

  lemma NextLineAtNewline(stream: seq<Byte>, done: seq<Byte>, rest: seq<Byte>, available: seq<Byte>, n: nat)
    requires Reading(stream, done, rest) && available <= rest && n == LineLength(available, NEWLINE) < |available|
    ensures NextLine(stream) == Taken(Report(done + available[..n]), rest[n + 1..])
  {
    ReadingLine(stream, done, rest, available, n);
    NextLineIs(stream, |done| + n, done + available[..n], rest[n + 1..]);
  }

  lemma NextLineAtEnd(stream: seq<Byte>, done: seq<Byte>)
    requires Reading(stream, done, [])
    ensures NextLine(stream) == Taken(if done == [] then EndOfInput else Report(done), [])
  {
    ReadingEnd(stream, done);
    assert stream[..|stream|] == stream;
  }

  /** However the input is buffered, the line read is the next line of the stream: an
      over-long line or one that is not UTF-8 is consumed whole and reported once. */
  method ReadBoundedLine(reader: Reader) returns (line: WorkerLine)
    requires reader.Valid()
    modifies reader
    ensures reader.Valid()
    ensures Taken(line, reader.Contents()) == NextLine(old(reader.Contents()))
  {
    var bytes: seq<Byte> := [];
    var oversized := false;
    ghost var stream := reader.Contents();
    ghost var done: seq<Byte> := [];
    while true
      invariant reader.Valid()
      invariant Reading(stream, done, reader.Contents())
      invariant oversized == (|done| > MAX_WORKER_MESSAGE_BYTES)
      invariant !oversized ==> bytes == done
      decreases |reader.Contents()|
    {
      var available := reader.FillBuf();
      if available == [] {
        NextLineAtEnd(stream, done);
        if bytes == [] && !oversized {
          return EndOfInput;
        }
        break;
      }
      var take := LineLength(available, NEWLINE);
      if take < |available| {
        NextLineAtNewline(stream, done, reader.Contents(), available, take);
      } else {
        ReadingMore(stream, done, reader.Contents(), available);
      }
      if !oversized {
        if |bytes| + take > MAX_WORKER_MESSAGE_BYTES {
          oversized := true;
        } else {
          bytes := bytes + available[..take];
        }
      }
      done := done + available[..take];
      if take < |available| {
        reader.Consume(take + 1);
        break;
      }
      assert available[..take] == available;
      reader.Consume(take);
    }
    line := if oversized then TooLong else if IsUtf8(bytes) then Line(bytes) else NotUtf8;
  }

  /** The loop that reads lines; an error ends it. */
  function ReadLines(stream: seq<Byte>): seq<WorkerLine>
    decreases |stream|
  {
    if stream == [] then []
    else
      var t := NextLine(stream);
      [t.result] + if t.result.NotUtf8? then [] else ReadLines(t.rest)
  }

  function Unlines(lines: seq<seq<Byte>>): seq<Byte> {
    if lines == [] then [] else lines[0] + [NEWLINE] + Unlines(lines[1..])
  }

  /** One report per line, up to the first line that is not UTF-8. */
  function Reported(lines: seq<seq<Byte>>): seq<WorkerLine> {
    if lines == [] then []
    else [Report(lines[0])] + if Report(lines[0]).NotUtf8? then [] else Reported(lines[1..])
  }

  lemma ReadLinesFirst(line: seq<Byte>, rest: seq<Byte>)
    requires NEWLINE !in line
    ensures ReadLines(line + [NEWLINE] + rest) ==
            [Report(line)] + if Report(line).NotUtf8? then [] else ReadLines(rest)
  {
    CutAtNewline(line, rest);
    NextLineIs(line + [NEWLINE] + rest, |line|, line, rest);
  }

  lemma ReadLinesLast(last: seq<Byte>)
    requires NEWLINE !in last && last != []
    ensures ReadLines(last) == [Report(last)]
  {
    assert last[..|last|] == last;
    LineLengthIs(last, |last|);
    NextLineIs(last, |last|, last, []);
    assert ReadLines([]) == [];
  }

  /** A stream of lines is read back line by line, one report each, the ones after an
      over-long line intact, up to the first that is not UTF-8; a last line without a newline
      is read as well. */
  lemma {:induction false} LinesAreReadBack(lines: seq<seq<Byte>>, last: seq<Byte>)
    requires forall i | 0 <= i < |lines| :: NEWLINE !in lines[i]
    requires NEWLINE !in last
    ensures ReadLines(Unlines(lines) + last) == Reported(if last == [] then lines else lines + [last])
  {
    if lines == [] {
      assert Unlines(lines) + last == last;
      if last != [] {
        ReadLinesLast(last);
        assert lines + [last] == [last] && [last][1..] == [];
      }
    } else {
      var rest := Unlines(lines[1..]) + last;
      assert Unlines(lines) + last == lines[0] + [NEWLINE] + rest;
      ReadLinesFirst(lines[0], rest);
      LinesAreReadBack(lines[1..], last);
      assert (lines + [last])[1..] == lines[1..] + [last];
    }
  }

  /** Every line is reported exactly when none but the last is short enough and not UTF-8;
      otherwise nothing after the first such line is read. */
  lemma {:induction false} AllLinesReportedIff(lines: seq<seq<Byte>>)
    ensures |Reported(lines)| <= |lines|
    ensures forall i | 0 <= i < |Reported(lines)| :: Reported(lines)[i] == Report(lines[i])
    ensures |Reported(lines)| == |lines| <==> forall i | 0 <= i < |lines| - 1 :: !Report(lines[i]).NotUtf8?
  {
    if lines != [] {
      var rest := lines[1..];
      AllLinesReportedIff(rest);
      forall i | 0 <= i < |Reported(lines)| ensures Reported(lines)[i] == Report(lines[i]) {
        if i > 0 {
          assert Reported(lines)[i] == Reported(rest)[i - 1] && lines[i] == rest[i - 1];
        }
      }
      forall i | 0 < i < |lines| ensures lines[i] == rest[i - 1] {}
      if forall i | 0 <= i < |lines| - 1 :: !Report(lines[i]).NotUtf8? {
        forall i | 0 <= i < |rest| - 1 ensures !Report(rest[i]).NotUtf8? {
          assert rest[i] == lines[i + 1];
        }
      } else {
        var i :| 0 <= i < |lines| - 1 && Report(lines[i]).NotUtf8?;
        if i > 0 {
          assert rest[i - 1] == lines[i];
        }
      }
    }
  }

  // ---- the engine host's reader ----

  datatype EngineLine = Bytes(frame: seq<Byte>) | FrameTooLong

  /** The newline is kept and counted; nothing at the end of the stream reads as empty. */
  function NextFrame(stream: seq<Byte>): EngineLine {
    var n := LineLength(stream, NEWLINE);
    var frame := if n < |stream| then stream[..n + 1] else stream;
    if |frame| > MAX_ENGINE_FRAME_BYTES + 1 then FrameTooLong else Bytes(frame)
  }

  lemma NextFrameAtNewline(stream: seq<Byte>, done: seq<Byte>, rest: seq<Byte>, available: seq<Byte>, n: nat)
    requires Reading(stream, done, rest) && available <= rest && n == LineLength(available, NEWLINE) < |available|
    ensures NextFrame(stream) == if |done| + n > MAX_ENGINE_FRAME_BYTES then FrameTooLong else Bytes(done + available[..n + 1])
  {
    ReadingLine(stream, done, rest, available, n);
    assert stream[..|done| + n + 1] == done + available[..n + 1];
  }

  lemma NextFrameAtEnd(stream: seq<Byte>, done: seq<Byte>)
    requires Reading(stream, done, [])
    ensures NextFrame(stream) == if |done| > MAX_ENGINE_FRAME_BYTES + 1 then FrameTooLong else Bytes(done)
  {
    ReadingEnd(stream, done);
  }

  lemma NextFrameTooLong(stream: seq<Byte>, done: seq<Byte>, rest: seq<Byte>)
    requires Reading(stream, done, rest) && |done| > MAX_ENGINE_FRAME_BYTES + 1
    ensures NextFrame(stream) == FrameTooLong
  {
    var k := LineLength(stream, NEWLINE);
    assert k < |stream| ==> stream[k] !in done;
    assert forall i | 0 <= i < |done| :: stream[i] in done;
  }

  method ReadEngineLine(reader: Reader) returns (line: EngineLine)
    requires reader.Valid()
    modifies reader
    ensures reader.Valid()
    ensures line == NextFrame(old(reader.Contents()))
    ensures line.Bytes? ==> old(reader.Contents()) == line.frame + reader.Contents()
  {
    var output: seq<Byte> := [];
    ghost var stream := reader.Contents();
    while true
      invariant reader.Valid()
      invariant Reading(stream, output, reader.Contents())
      invariant |output| <= MAX_ENGINE_FRAME_BYTES + 1
      decreases |reader.Contents()|
    {
      var available := reader.FillBuf();
      if available == [] {
        NextFrameAtEnd(stream, output);
        return Bytes(output);
      }
      var position := LineLength(available, NEWLINE);
      var take := if position < |available| then position + 1 else position;
      if position < |available| {
        ReadingLine(stream, output, reader.Contents(), available, position);
        NextFrameAtNewline(stream, output, reader.Contents(), available, position);
      } else {
        assert available[..take] == available;
        ReadingMore(stream, output, reader.Contents(), available);
      }
      if |output| + take > MAX_ENGINE_FRAME_BYTES + 1 {
        if position == |available| {
          NextFrameTooLong(stream, output + available, reader.Contents()[take..]);
        }
        return FrameTooLong;
      }
      output := output + available[..take];
      reader.Consume(take);
      if position < |available| {
        return Bytes(output);
      }
    }
  }

  // ---- what a line is ----

  /** A Unicode scalar value. */
  predicate IsScalar(n: nat) {
    n < 0xD800 || 0xE000 <= n < 0x11_0000
  }

  /** Its encoding: one to four bytes, six bits in each continuation byte. */
  function EncodeScalar(n: nat): seq<Byte>
    requires IsScalar(n)
  {
    if n < 0x80 then [n]
    else if n < 0x800 then [0xC0 + n / 0x40, 0x80 + n % 0x40]
    else if n < 0x1_0000 then [0xE0 + n / 0x1000, 0x80 + n / 0x40 % 0x40, 0x80 + n % 0x40]
    else [0xF0 + n / 0x4_0000, 0x80 + n / 0x1000 % 0x40, 0x80 + n / 0x40 % 0x40, 0x80 + n % 0x40]
  }

  ghost predicate AllScalars(ns: seq<nat>) {
    forall i | 0 <= i < |ns| :: IsScalar(ns[i])
  }

  function Encode(ns: seq<nat>): seq<Byte>
    requires AllScalars(ns)
  {
    if ns == [] then [] else EncodeScalar(ns[0]) + Encode(ns[1..])
  }

  lemma ScalarBytes(n: nat)
    requires IsScalar(n)
    ensures var s := EncodeScalar(n);
            && (|s| == 1 ==> s[0] < 0x80)
            && (|s| == 2 ==> 0xC2 <= s[0] <= 0xDF && IsContinuation(s[1]))
            && (|s| == 3 ==> 0xE0 <= s[0] <= 0xEF && IsContinuation(s[1]) && IsContinuation(s[2])
                             && (s[0] == 0xE0 ==> s[1] >= 0xA0) && (s[0] == 0xED ==> s[1] < 0xA0))
            && (|s| == 4 ==> 0xF0 <= s[0] <= 0xF4 && IsContinuation(s[1]) && IsContinuation(s[2]) && IsContinuation(s[3])
                             && (s[0] == 0xF0 ==> s[1] >= 0x90) && (s[0] == 0xF4 ==> s[1] < 0x90))
            && 1 <= |s| <= 4
  {}

  lemma ScalarThenRest(n: nat, rest: seq<Byte>)
    requires IsScalar(n)
    ensures IsUtf8(EncodeScalar(n) + rest) <==> IsUtf8(rest)
  {
    ScalarBytes(n);
    var s := EncodeScalar(n) + rest;
    assert s[|EncodeScalar(n)|..] == rest;
  }

  lemma {:induction false} EncodedIsUtf8(ns: seq<nat>)
    requires AllScalars(ns)
    ensures IsUtf8(Encode(ns))
  {
    if ns != [] {
      EncodedIsUtf8(ns[1..]);
      ScalarThenRest(ns[0], Encode(ns[1..]));
    }
  }

  /** The scalar value at the front of well-formed UTF-8. */
  lemma FirstScalar(s: seq<Byte>) returns (n: nat)
    requires IsUtf8(s) && s != []
    ensures IsScalar(n) && |EncodeScalar(n)| <= |s|
    ensures s == EncodeScalar(n) + s[|EncodeScalar(n)|..] && IsUtf8(s[|EncodeScalar(n)|..])
  {
    if s[0] < 0x80 {
      n := s[0];
    } else if s[0] <= 0xDF {
      n := FirstOfTwo(s[0], s[1]);
    } else if s[0] <= 0xEF {
      n := FirstOfThree(s[0], s[1], s[2]);
    } else {
      n := FirstOfFour(s[0], s[1], s[2], s[3]);
    }
  }

  lemma FirstOfTwo(a: Byte, b: Byte) returns (n: nat)
    requires 0xC2 <= a <= 0xDF && IsContinuation(b)
    ensures IsScalar(n) && EncodeScalar(n) == [a, b]
  {
    n := (a - 0xC0) as int * 0x40 + (b - 0x80) as int;
  }

  lemma LastDigit(q: nat, r: nat)
    requires r < 0x40
    ensures (q * 0x40 + r) % 0x40 == r && (q * 0x40 + r) / 0x40 == q
  {}

  lemma ThreeDigits(x2: nat, x1: nat, x0: nat, n: nat)
    requires x1 < 0x40 && x0 < 0x40 && n == (x2 * 0x40 + x1) * 0x40 + x0
    ensures n / 0x1000 == x2 && n / 0x40 % 0x40 == x1 && n % 0x40 == x0
  {
    LastDigit(x2 * 0x40 + x1, x0);
    LastDigit(x2, x1);
    assert n == x2 * 0x1000 + (x1 * 0x40 + x0);
  }

  lemma FirstOfThree(a: Byte, b: Byte, c: Byte) returns (n: nat)
    requires 0xE0 <= a <= 0xEF && IsContinuation(b) && IsContinuation(c)
    requires (a == 0xE0 ==> b >= 0xA0) && (a == 0xED ==> b < 0xA0)
    ensures IsScalar(n) && EncodeScalar(n) == [a, b, c]
  {
    var x2: int, x1: int, x0: int := a - 0xE0, b - 0x80, c - 0x80;
    n := (x2 * 0x40 + x1) * 0x40 + x0;
    ThreeDigits(x2, x1, x0, n);
    EncodeThree(n);
  }

  lemma EncodeThree(n: nat)
    requires 0x800 <= n < 0xD800 || 0xE000 <= n < 0x1_0000
    ensures EncodeScalar(n) == [0xE0 + n / 0x1000, 0x80 + n / 0x40 % 0x40, 0x80 + n % 0x40]
  {}

  lemma FourDigits(x3: nat, x2: nat, x1: nat, x0: nat, n: nat)
    requires x2 < 0x40 && x1 < 0x40 && x0 < 0x40
    requires n == ((x3 * 0x40 + x2) * 0x40 + x1) * 0x40 + x0
    ensures n / 0x4_0000 == x3 && n / 0x1000 == x3 * 0x40 + x2 && n / 0x40 == (x3 * 0x40 + x2) * 0x40 + x1
    ensures n / 0x1000 % 0x40 == x2 && n / 0x40 % 0x40 == x1 && n % 0x40 == x0
  {
    LastDigit((x3 * 0x40 + x2) * 0x40 + x1, x0);
    LastDigit(x3 * 0x40 + x2, x1);
    LastDigit(x3, x2);
    assert n == (x3 * 0x40 + x2) * 0x1000 + (x1 * 0x40 + x0);
    assert n == x3 * 0x4_0000 + (x2 * 0x1000 + x1 * 0x40 + x0);
  }

  lemma FirstOfFour(a: Byte, b: Byte, c: Byte, d: Byte) returns (n: nat)
    requires 0xF0 <= a <= 0xF4 && IsContinuation(b) && IsContinuation(c) && IsContinuation(d)
    requires (a == 0xF0 ==> b >= 0x90) && (a == 0xF4 ==> b < 0x90)
    ensures IsScalar(n) && EncodeScalar(n) == [a, b, c, d]
  {
    var x3: int, x2: int, x1: int, x0: int := a - 0xF0, b - 0x80, c - 0x80, d - 0x80;
    n := ((x3 * 0x40 + x2) * 0x40 + x1) * 0x40 + x0;
    FourDigits(x3, x2, x1, x0, n);
    EncodeFour(n);
  }

  lemma EncodeFour(n: nat)
    requires 0x1_0000 <= n < 0x11_0000
    ensures EncodeScalar(n) == [0xF0 + n / 0x4_0000, 0x80 + n / 0x1000 % 0x40, 0x80 + n / 0x40 % 0x40, 0x80 + n % 0x40]
  {}

  lemma {:induction false} Utf8IsEncoded(s: seq<Byte>) returns (ns: seq<nat>)
    requires IsUtf8(s)
    ensures AllScalars(ns) && Encode(ns) == s
    decreases |s|
  {
    if s == [] {
      ns := [];
    } else {
      var n := FirstScalar(s);
      var rest := Utf8IsEncoded(s[|EncodeScalar(n)|..]);
      ns := [n] + rest;
      assert ns[1..] == rest;
    }
  }

  ghost predicate IsText(s: seq<Byte>) {
    exists ns: seq<nat> :: AllScalars(ns) && Encode(ns) == s
  }

  /** What is reported of a line, for every line: up to 1 MiB, the line itself exactly when it
      encodes Unicode scalar values and otherwise the error; beyond that, only its length. */
  lemma ReportIs(line: seq<Byte>)
    ensures |line| > 1_048_576 ==> Report(line) == TooLong
    ensures |line| <= 1_048_576 ==> Report(line) == if IsText(line) then Line(line) else NotUtf8
  {
    if IsUtf8(line) {
      var ns := Utf8IsEncoded(line);
      assert IsText(line);
    } else if IsText(line) {
      var ns :| AllScalars(ns) && Encode(ns) == line;
      EncodedIsUtf8(ns);
    }
  }

  /** The engine host takes a line of up to 8 MiB with its newline, and a last one without. */
  lemma EngineLineIs(line: seq<Byte>, tail: seq<Byte>)
    requires NEWLINE !in line
    ensures NextFrame(line + [NEWLINE] + tail) == if |line| <= 8_388_608 then Bytes(line + [NEWLINE]) else FrameTooLong
    ensures NextFrame(line) == if |line| <= 8_388_609 then Bytes(line) else FrameTooLong
  {
    CutAtNewline(line, tail);
    assert (line + [NEWLINE] + tail)[..|line| + 1] == line + [NEWLINE];
    assert line[..|line|] == line;
    LineLengthIs(line, |line|);
  }
}
