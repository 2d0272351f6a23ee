/** The worker process and its supervisor: the command loop in
    crates/openwhisper-worker-native/src/main.rs and `request` / `read_response` in
    crates/openwhisperd/src/worker.rs. Requests that time out leave their replies in the
    pipe, where later requests must not mistake them for their own. */
module WorkerChannel {
  import opened Prelude

  datatype Command = Probe | Cancel | Shutdown | Transcribe | StreamStart | StreamAppend(evenAudio: bool) | StreamFinish

  datatype Request = Request(id: nat, generation: nat, command: Command)

  /** A line that is not UTF-8 is an I/O error to the worker, which exits. */
  datatype InputLine = OversizedLine | MalformedLine | NonUtf8Line | RequestLine(request: Request)

  datatype Content =
    | Ready | Probed | Cancelled | StreamStarted
    | Transcript(text: string)
    | StreamHypothesis(text: string)
    | StreamFinished(text: string)
    | Error(code: ErrorCode)

  datatype ErrorCode =
    | OversizedMessage | InvalidJson | ModelUnavailable | AudioUnavailable | BackendUnavailable
    | StreamInactive | InvalidAudio | TranscriptionFailed

  datatype Reply = Reply(id: Option<nat>, generation: nat, content: Content)

  /** What the files, the backend probe and inference turn out to be for one line. */
  datatype Inference = Text(text: string) | EmptyAudio | InferenceFailed

  datatype World = World(modelExists: bool, audioExists: bool, backendAvailable: bool, inference: Inference)

  // ---- the worker ----

  /** `stream` is the last hypothesis of the active stream, if one is active. */
  datatype Served = Served(stream: Option<string>, reply: Option<Reply>, running: bool)

  function Fails(r: Request, code: ErrorCode): Reply {
    Reply(Some(r.id), r.generation, Error(code))
  }

  function ServeLine(stream: Option<string>, line: InputLine, w: World): Served {
    match line
    case OversizedLine => Served(stream, Some(Reply(None, 0, Error(OversizedMessage))), true)
    case MalformedLine => Served(stream, Some(Reply(None, 0, Error(InvalidJson))), true)
    case NonUtf8Line => Served(stream, None, false)
    case RequestLine(r) =>
      match r.command
      case Shutdown => Served(stream, None, false)
      case Probe => Served(stream, Some(Reply(Some(r.id), r.generation, Probed)), true)
      case Cancel => Served(None, Some(Reply(Some(r.id), r.generation, Cancelled)), true)
      case Transcribe =>
        Served(stream, Some(
          if !w.modelExists then Fails(r, ModelUnavailable)
          else if !w.audioExists then Fails(r, AudioUnavailable)
          else if w.inference.Text? then Reply(Some(r.id), r.generation, Transcript(w.inference.text))
          else Fails(r, TranscriptionFailed)), true)
      case StreamStart =>
        if !w.modelExists then Served(stream, Some(Fails(r, ModelUnavailable)), true)
        else if !w.backendAvailable then Served(stream, Some(Fails(r, BackendUnavailable)), true)
        else Served(Some(""), Some(Reply(Some(r.id), r.generation, StreamStarted)), true)
      case StreamAppend(even) =>
        if stream.None? then Served(stream, Some(Fails(r, StreamInactive)), true)
        else if !even then Served(stream, Some(Fails(r, InvalidAudio)), true)
        else (match w.inference
              case Text(t) => Served(Some(t), Some(Reply(Some(r.id), r.generation, StreamHypothesis(t))), true)
              case EmptyAudio => Served(stream, Some(Reply(Some(r.id), r.generation, StreamHypothesis(""))), true)
              case InferenceFailed => Served(stream, Some(Fails(r, TranscriptionFailed)), true))
      case StreamFinish =>
        if stream.None? then Served(None, Some(Fails(r, StreamInactive)), true)
        else Served(None, Some(Reply(Some(r.id), r.generation, StreamFinished(stream.value))), true)
  }

  class Worker {
    var stream: Option<string>
    var output: seq<Reply>

    constructor ()
      ensures stream == None && output == [Reply(None, 0, Ready)]
    {
      stream, output := None, [Reply(None, 0, Ready)];
    }

    /** One turn of the command loop; false ends it. */
    method Serve(line: InputLine, w: World) returns (running: bool)
      modifies this
      ensures var s := ServeLine(old(stream), line, w);
              && stream == s.stream && running == s.running
              && output == old(output) + if s.reply.Some? then [s.reply.value] else []
    {
      running := true;
      if line.OversizedLine? {
        output := output + [Reply(None, 0, Error(OversizedMessage))];
        return;
      }
      if line.NonUtf8Line? {
        return false;
      }
      if line.MalformedLine? {
        output := output + [Reply(None, 0, Error(InvalidJson))];
        return;
      }
      var r := line.request;
      match r.command
      case Shutdown =>
        running := false;
      case Probe =>
        output := output + [Reply(Some(r.id), r.generation, Probed)];
      case Cancel =>
        stream := None;
        output := output + [Reply(Some(r.id), r.generation, Cancelled)];
      case Transcribe =>
        var error: Option<ErrorCode> := None;
        if !w.modelExists {
          error := Some(ModelUnavailable);
        } else if !w.audioExists {
          error := Some(AudioUnavailable);
        } else if w.inference.Text? {
          output := output + [Reply(Some(r.id), r.generation, Transcript(w.inference.text))];
        } else {
          error := Some(TranscriptionFailed);
        }
        if error.Some? {
          output := output + [Fails(r, error.value)];
        }
      case StreamStart =>
        var reply: Reply;
        if !w.modelExists {
          reply := Fails(r, ModelUnavailable);
        } else if !w.backendAvailable {
          reply := Fails(r, BackendUnavailable);
        } else {
          stream := Some("");
          reply := Reply(Some(r.id), r.generation, StreamStarted);
        }
        output := output + [reply];
      case StreamAppend(even) =>
        if stream.None? {
          output := output + [Fails(r, StreamInactive)];
          return;
        }
        if !even {
          output := output + [Fails(r, InvalidAudio)];
          return;
        }
        match w.inference {
          case Text(t) =>
            stream := Some(t);
            output := output + [Reply(Some(r.id), r.generation, StreamHypothesis(t))];
          case EmptyAudio =>
            output := output + [Reply(Some(r.id), r.generation, StreamHypothesis(""))];
          case InferenceFailed =>
            output := output + [Fails(r, TranscriptionFailed)];
        }
      case StreamFinish =>
        var reply := if stream.Some? then Reply(Some(r.id), r.generation, StreamFinished(stream.value))
                     else Fails(r, StreamInactive);
        stream := None;
        output := output + [reply];
    }
  }

  datatype Input = Input(line: InputLine, world: World)

  function ServeAll(inputs: seq<Input>): Served {
    if inputs == [] then Served(None, None, true)
    else
      var s := ServeAll(inputs[..|inputs| - 1]);
      if !s.running then s.(reply := None)
      else ServeLine(s.stream, inputs[|inputs| - 1].line, inputs[|inputs| - 1].world)
  }

  function Replies(inputs: seq<Input>): seq<Reply> {
    if inputs == [] then []
    else Replies(inputs[..|inputs| - 1]) + if ServeAll(inputs).reply.Some? then [ServeAll(inputs).reply.value] else []
  }

  /** A shutdown request or a line that is not UTF-8. */
  predicate EndsWorker(line: InputLine) {
    line.NonUtf8Line? || (line.RequestLine? && line.request.command.Shutdown?)
  }

  /** The identity a reply to this line must bear. */
  function IdentityOf(line: InputLine): (Option<nat>, nat) {
    if line.RequestLine? then (Some(line.request.id), line.request.generation) else (None, 0)
  }

  /** How many lines come before the first that ends the worker. */
  function LinesServed(inputs: seq<Input>): (n: nat)
    ensures n <= |inputs|
  {
    if inputs == [] then 0
    else
      var n := LinesServed(inputs[..|inputs| - 1]);
      if n == |inputs| - 1 && !EndsWorker(inputs[n].line) then n + 1 else n
  }

  /** Whatever the input: the worker writes exactly one reply per line up to the first line
      that ends it, in order, bearing the line's id and generation, and none after that. */
  lemma {:induction false} OneReplyPerLine(inputs: seq<Input>)
    ensures var n := LinesServed(inputs);
            && |Replies(inputs)| == n
            && (ServeAll(inputs).running <==> n == |inputs|)
            && (forall i | 0 <= i < n :: !EndsWorker(inputs[i].line)
                  && (Replies(inputs)[i].id, Replies(inputs)[i].generation) == IdentityOf(inputs[i].line))
            && (n < |inputs| ==> EndsWorker(inputs[n].line))
  {
    if inputs != [] {
      OneReplyPerLine(inputs[..|inputs| - 1]);
    }
  }

  /** Every line is answered exactly when none of them ends the worker. */
  lemma EveryLineAnsweredIff(inputs: seq<Input>)
    ensures |Replies(inputs)| == |inputs| <==> forall i | 0 <= i < |inputs| :: !EndsWorker(inputs[i].line)
  {
    OneReplyPerLine(inputs);
  }

  /** A line that is not UTF-8 goes unanswered, and so does every request after it. */
  lemma NonUtf8LineSilencesWorker(w: World, later: seq<Input>)
    ensures Replies([Input(NonUtf8Line, w)] + later) == []
  {
    var inputs := [Input(NonUtf8Line, w)] + later;
    OneReplyPerLine(inputs);
    assert LinesServed(inputs) > 0 ==> !EndsWorker(inputs[0].line);
  }

  // ---- what the replies say ----

  /** A stream is started: the model is there and a backend is available. */
  predicate Starts(x: Input) {
    x.line.RequestLine? && x.line.request.command.StreamStart? && x.world.modelExists && x.world.backendAvailable
  }

  predicate Ends(x: Input) {
    x.line.RequestLine? && (x.line.request.command.Cancel? || x.line.request.command.StreamFinish?)
  }

  /** An append that can be inferred to a text, if a stream is active. */
  predicate Infers(x: Input) {
    x.line.RequestLine? && x.line.request.command == StreamAppend(true) && x.world.inference.Text?
  }

  ghost predicate NoneEnds(history: seq<Input>, from: nat) {
    forall k | from <= k < |history| :: !Ends(history[k])
  }

  /** A stream is active after these lines: one was started and not ended since. */
  ghost predicate Active(history: seq<Input>) {
    exists j | 0 <= j < |history| :: Starts(history[j]) && NoneEnds(history, j + 1)
  }

  /** The k-th line is the last that started, ended or inferred anything. */
  ghost predicate Last(history: seq<Input>, k: nat) {
    && k < |history| && (Starts(history[k]) || Ends(history[k]) || Infers(history[k]))
    && forall m | k < m < |history| :: !Starts(history[m]) && !Ends(history[m]) && !Infers(history[m])
  }

  function TextOf(x: Input): string {
    if Infers(x) then x.world.inference.text else ""
  }

  /** The last text inferred since the stream was started, or "" if there was none. */
  ghost predicate Heard(history: seq<Input>, text: string) {
    exists k: nat :: Last(history, k) && text == TextOf(history[k])
  }

  predicate Asks(x: Input, command: Command) {
    x.line.RequestLine? && x.line.request.command == command
  }

  predicate AsksAppend(x: Input) {
    Asks(x, StreamAppend(true)) || Asks(x, StreamAppend(false))
  }

  /** What the reply to line x says after the lines of `history`: each content, and each error
      code, exactly under its condition. */
  ghost predicate Answers(history: seq<Input>, x: Input, content: Content) {
    var w, active := x.world, Active(history);
    && (content == Probed <==> Asks(x, Probe))
    && (content == Cancelled <==> Asks(x, Cancel))
    && (content == StreamStarted <==> Starts(x))
    && (forall t :: content == Transcript(t) <==>
          Asks(x, Transcribe) && w.modelExists && w.audioExists && w.inference == Text(t))
    && (forall t :: content == StreamHypothesis(t) <==>
          Asks(x, StreamAppend(true)) && active && (w.inference == Text(t) || (w.inference == EmptyAudio && t == "")))
    && (forall t :: content == StreamFinished(t) <==> Asks(x, StreamFinish) && active && Heard(history, t))
    && (content == Error(OversizedMessage) <==> x.line.OversizedLine?)
    && (content == Error(InvalidJson) <==> x.line.MalformedLine?)
    && (content == Error(ModelUnavailable) <==> (Asks(x, Transcribe) || Asks(x, StreamStart)) && !w.modelExists)
    && (content == Error(AudioUnavailable) <==> Asks(x, Transcribe) && w.modelExists && !w.audioExists)
    && (content == Error(BackendUnavailable) <==> Asks(x, StreamStart) && w.modelExists && !w.backendAvailable)
    && (content == Error(StreamInactive) <==> (AsksAppend(x) || Asks(x, StreamFinish)) && !active)
    && (content == Error(InvalidAudio) <==> Asks(x, StreamAppend(false)) && active)
    && (content == Error(TranscriptionFailed) <==>
          || (Asks(x, Transcribe) && w.modelExists && w.audioExists && !w.inference.Text?)
          || (Asks(x, StreamAppend(true)) && active && w.inference == InferenceFailed))
  }

  lemma ActiveSnoc(history: seq<Input>, x: Input)
    ensures Active(history + [x]) <==> Starts(x) || (Active(history) && !Ends(x))
  {
    var more := history + [x];
    if Starts(x) {
      assert more[|history|] == x && NoneEnds(more, |history| + 1);
    } else if Active(history) && !Ends(x) {
      var j :| 0 <= j < |history| && Starts(history[j]) && NoneEnds(history, j + 1);
      assert more[j] == history[j] && NoneEnds(more, j + 1);
    }
    if Active(more) && !Starts(x) {
      var j :| 0 <= j < |more| && Starts(more[j]) && NoneEnds(more, j + 1);
      forall k | j + 1 <= k < |history| ensures !Ends(history[k]) {
        assert more[k] == history[k];
      }
      assert more[|history|] == x && history[j] == more[j] && NoneEnds(history, j + 1);
    }
  }

  lemma LastSnoc(history: seq<Input>, x: Input, k: nat)
    ensures Last(history + [x], k) <==>
            if Starts(x) || Ends(x) || Infers(x) then k == |history| else k < |history| && Last(history, k)
  {
    var more := history + [x];
    assert more[|history|] == x;
    assert forall m | 0 <= m < |history| :: more[m] == history[m];
  }

  lemma HeardSnoc(history: seq<Input>, x: Input, text: string)
    ensures Heard(history + [x], text) <==>
            if Starts(x) || Ends(x) || Infers(x) then text == TextOf(x) else Heard(history, text)
  {
    var more := history + [x];
    assert more[|history|] == x;
    if Starts(x) || Ends(x) || Infers(x) {
      LastSnoc(history, x, |history|);
      forall k: nat | Last(more, k) ensures k == |history| {
        LastSnoc(history, x, k);
      }
    } else {
      HeardBefore(history, x, text);
    }
  }

  lemma HeardBefore(history: seq<Input>, x: Input, text: string)
    requires !Starts(x) && !Ends(x) && !Infers(x)
    ensures Heard(history + [x], text) <==> Heard(history, text)
  {
    var more := history + [x];
    if Heard(more, text) {
      var k: nat :| Last(more, k) && text == TextOf(more[k]);
      LastSnoc(history, x, k);
      assert more[k] == history[k];
    }
    if Heard(history, text) {
      var k: nat :| Last(history, k) && text == TextOf(history[k]);
      LastSnoc(history, x, k);
      assert more[k] == history[k];
    }
  }

  /** The stream is what the history says. */
  ghost predicate Follows(stream: Option<string>, history: seq<Input>) {
    && (stream.Some? <==> Active(history))
    && (stream.Some? ==> forall t :: Heard(history, t) <==> t == stream.value)
  }

  lemma ServeFollows(stream: Option<string>, history: seq<Input>, x: Input)
    requires Follows(stream, history) && !EndsWorker(x.line)
    ensures Follows(ServeLine(stream, x.line, x.world).stream, history + [x])
  {
    ActiveSnoc(history, x);
    forall t ensures Heard(history + [x], t) <==>
                       if Starts(x) || Ends(x) || Infers(x) then t == TextOf(x) else Heard(history, t) {
      HeardSnoc(history, x, t);
    }
  }

  lemma ReplyAnswers(stream: Option<string>, history: seq<Input>, x: Input)
    requires Follows(stream, history) && !EndsWorker(x.line)
    ensures var s := ServeLine(stream, x.line, x.world);
            s.reply.Some? && s.running && Answers(history, x, s.reply.value.content)
  {}

  lemma {:induction false} StreamFollows(inputs: seq<Input>)
    ensures ServeAll(inputs).running ==> Follows(ServeAll(inputs).stream, inputs)
  {
    if inputs != [] {
      var init, x := inputs[..|inputs| - 1], inputs[|inputs| - 1];
      StreamFollows(init);
      assert inputs == init + [x];
      if ServeAll(init).running && !EndsWorker(x.line) {
        ServeFollows(ServeAll(init).stream, init, x);
      }
    }
  }

  lemma {:induction false} ReplyAt(inputs: seq<Input>, i: nat)
    requires i < LinesServed(inputs)
    ensures |Replies(inputs)| == LinesServed(inputs) && LinesServed(inputs[..i]) == i
    ensures ServeAll(inputs[..i]).running && !EndsWorker(inputs[i].line)
    ensures Some(Replies(inputs)[i]) == ServeLine(ServeAll(inputs[..i]).stream, inputs[i].line, inputs[i].world).reply
  {
    var init := inputs[..|inputs| - 1];
    OneReplyPerLine(inputs);
    OneReplyPerLine(init);
    if i < LinesServed(init) {
      ReplyAt(init, i);
      assert init[..i] == inputs[..i] && init[i] == inputs[i];
    }
  }

  /** Every line of every input gets the answer that the lines before it call for. */
  lemma RepliesFollowTheHistory(inputs: seq<Input>)
    ensures |Replies(inputs)| == LinesServed(inputs)
    ensures forall i | 0 <= i < LinesServed(inputs) :: Answers(inputs[..i], inputs[i], Replies(inputs)[i].content)
  {
    OneReplyPerLine(inputs);
    forall i | 0 <= i < LinesServed(inputs) ensures Answers(inputs[..i], inputs[i], Replies(inputs)[i].content) {
      ReplyAt(inputs, i);
      StreamFollows(inputs[..i]);
      ReplyAnswers(ServeAll(inputs[..i]).stream, inputs[..i], inputs[i]);
    }
  }

  // ---- the supervisor ----

  predicate Accepts(generation: nat, id: Option<nat>, reply: Reply) {
    generation == 0 || (reply.generation == generation && reply.id == id)
  }

  /** A line from the worker; one that is not UTF-8 or not a response is bad. */
  datatype PipeLine = OversizedReply | BadReply | ReplyLine(reply: Reply)

  datatype Answer = Answered(reply: Reply) | TimedOut | Crashed | Oversized | Unreadable

  datatype Read = Read(answer: Answer, rest: seq<PipeLine>)

  /** What comes of waiting: the first acceptable reply, the first unreadable line, the end of
      a closed pipe, or the deadline, which falls after `patience` lines or on an empty pipe. */
  function ReadReply(pipe: seq<PipeLine>, closed: bool, generation: nat, id: Option<nat>, patience: nat): Read {
    if patience == 0 then Read(TimedOut, pipe)
    else if pipe == [] then Read(if closed then Crashed else TimedOut, [])
    else match pipe[0]
      case OversizedReply => Read(Oversized, pipe[1..])
      case BadReply => Read(Unreadable, pipe[1..])
      case ReplyLine(reply) =>
        if Accepts(generation, id, reply) then Read(Answered(reply), pipe[1..])
        else ReadReply(pipe[1..], closed, generation, id, patience - 1)
  }

  class ReplyPipe {
    var lines: seq<PipeLine>
    const closed: bool

    constructor (lines: seq<PipeLine>, closed: bool)
      ensures this.lines == lines && this.closed == closed
    {
      this.lines, this.closed := lines, closed;
    }
  }

  predicate IsSkipped(generation: nat, id: Option<nat>, line: PipeLine) {
    line.ReplyLine? && !Accepts(generation, id, line.reply)
  }

  /** The line that decided the answer, if one did. */
  function DecidedBy(answer: Answer): seq<PipeLine> {
    match answer
    case Answered(reply) => [ReplyLine(reply)]
    case Oversized => [OversizedReply]
    case Unreadable => [BadReply]
    case _ => []
  }

  ghost predicate AllSkipped(generation: nat, id: Option<nat>, lines: seq<PipeLine>) {
    forall i | 0 <= i < |lines| :: IsSkipped(generation, id, lines[i])
  }

  lemma SkipOneMore(pipe: seq<PipeLine>, n: nat, generation: nat, id: Option<nat>)
    requires pipe != [] && IsSkipped(generation, id, pipe[0]) && n < |pipe| && AllSkipped(generation, id, pipe[1..][..n])
    ensures AllSkipped(generation, id, pipe[..n + 1]) && pipe[n + 1..] == pipe[1..][n..]
  {
    assert pipe[..n + 1] == [pipe[0]] + pipe[1..][..n];
  }

  lemma NothingSkipped(pipe: seq<PipeLine>, closed: bool, generation: nat, id: Option<nat>, patience: nat)
    requires patience == 0 || pipe == [] || !IsSkipped(generation, id, pipe[0])
    ensures var r := ReadReply(pipe, closed, generation, id, patience);
            pipe == DecidedBy(r.answer) + r.rest
  {
    if pipe != [] {
      assert pipe == [pipe[0]] + pipe[1..];
    }
  }

  /** Only lines that do not match the request are passed over; the next one decides. */
  lemma {:induction false} SkippedLines(pipe: seq<PipeLine>, closed: bool, generation: nat, id: Option<nat>, patience: nat)
    returns (n: nat)
    ensures var r := ReadReply(pipe, closed, generation, id, patience);
            && n <= |pipe| && AllSkipped(generation, id, pipe[..n])
            && pipe[n..] == DecidedBy(r.answer) + r.rest
  {
    if patience > 0 && pipe != [] && IsSkipped(generation, id, pipe[0]) {
      n := SkippedLines(pipe[1..], closed, generation, id, patience - 1);
      SkipOneMore(pipe, n, generation, id);
      ReadOneMore(pipe, closed, generation, id, patience);
      n := n + 1;
    } else {
      n := 0;
      NothingSkipped(pipe, closed, generation, id, patience);
      assert pipe[0..] == pipe;
    }
  }

  /** What the line that decides makes of the wait. */
  function Decided(line: PipeLine): Answer {
    match line
    case OversizedReply => Oversized
    case BadReply => Unreadable
    case ReplyLine(reply) => Answered(reply)
  }

  /** What comes of waiting, from the number of lines that do not match: a matching reply within
      the patience is returned, and only the lines before it are used up. */
  lemma {:induction false} ReadReplySpec(
      skipped: seq<PipeLine>, rest: seq<PipeLine>, closed: bool, generation: nat, id: Option<nat>, patience: nat)
    requires AllSkipped(generation, id, skipped) && (rest != [] ==> !IsSkipped(generation, id, rest[0]))
    ensures ReadReply(skipped + rest, closed, generation, id, patience) ==
            if patience <= |skipped| then Read(TimedOut, (skipped + rest)[patience..])
            else if rest == [] then Read(if closed then Crashed else TimedOut, [])
            else Read(Decided(rest[0]), rest[1..])
    decreases |skipped|
  {
    var pipe := skipped + rest;
    if skipped == [] {
      assert pipe == rest;
    } else if patience > 0 {
      assert pipe[0] == skipped[0] && pipe[1..] == skipped[1..] + rest;
      ReadOneMore(pipe, closed, generation, id, patience);
      ReadReplySpec(skipped[1..], rest, closed, generation, id, patience - 1);
      if patience <= |skipped| {
        assert pipe[1..][patience - 1..] == pipe[patience..];
      }
    }
  }

  /** The reader passes over one line. */
  lemma ReadOneMore(pipe: seq<PipeLine>, closed: bool, generation: nat, id: Option<nat>, patience: nat)
    requires patience > 0 && pipe != [] && IsSkipped(generation, id, pipe[0])
    ensures ReadReply(pipe, closed, generation, id, patience) == ReadReply(pipe[1..], closed, generation, id, patience - 1)
  {}

  method ReadResponse(output: ReplyPipe, generation: nat, id: Option<nat>, patience: nat)
    returns (answer: Answer, ghost skipped: nat)
    modifies output
    ensures Read(answer, output.lines) == ReadReply(old(output.lines), output.closed, generation, id, patience)
    ensures answer.Answered? ==> Accepts(generation, id, answer.reply)
    ensures answer.Crashed? ==> output.closed && output.lines == []
    ensures skipped <= |old(output.lines)| && AllSkipped(generation, id, old(output.lines)[..skipped])
    ensures old(output.lines)[skipped..] == DecidedBy(answer) + output.lines
  {
    skipped := SkippedLines(output.lines, output.closed, generation, id, patience);
    ghost var expected := ReadReply(output.lines, output.closed, generation, id, patience);
    var left := patience;
    while left > 0 && output.lines != []
      invariant ReadReply(output.lines, output.closed, generation, id, left) == expected
      decreases left
    {
      var line := output.lines[0];
      if IsSkipped(generation, id, line) {
        ReadOneMore(output.lines, output.closed, generation, id, left);
      }
      output.lines := output.lines[1..];
      left := left - 1;
      match line
      case OversizedReply =>
        return Oversized, skipped;
      case BadReply =>
        return Unreadable, skipped;
      case ReplyLine(response) =>
        if Accepts(generation, id, response) {
          return Answered(response), skipped;
        }
    }
    answer := if left > 0 && output.closed then Crashed else TimedOut;
  }

  // ---- both ends and the pipes between them ----

  /** A request written to the worker in its n-th life, counted in restarts. */
  datatype Sent = Sent(life: nat, request: Request)

  /** A line served with its reply, and a request answered with the reply it was given. */
  datatype Exchange = Exchange(life: nat, line: InputLine, reply: Reply)
  datatype Returned = Returned(life: nat, request: Request, reply: Reply)

  datatype System = System(
    life: nat, sent: seq<Sent>, toWorker: seq<InputLine>, stream: Option<string>, running: bool, fromWorker: seq<Reply>,
    waiting: Option<Request>, served: seq<Exchange>, returned: seq<Returned>)

  const IDLE := System(0, [], [], None, true, [], None, [], [])

  datatype Step = Send(request: Request) | Serve(world: World) | Deliver | Timeout | Crash | Restart

  function Next(s: System, step: Step): System {
    match step
    case Send(r) =>
      if s.waiting.Some? then s
      else s.(sent := s.sent + [Sent(s.life, r)], toWorker := s.toWorker + [RequestLine(r)], waiting := Some(r))
    case Serve(w) =>
      if s.toWorker == [] || !s.running then s
      else
        var line := s.toWorker[0];
        var t := ServeLine(s.stream, line, w);
        var s' := s.(toWorker := s.toWorker[1..], stream := t.stream, running := t.running);
        if t.reply.None? then s' else Wrote(s', line, t.reply.value)
    case Deliver =>
      if s.waiting.None? then s
      else if s.fromWorker == [] then (if s.running then s else s.(waiting := None))
      else
        var r := s.waiting.value;
        var reply := s.fromWorker[0];
        var s' := s.(fromWorker := s.fromWorker[1..]);
        if Accepts(r.generation, Some(r.id), reply) then
          s'.(waiting := None, returned := s.returned + [Returned(s.life, r, reply)])
        else s'
    case Timeout => s.(waiting := None)
    case Crash => s.(running := false)
    case Restart =>
      s.(life := s.life + 1, toWorker := [], stream := None, running := true, fromWorker := [], waiting := None)
  }

  function Wrote(s: System, line: InputLine, reply: Reply): System {
    s.(fromWorker := s.fromWorker + [reply], served := s.served + [Exchange(s.life, line, reply)])
  }

  function Run(steps: seq<Step>): System {
    if steps == [] then IDLE else Next(Run(steps[..|steps| - 1]), steps[|steps| - 1])
  }

  /** An id determines its request; the same request may be sent again. */
  ghost predicate IdsDetermineRequests(sent: seq<Sent>) {
    forall i, j | 0 <= i < j < |sent| :: sent[i].request.id == sent[j].request.id ==> sent[i].request == sent[j].request
  }

  ghost predicate WasSent(s: System, life: nat, r: Request) {
    Sent(life, r) in s.sent
  }

  ghost predicate WasWritten(s: System, life: nat, reply: Reply) {
    exists line :: Exchange(life, line, reply) in s.served
  }

  ghost predicate ExchangeIsPaired(s: System, e: Exchange) {
    && e.line.RequestLine? && WasSent(s, e.life, e.line.request)
    && (e.reply.id, e.reply.generation) == IdentityOf(e.line)
  }

  ghost predicate ReturnIsPaired(s: System, p: Returned) {
    && WasSent(s, p.life, p.request) && WasWritten(s, p.life, p.reply)
    && (p.request.generation > 0 ==> (p.reply.id, p.reply.generation) == (Some(p.request.id), p.request.generation))
  }

  /** Everything in the pipes belongs to the worker's present life. */
  ghost predicate Pairing(s: System) {
    && (s.waiting.Some? ==> WasSent(s, s.life, s.waiting.value))
    && (forall i | 0 <= i < |s.toWorker| :: s.toWorker[i].RequestLine? && WasSent(s, s.life, s.toWorker[i].request))
    && (forall i | 0 <= i < |s.fromWorker| :: WasWritten(s, s.life, s.fromWorker[i]))
    && (forall e | e in s.served :: ExchangeIsPaired(s, e))
    && (forall p | p in s.returned :: ReturnIsPaired(s, p))
  }

  /** Nothing sent or written is ever forgotten. */
  ghost predicate Grows(s: System, t: System) {
    s.sent <= t.sent && s.served <= t.served
  }

  lemma StillPaired(s: System, t: System)
    requires Grows(s, t)
    ensures forall life, r | WasSent(s, life, r) :: WasSent(t, life, r)
    ensures forall life, reply | WasWritten(s, life, reply) :: WasWritten(t, life, reply)
    ensures forall e | ExchangeIsPaired(s, e) :: ExchangeIsPaired(t, e)
    ensures forall p | ReturnIsPaired(s, p) :: ReturnIsPaired(t, p)
  {
    forall life, reply | WasWritten(s, life, reply) ensures WasWritten(t, life, reply) {
      var line :| Exchange(life, line, reply) in s.served;
      assert Exchange(life, line, reply) in t.served;
    }
  }

  lemma SendKeepsPairing(s: System, r: Request)
    requires Pairing(s)
    ensures Pairing(Next(s, Send(r)))
  {
    if s.waiting.None? {
      var t := Next(s, Send(r));
      StillPaired(s, t);
      assert t.sent[|s.sent|] == Sent(s.life, r);
    }
  }

  lemma WroteKeepsPairing(s: System, line: InputLine, reply: Reply)
    requires Pairing(s) && ExchangeIsPaired(s, Exchange(s.life, line, reply))
    ensures Pairing(Wrote(s, line, reply))
  {
    var t := Wrote(s, line, reply);
    StillPaired(s, t);
    assert t.served[|s.served|] == Exchange(s.life, line, reply);
    assert WasWritten(t, t.life, reply);
  }

  lemma ServeKeepsPairing(s: System, w: World)
    requires Pairing(s)
    ensures Pairing(Next(s, Serve(w)))
  {
    if s.toWorker != [] && s.running {
      var line := s.toWorker[0];
      var t := ServeLine(s.stream, line, w);
      var s' := s.(toWorker := s.toWorker[1..], stream := t.stream, running := t.running);
      StillPaired(s, s');
      assert Pairing(s');
      if t.reply.Some? {
        ReplyHasIdentity(s.stream, line, w);
        WroteKeepsPairing(s', line, t.reply.value);
      }
    }
  }

  lemma ReplyHasIdentity(stream: Option<string>, line: InputLine, w: World)
    requires ServeLine(stream, line, w).reply.Some?
    ensures var reply := ServeLine(stream, line, w).reply.value; (reply.id, reply.generation) == IdentityOf(line)
  {}

  lemma DeliverKeepsPairing(s: System)
    requires Pairing(s)
    ensures Pairing(Next(s, Deliver))
  {
    StillPaired(s, Next(s, Deliver));
  }

  lemma StepKeepsPairing(s: System, step: Step)
    requires Pairing(s)
    ensures Pairing(Next(s, step))
  {
    match step
    case Send(r) => SendKeepsPairing(s, r);
    case Serve(w) => ServeKeepsPairing(s, w);
    case Deliver => DeliverKeepsPairing(s);
    case _ => StillPaired(s, Next(s, step));
  }

  lemma {:induction false} RunKeepsPairing(steps: seq<Step>)
    ensures Pairing(Run(steps))
  {
    if steps != [] {
      RunKeepsPairing(steps[..|steps| - 1]);
      StepKeepsPairing(Run(steps[..|steps| - 1]), steps[|steps| - 1]);
    }
  }

  lemma SameIdSameRequest(sent: seq<Sent>, a: Sent, b: Sent)
    requires IdsDetermineRequests(sent) && a in sent && b in sent && a.request.id == b.request.id
    ensures a.request == b.request
  {
    var i :| 0 <= i < |sent| && sent[i] == a;
    var j :| 0 <= j < |sent| && sent[j] == b;
  }

  /** In every run, with any timeouts, skipped replies, crashes, restarts and requests sent
      again: a request of a positive generation that returns was sent to the worker's present
      life, and returns the reply that this life, not an earlier one, wrote for it. */
  lemma RequestsGetTheirOwnReply(steps: seq<Step>)
    requires IdsDetermineRequests(Run(steps).sent)
    ensures var s := Run(steps);
            forall p | p in s.returned && p.request.generation > 0 ::
              WasSent(s, p.life, p.request) && Exchange(p.life, RequestLine(p.request), p.reply) in s.served
  {
    var s := Run(steps);
    RunKeepsPairing(steps);
    forall p | p in s.returned && p.request.generation > 0
      ensures WasSent(s, p.life, p.request) && Exchange(p.life, RequestLine(p.request), p.reply) in s.served
    {
      assert ReturnIsPaired(s, p);
      var line :| Exchange(p.life, line, p.reply) in s.served;
      assert ExchangeIsPaired(s, Exchange(p.life, line, p.reply));
      SameIdSameRequest(s.sent, Sent(p.life, line.request), Sent(p.life, p.request));
      assert line == RequestLine(p.request);
    }
  }

  /** What a return adds is of the worker's present life. */
  lemma ReturnsArePresent(steps: seq<Step>, step: Step)
    ensures var s, t := Run(steps), Run(steps + [step]);
            && s.returned <= t.returned
            && (forall i | |s.returned| <= i < |t.returned| :: t.returned[i].life == t.life)
  {
    assert (steps + [step])[..|steps|] == steps;
  }

  lemma DiesOnRequest(s: System, r: Request)
    requires s.running && s.waiting.None? && s.fromWorker == []
    ensures var crashed := Next(Next(Next(s, Send(r)), Crash), Deliver);
            && crashed.waiting.None? && crashed.returned == s.returned && crashed.life == s.life
            && crashed.sent == s.sent + [Sent(s.life, r)]
  {}

  lemma AsksAgain(s: System, r: Request)
    requires s.waiting.None?
    ensures var again := Next(Next(s, Restart), Send(r));
            && again.toWorker == [RequestLine(r)] && again.fromWorker == [] && again.waiting == Some(r)
            && again.stream.None? && again.running && again.life == s.life + 1
            && again.sent == s.sent + [Sent(s.life + 1, r)] && again.returned == s.returned
  {}

  lemma AnswersOnce(s: System, r: Request, w: World, content: Content)
    requires s.toWorker == [RequestLine(r)] && s.fromWorker == [] && s.waiting == Some(r) && s.running
    requires ServeLine(s.stream, RequestLine(r), w).reply == Some(Reply(Some(r.id), r.generation, content))
    ensures var t := Next(Next(s, Serve(w)), Deliver);
            t.sent == s.sent && t.returned == s.returned + [Returned(s.life, r, Reply(Some(r.id), r.generation, content))]
  {}

  /** The daemon's crash path: the worker dies on a request, is restarted, and is sent the same
      request again. Wherever this happens, the new worker's reply to it is returned, and says
      what a worker that has heard nothing before answers. */
  lemma RetriedRequestIsAnswered(s: System, r: Request, w: World) returns (content: Content)
    requires s.running && s.waiting.None? && s.toWorker == [] && s.fromWorker == [] && !r.command.Shutdown?
    ensures var crashed := Next(Next(Next(s, Send(r)), Crash), Deliver);
            var t := Next(Next(Next(Next(crashed, Restart), Send(r)), Serve(w)), Deliver);
            && crashed.waiting.None? && crashed.returned == s.returned
            && t.sent == s.sent + [Sent(s.life, r), Sent(s.life + 1, r)]
            && t.returned == s.returned + [Returned(s.life + 1, r, Reply(Some(r.id), r.generation, content))]
    ensures Answers([], Input(RequestLine(r), w), content)
  {
    var crashed := Next(Next(Next(s, Send(r)), Crash), Deliver);
    DiesOnRequest(s, r);
    AsksAgain(crashed, r);
    StreamFollows([]);
    ReplyHasIdentity(None, RequestLine(r), w);
    ReplyAnswers(None, [], Input(RequestLine(r), w));
    content := ServeLine(None, RequestLine(r), w).reply.value.content;
    AnswersOnce(Next(Next(crashed, Restart), Send(r)), r, w, content);
    assert s.sent + [Sent(s.life, r)] + [Sent(s.life + 1, r)] == s.sent + [Sent(s.life, r), Sent(s.life + 1, r)];
  }

  /** Some run in which ids determine requests returns another request's reply for this one. */
  ghost predicate CanBeMispaired(r: Request) {
    exists steps: seq<Step>, life, reply :: Mispairs(steps, r, life, reply)
  }

  ghost predicate Mispairs(steps: seq<Step>, r: Request, life: nat, reply: Reply) {
    && IdsDetermineRequests(Run(steps).sent)
    && Returned(life, r, reply) in Run(steps).returned && reply.id != Some(r.id)
  }

  /** Any request of generation 0 takes whatever comes first: here the late reply to another
      one, which had timed out. */
  lemma GenerationZeroTakesStaleReply(r: Request, other: Request, w: World)
    requires r.generation == 0 && other.id != r.id && other.command.Probe?
    ensures var s := Run([Send(other), Timeout, Serve(w), Send(r), Deliver]);
            && s.sent == [Sent(0, other), Sent(0, r)]
            && s.returned == [Returned(0, r, Reply(Some(other.id), other.generation, Probed))]
  {
    var late := Reply(Some(other.id), other.generation, Probed);
    var steps := [Send(other), Timeout, Serve(w), Send(r), Deliver];
    assert steps[..4][..3] == steps[..3] && steps[..3][..2] == steps[..2] && steps[..2][..1] == steps[..1] && steps[..1][..0] == [];
    assert Run(steps[..1]) == Next(IDLE, Send(other));
    assert Run(steps[..2]) == Next(Next(IDLE, Send(other)), Timeout);
    assert Run(steps[..3]).fromWorker == [late] && Run(steps[..3]).sent == [Sent(0, other)];
    assert Run(steps[..4]).waiting == Some(r) && Run(steps[..4]).sent == [Sent(0, other), Sent(0, r)];
  }

  /** A request can be given another one's reply exactly when its generation is 0. */
  lemma MispairedIffGenerationZero(r: Request)
    ensures CanBeMispaired(r) <==> r.generation == 0
  {
    if r.generation == 0 {
      var other := Request(r.id + 1, 1, Probe);
      var w := World(true, true, true, EmptyAudio);
      GenerationZeroTakesStaleReply(r, other, w);
      assert Mispairs([Send(other), Timeout, Serve(w), Send(r), Deliver], r, 0, Reply(Some(other.id), 1, Probed));
    } else {
      forall steps: seq<Step>, life, reply ensures !Mispairs(steps, r, life, reply) {
        RunKeepsPairing(steps);
        if Returned(life, r, reply) in Run(steps).returned {
          assert ReturnIsPaired(Run(steps), Returned(life, r, reply));
        }
      }
    }
  }

  // ---- what the pipes carry ----

  /** What the worker's present life has read, with what the world was like. */
  function Fed(steps: seq<Step>): seq<Input> {
    if steps == [] then []
    else
      var before, s := Fed(steps[..|steps| - 1]), Run(steps[..|steps| - 1]);
      match steps[|steps| - 1]
      case Serve(w) => if s.toWorker != [] && s.running then before + [Input(s.toWorker[0], w)] else before
      case Restart => []
      case _ => before
  }

  function LinesOf(inputs: seq<Input>): seq<InputLine> {
    if inputs == [] then [] else LinesOf(inputs[..|inputs| - 1]) + [inputs[|inputs| - 1].line]
  }

  function SentIn(sent: seq<Sent>, life: nat): seq<InputLine> {
    if sent == [] then []
    else
      var last := sent[|sent| - 1];
      SentIn(sent[..|sent| - 1], life) + if last.life == life then [RequestLine(last.request)] else []
  }

  function WrittenIn(served: seq<Exchange>, life: nat): seq<Reply> {
    if served == [] then []
    else
      var last := served[|served| - 1];
      WrittenIn(served[..|served| - 1], life) + if last.life == life then [last.reply] else []
  }

  ghost predicate NoLaterLife(s: System) {
    (forall i | 0 <= i < |s.sent| :: s.sent[i].life <= s.life)
    && (forall i | 0 <= i < |s.served| :: s.served[i].life <= s.life)
  }

  ghost predicate IsEndOf<T>(end: seq<T>, all: seq<T>) {
    |end| <= |all| && end == all[|all| - |end|..]
  }

  /** The two pipes against what this life of the worker has read. */
  ghost predicate Dialogue(s: System, fed: seq<Input>) {
    && SentIn(s.sent, s.life) == LinesOf(fed) + s.toWorker
    && WrittenIn(s.served, s.life) == Replies(fed)
    && IsEndOf(s.fromWorker, Replies(fed))
    && (s.running ==> ServeAll(fed).running && s.stream == ServeAll(fed).stream)
  }

  lemma {:induction false} NothingYet(s: System, life: nat)
    requires (forall i | 0 <= i < |s.sent| :: s.sent[i].life < life) && (forall i | 0 <= i < |s.served| :: s.served[i].life < life)
    ensures SentIn(s.sent, life) == [] && WrittenIn(s.served, life) == []
    decreases |s.sent| + |s.served|
  {
    if s.sent != [] {
      NothingYet(s.(sent := s.sent[..|s.sent| - 1]), life);
    } else if s.served != [] {
      NothingYet(s.(served := s.served[..|s.served| - 1]), life);
    }
  }

  lemma SentSnoc(sent: seq<Sent>, life: nat, r: Request)
    ensures SentIn(sent + [Sent(life, r)], life) == SentIn(sent, life) + [RequestLine(r)]
  {
    assert (sent + [Sent(life, r)])[..|sent|] == sent;
  }

  lemma WrittenSnoc(served: seq<Exchange>, life: nat, line: InputLine, reply: Reply)
    ensures WrittenIn(served + [Exchange(life, line, reply)], life) == WrittenIn(served, life) + [reply]
  {
    assert (served + [Exchange(life, line, reply)])[..|served|] == served;
  }

  lemma FedSnoc(fed: seq<Input>, x: Input)
    requires ServeAll(fed).running
    ensures var t := ServeLine(ServeAll(fed).stream, x.line, x.world);
            && LinesOf(fed + [x]) == LinesOf(fed) + [x.line]
            && ServeAll(fed + [x]) == t
            && Replies(fed + [x]) == Replies(fed) + if t.reply.Some? then [t.reply.value] else []
  {
    assert (fed + [x])[..|fed|] == fed;
  }

  lemma MoveFirst<T>(a: seq<T>, b: seq<T>)
    requires b != []
    ensures a + b == a + [b[0]] + b[1..]
  {}

  lemma EndGrows<T>(end: seq<T>, all: seq<T>, more: seq<T>)
    requires IsEndOf(end, all)
    ensures IsEndOf(end + more, all + more)
  {}

  lemma EndShrinks<T>(end: seq<T>, all: seq<T>)
    requires IsEndOf(end, all) && end != []
    ensures IsEndOf(end[1..], all)
  {}

  lemma SendKeepsDialogue(s: System, fed: seq<Input>, r: Request)
    requires Dialogue(s, fed)
    ensures Dialogue(Next(s, Send(r)), fed)
  {
    SentSnoc(s.sent, s.life, r);
    assert LinesOf(fed) + s.toWorker + [RequestLine(r)] == LinesOf(fed) + (s.toWorker + [RequestLine(r)]);
  }

  lemma ServeKeepsDialogue(s: System, fed: seq<Input>, w: World)
    requires Dialogue(s, fed) && s.running && s.toWorker != []
    ensures Dialogue(Next(s, Serve(w)), fed + [Input(s.toWorker[0], w)])
  {
    var line := s.toWorker[0];
    var t := ServeLine(s.stream, line, w);
    FedSnoc(fed, Input(line, w));
    MoveFirst(LinesOf(fed), s.toWorker);
    if t.reply.Some? {
      WrittenSnoc(s.served, s.life, line, t.reply.value);
      EndGrows(s.fromWorker, Replies(fed), [t.reply.value]);
    } else {
      assert Replies(fed) + [] == Replies(fed);
    }
  }

  lemma DeliverKeepsDialogue(s: System, fed: seq<Input>)
    requires Dialogue(s, fed)
    ensures Dialogue(Next(s, Deliver), fed)
  {
    if s.fromWorker != [] {
      EndShrinks(s.fromWorker, Replies(fed));
    }
  }

  lemma RestartBeginsDialogue(s: System)
    requires NoLaterLife(s)
    ensures Dialogue(Next(s, Restart), [])
  {
    NothingYet(s, s.life + 1);
  }

  lemma StepKeepsLives(s: System, step: Step)
    requires NoLaterLife(s)
    ensures NoLaterLife(Next(s, step))
  {}

  lemma {:induction false} RunKeepsDialogue(steps: seq<Step>)
    ensures NoLaterLife(Run(steps)) && Dialogue(Run(steps), Fed(steps))
  {
    if steps != [] {
      var init, step := steps[..|steps| - 1], steps[|steps| - 1];
      RunKeepsDialogue(init);
      var s := Run(init);
      StepKeepsLives(s, step);
      match step
      case Send(r) => SendKeepsDialogue(s, Fed(init), r);
      case Serve(w) =>
        if s.toWorker != [] && s.running {
          ServeKeepsDialogue(s, Fed(init), w);
        }
      case Deliver => DeliverKeepsDialogue(s, Fed(init));
      case Restart => RestartBeginsDialogue(s);
      case _ =>
    }
  }

  /** In every run: the lines the present life of the worker has read, and those still in its
      pipe, are the requests sent to it, in order; the replies it wrote are one for each line
      read, each saying what the lines before call for; and those still in the other pipe are
      the last of them. */
  lemma PipesCarryTheDialogue(steps: seq<Step>)
    ensures var s, fed := Run(steps), Fed(steps);
            var written := WrittenIn(s.served, s.life);
            && SentIn(s.sent, s.life) == LinesOf(fed) + s.toWorker
            && |written| == LinesServed(fed) && (s.running ==> |written| == |fed|)
            && (forall i | 0 <= i < |written| :: Answers(fed[..i], fed[i], written[i].content))
            && IsEndOf(s.fromWorker, written)
  {
    RunKeepsDialogue(steps);
    RepliesFollowTheHistory(Fed(steps));
    OneReplyPerLine(Fed(steps));
  }

  /** How often the daemon stopped waiting without a reply: at a deadline, at the end of the pipe
      of a dead worker, or by restarting it. */
  function GivenUp(steps: seq<Step>): nat {
    if steps == [] then 0
    else
      var s := Run(steps[..|steps| - 1]);
      var gaveUp := match steps[|steps| - 1]
        case Timeout => true
        case Restart => true
        case Deliver => s.fromWorker == [] && !s.running
        case _ => false;
      GivenUp(steps[..|steps| - 1]) + if gaveUp && s.waiting.Some? then 1 else 0
  }

  /** In every run there is one request at a time: of the requests sent, at most one is waited
      for, and every other was returned a reply or given up. */
  lemma {:induction false} OneRequestAtATime(steps: seq<Step>)
    ensures var s := Run(steps);
            |s.sent| == |s.returned| + GivenUp(steps) + if s.waiting.Some? then 1 else 0
  {
    if steps != [] {
      OneRequestAtATime(steps[..|steps| - 1]);
    }
  }
}
