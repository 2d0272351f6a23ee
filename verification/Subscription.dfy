/** Event numbering and the per-client subscription loop: `emit` and `snapshot` in
    crates/openwhisperd/src/lib.rs, `serve_client` in crates/openwhisperd/src/main.rs.

    An event takes its number and is put on the broadcast channel in two separate steps, so
    numbers can arrive out of order; a client that falls behind is given a snapshot. */
module Subscription {

  const CAPACITY := 128

  datatype Frame = Event(number: nat) | Snapshot(number: nat)

  datatype Client = Client(subscribed: bool, floor: nat, out: seq<Frame>)

  const NEW_CLIENT := Client(false, 0, [])

  function OnSnapshot(c: Client, sequence: nat): Client {
    Client(true, sequence, c.out + [Snapshot(sequence)])
  }

  function OnEventStep(c: Client, n: nat): Client {
    if c.subscribed && n > c.floor then c.(floor := n, out := c.out + [Event(n)]) else c
  }

  function OnLaggedStep(c: Client, sequence: nat): Client {
    if c.subscribed then OnSnapshot(c, sequence) else c
  }

  class ClientLoop {
    var subscribed: bool
    var subscriptionFloor: nat
    var written: seq<Frame>

    function Value(): Client
      reads this
    {
      Client(subscribed, subscriptionFloor, written)
    }

    constructor ()
      ensures Value() == NEW_CLIENT
    {
      subscribed, subscriptionFloor, written := false, 0, [];
    }

    method OnSubscribe(sequence: nat)
      modifies this
      ensures Value() == OnSnapshot(old(Value()), sequence)
    {
      subscriptionFloor := sequence;
      written := written + [Snapshot(sequence)];
      subscribed := true;
    }

    method OnEvent(number: nat)
      modifies this
      ensures Value() == OnEventStep(old(Value()), number)
    {
      if subscribed && number > subscriptionFloor {
        subscriptionFloor := number;
        written := written + [Event(number)];
      }
    }

    method OnLagged(sequence: nat)
      modifies this
      ensures Value() == OnLaggedStep(old(Value()), sequence)
    {
      if subscribed {
        subscriptionFloor := sequence;
        written := written + [Snapshot(sequence)];
      }
    }
  }

  // ---- the daemon and one client ----

  /** `next` is the last number taken, `inFlight` the numbers taken and not yet sent, `log`
      what was sent since the client connected, `cursor` how much of it the client has read. */
  datatype System = System(next: nat, inFlight: set<nat>, log: seq<nat>, cursor: nat, client: Client)

  datatype Step = Number | Send(n: nat) | Subscribe | Receive

  function Next(s: System, step: Step): System {
    match step
    case Number => s.(next := s.next + 1, inFlight := s.inFlight + {s.next + 1})
    case Send(n) =>
      if n in s.inFlight then s.(inFlight := s.inFlight - {n}, log := s.log + [n]) else s
    case Subscribe => s.(client := OnSnapshot(s.client, s.next))
    case Receive =>
      if |s.log| <= s.cursor then s
      else if |s.log| - s.cursor > CAPACITY then
        s.(cursor := |s.log| - CAPACITY, client := OnLaggedStep(s.client, s.next))
      else s.(cursor := s.cursor + 1, client := OnEventStep(s.client, s.log[s.cursor]))
  }

  /** A client connects when `next` numbers were taken, of which `inFlight` are still unsent. */
  function Connect(next: nat, inFlight: set<nat>): System {
    System(next, inFlight, [], 0, NEW_CLIENT)
  }

  function Run(start: System, steps: seq<Step>): System {
    if steps == [] then start else Next(Run(start, steps[..|steps| - 1]), steps[|steps| - 1])
  }

  // ---- every interleaving ----

  ghost predicate Ordered(out: seq<Frame>) {
    forall i, j | 0 <= i < j < |out| ::
      && out[i].number <= out[j].number
      && (out[j].Event? ==> out[i].number < out[j].number)
  }

  ghost predicate Inv(s: System) {
    && s.cursor <= |s.log|
    && (forall n | n in s.inFlight :: n <= s.next)
    && (forall i | 0 <= i < |s.log| :: s.log[i] <= s.next)
    && s.client.floor <= s.next
    && Ordered(s.client.out)
    && (s.client.subscribed <==> s.client.out != [])
    && (s.client.out != [] ==> s.client.floor == s.client.out[|s.client.out| - 1].number)
    && (s.client.out != [] ==> s.client.out[0].Snapshot?)
  }

  lemma OrderedExtend(out: seq<Frame>, f: Frame)
    requires Ordered(out)
    requires out != [] ==> out[|out| - 1].number <= f.number && (f.Event? ==> out[|out| - 1].number < f.number)
    ensures Ordered(out + [f])
  {
    forall i, j | 0 <= i < j < |out + [f]|
      ensures (out + [f])[i].number <= (out + [f])[j].number
      ensures (out + [f])[j].Event? ==> (out + [f])[i].number < (out + [f])[j].number
    {
      if j == |out| && i < |out| - 1 {
        assert out[i].number <= out[|out| - 1].number;
      }
    }
  }

  lemma StepKeepsInv(s: System, step: Step)
    requires Inv(s)
    ensures Inv(Next(s, step))
  {
    var c := s.client;
    match step
    case Number =>
    case Send(n) =>
    case Subscribe => OrderedExtend(c.out, Snapshot(s.next));
    case Receive =>
      if s.cursor < |s.log| && c.subscribed {
        if |s.log| - s.cursor > CAPACITY {
          OrderedExtend(c.out, Snapshot(s.next));
        } else if s.log[s.cursor] > c.floor {
          OrderedExtend(c.out, Event(s.log[s.cursor]));
        }
      }
  }

  /** Whatever the interleaving of numbering, sending, subscribing, receiving and lagging,
      frame numbers never go down and every event number is above all frames before it. */
  lemma {:induction false} FramesAreOrdered(start: System, steps: seq<Step>)
    requires Inv(start)
    ensures Inv(Run(start, steps)) && Ordered(Run(start, steps).client.out)
  {
    if steps != [] {
      FramesAreOrdered(start, steps[..|steps| - 1]);
      StepKeepsInv(Run(start, steps[..|steps| - 1]), steps[|steps| - 1]);
    }
  }

  lemma ConnectionIsOrdered(next: nat, inFlight: set<nat>, steps: seq<Step>)
    requires forall n | n in inFlight :: n <= next
    ensures Ordered(Run(Connect(next, inFlight), steps).client.out)
  {
    FramesAreOrdered(Connect(next, inFlight), steps);
  }

  /** A received event is dropped exactly when some frame already written has its number or
      a higher one, and otherwise it is written next. */
  lemma DroppedIffOvertaken(start: System, steps: seq<Step>)
    requires Inv(start)
    requires var s := Run(start, steps);
             s.client.subscribed && s.cursor < |s.log| && |s.log| - s.cursor <= CAPACITY
    ensures var s := Run(start, steps);
            var n := s.log[s.cursor];
            var out := Run(start, steps + [Receive]).client.out;
            if exists i :: 0 <= i < |s.client.out| && s.client.out[i].number >= n
            then out == s.client.out
            else out == s.client.out + [Event(n)]
  {
    FramesAreOrdered(start, steps);
    assert (steps + [Receive])[..|steps|] == steps;
    var s := Run(start, steps);
    HighestFrameIsFloor(s, s.log[s.cursor]);
    assert Next(s, Receive).client == OnEventStep(s.client, s.log[s.cursor]);
  }

  lemma HighestFrameIsFloor(s: System, n: nat)
    requires Inv(s) && s.client.subscribed
    ensures (exists i :: 0 <= i < |s.client.out| && s.client.out[i].number >= n) <==> s.client.floor >= n
  {
    var out := s.client.out;
    if s.client.floor >= n {
      assert out[|out| - 1].number >= n;
    }
  }

  // ---- loss ----

  ghost predicate HigherEvent(out: seq<Frame>, n: nat) {
    exists i :: 0 <= i < |out| && out[i].Event? && out[i].number > n
  }

  ghost predicate Covered(out: seq<Frame>, n: nat) {
    exists i :: 0 <= i < |out| && out[i].Snapshot? && out[i].number >= n
  }

  /** The client has neither event n nor a snapshot that includes it. */
  ghost predicate Lost(out: seq<Frame>, n: nat) {
    Event(n) !in out && !Covered(out, n)
  }

  /** No number is sent twice, and only what was read is written. */
  ghost predicate SentOnce(s: System) {
    && s.cursor <= |s.log|
    && (forall i, j | 0 <= i < j < |s.log| :: s.log[i] != s.log[j])
    && (forall i | 0 <= i < |s.log| :: s.log[i] !in s.inFlight)
    && (forall f | f in s.client.out && f.Event? :: f.number in s.log[..s.cursor])
  }

  lemma StepSendsOnce(s: System, step: Step)
    requires Inv(s) && SentOnce(s)
    ensures SentOnce(Next(s, step))
  {
    var t := Next(s, step);
    assert s.log[..s.cursor] == t.log[..s.cursor];
    match step
    case Receive =>
      assert s.cursor <= t.cursor;
      forall f | f in t.client.out && f.Event? ensures f.number in t.log[..t.cursor] {
        if f in s.client.out {
          var i :| 0 <= i < s.cursor && s.log[..s.cursor][i] == f.number;
          assert t.log[..t.cursor][i] == f.number;
        } else {
          assert t.log[..t.cursor][s.cursor] == f.number;
        }
      }
    case _ =>
  }

  lemma {:induction false} RunSendsOnce(next: nat, inFlight: set<nat>, steps: seq<Step>)
    requires forall n | n in inFlight :: n <= next
    ensures SentOnce(Run(Connect(next, inFlight), steps))
  {
    if steps != [] {
      var init := steps[..|steps| - 1];
      RunSendsOnce(next, inFlight, init);
      FramesAreOrdered(Connect(next, inFlight), init);
      StepSendsOnce(Run(Connect(next, inFlight), init), steps[|steps| - 1]);
    }
  }

  /** A received event is lost exactly when a higher event was already written and no snapshot
      at or above its number was. */
  lemma LostIff(next: nat, inFlight: set<nat>, steps: seq<Step>)
    requires forall n | n in inFlight :: n <= next
    requires var s := Run(Connect(next, inFlight), steps);
             s.client.subscribed && s.cursor < |s.log| && |s.log| - s.cursor <= CAPACITY
    ensures var s := Run(Connect(next, inFlight), steps);
            var n := s.log[s.cursor];
            Lost(Run(Connect(next, inFlight), steps + [Receive]).client.out, n) <==>
              HigherEvent(s.client.out, n) && !Covered(s.client.out, n)
  {
    var start := Connect(next, inFlight);
    var s := Run(start, steps);
    FramesAreOrdered(start, steps);
    RunSendsOnce(next, inFlight, steps);
    DroppedIffOvertaken(start, steps);
    LostAtReceipt(s, s.log[s.cursor], Run(start, steps + [Receive]).client.out);
  }

  lemma LostAtReceipt(s: System, n: nat, after: seq<Frame>)
    requires SentOnce(s) && s.cursor < |s.log| && n == s.log[s.cursor]
    requires if exists i :: 0 <= i < |s.client.out| && s.client.out[i].number >= n
             then after == s.client.out else after == s.client.out + [Event(n)]
    ensures Lost(after, n) <==> HigherEvent(s.client.out, n) && !Covered(s.client.out, n)
  {
    var out := s.client.out;
    if exists i :: 0 <= i < |out| && out[i].number >= n {
      var i :| 0 <= i < |out| && out[i].number >= n;
      assert n !in s.log[..s.cursor];
      assert Event(n) !in out;
      assert out[i] in out;
    } else {
      assert after[|out|] == Event(n);
    }
  }

  /** A lost event stays lost until the next snapshot, which covers it. */
  lemma LostUntilSnapshot(start: System, steps: seq<Step>, more: seq<Step>, n: nat)
    requires Inv(start)
    requires var out := Run(start, steps).client.out; Lost(out, n) && HigherEvent(out, n)
    ensures var out, later := Run(start, steps).client.out, Run(start, steps + more).client.out;
            && out <= later
            && (Lost(later, n) <==> forall i | |out| <= i < |later| :: !later[i].Snapshot?)
  {
    FramesAreOrdered(start, steps + more);
    FramesStay(start, steps, more);
    var out, later := Run(start, steps).client.out, Run(start, steps + more).client.out;
    LostByOrder(out, later, n);
  }

  lemma {:induction false} FramesStay(start: System, steps: seq<Step>, more: seq<Step>)
    ensures Run(start, steps).client.out <= Run(start, steps + more).client.out
  {
    if more == [] {
      assert steps + more == steps;
    } else {
      FramesStay(start, steps, more[..|more| - 1]);
      assert (steps + more)[..|steps + more| - 1] == steps + more[..|more| - 1];
    }
  }

  lemma LostByOrder(out: seq<Frame>, later: seq<Frame>, n: nat)
    requires Ordered(later) && out <= later && Lost(out, n) && HigherEvent(out, n)
    ensures Lost(later, n) <==> forall i | |out| <= i < |later| :: !later[i].Snapshot?
  {
    var h :| 0 <= h < |out| && out[h].Event? && out[h].number > n;
    forall i | |out| <= i < |later| ensures later[i].number > n {
      assert later[h].number <= later[i].number;
    }
    forall i | 0 <= i < |out| ensures later[i] == out[i] {}
    if exists i :: |out| <= i < |later| && later[i].Snapshot? {
      var i :| |out| <= i < |later| && later[i].Snapshot?;
      assert Covered(later, n);
    } else {
      assert !Covered(later, n);
      assert Event(n) !in later;
    }
  }

  // ---- emission in order ----

  /** Everything numbered up to `base` was sent before the client connected, and the log
      continues from there in order. */
  ghost predicate InOrder(s: System, base: nat) {
    && base + |s.log| <= s.next
    && (forall i | 0 <= i < |s.log| :: s.log[i] == base + i + 1)
    && (forall n :: n in s.inFlight <==> base + |s.log| < n <= s.next)
  }

  /** No step sends a number while a smaller one is waiting. */
  ghost predicate SendsInOrder(start: System, steps: seq<Step>) {
    if steps == [] then true
    else
      var init, last := steps[..|steps| - 1], steps[|steps| - 1];
      && SendsInOrder(start, init)
      && (last.Send? ==> forall m | m in Run(start, init).inFlight :: last.n <= m)
  }

  /** Each event frame is the successor of the frame before it: only a snapshot skips numbers. */
  ghost predicate NoGaps(out: seq<Frame>) {
    forall i | 0 < i < |out| :: out[i].Event? ==> out[i].number == out[i - 1].number + 1
  }

  ghost predicate Caught(s: System, base: nat) {
    InOrder(s, base) && NoGaps(s.client.out) && (s.client.subscribed ==> base + s.cursor <= s.client.floor)
  }

  lemma SendKeepsOrder(s: System, base: nat, n: nat)
    requires Inv(s) && InOrder(s, base)
    requires n in s.inFlight && forall m | m in s.inFlight :: n <= m
    ensures InOrder(Next(s, Send(n)), base)
  {
    assert base + |s.log| + 1 in s.inFlight;
  }

  lemma StepKeepsCaught(s: System, base: nat, step: Step)
    requires Inv(s) && Caught(s, base)
    requires step.Send? ==> forall m | m in s.inFlight :: step.n <= m
    ensures Caught(Next(s, step), base)
  {
    if step.Send? && step.n in s.inFlight {
      SendKeepsOrder(s, base, step.n);
    } else if step.Receive? && s.cursor < |s.log| && |s.log| - s.cursor <= CAPACITY {
      assert s.log[s.cursor] == base + s.cursor + 1;
    }
  }

  /** When numbers are sent in order, a subscribed client misses nothing: frames after a
      snapshot follow without a gap, and every number above the last frame is still unread in
      the channel or not yet sent. */
  lemma {:induction false} InOrderMeansNothingLost(start: System, base: nat, steps: seq<Step>)
    requires Inv(start) && Caught(start, base) && SendsInOrder(start, steps)
    ensures var s := Run(start, steps);
            && Caught(s, base)
            && NoGaps(s.client.out)
            && s.cursor <= |s.log|
            && (s.client.subscribed ==>
                  forall n | s.client.floor < n <= s.next :: n in s.log[s.cursor..] || n in s.inFlight)
  {
    if steps != [] {
      var init := steps[..|steps| - 1];
      InOrderMeansNothingLost(start, base, init);
      FramesAreOrdered(start, init);
      StepKeepsCaught(Run(start, init), base, steps[|steps| - 1]);
    }
    FramesAreOrdered(start, steps);
    var s := Run(start, steps);
    if s.client.subscribed {
      forall n | s.client.floor < n <= s.next && n !in s.inFlight ensures n in s.log[s.cursor..] {
        assert s.log[s.cursor..][n - base - 1 - s.cursor] == n;
      }
    }
  }

  datatype AtomicStep = Emit | AtomicSubscribe | AtomicReceive

  /** Numbering and sending as one step, spelled out as two. */
  function Expand(start: System, steps: seq<AtomicStep>): seq<Step> {
    if steps == [] then []
    else
      var before := Expand(start, steps[..|steps| - 1]);
      match steps[|steps| - 1]
      case Emit => before + [Number] + [Send(Run(start, before).next + 1)]
      case AtomicSubscribe => before + [Subscribe]
      case AtomicReceive => before + [Receive]
  }

  lemma AppendStep(start: System, steps: seq<Step>, step: Step)
    ensures Run(start, steps + [step]) == Next(Run(start, steps), step)
    ensures SendsInOrder(start, steps) && (step.Send? ==> Run(start, steps).inFlight == {step.n})
            ==> SendsInOrder(start, steps + [step])
  {
    assert (steps + [step])[..|steps|] == steps;
  }

  ghost predicate Settled(start: System, steps: seq<Step>) {
    SendsInOrder(start, steps) && Run(start, steps).inFlight == {}
  }

  lemma EmitSettles(start: System, before: seq<Step>)
    requires Settled(start, before)
    ensures Settled(start, before + [Number] + [Send(Run(start, before).next + 1)])
  {
    var s := Run(start, before);
    AppendStep(start, before, Number);
    assert Run(start, before + [Number]).inFlight == {s.next + 1};
    AppendStep(start, before + [Number], Send(s.next + 1));
    assert {s.next + 1} - {s.next + 1} == {};
  }

  lemma OtherStepSettles(start: System, before: seq<Step>, step: Step)
    requires Settled(start, before) && (step.Subscribe? || step.Receive?)
    ensures Settled(start, before + [step])
  {
    AppendStep(start, before, step);
  }

  lemma {:induction false} AtomicEmissionIsInOrder(start: System, steps: seq<AtomicStep>)
    requires start.inFlight == {}
    ensures Settled(start, Expand(start, steps))
  {
    if steps != [] {
      var before := Expand(start, steps[..|steps| - 1]);
      AtomicEmissionIsInOrder(start, steps[..|steps| - 1]);
      match steps[|steps| - 1]
      case Emit => EmitSettles(start, before);
      case AtomicSubscribe => OtherStepSettles(start, before, Subscribe);
      case AtomicReceive => OtherStepSettles(start, before, Receive);
    }
  }

  /** With numbering and sending in one step, a client that has read the whole channel has
      been brought up to the last event, through events and snapshots without gaps. */
  lemma AtomicEmissionLosesNothing(next: nat, steps: seq<AtomicStep>)
    ensures var start := Connect(next, {});
            var s := Run(start, Expand(start, steps));
            && NoGaps(s.client.out)
            && (s.client.subscribed && s.cursor == |s.log| ==> s.client.floor == s.next)
  {
    var start := Connect(next, {});
    AtomicEmissionIsInOrder(start, steps);
    InOrderMeansNothingLost(start, next, Expand(start, steps));
    FramesAreOrdered(start, Expand(start, steps));
    var s := Run(start, Expand(start, steps));
    assert s.cursor == |s.log| ==> s.log[s.cursor..] == [];
    if s.client.floor < s.next {
      assert s.next !in s.inFlight;
    }
  }

  /** With two emitters racing between the two steps, an event is lost for good: number 1 is
      sent after number 2 and is never written, nor covered by any snapshot. */
  lemma RacingEmissionLosesAnEvent()
    ensures var s := Run(Connect(0, {}), [Subscribe, Number, Number, Send(2), Receive, Send(1), Receive]);
            s.client.out == [Snapshot(0), Event(2)] && s.inFlight == {} && s.cursor == |s.log| == 2
  {
    var start := Connect(0, {});
    var steps := [Subscribe, Number, Number, Send(2), Receive, Send(1), Receive];
    var s1 := Next(start, Subscribe);
    var s3 := Next(Next(s1, Number), Number);
    assert s3.inFlight == {1, 2};
    var s5 := Next(Next(s3, Send(2)), Receive);
    assert s5.client.out == [Snapshot(0), Event(2)];
    var s7 := Next(Next(s5, Send(1)), Receive);
    assert steps[..6][..5] == steps[..5] && steps[..5][..4] == steps[..4] && steps[..4][..3] == steps[..3];
    assert steps[..3][..2] == steps[..2] && steps[..2][..1] == steps[..1] && steps[..1][..0] == [];
    assert Run(start, steps[..1]) == s1;
    assert Run(start, steps[..3]) == s3;
    assert Run(start, steps[..5]) == s5;
    assert Run(start, steps) == s7;
  }

  // ---- what each step does ----

  /** The frame a step writes, if any: a snapshot of the last number taken on subscribing, and
      for a subscribed client more than 128 numbers behind; otherwise the next number read, if
      every frame so far is below it. */
  ghost predicate Writes(s: System, step: Step, frame: Frame) {
    || (step.Subscribe? && frame == Snapshot(s.next))
    || (&& step.Receive? && s.client.subscribed && s.cursor < |s.log|
        && if |s.log| - s.cursor > 128 then frame == Snapshot(s.next)
           else frame == Event(s.log[s.cursor]) && forall f | f in s.client.out :: f.number < s.log[s.cursor])
  }

  lemma AllBelow(s: System, n: nat)
    requires Inv(s) && s.client.subscribed
    ensures (forall f | f in s.client.out :: f.number < n) <==> n > s.client.floor
  {
    var out := s.client.out;
    HighestFrameIsFloor(s, n);
    if n > s.client.floor {
      forall f | f in out ensures f.number < n {
        var i :| 0 <= i < |out| && out[i] == f;
      }
    } else {
      assert out[|out| - 1] in out;
    }
  }

  /** In every reachable state, a step writes exactly that frame, subscribes the client exactly
      if it asks, and reads the channel in order, skipping what lies more than 128 back. */
  lemma StepWrites(start: System, steps: seq<Step>, step: Step)
    requires Inv(start)
    ensures var s := Run(start, steps);
            var t := Next(s, step);
            && (forall frame | Writes(s, step, frame) :: t.client.out == s.client.out + [frame])
            && ((forall frame :: !Writes(s, step, frame)) ==> t.client.out == s.client.out)
            && (t.client.subscribed <==> s.client.subscribed || step.Subscribe?)
            && t.cursor == (if !step.Receive? || s.cursor == |s.log| then s.cursor
                            else if |s.log| - s.cursor > 128 then |s.log| - 128 else s.cursor + 1)
  {
    FramesAreOrdered(start, steps);
    var s := Run(start, steps);
    if s.client.subscribed && s.cursor < |s.log| {
      AllBelow(s, s.log[s.cursor]);
      if step.Receive? && |s.log| - s.cursor <= 128 && s.log[s.cursor] > s.client.floor {
        assert Writes(s, step, Event(s.log[s.cursor]));
      }
      if step.Receive? && |s.log| - s.cursor > 128 {
        assert Writes(s, step, Snapshot(s.next));
      }
    }
    if step.Subscribe? {
      assert Writes(s, step, Snapshot(s.next));
    }
  }

  /** Nothing is written to a client that never subscribed, lagging or not. */
  lemma {:induction false} SilentUntilSubscribed(next: nat, inFlight: set<nat>, steps: seq<Step>)
    ensures var c := Run(Connect(next, inFlight), steps).client;
            && (c.subscribed <==> Subscribe in steps)
            && (Subscribe !in steps ==> c.out == [])
  {
    if steps != [] {
      var init, last := steps[..|steps| - 1], steps[|steps| - 1];
      SilentUntilSubscribed(next, inFlight, init);
      assert steps == init + [last];
    }
  }

  function Taken(steps: seq<Step>): nat {
    if steps == [] then 0 else Taken(steps[..|steps| - 1]) + if steps[|steps| - 1].Number? then 1 else 0
  }

  /** Every number taken since the client connected, and every one unsent then, is on the
      channel or still waiting to be sent, never both and never twice; nothing else is. */
  lemma {:induction false} EveryNumberIsSentOrWaiting(next: nat, inFlight: set<nat>, steps: seq<Step>, n: nat)
    requires forall m | m in inFlight :: m <= next
    ensures var s := Run(Connect(next, inFlight), steps);
            && s.next == next + Taken(steps)
            && SentOnce(s)
            && (n in s.inFlight || n in s.log <==> n in inFlight || next < n <= s.next)
  {
    RunSendsOnce(next, inFlight, steps);
    if steps != [] {
      EveryNumberIsSentOrWaiting(next, inFlight, steps[..|steps| - 1], n);
    }
  }
}
