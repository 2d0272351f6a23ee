/** The rolling PCM window shared by the capture writer (crates/openwhisper-core/src/audio.rs)
    and the AudioCoalescer (crates/openwhisper-core/src/streaming.rs). */
module AudioWindow {
  import opened Prelude

  const BATCH_BYTES := 16_000 * 2 * 300 / 1_000
  const WINDOW_BYTES := 16_000 * 2 * 15

  /** Drop whole samples from the front until at most one window is left. */
  function TrimWindow(pending: seq<Byte>): seq<Byte> {
    if |pending| > WINDOW_BYTES then
      var excess := |pending| - WINDOW_BYTES;
      var aligned := excess + excess % 2;
      pending[if aligned <= |pending| then aligned else |pending|..]
    else pending
  }

  /** How many of n bytes the window leaves out: none, or all but the last window less the
      odd byte of the total. */
  function WindowDrop(n: nat): (d: nat)
    ensures d <= n && d % 2 == 0
  {
    if n <= WINDOW_BYTES then 0 else n - (WINDOW_BYTES - n % 2)
  }

  /** The closed form of the rolling buffer. */
  function Window(all: seq<Byte>): seq<Byte> {
    all[WindowDrop(|all|)..]
  }

  lemma WindowSize(all: seq<Byte>)
    ensures |Window(all)| <= WINDOW_BYTES && |Window(all)| % 2 == |all| % 2
    ensures |all| <= WINDOW_BYTES ==> Window(all) == all
  {}

  /** The window is the end of what was appended: all of it up to fifteen seconds, from then
      on a whole window, less one byte when an odd number of bytes was appended. */
  lemma WindowIsTheEnd(all: seq<Byte>)
    ensures var w := Window(all);
            && |w| <= |all| && w == all[|all| - |w|..]
            && |w| == (if |all| <= 480_000 then |all| else 480_000 - |all| % 2)
            && (|w| >= 9_600 <==> |all| >= 9_600)
    ensures WINDOW_BYTES == 480_000 && BATCH_BYTES == 9_600
  {}

  /** Trimming after every append is the same as taking the window of everything appended. */
  lemma WindowAppend(all: seq<Byte>, more: seq<Byte>)
    ensures TrimWindow(Window(all) + more) == Window(all + more)
  {
    var d := WindowDrop(|all|);
    var p := (all + more)[d..];
    assert Window(all) + more == p;
    var e := WindowDrop(|all| + |more|) - d;
    assert p[e..] == (all + more)[d + e..];
  }
}

module Coalescer {
  import opened AudioWindow
  import opened Prelude

  datatype State = State(inFlight: bool, dirty: bool, pending: seq<Byte>)

  datatype Reply = Reply(state: State, window: Option<seq<Byte>>)

  const FRESH := State(false, false, [])

  function AppendStep(s: State, pcm: seq<Byte>): Reply {
    var pending := TrimWindow(s.pending + pcm);
    if s.inFlight || |pending| < BATCH_BYTES then Reply(State(s.inFlight, true, pending), None)
    else Reply(State(true, false, pending), Some(pending))
  }

  function CompleteStep(s: State): Reply {
    if !s.dirty || |s.pending| < BATCH_BYTES then Reply(s.(inFlight := false), None)
    else Reply(State(true, false, s.pending), Some(s.pending))
  }

  function FinishStep(s: State): State {
    State(false, s.dirty, [])
  }

  class AudioCoalescer {
    var inFlight: bool
    var dirty: bool
    var pending: seq<Byte>

    function Value(): State
      reads this
    {
      State(inFlight, dirty, pending)
    }

    constructor ()
      ensures Value() == FRESH
    {
      inFlight, dirty, pending := false, false, [];
    }

    method Append(pcm: seq<Byte>) returns (window: Option<seq<Byte>>)
      modifies this
      ensures Reply(Value(), window) == AppendStep(old(Value()), pcm)
    {
      pending := pending + pcm;
      dirty := true;
      if |pending| > WINDOW_BYTES {
        var excess := |pending| - WINDOW_BYTES;
        var aligned := excess + excess % 2;
        pending := pending[if aligned <= |pending| then aligned else |pending|..];
      }
      if inFlight || |pending| < BATCH_BYTES {
        return None;
      }
      inFlight := true;
      dirty := false;
      window := Some(pending);
    }

    method CompleteInference() returns (window: Option<seq<Byte>>)
      modifies this
      ensures Reply(Value(), window) == CompleteStep(old(Value()))
    {
      inFlight := false;
      if !dirty || |pending| < BATCH_BYTES {
        return None;
      }
      inFlight := true;
      dirty := false;
      window := Some(pending);
    }

    method Finish() returns (rest: seq<Byte>)
      modifies this
      ensures Value() == FinishStep(old(Value())) && rest == old(pending)
    {
      inFlight := false;
      rest := pending;
      pending := [];
    }
  }

  // ---- whole runs ----

  datatype Event = Append(pcm: seq<Byte>) | Complete | Finish

  function Step(s: State, e: Event): Reply {
    match e
    case Append(pcm) => AppendStep(s, pcm)
    case Complete => CompleteStep(s)
    case Finish => Reply(FinishStep(s), None)
  }

  function Run(events: seq<Event>): Reply {
    if events == [] then Reply(FRESH, None)
    else Step(Run(events[..|events| - 1]).state, events[|events| - 1])
  }

  /** All bytes appended since the last finish. */
  function Appended(events: seq<Event>): seq<Byte> {
    if events == [] then []
    else match events[|events| - 1]
      case Append(pcm) => Appended(events[..|events| - 1]) + pcm
      case Complete => Appended(events[..|events| - 1])
      case Finish => []
  }

  /** Windows handed out and neither completed nor abandoned by a finish. */
  function Outstanding(events: seq<Event>): nat {
    if events == [] then 0
    else
      var before := Outstanding(events[..|events| - 1]);
      var handed := if Run(events).window.Some? then 1 else 0;
      match events[|events| - 1]
      case Append(_) => before + handed
      case Complete => (if before > 0 then before - 1 else 0) + handed
      case Finish => 0
  }

  ghost predicate Good(s: State, appended: seq<Byte>, outstanding: nat) {
    && s.pending == Window(appended)
    && outstanding == (if s.inFlight then 1 else 0)
    && (!s.inFlight && s.dirty ==> |s.pending| < BATCH_BYTES)
  }

  lemma AppendKeepsGood(s: State, appended: seq<Byte>, outstanding: nat, pcm: seq<Byte>)
    requires Good(s, appended, outstanding)
    ensures var r := AppendStep(s, pcm);
            && Good(r.state, appended + pcm, outstanding + if r.window.Some? then 1 else 0)
            && (r.window.Some? ==> r.window.value == Window(appended + pcm))
  {
    WindowAppend(appended, pcm);
  }

  /** In every run: the pending buffer is the window of everything appended, any window handed
      out is that same buffer, at most one is outstanding, and nothing ready is left waiting. */
  lemma {:induction false} CoalescerKeepsTheWindow(events: seq<Event>)
    ensures var r := Run(events);
            && r.state.pending == Window(Appended(events))
            && (r.window.Some? ==> r.window.value == Window(Appended(events)))
            && Outstanding(events) == (if r.state.inFlight then 1 else 0)
            && (!r.state.inFlight && r.state.dirty ==> |r.state.pending| < BATCH_BYTES)
  {
    if events != [] {
      var init := events[..|events| - 1];
      CoalescerKeepsTheWindow(init);
      if events[|events| - 1].Append? {
        AppendKeepsGood(Run(init).state, Appended(init), Outstanding(init), events[|events| - 1].pcm);
      } else if events[|events| - 1].Finish? {
        WindowSize([]);
      }
    } else {
      WindowSize([]);
    }
  }

  /** Audio was appended since the last window was handed out. */
  predicate Waiting(events: seq<Event>) {
    events != [] && Run(events).window.None? &&
    (events[|events| - 1].Append? || Waiting(events[..|events| - 1]))
  }

  lemma {:induction false} DirtyIsWaiting(events: seq<Event>)
    ensures Run(events).state.dirty <==> Waiting(events)
  {
    if events != [] {
      DirtyIsWaiting(events[..|events| - 1]);
    }
  }

  lemma ReplyOf(events: seq<Event>, e: Event)
    ensures Run(events + [e]) == Step(Run(events).state, e)
  {
    assert (events + [e])[..|events|] == events;
  }

  /** Exactly when a window is handed out, in every run: on an append when none is outstanding
      and 300 ms of audio have been appended since the last finish; on a completion when
      that much has been appended, some of it since the last window; on a finish never. */
  lemma WindowHandedOutIff(events: seq<Event>, pcm: seq<Byte>)
    ensures Run(events + [Append(pcm)]).window.Some? <==>
              Outstanding(events) == 0 && |Appended(events) + pcm| >= 9_600
    ensures Run(events + [Complete]).window.Some? <==> Waiting(events) && |Appended(events)| >= 9_600
    ensures Run(events + [Finish]).window.None?
  {
    CoalescerKeepsTheWindow(events);
    DirtyIsWaiting(events);
    ReplyOf(events, Append(pcm));
    ReplyOf(events, Complete);
    ReplyOf(events, Finish);
    WindowAppend(Appended(events), pcm);
    WindowIsTheEnd(Appended(events) + pcm);
    WindowIsTheEnd(Appended(events));
  }
}
