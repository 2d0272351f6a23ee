/** CaptureCoordinator (crates/openwhisper-core/src/state.rs): one global capture, and
    generations that make work for an abandoned capture harmless. */
module Capture {
  import opened Prelude

  datatype Target = Target(applicationId: string, windowId: string, titleFingerprint: string)

  datatype CaptureState =
    | Idle
    | Capturing(session: nat, generation: nat, mode: Mode, target: Option<Target>)
    | Transcribing(session: nat, generation: nat, mode: Mode, target: Option<Target>)
    | Processing(session: nat, generation: nat, mode: Mode, target: Option<Target>)
    | Delivering(session: nat, generation: nat, target: Option<Target>)
    | Failed(failedSession: Option<nat>, generation: nat, message: string)

  datatype TransitionError =
    | AlreadyActive
    | NotActive
    | Invalid(from: string, command: string)

  datatype Result<+T> = Ok(value: T) | Err(error: TransitionError)

  function PhaseName(s: CaptureState): string {
    match s
    case Idle => "idle"
    case Capturing(_, _, _, _) => "capturing"
    case Transcribing(_, _, _, _) => "transcribing"
    case Processing(_, _, _, _) => "processing"
    case Delivering(_, _, _) => "delivering"
    case Failed(_, _, _) => "failed"
  }

  datatype Coordinator = Coordinator(state: CaptureState, generation: nat)

  const NEW := Coordinator(Idle, 0)

  // ---- transitions ----

  datatype Command =
    | Start(session: nat, mode: Mode, target: Option<Target>)
    | Stop
    | Toggle(session: nat, mode: Mode, target: Option<Target>)
    | BeginProcessing(generation: nat)
    | BeginDelivery(generation: nat)
    | Complete(generation: nat)
    | Cancel
    | Fail(message: string)

  function StartStep(c: Coordinator, session: nat, mode: Mode, target: Option<Target>): (Coordinator, Result<nat>) {
    if !(c.state.Idle? || c.state.Failed?) then (c, Err(AlreadyActive))
    else (Coordinator(Capturing(session, c.generation + 1, mode, target), c.generation + 1), Ok(session))
  }

  function StopStep(c: Coordinator): (Coordinator, Result<nat>) {
    match c.state
    case Capturing(session, g, mode, target) => (c.(state := Transcribing(session, g, mode, target)), Ok(g))
    case _ => (c, Err(NotActive))
  }

  function ToggleStep(c: Coordinator, session: nat, mode: Mode, target: Option<Target>): (Coordinator, Result<Option<nat>>) {
    match c.state
    case Idle => StartedOption(StartStep(c, session, mode, target))
    case Failed(_, _, _) => StartedOption(StartStep(c, session, mode, target))
    case Capturing(_, _, _, _) => (StopStep(c).0, Ok(None))
    case _ => (c, Err(AlreadyActive))
  }

  function StartedOption(r: (Coordinator, Result<nat>)): (Coordinator, Result<Option<nat>>) {
    (r.0, match r.1 case Ok(s) => Ok(Some(s)) case Err(e) => Err(e))
  }

  function BeginProcessingStep(c: Coordinator, generation: nat): (Coordinator, Result<()>) {
    match c.state
    case Transcribing(session, active, mode, target) =>
      if active != generation then (c, Err(Invalid("stale_generation", "begin_processing")))
      else (c.(state := Processing(session, generation, mode, target)), Ok(()))
    case _ => (c, Err(Invalid(PhaseName(c.state), "begin_processing")))
  }

  function BeginDeliveryStep(c: Coordinator, generation: nat): (Coordinator, Result<()>) {
    match c.state
    case Processing(session, active, _, target) =>
      if active != generation then (c, Err(Invalid("stale_generation", "begin_delivery")))
      else (c.(state := Delivering(session, generation, target)), Ok(()))
    case _ => (c, Err(Invalid(PhaseName(c.state), "begin_delivery")))
  }

  function CompleteStep(c: Coordinator, generation: nat): (Coordinator, bool) {
    var current := (c.state.Transcribing? || c.state.Processing? || c.state.Delivering?) && c.state.generation == generation;
    (if current then c.(state := Idle) else c, current)
  }

  function CancelStep(c: Coordinator): (Coordinator, Result<()>) {
    if c.state.Idle? then (c, Err(NotActive)) else (Coordinator(Idle, c.generation + 1), Ok(()))
  }

  function SessionOf(s: CaptureState): Option<nat> {
    match s
    case Idle => None
    case Failed(session, _, _) => session
    case _ => Some(s.session)
  }

  function FailStep(c: Coordinator, message: string): Coordinator {
    c.(state := Failed(SessionOf(c.state), c.generation, message))
  }

  class CaptureCoordinator {
    var state: CaptureState
    var generation: nat

    function Value(): Coordinator
      reads this
    {
      Coordinator(state, generation)
    }

    constructor ()
      ensures Value() == NEW
    {
      state, generation := Idle, 0;
    }

    method Start(session: nat, mode: Mode, target: Option<Target>) returns (r: Result<nat>)
      modifies this
      ensures (Value(), r) == StartStep(old(Value()), session, mode, target)
    {
      if !(state.Idle? || state.Failed?) {
        return Err(AlreadyActive);
      }
      generation := generation + 1;
      state := Capturing(session, generation, mode, target);
      r := Ok(session);
    }

    method Stop() returns (r: Result<nat>)
      modifies this
      ensures (Value(), r) == StopStep(old(Value()))
    {
      if !state.Capturing? {
        return Err(NotActive);
      }
      state := Transcribing(state.session, state.generation, state.mode, state.target);
      r := Ok(state.generation);
    }

    method Toggle(session: nat, mode: Mode, target: Option<Target>) returns (r: Result<Option<nat>>)
      modifies this
      ensures (Value(), r) == ToggleStep(old(Value()), session, mode, target)
    {
      match state
      case Idle | Failed(_, _, _) =>
        var started := Start(session, mode, target);
        r := match started case Ok(s) => Ok(Some(s)) case Err(e) => Err(e);
      case Capturing(_, _, _, _) =>
        var _ := Stop();
        r := Ok(None);
      case _ =>
        r := Err(AlreadyActive);
    }

    method BeginProcessing(generation: nat) returns (r: Result<()>)
      modifies this`state
      ensures (Value(), r) == BeginProcessingStep(old(Value()), generation)
    {
      if !state.Transcribing? {
        return Err(Invalid(PhaseName(state), "begin_processing"));
      }
      if state.generation != generation {
        return Err(Invalid("stale_generation", "begin_processing"));
      }
      state := Processing(state.session, generation, state.mode, state.target);
      r := Ok(());
    }

    method BeginDelivery(generation: nat) returns (r: Result<()>)
      modifies this`state
      ensures (Value(), r) == BeginDeliveryStep(old(Value()), generation)
    {
      if !state.Processing? {
        return Err(Invalid(PhaseName(state), "begin_delivery"));
      }
      if state.generation != generation {
        return Err(Invalid("stale_generation", "begin_delivery"));
      }
      state := Delivering(state.session, generation, state.target);
      r := Ok(());
    }

    method Complete(generation: nat) returns (current: bool)
      modifies this`state
      ensures (Value(), current) == CompleteStep(old(Value()), generation)
    {
      current := (state.Transcribing? || state.Processing? || state.Delivering?) && state.generation == generation;
      if current {
        state := Idle;
      }
    }

    method Cancel() returns (r: Result<()>)
      modifies this
      ensures (Value(), r) == CancelStep(old(Value()))
    {
      if state.Idle? {
        return Err(NotActive);
      }
      generation := generation + 1;
      state := Idle;
      r := Ok(());
    }

    method Fail(message: string)
      modifies this`state
      ensures Value() == FailStep(old(Value()), message)
    {
      state := Failed(SessionOf(state), generation, message);
    }
  }

  // ---- whole runs ----

  function Apply(c: Coordinator, command: Command): Coordinator {
    match command
    case Start(session, mode, target) => StartStep(c, session, mode, target).0
    case Stop => StopStep(c).0
    case Toggle(session, mode, target) => ToggleStep(c, session, mode, target).0
    case BeginProcessing(g) => BeginProcessingStep(c, g).0
    case BeginDelivery(g) => BeginDeliveryStep(c, g).0
    case Complete(g) => CompleteStep(c, g).0
    case Cancel => CancelStep(c).0
    case Fail(message) => FailStep(c, message)
  }

  function Run(commands: seq<Command>): Coordinator {
    if commands == [] then NEW else Apply(Run(commands[..|commands| - 1]), commands[|commands| - 1])
  }

  ghost predicate Inv(c: Coordinator) {
    c.state.Idle? || c.state.generation == c.generation
  }

  /** How far along its lifecycle a capture is; idle and failed come last. */
  function Phase(s: CaptureState): nat {
    match s
    case Capturing(_, _, _, _) => 0
    case Transcribing(_, _, _, _) => 1
    case Processing(_, _, _, _) => 2
    case Delivering(_, _, _) => 3
    case _ => 4
  }

  /** b can follow a: a later generation, or the same one no earlier in its lifecycle and,
      where both are active, for the same session, mode and target. */
  ghost predicate Follows(a: Coordinator, b: Coordinator) {
    || a.generation < b.generation
    || (&& a.generation == b.generation
        && Phase(a.state) <= Phase(b.state)
        && (Phase(b.state) < 4 ==>
              && a.state.session == b.state.session && a.state.target == b.state.target
              && (b.state.Delivering? || a.state.mode == b.state.mode)))
  }

  lemma StepFollows(c: Coordinator, command: Command)
    requires Inv(c)
    ensures Inv(Apply(c, command)) && Follows(c, Apply(c, command))
  {}

  /** In every run the recorded generation is the coordinator's own, and the state at any
      time follows the state at any earlier time. */
  lemma {:induction false} LifecycleOnlyMovesForward(commands: seq<Command>, i: nat)
    requires i <= |commands|
    ensures Inv(Run(commands))
    ensures Follows(Run(commands[..i]), Run(commands))
  {
    if i == |commands| {
      assert commands[..i] == commands;
      if commands != [] {
        LifecycleOnlyMovesForward(commands, i - 1);
      }
    } else {
      var init := commands[..|commands| - 1];
      LifecycleOnlyMovesForward(init, i);
      assert init[..i] == commands[..i];
      StepFollows(Run(init), commands[|commands| - 1]);
    }
  }

  /** Once the generation is past g, whatever happens next, work for g is refused everywhere
      and changes nothing. */
  lemma StaleWorkIsHarmless(before: seq<Command>, after: seq<Command>, g: nat)
    requires Run(before).generation > g
    ensures var c := Run(before + after);
            && BeginProcessingStep(c, g).1.Err? && BeginProcessingStep(c, g).0 == c
            && BeginDeliveryStep(c, g).1.Err? && BeginDeliveryStep(c, g).0 == c
            && CompleteStep(c, g) == (c, false)
  {
    assert (before + after)[..|before|] == before;
    LifecycleOnlyMovesForward(before + after, |before|);
  }

  /** In particular, after a cancellation or a later start, for every generation up to then. */
  lemma AbandonedWorkIsHarmless(before: seq<Command>, bump: Command, after: seq<Command>, g: nat)
    requires g <= Run(before).generation
    requires || (bump.Cancel? && CancelStep(Run(before)).1.Ok?)
             || (bump.Start? && StartStep(Run(before), bump.session, bump.mode, bump.target).1.Ok?)
    ensures var c := Run(before + [bump] + after);
            && BeginProcessingStep(c, g).1.Err?
            && BeginDeliveryStep(c, g).1.Err?
            && CompleteStep(c, g) == (c, false)
  {
    assert (before + [bump])[..|before|] == before;
    StaleWorkIsHarmless(before + [bump], after, g);
  }

  /** How many times completing generation g succeeded. */
  function Completions(commands: seq<Command>, g: nat): nat {
    if commands == [] then 0
    else
      var init, last := commands[..|commands| - 1], commands[|commands| - 1];
      Completions(init, g) + if last == Complete(g) && CompleteStep(Run(init), g).1 then 1 else 0
  }

  /** A generation is completed at most once, so delivery caches at most one result for it. */
  lemma {:induction false} CompletedAtMostOnce(commands: seq<Command>, g: nat)
    ensures Completions(commands, g) <= 1
    ensures Completions(commands, g) == 1 ==>
              Run(commands).generation > g || (Run(commands).generation == g && Phase(Run(commands).state) == 4)
  {
    if commands != [] {
      var init := commands[..|commands| - 1];
      CompletedAtMostOnce(init, g);
      LifecycleOnlyMovesForward(init, 0);
      StepFollows(Run(init), commands[|commands| - 1]);
    }
  }

  // ---- reporting a failure ----

  predicate IsActive(s: CaptureState) {
    s.Capturing? || s.Transcribing? || s.Processing? || s.Delivering?
  }

  /** An active capture that a failure meant for generation g would end by mistake. */
  ghost predicate FailsAnother(c: Coordinator, g: nat) {
    IsActive(c.state) && c.state.generation != g
  }

  /** For every run and every caller that was given generation g earlier in it: calling `fail`
      without comparing generations ends whatever capture is active, and that is another one
      exactly when the generation has moved past g. */
  lemma UnguardedFailHitsAnotherIff(before: seq<Command>, after: seq<Command>, message: string)
    ensures var g := Run(before).generation;
            var c := Run(before + after);
            && (IsActive(c.state) ==> FailStep(c, message).state == Failed(Some(c.state.session), c.generation, message))
            && (FailsAnother(c, g) <==> IsActive(c.state) && c.generation > g)
            && (IsActive(c.state) && !FailsAnother(c, g) ==> c.state.generation == g)
  {
    assert (before + after)[..|before|] == before;
    LifecycleOnlyMovesForward(before + after, |before|);
  }

  /** The guard the other callers use is that condition negated: comparing the coordinator's
      generation first, they never end another capture and always still fail their own. */
  lemma GuardedFailIsSafe(commands: seq<Command>, g: nat, message: string)
    requires Run(commands).generation == g
    ensures !FailsAnother(Run(commands), g)
    ensures IsActive(Run(commands).state) ==>
              FailStep(Run(commands), message).state == Failed(Some(Run(commands).state.session), g, message)
  {
    LifecycleOnlyMovesForward(commands, 0);
  }

  /** The recording deadline fails after cancelling. Once the cancellation has worked, its own
      capture is gone, so the failure can only ever hit another one: whichever is active. */
  lemma DeadlineFailHitsWhateverIsActive(before: seq<Command>, after: seq<Command>)
    requires CancelStep(Run(before)).1.Ok?
    ensures var g := Run(before).generation;
            var c := Run(before + [Cancel] + after);
            FailsAnother(c, g) <==> IsActive(c.state)
  {
    assert (before + [Cancel])[..|before|] == before;
    assert (before + [Cancel] + after)[..|before| + 1] == before + [Cancel];
    LifecycleOnlyMovesForward(before + [Cancel] + after, |before| + 1);
  }

  /** Such a run: a finalizer of an abandoned capture fails the one that replaced it. */
  lemma UnguardedFailHitsNewerCapture(message: string, target: Option<Target>)
    ensures var before := [Start(1, Raw, target), Stop];
            var after := [Cancel, Start(2, Raw, target)];
            && FailsAnother(Run(before + after), Run(before).generation)
            && Run(before + after + [Fail(message)]) == Coordinator(Failed(Some(2), 3, message), 3)
  {
    var commands := [Start(1, Raw, target), Stop, Cancel, Start(2, Raw, target)];
    assert commands[..2] + commands[2..] == commands;
    assert commands[..2] == [Start(1, Raw, target), Stop] && commands[2..] == [Cancel, Start(2, Raw, target)];
    assert commands[..3][..2] == commands[..2] && commands[..2][..1] == commands[..1] && commands[..1][..0] == [];
    assert Run(commands[..1]) == Coordinator(Capturing(1, 1, Raw, target), 1);
    assert Run(commands[..2]) == Coordinator(Transcribing(1, 1, Raw, target), 1);
    assert Run(commands[..3]) == Coordinator(Idle, 2);
    assert Run(commands) == Coordinator(Capturing(2, 3, Raw, target), 3);
    assert (commands + [Fail(message)])[..4] == commands;
  }

  // ---- work that is current ----

  /** In every reachable state, exactly which command is accepted, and what it then leaves:
      work is accepted in its own phase for the coordinator's generation. */
  lemma AcceptedIff(commands: seq<Command>, session: nat, mode: Mode, target: Option<Target>, g: nat)
    ensures var c := Run(commands);
            var begun := Coordinator(Capturing(session, c.generation + 1, mode, target), c.generation + 1);
            && StartStep(c, session, mode, target)
               == (if IsActive(c.state) then (c, Err(AlreadyActive)) else (begun, Ok(session)))
            && ToggleStep(c, session, mode, target)
               == (if !IsActive(c.state) then (begun, Ok(Some(session)))
                   else if c.state.Capturing? then (StopStep(c).0, Ok(None)) else (c, Err(AlreadyActive)))
            && (CancelStep(c).1.Ok? <==> !c.state.Idle?)
            && (CancelStep(c).1.Ok? ==> CancelStep(c).0 == Coordinator(Idle, c.generation + 1))
            && (StopStep(c).1.Ok? <==> c.state.Capturing?)
            && (StopStep(c).1.Ok? ==> StopStep(c).1.value == c.generation)
            && (BeginProcessingStep(c, g).1.Ok? <==> c.state.Transcribing? && g == c.generation)
            && (BeginDeliveryStep(c, g).1.Ok? <==> c.state.Processing? && g == c.generation)
            && (CompleteStep(c, g).1 <==> IsActive(c.state) && !c.state.Capturing? && g == c.generation)
            && (CompleteStep(c, g).1 ==> CompleteStep(c, g).0 == Coordinator(Idle, c.generation))
            && (c.state.Transcribing? && g != c.generation ==>
                  BeginProcessingStep(c, g) == (c, Err(Invalid("stale_generation", "begin_processing"))))
            && (c.state.Processing? && g != c.generation ==>
                  BeginDeliveryStep(c, g) == (c, Err(Invalid("stale_generation", "begin_delivery"))))
  {
    LifecycleOnlyMovesForward(commands, 0);
  }

  lemma RunOfOneMore(commands: seq<Command>, command: Command)
    ensures Run(commands + [command]) == Apply(Run(commands), command)
  {
    assert (commands + [command])[..|commands|] == commands;
  }

  /** A whole dictation runs through from every state in which none is active: each stage
      succeeds for its generation, with the session, mode and target it was started for. */
  lemma DictationRunsThrough(before: seq<Command>, session: nat, mode: Mode, target: Option<Target>)
    requires !IsActive(Run(before).state)
    ensures var g := Run(before).generation + 1;
            var started := before + [Start(session, mode, target)];
            var stopped := started + [Stop];
            var processing := stopped + [BeginProcessing(g)];
            var delivering := processing + [BeginDelivery(g)];
            && Run(started) == Coordinator(Capturing(session, g, mode, target), g)
            && Run(stopped) == Coordinator(Transcribing(session, g, mode, target), g)
            && Run(processing) == Coordinator(Processing(session, g, mode, target), g)
            && Run(delivering) == Coordinator(Delivering(session, g, target), g)
            && Run(delivering + [Complete(g)]) == Coordinator(Idle, g)
            && Completions(delivering + [Complete(g)], g) == 1
  {
    var g := Run(before).generation + 1;
    var started := before + [Start(session, mode, target)];
    var stopped := started + [Stop];
    var processing := stopped + [BeginProcessing(g)];
    var delivering := processing + [BeginDelivery(g)];
    RunOfOneMore(before, Start(session, mode, target));
    RunOfOneMore(started, Stop);
    RunOfOneMore(stopped, BeginProcessing(g));
    RunOfOneMore(processing, BeginDelivery(g));
    RunOfOneMore(delivering, Complete(g));
    assert (delivering + [Complete(g)])[..|delivering|] == delivering;
    CompletedAtMostOnce(delivering + [Complete(g)], g);
  }

  /** A failure keeps the session that failed, and so does a failure reported after it; from
      idle there is none to keep. */
  lemma FailureKeepsTheSession(c: Coordinator, first: string, second: string)
    ensures var session := if IsActive(c.state) then Some(c.state.session)
                           else if c.state.Failed? then c.state.failedSession else None;
            && FailStep(c, first) == Coordinator(Failed(session, c.generation, first), c.generation)
            && FailStep(FailStep(c, first), second) == Coordinator(Failed(session, c.generation, second), c.generation)
  {}
}
