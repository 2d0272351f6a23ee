/** The engine supervisor (src-tauri/src/engine.rs): generations, starting, manual and
    automatic restart, the fatal latch, pending requests and event forwarding. Each function
    below is one section of the source run under the lifecycle or the pending lock. */
module Supervisor {
  import opened Prelude

  /** `process` is the generation of the recorded process. */
  datatype Lifecycle = Lifecycle(
    process: Option<nat>, generation: nat, starting: bool, restarting: bool, shuttingDown: bool,
    fatal: bool, idleRestartAvailable: bool, dictationState: string, lastEventSequence: nat)

  const NEW_LIFECYCLE := Lifecycle(None, 0, false, false, false, false, true, "idle", 0)

  predicate IsActiveState(state: string) {
    state == "recording" || state == "processing" || state == "cleaning" || state == "inserting"
  }

  datatype StartDecision = StartWait | StartRefused | AlreadyRunning | Allotted(generation: nat)

  datatype RestartDecision = RestartWait | RestartRefused | Busy | Begun(generation: nat)

  datatype ExitDecision = Ignored | Quiet | ReportFatal | RestartIdle

  function TryStart(l: Lifecycle): (Lifecycle, StartDecision) {
    if l.shuttingDown then (l, StartRefused)
    else if l.restarting then (l, StartWait)
    else if l.fatal then (l, StartRefused)
    else if l.process.Some? then (l, AlreadyRunning)
    else if !l.starting then (l.(starting := true, generation := l.generation + 1), Allotted(l.generation + 1))
    else (l, StartWait)
  }

  function RecordStart(l: Lifecycle, generation: nat, spawned: bool): Lifecycle {
    if spawned then
      l.(starting := false, process := Some(generation), lastEventSequence := 0, dictationState := "idle")
    else l.(starting := false)
  }

  function TryRestart(l: Lifecycle): (Lifecycle, RestartDecision) {
    if l.shuttingDown then (l, RestartRefused)
    else if l.starting || l.restarting then (l, RestartWait)
    else if IsActiveState(l.dictationState) then (l, Busy)
    else (l.(restarting := true), Begun(l.generation))
  }

  function EndRestart(l: Lifecycle, generation: nat): Lifecycle {
    l.(process := if l.process == Some(generation) then None else l.process, restarting := false,
       fatal := false, idleRestartAvailable := true, dictationState := "idle", lastEventSequence := 0)
  }

  function OnExit(l: Lifecycle, generation: nat): (Lifecycle, ExitDecision) {
    if l.process != Some(generation) then (l, Ignored)
    else
      var m := l.(process := None);
      if l.shuttingDown || l.restarting then (m, Quiet)
      else if IsActiveState(l.dictationState) then (m.(fatal := true), ReportFatal)
      else if l.idleRestartAvailable then (m.(idleRestartAvailable := false), RestartIdle)
      else (m.(fatal := true), ReportFatal)
  }

  /** accept_frame and accept_event taken as one step. The flag says whether the event is forwarded. */
  function AcceptEvent(l: Lifecycle, generation: nat, sequence: nat, state: Option<string>): (Lifecycle, bool) {
    if l.process != Some(generation) || sequence <= l.lastEventSequence then (l, false)
    else
      (l.(lastEventSequence := sequence, dictationState := if state.Some? then state.value else l.dictationState), true)
  }

  function EmitFatal(l: Lifecycle): Lifecycle {
    l.(lastEventSequence := l.lastEventSequence + 1)
  }

  function Terminate(l: Lifecycle, generation: nat): Lifecycle {
    if l.process == Some(generation) then l.(process := None) else l
  }

  function Rearm(l: Lifecycle): Lifecycle {
    if l.fatal then l.(fatal := false, idleRestartAvailable := true) else l
  }

  class EngineSupervisor {
    var process: Option<nat>
    var generation: nat
    var starting: bool
    var restarting: bool
    var shuttingDown: bool
    var fatal: bool
    var idleRestartAvailable: bool
    var dictationState: string
    var lastEventSequence: nat
    var pending: set<nat>
    var answered: multiset<nat>

    function Value(): Lifecycle
      reads this
    {
      Lifecycle(process, generation, starting, restarting, shuttingDown, fatal, idleRestartAvailable,
                dictationState, lastEventSequence)
    }

    constructor ()
      ensures Value() == NEW_LIFECYCLE && pending == {} && answered == multiset{}
    {
      process, generation, starting, restarting := None, 0, false, false;
      shuttingDown, fatal, idleRestartAvailable := false, false, true;
      dictationState, lastEventSequence := "idle", 0;
      pending, answered := {}, multiset{};
    }

    /** The locked loop of ensure_started, up to its next wait or return. */
    method EnsureStarted() returns (decision: StartDecision)
      modifies this`starting, this`generation
      ensures (Value(), decision) == TryStart(old(Value()))
    {
      if shuttingDown {
        return StartRefused;
      }
      if restarting {
        return StartWait;
      }
      if fatal {
        return StartRefused;
      }
      if process.Some? {
        return AlreadyRunning;
      }
      if !starting {
        starting := true;
        generation := generation + 1;
        return Allotted(generation);
      }
      decision := StartWait;
    }

    method RecordStarted(allotted: nat, spawned: bool)
      modifies this`starting, this`process, this`lastEventSequence, this`dictationState
      ensures Value() == RecordStart(old(Value()), allotted, spawned)
    {
      starting := false;
      if spawned {
        process := Some(allotted);
        lastEventSequence := 0;
        dictationState := "idle";
      }
    }

    method BeginRestart() returns (decision: RestartDecision)
      modifies this`restarting
      ensures (Value(), decision) == TryRestart(old(Value()))
    {
      if shuttingDown {
        return RestartRefused;
      }
      if starting || restarting {
        return RestartWait;
      }
      if IsActiveState(dictationState) {
        return Busy;
      }
      restarting := true;
      decision := Begun(generation);
    }

    method FinishRestart(begun: nat)
      modifies this`process, this`restarting, this`fatal, this`idleRestartAvailable, this`dictationState, this`lastEventSequence
      ensures Value() == EndRestart(old(Value()), begun)
    {
      if process == Some(begun) {
        process := None;
      }
      restarting := false;
      fatal := false;
      idleRestartAvailable := true;
      dictationState := "idle";
      lastEventSequence := 0;
    }

    method Exited(exited: nat) returns (decision: ExitDecision)
      modifies this`process, this`fatal, this`idleRestartAvailable
      ensures (Value(), decision) == OnExit(old(Value()), exited)
    {
      if process != Some(exited) {
        return Ignored;
      }
      process := None;
      if shuttingDown {
        decision := Quiet;
      } else if restarting {
        decision := Quiet;
      } else if IsActiveState(dictationState) {
        fatal := true;
        decision := ReportFatal;
      } else if idleRestartAvailable {
        idleRestartAvailable := false;
        decision := RestartIdle;
      } else {
        fatal := true;
        decision := ReportFatal;
      }
    }

    method AcceptEventFrame(from: nat, sequence: nat, state: Option<string>) returns (forwarded: bool)
      modifies this`lastEventSequence, this`dictationState
      ensures (Value(), forwarded) == AcceptEvent(old(Value()), from, sequence, state)
    {
      if process != Some(from) || sequence <= lastEventSequence {
        return false;
      }
      lastEventSequence := sequence;
      if state.Some? {
        dictationState := state.value;
      }
      forwarded := true;
    }

    method AcceptResponseFrame(from: nat, id: nat)
      modifies this`pending, this`answered
      ensures var hit := process == Some(from) && id in old(pending);
              && pending == (if hit then old(pending) - {id} else old(pending))
              && answered == (if hit then old(answered) + multiset{id} else old(answered))
    {
      if process == Some(from) && id in pending {
        pending := pending - {id};
        answered := answered + multiset{id};
      }
    }

    method FailPending()
      modifies this`pending, this`answered
      ensures pending == {} && answered == old(answered) + multiset(old(pending))
    {
      var failed := pending;
      pending := {};
      answered := answered + multiset(failed);
    }

    method TerminateGeneration(doomed: nat)
      modifies this`process
      ensures Value() == Terminate(old(Value()), doomed)
    {
      if process == Some(doomed) {
        process := None;
      }
    }

    /** False when a shutdown is already under way. */
    method BeginShutdown() returns (first: bool)
      modifies this`shuttingDown
      ensures Value() == old(Value()).(shuttingDown := true) && first == !old(shuttingDown)
    {
      first := !shuttingDown;
      shuttingDown := true;
    }

    method Bootstrap()
      modifies this`fatal, this`idleRestartAvailable
      ensures Value() == Rearm(old(Value()))
    {
      if fatal {
        fatal := false;
        idleRestartAvailable := true;
      }
    }
  }

  // ---- every interleaving ----

  /** A forwarded event: from a process, or from the host when it reports a fatal exit. */
  datatype Forwarded = Forwarded(process: Option<nat>, sequence: nat)

  /** `starter` and `restarter` are the generations held by the one thread between allotting
      and recording a start, and between beginning and ending a restart. */
  datatype System = System(
    life: Lifecycle, starter: Option<nat>, restarter: Option<nat>, autoRestarts: nat,
    registered: set<nat>, pending: set<nat>, answered: multiset<nat>, forwarded: seq<Forwarded>)

  const NEW := System(NEW_LIFECYCLE, None, None, 0, {}, {}, multiset{}, [])

  datatype Step =
    | Start
    | Recorded(spawned: bool)
    | Restart
    | Restarted
    | Exit(generation: nat)
    | AutoRestartFailed
    | FatalReported
    | Event(generation: nat, sequence: nat, state: Option<string>)
    | Response(generation: nat, id: nat)
    | Register(id: nat)
    | Abandon(id: nat)
    | FailAll
    | Kill(generation: nat)
    | BootstrapRequest
    | Shutdown

  function Next(s: System, step: Step): System {
    match step
    case Start =>
      var t := TryStart(s.life);
      s.(life := t.0, starter := if t.1.Allotted? then Some(t.1.generation) else s.starter)
    case Recorded(spawned) =>
      if s.starter.None? then s
      else s.(life := RecordStart(s.life, s.starter.value, spawned), starter := None)
    case Restart =>
      var t := TryRestart(s.life);
      s.(life := t.0, restarter := if t.1.Begun? then Some(t.1.generation) else s.restarter)
    case Restarted =>
      if s.restarter.None? then s
      else s.(life := EndRestart(s.life, s.restarter.value), restarter := None, autoRestarts := 0)
    case Exit(g) =>
      var t := OnExit(s.life, g);
      s.(life := t.0, autoRestarts := s.autoRestarts + if t.1.RestartIdle? then 1 else 0)
    case AutoRestartFailed => s.(life := s.life.(fatal := true))
    case FatalReported =>
      var l := EmitFatal(s.life);
      s.(life := l, forwarded := s.forwarded + [Forwarded(None, l.lastEventSequence)])
    case Event(g, n, state) =>
      var t := AcceptEvent(s.life, g, n, state);
      s.(life := t.0, forwarded := s.forwarded + if t.1 then [Forwarded(Some(g), n)] else [])
    case Response(g, id) =>
      if s.life.process == Some(g) && id in s.pending then
        s.(pending := s.pending - {id}, answered := s.answered + multiset{id})
      else s
    case Register(id) =>
      if id in s.registered then s
      else s.(registered := s.registered + {id}, pending := s.pending + {id})
    case Abandon(id) => s.(pending := s.pending - {id})
    case FailAll => s.(pending := {}, answered := s.answered + multiset(s.pending))
    case Kill(g) => s.(life := Terminate(s.life, g))
    case BootstrapRequest =>
      s.(life := Rearm(s.life), autoRestarts := if s.life.fatal then 0 else s.autoRestarts)
    case Shutdown => s.(life := s.life.(shuttingDown := true))
  }

  function Run(steps: seq<Step>): System {
    if steps == [] then NEW else Next(Run(steps[..|steps| - 1]), steps[|steps| - 1])
  }

  ghost predicate LifecycleInv(s: System) {
    var l := s.life;
    && (l.process.Some? ==> l.process.value == l.generation && !l.starting)
    && !(l.starting && l.restarting)
    && (l.starting <==> s.starter.Some?) && (l.restarting <==> s.restarter.Some?)
    && (s.starter.Some? ==> s.starter.value == l.generation)
    && (s.restarter.Some? ==> s.restarter.value == l.generation)
    && s.autoRestarts == if l.idleRestartAvailable then 0 else 1
  }

  ghost predicate PendingInv(s: System) {
    && s.pending <= s.registered
    && (forall id :: s.answered[id] <= 1)
    && (forall id | id in s.answered :: id in s.registered && id !in s.pending)
  }

  ghost predicate IncreasingPerProcess(forwarded: seq<Forwarded>) {
    forall i, j | 0 <= i < j < |forwarded| ::
      forwarded[i].process == forwarded[j].process && forwarded[i].process.Some? ==>
        forwarded[i].sequence < forwarded[j].sequence
  }

  ghost predicate ForwardingInv(s: System) {
    && IncreasingPerProcess(s.forwarded)
    && (forall f | f in s.forwarded :: f.process.Some? ==>
          && f.process.value <= s.life.generation
          && s.starter != f.process
          && (s.life.process == f.process ==> f.sequence <= s.life.lastEventSequence))
  }

  lemma StartingKeepsLifecycle(s: System, step: Step)
    requires LifecycleInv(s) && (step.Start? || step.Recorded?)
    ensures LifecycleInv(Next(s, step))
  {}

  lemma RestartingKeepsLifecycle(s: System, step: Step)
    requires LifecycleInv(s) && (step.Restart? || step.Restarted?)
    ensures LifecycleInv(Next(s, step))
  {}

  lemma EndingKeepsLifecycle(s: System, step: Step)
    requires LifecycleInv(s) && (step.Exit? || step.Event? || step.Kill? || step.BootstrapRequest?)
    ensures LifecycleInv(Next(s, step))
  {}

  lemma StepKeepsLifecycle(s: System, step: Step)
    requires LifecycleInv(s)
    ensures LifecycleInv(Next(s, step))
  {
    if step.Start? || step.Recorded? {
      StartingKeepsLifecycle(s, step);
    } else if step.Restart? || step.Restarted? {
      RestartingKeepsLifecycle(s, step);
    } else if step.Exit? || step.Event? || step.Kill? || step.BootstrapRequest? {
      EndingKeepsLifecycle(s, step);
    }
  }

  lemma StepKeepsPending(s: System, step: Step)
    requires PendingInv(s)
    ensures PendingInv(Next(s, step))
  {}

  lemma EventKeepsForwarding(s: System, g: nat, n: nat, state: Option<string>)
    requires LifecycleInv(s) && ForwardingInv(s)
    ensures ForwardingInv(Next(s, Event(g, n, state)))
  {
    if AcceptEvent(s.life, g, n, state).1 {
      var f := Forwarded(Some(g), n);
      forall i | 0 <= i < |s.forwarded| && s.forwarded[i].process == f.process
        ensures s.forwarded[i].sequence < f.sequence
      {
        assert s.forwarded[i] in s.forwarded;
      }
    }
  }

  lemma ReportKeepsForwarding(s: System)
    requires LifecycleInv(s) && ForwardingInv(s)
    ensures ForwardingInv(Next(s, FatalReported))
  {}

  /** Any other step forwards nothing, and if it records a process, that is the starter. */
  lemma OtherStepsForwardNothing(s: System, step: Step)
    requires LifecycleInv(s) && !step.Event? && !step.FatalReported?
    ensures var t := Next(s, step);
            && t.forwarded == s.forwarded && s.life.generation <= t.life.generation
            && (t.starter.Some? ==> t.starter == s.starter || t.starter.value > s.life.generation)
            && (t.life.process.Some? ==>
                  || t.life.process == s.starter
                  || (t.life.process == s.life.process && t.life.lastEventSequence == s.life.lastEventSequence))
  {}

  lemma StepKeepsForwarding(s: System, step: Step)
    requires LifecycleInv(s) && ForwardingInv(s)
    ensures ForwardingInv(Next(s, step))
  {
    match step
    case Event(g, n, state) => EventKeepsForwarding(s, g, n, state);
    case FatalReported => ReportKeepsForwarding(s);
    case _ => OtherStepsForwardNothing(s, step);
  }

  lemma {:induction false} RunKeepsInvariants(steps: seq<Step>)
    ensures LifecycleInv(Run(steps)) && PendingInv(Run(steps)) && ForwardingInv(Run(steps))
  {
    if steps != [] {
      var s, step := Run(steps[..|steps| - 1]), steps[|steps| - 1];
      RunKeepsInvariants(steps[..|steps| - 1]);
      StepKeepsLifecycle(s, step);
      StepKeepsPending(s, step);
      StepKeepsForwarding(s, step);
    }
  }

  /** In every interleaving: a recorded process carries the current generation and nothing is
      starting; a start and a restart are never under way together; and since the latch was
      last re-armed there has been at most one automatic restart. */
  lemma ProcessIsCurrent(steps: seq<Step>)
    ensures var s := Run(steps);
            && (s.life.process.Some? ==> s.life.process.value == s.life.generation && !s.life.starting)
            && !(s.life.starting && s.life.restarting)
            && s.autoRestarts <= 1
  {
    RunKeepsInvariants(steps);
  }

  /** Every request is answered at most once, and never while it is still pending. */
  lemma AnsweredAtMostOnce(steps: seq<Step>, id: nat)
    ensures Run(steps).answered[id] <= 1
    ensures id in Run(steps).pending ==> Run(steps).answered[id] == 0
  {
    RunKeepsInvariants(steps);
  }

  /** The events forwarded from one process carry strictly increasing numbers. */
  lemma ForwardedNumbersIncrease(steps: seq<Step>)
    ensures IncreasingPerProcess(Run(steps).forwarded)
  {
    RunKeepsInvariants(steps);
  }

  /** The fatal latch opens only on a bootstrap request or at the end of a manual restart. */
  lemma FatalIsLeftOnlyByRearming(s: System, step: Step)
    requires s.life.fatal && !Next(s, step).life.fatal
    ensures step.BootstrapRequest? || (step.Restarted? && s.restarter.Some?)
  {}

  ghost predicate FrozenSince(s: System, t: System) {
    && t.life.shuttingDown && t.life.generation == s.life.generation
    && (t.starter.Some? ==> t.starter == s.starter)
    && (t.life.process.Some? ==> t.life.process == s.life.process || t.life.process == s.starter)
  }

  lemma StepStaysFrozen(s: System, t: System, step: Step)
    requires s.life.shuttingDown && FrozenSince(s, t)
    ensures FrozenSince(s, Next(t, step))
  {}

  /** After shutdown no generation is ever allotted again, and the only process recorded can
      be the one there was or the one whose start was already under way. */
  lemma {:induction false} NoStartAfterShutdown(before: seq<Step>, after: seq<Step>)
    requires Run(before).life.shuttingDown
    ensures FrozenSince(Run(before), Run(before + after))
  {
    if after == [] {
      assert before + after == before;
    } else {
      var init := after[..|after| - 1];
      NoStartAfterShutdown(before, init);
      RunAfter(before, after);
      StepStaysFrozen(Run(before), Run(before + init), after[|after| - 1]);
    }
  }

  lemma RunSnoc(steps: seq<Step>, step: Step)
    ensures Run(steps + [step]) == Next(Run(steps), step)
  {
    assert (steps + [step])[..|steps|] == steps;
  }

  lemma RunTwo(a: Step, b: Step, before: seq<Step>)
    ensures Run(before + [a, b]) == Next(Next(Run(before), a), b)
  {
    RunSnoc(before, a);
    RunSnoc(before + [a], b);
    assert before + [a] + [b] == before + [a, b];
  }

  lemma RunFour(a: Step, b: Step, c: Step, d: Step, before: seq<Step>)
    ensures Run(before + [a, b, c, d]) == Next(Next(Next(Next(Run(before), a), b), c), d)
  {
    RunTwo(a, b, before);
    RunTwo(c, d, before + [a, b]);
    assert before + [a, b] + [c, d] == before + [a, b, c, d];
  }

  const DIES_WHILE_RECORDING := [Start, Recorded(true), Event(1, 1, Some("recording")), Exit(1)]

  // ---- what a fatal report costs ----

  /** The event number the host has reached for process g, from k on, by the steps alone:
      events of g raise it to their number, every fatal report raises it by one. */
  function CursorAfter(k: nat, g: nat, steps: seq<Step>): nat {
    if steps == [] then k
    else
      var before := CursorAfter(k, g, steps[..|steps| - 1]);
      match steps[|steps| - 1]
      case Event(from, n, _) => if from == g && n > before then n else before
      case FatalReported => before + 1
      case _ => before
  }

  /** Process g was recorded once and its number is k while it stays recorded; any start under
      way is of a later generation. */
  ghost predicate Counts(s: System, g: nat, k: nat) {
    && g <= s.life.generation
    && (s.starter.Some? ==> s.starter.value > g)
    && (s.life.process == Some(g) ==> s.life.lastEventSequence == k)
  }

  lemma StepCounts(s: System, g: nat, k: nat, step: Step)
    requires LifecycleInv(s) && Counts(s, g, k)
    ensures Counts(Next(s, step), g, CursorAfter(k, g, [step]))
  {
    assert [step][..0] == [];
  }

  lemma {:induction false} RunCounts(before: seq<Step>, g: nat, after: seq<Step>)
    requires Run(before).life.process == Some(g)
    ensures Counts(Run(before + after), g, CursorAfter(Run(before).life.lastEventSequence, g, after))
  {
    var k := Run(before).life.lastEventSequence;
    if after == [] {
      RunKeepsInvariants(before);
      assert before + after == before;
    } else {
      var init, last := after[..|after| - 1], after[|after| - 1];
      RunCounts(before, g, init);
      RunKeepsInvariants(before + init);
      StepCounts(Run(before + init), g, CursorAfter(k, g, init), last);
      RunAfter(before, after);
      CursorAfterLast(k, g, after);
    }
  }

  lemma RunAfter(before: seq<Step>, after: seq<Step>)
    requires after != []
    ensures Run(before + after) == Next(Run(before + after[..|after| - 1]), after[|after| - 1])
  {
    InitOfBoth(before, after);
  }

  lemma InitOfBoth(before: seq<Step>, after: seq<Step>)
    requires after != []
    ensures (before + after)[..|before + after| - 1] == before + after[..|after| - 1]
    ensures (before + after)[|before + after| - 1] == after[|after| - 1] && before + after != []
  {}

  lemma CursorAfterLast(k: nat, g: nat, steps: seq<Step>)
    requires steps != []
    ensures CursorAfter(k, g, steps) == CursorAfter(CursorAfter(k, g, steps[..|steps| - 1]), g, [steps[|steps| - 1]])
  {
    assert [steps[|steps| - 1]][..0] == [];
  }

  /** In every run from a point where process g is recorded: an event of g is forwarded exactly
      when g is still recorded and the event's number is above the cursor the steps give. */
  lemma EventForwardedIff(before: seq<Step>, g: nat, after: seq<Step>, n: nat, state: Option<string>)
    requires Run(before).life.process == Some(g)
    ensures var s := Run(before + after);
            AcceptEvent(s.life, g, n, state).1 <==>
              s.life.process == Some(g) && n > CursorAfter(Run(before).life.lastEventSequence, g, after)
  {
    RunCounts(before, g, after);
  }

  function FatalReports(steps: seq<Step>): nat {
    if steps == [] then 0
    else FatalReports(steps[..|steps| - 1]) + if steps[|steps| - 1].FatalReported? then 1 else 0
  }

  lemma {:induction false} CursorOfReports(k: nat, g: nat, steps: seq<Step>)
    requires forall i | 0 <= i < |steps| :: steps[i].Event? ==> steps[i].generation != g
    ensures CursorAfter(k, g, steps) == k + FatalReports(steps)
  {
    if steps != [] {
      CursorOfReports(k, g, steps[..|steps| - 1]);
    }
  }

  /** Exactly what fatal reports swallow: the next event of the recorded process is forwarded
      exactly when its number exceeds the last one by more than the fatal reports since. */
  lemma FatalReportsSwallowEvents(before: seq<Step>, g: nat, after: seq<Step>, n: nat, state: Option<string>)
    requires Run(before).life.process == Some(g) && Run(before + after).life.process == Some(g)
    requires forall i | 0 <= i < |after| :: after[i].Event? ==> after[i].generation != g
    ensures AcceptEvent(Run(before + after).life, g, n, state).1 <==>
              n > Run(before).life.lastEventSequence + FatalReports(after)
  {
    EventForwardedIff(before, g, after, n, state);
    CursorOfReports(Run(before).life.lastEventSequence, g, after);
  }

  /** Such a run: a bootstrap request has already started the next engine when the fatal report
      comes, and that engine's first event is dropped. */
  lemma FatalReportCanSwallowFirstEvent(state: Option<string>)
    ensures var s := Run(DIES_WHILE_RECORDING + [BootstrapRequest, Start, Recorded(true), FatalReported]);
            && s.life.process == Some(2)
            && s.forwarded == [Forwarded(Some(1), 1), Forwarded(None, 1)]
            && Next(s, Event(2, 1, state)) == s
  {
    DiedWhileRecording();
    RunFour(BootstrapRequest, Start, Recorded(true), FatalReported, DIES_WHILE_RECORDING);
  }

  lemma DiedWhileRecording()
    ensures var s := Run(DIES_WHILE_RECORDING);
            && s.life == Lifecycle(None, 1, false, false, false, true, true, "recording", 1)
            && s.starter == None && s.forwarded == [Forwarded(Some(1), 1)]
  {
    RunFour(Start, Recorded(true), Event(1, 1, Some("recording")), Exit(1), []);
    assert [] + DIES_WHILE_RECORDING == DIES_WHILE_RECORDING;
  }

  // ---- every field, by what has happened to it ----

  /** Nothing runs, is under way or forbids a start. */
  predicate MayStart(l: Lifecycle) {
    !l.shuttingDown && !l.restarting && !l.fatal && l.process.None? && !l.starting
  }

  predicate MayRestart(l: Lifecycle) {
    !l.shuttingDown && !l.starting && !l.restarting && !IsActiveState(l.dictationState)
  }

  /** The recorded process exits although nobody asked for it. */
  predicate Dies(s: System, step: Step) {
    step.Exit? && s.life.process == Some(step.generation) && !s.life.shuttingDown && !s.life.restarting
  }

  /** A process is recorded; a restart ends. */
  predicate Records(s: System, step: Step) {
    step == Recorded(true) && s.life.starting
  }

  predicate EndsRestart(s: System, step: Step) {
    step.Restarted? && s.life.restarting
  }

  predicate Rearms(s: System, step: Step) {
    EndsRestart(s, step) || (step.BootstrapRequest? && s.life.fatal)
  }

  /** An event of the recorded process with a number above the last. */
  predicate Accepts(s: System, step: Step) {
    step.Event? && s.life.process == Some(step.generation) && step.sequence > s.life.lastEventSequence
  }

  /** Every decision exactly under its condition. */
  lemma DecisionsIff(l: Lifecycle, generation: nat)
    ensures var d := TryStart(l).1;
            && (d.Allotted? <==> MayStart(l)) && (d.Allotted? ==> d.generation == l.generation + 1)
            && (d.AlreadyRunning? <==> !l.shuttingDown && !l.restarting && !l.fatal && l.process.Some?)
            && (d.StartRefused? <==> l.shuttingDown || (l.fatal && !l.restarting))
    ensures var d := TryRestart(l).1;
            && (d.Begun? <==> MayRestart(l)) && (d.Begun? ==> d.generation == l.generation)
            && (d.RestartRefused? <==> l.shuttingDown)
            && (d.RestartWait? <==> !l.shuttingDown && (l.starting || l.restarting))
    ensures var d := OnExit(l, generation).1;
            && (d.Ignored? <==> l.process != Some(generation))
            && (d.Quiet? <==> l.process == Some(generation) && (l.shuttingDown || l.restarting))
            && (d.RestartIdle? <==>
                  && l.process == Some(generation) && !l.shuttingDown && !l.restarting
                  && !IsActiveState(l.dictationState) && l.idleRestartAvailable)
  {}

  /** What runs: a start allots the next generation, that generation is what is recorded, and it
      stays recorded until it exits, is killed, or a restart ends. */
  lemma ProcessAfter(s: System, step: Step)
    requires LifecycleInv(s)
    ensures var l, m := s.life, Next(s, step).life;
            && m.generation == (if step.Start? && MayStart(l) then l.generation + 1 else l.generation)
            && (m.starting <==> if step.Start? then l.starting || MayStart(l) else l.starting && !step.Recorded?)
            && (m.restarting <==> if step.Restart? then l.restarting || MayRestart(l) else l.restarting && !step.Restarted?)
            && (m.shuttingDown <==> l.shuttingDown || step.Shutdown?)
            && m.process == (if Records(s, step) then Some(l.generation)
                             else if EndsRestart(s, step) then None
                             else if (step.Exit? || step.Kill?) && l.process == Some(step.generation) then None
                             else l.process)
  {}

  /** The latch is set when the process dies while it is active or for a second time since the
      latch was re-armed, or when an automatic restart fails; re-arming alone opens it. */
  lemma LatchAfter(s: System, step: Step)
    requires LifecycleInv(s)
    ensures var l, t := s.life, Next(s, step);
            && (t.life.fatal <==>
                  || step.AutoRestartFailed?
                  || (Dies(s, step) && (IsActiveState(l.dictationState) || s.autoRestarts > 0))
                  || (l.fatal && !Rearms(s, step)))
            && t.autoRestarts == (if Rearms(s, step) then 0
                                  else if Dies(s, step) && !IsActiveState(l.dictationState) && s.autoRestarts == 0 then 1
                                  else s.autoRestarts)
  {}

  /** What is known of the process: its last event number and the state it last announced. */
  lemma EventsAfter(s: System, step: Step)
    requires LifecycleInv(s)
    ensures var l, t := s.life, Next(s, step);
            && t.life.lastEventSequence == (if Records(s, step) || EndsRestart(s, step) then 0
                                            else if step.FatalReported? then l.lastEventSequence + 1
                                            else if Accepts(s, step) then step.sequence
                                            else l.lastEventSequence)
            && t.life.dictationState == (if Records(s, step) || EndsRestart(s, step) then "idle"
                                         else if Accepts(s, step) && step.state.Some? then step.state.value
                                         else l.dictationState)
            && t.forwarded == s.forwarded + (if Accepts(s, step) then [Forwarded(Some(step.generation), step.sequence)]
                                             else if step.FatalReported? then [Forwarded(None, l.lastEventSequence + 1)]
                                             else [])
  {}

  ghost predicate LatchedSince(s: System, t: System) {
    && t.life.fatal && t.life.generation == s.life.generation
    && (t.starter.Some? ==> t.starter == s.starter)
    && (t.life.process.Some? ==> t.life.process == s.life.process || t.life.process == s.starter)
  }

  lemma StepStaysLatched(s: System, t: System, step: Step)
    requires LatchedSince(s, t) && !step.BootstrapRequest? && !step.Restarted?
    ensures LatchedSince(s, Next(t, step))
  {}

  /** While the latch is set and nothing re-arms it, no generation is allotted, and no process
      is recorded but one whose start was already under way. */
  lemma {:induction false} NothingStartsWhileFatal(before: seq<Step>, after: seq<Step>)
    requires Run(before).life.fatal
    requires forall i | 0 <= i < |after| :: !after[i].BootstrapRequest? && !after[i].Restarted?
    ensures LatchedSince(Run(before), Run(before + after))
  {
    if after == [] {
      assert before + after == before;
    } else {
      var init := after[..|after| - 1];
      NothingStartsWhileFatal(before, init);
      RunAfter(before, after);
      StepStaysLatched(Run(before), Run(before + init), after[|after| - 1]);
    }
  }

  // ---- no request is lost ----

  /** The requests given up by their callers while they were pending. */
  function Abandoned(steps: seq<Step>): set<nat> {
    if steps == [] then {}
    else
      var init, last := steps[..|steps| - 1], steps[|steps| - 1];
      Abandoned(init) + if last.Abandon? && last.id in Run(init).pending then {last.id} else {}
  }

  /** A request has exactly one of the three fates: pending, answered once, or abandoned. */
  ghost predicate OneFate(s: System, abandoned: set<nat>, id: nat) {
    && (id in s.registered <==> id in s.pending || s.answered[id] == 1 || id in abandoned)
    && (id in s.pending ==> s.answered[id] == 0 && id !in abandoned)
    && (id in abandoned ==> s.answered[id] == 0)
    && s.answered[id] <= 1
  }

  lemma StepKeepsFate(s: System, abandoned: set<nat>, step: Step, id: nat)
    requires OneFate(s, abandoned, id)
    ensures OneFate(Next(s, step), abandoned + if step.Abandon? && step.id in s.pending then {step.id} else {}, id)
  {}

  /** In every interleaving, every registered request is pending, answered exactly once, or
      abandoned, and only one of these; what is not registered is none of them. */
  lemma {:induction false} NoRequestIsLost(steps: seq<Step>, id: nat)
    ensures OneFate(Run(steps), Abandoned(steps), id)
    ensures id in Run(steps).registered <==> Register(id) in steps
  {
    if steps != [] {
      var init, last := steps[..|steps| - 1], steps[|steps| - 1];
      NoRequestIsLost(init, id);
      StepKeepsFate(Run(init), Abandoned(init), last, id);
      assert steps == init + [last];
    }
  }

  /** A pending request is answered by a response of the recorded process and when all are
      failed, and by nothing else. */
  lemma AnsweredIff(s: System, step: Step, id: nat)
    ensures Next(s, step).answered[id] ==
            s.answered[id] +
            if id in s.pending && (step.FailAll? || (step.Response? && step.id == id && s.life.process == Some(step.generation)))
            then 1 else 0
  {}

  /** A process that dies in the first four states it can be in while dictating is a fatal
      exit; one that dies in any other state is restarted once. */
  lemma DeathIsFatalIff(state: string)
    ensures var s := Run([Start, Recorded(true), Event(1, 1, Some(state)), Exit(1)]);
            && s.life.process.None?
            && (s.life.fatal <==> state == "recording" || state == "processing" || state == "cleaning" || state == "inserting")
            && (s.autoRestarts == 1 <==> !s.life.fatal)
  {
    RunFour(Start, Recorded(true), Event(1, 1, Some(state)), Exit(1), []);
    assert [] + [Start, Recorded(true), Event(1, 1, Some(state)), Exit(1)] == [Start, Recorded(true), Event(1, 1, Some(state)), Exit(1)];
  }
}
