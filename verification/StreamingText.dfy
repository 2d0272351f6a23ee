/** StreamingTextProcessor (crates/openwhisper-core/src/streaming.rs): the incremental form
    of batch processing. Committed deltas arrive one by one, a guarded suffix is held back,
    and emitted text is only ever extended. */
module StreamingText {
  import opened Prelude
  import opened TextProcessing
  import opened Words

  datatype Config = Config(key: string -> string, mode: Mode, replacements: seq<Replacement>)

  datatype State = State(raw: string, emitted: string)

  const FRESH := State("", "")

  function MaxPatternWords(replacements: seq<Replacement>): nat {
    if replacements == [] then 1
    else
      var n := |Split(replacements[0].from)|;
      var rest := MaxPatternWords(replacements[1..]);
      if n > rest then n else rest
  }

  /** Twice the largest pattern word count, a pattern counting as at least one word. */
  function GuardWords(replacements: seq<Replacement>): nat {
    2 * MaxPatternWords(replacements)
  }

  // ---- append_unique_words ----

  function Skip(key: string -> string, existing: seq<string>, incoming: seq<string>): (n: nat)
    ensures n <= |incoming|
  {
    var shared := Shared(key, existing, incoming);
    if shared >= 2 && (|incoming| >= |existing| || shared == |incoming|) then
      if |existing| <= |incoming| then |existing| else |incoming|
    else Overlap(key, existing, incoming)
  }

  function AppendUnique(key: string -> string, target: string, delta: string): string {
    if Trim(delta) == "" then target
    else
      var incoming := Split(Trim(delta));
      var added := Join(incoming[Skip(key, Split(target), incoming)..]);
      if added == "" then target
      else if target == "" then added
      else target + " " + added
  }

  // ---- the processor ----

  datatype Emission = Emission(state: State, delta: string)

  function EmitPrefix(s: State, processed: string): Emission {
    if processed == s.emitted then Emission(s, "")
    else if s.emitted <= processed then Emission(s.(emitted := processed), processed[|s.emitted|..])
    else Emission(s, "")
  }

  function AppendRaw(c: Config, s: State, delta: string): State {
    s.(raw := AppendUnique(c.key, s.raw, delta))
  }

  /** The batch form of the leading words that are past the guarded suffix. */
  function SafeText(c: Config, tokens: seq<string>): string
    requires |tokens| > GuardWords(c.replacements)
  {
    Process(c.replacements, Join(tokens[..|tokens| - GuardWords(c.replacements)]), c.mode)
  }

  function EmitSafe(c: Config, s: State): Emission {
    var tokens := Split(s.raw);
    if |tokens| <= GuardWords(c.replacements) then Emission(s, "") else EmitPrefix(s, SafeText(c, tokens))
  }

  function EmitAll(c: Config, s: State): Emission {
    EmitPrefix(s, Process(c.replacements, s.raw, c.mode))
  }

  function PushStep(c: Config, s: State, delta: string): Emission {
    EmitSafe(c, AppendRaw(c, s, delta))
  }

  function FinishStep(c: Config, s: State, suffix: string): Emission {
    EmitAll(c, AppendRaw(c, s, suffix))
  }

  class StreamingTextProcessor {
    const config: Config
    const guardWords: nat
    var raw: string
    var emitted: string

    function Value(): State
      reads this
    {
      State(raw, emitted)
    }

    ghost predicate Valid() {
      guardWords == GuardWords(config.replacements)
    }

    constructor (config: Config)
      ensures this.config == config && Valid() && Value() == FRESH
    {
      this.config := config;
      guardWords := GuardWords(config.replacements);
      raw, emitted := "", "";
    }

    method Push(delta: string) returns (out: string)
      requires Valid()
      modifies this
      ensures Emission(Value(), out) == PushStep(config, old(Value()), delta)
    {
      raw := AppendUnique(config.key, raw, delta);
      var tokens := Split(raw);
      if |tokens| <= guardWords {
        return "";
      }
      out := EmitProcessed(SafeText(config, tokens));
    }

    method Finish(suffix: string) returns (out: string)
      modifies this
      ensures Emission(Value(), out) == FinishStep(config, old(Value()), suffix)
    {
      raw := AppendUnique(config.key, raw, suffix);
      out := EmitProcessed(Process(config.replacements, raw, config.mode));
    }

    method EmitProcessed(processed: string) returns (out: string)
      modifies this`emitted
      ensures Emission(Value(), out) == EmitPrefix(old(Value()), processed)
      ensures emitted == old(emitted) + out
      ensures emitted == processed || (out == "" && !(old(emitted) <= processed))
    {
      if processed == emitted {
        out := "";
      } else if emitted <= processed {
        out := processed[|emitted|..];
        emitted := processed;
      } else {
        out := "";
      }
    }
  }

  // ---- whole runs ----

  /** Push every delta in turn; the emission carries all text produced so far. */
  function Run(c: Config, deltas: seq<string>): Emission {
    if deltas == [] then Emission(FRESH, "")
    else
      var before := Run(c, deltas[..|deltas| - 1]);
      var step := PushStep(c, before.state, deltas[|deltas| - 1]);
      Emission(step.state, before.delta + step.delta)
  }

  function RunToEnd(c: Config, deltas: seq<string>, suffix: string): Emission {
    var before := Run(c, deltas);
    var last := FinishStep(c, before.state, suffix);
    Emission(last.state, before.delta + last.delta)
  }

  lemma AppendUniqueWords(key: string -> string, target: string, delta: string)
    requires Canonical(target)
    ensures var r := AppendUnique(key, target, delta);
            && Canonical(r)
            && Split(target) <= Split(r)
            && (Trim(delta) == "" ==> r == target)
            && (Trim(delta) != "" ==>
                  var incoming := Split(Trim(delta));
                  Split(r) == Split(target) + incoming[Skip(key, Split(target), incoming)..])
  {
    if Trim(delta) != "" {
      var ws := Split(target);
      var incoming := Split(Trim(delta));
      var added := incoming[Skip(key, ws, incoming)..];
      SplitJoin(added);
      if added == [] {
        assert ws + added == ws;
      } else {
        JoinEnds(added);
        if ws == [] {
          assert target == "" && ws + added == added;
        } else {
          JoinEnds(ws);
          JoinAppend(ws, added);
        }
        SplitJoin(ws + added);
      }
    }
  }

  /** Nothing of `incoming` reads like a repetition: none of its beginnings ends the existing
      words, and it does not begin with two or more of the first existing words while being
      at least as long as those or made of nothing else. */
  predicate RepeatsNothing(key: string -> string, existing: seq<string>, incoming: seq<string>) {
    && Overlap(key, existing, incoming) == 0
    && !(&& Shared(key, existing, incoming) >= 2
         && (|incoming| >= |existing| || Shared(key, existing, incoming) == |incoming|))
  }

  /** The delta is taken over word for word exactly when it repeats nothing. */
  lemma AppendKeepsDeltaIff(key: string -> string, target: string, delta: string)
    requires Canonical(target) && Trim(delta) != ""
    ensures var existing, incoming := Split(target), Split(Trim(delta));
            Split(AppendUnique(key, target, delta)) == existing + incoming <==> RepeatsNothing(key, existing, incoming)
  {
    AppendUniqueWords(key, target, delta);
    var existing, incoming := Split(target), Split(Trim(delta));
    var n := Skip(key, existing, incoming);
    assert |existing + incoming[n..]| == |existing| + |incoming| - n;
    if n == 0 {
      assert incoming[n..] == incoming;
    }
  }

  /** One emission step adds to the emitted text exactly the delta it returns. */
  lemma EmissionExtends(s: State, processed: string)
    ensures var e := EmitPrefix(s, processed);
            e.state.emitted == s.emitted + e.delta && e.state.raw == s.raw
            && (s.emitted <= processed ==> e.state.emitted == processed)
            && (!(s.emitted <= processed) ==> e == Emission(s, ""))
  {}

  lemma SafeExtends(c: Config, t: State)
    ensures var e := EmitSafe(c, t); e.state.emitted == t.emitted + e.delta && e.state.raw == t.raw
  {
    var tokens := Split(t.raw);
    var k := |tokens| - GuardWords(c.replacements);
    if k > 0 {
      EmissionExtends(t, SafeText(c, tokens));
    } else {
      assert t.emitted + "" == t.emitted;
    }
  }

  lemma PushExtends(c: Config, s: State, delta: string)
    ensures var e := PushStep(c, s, delta);
            e.state.emitted == s.emitted + e.delta && e.state.raw == AppendUnique(c.key, s.raw, delta)
  {
    SafeExtends(c, AppendRaw(c, s, delta));
  }

  lemma FinishExtends(c: Config, s: State, suffix: string)
    ensures var e := FinishStep(c, s, suffix);
            var batch := Process(c.replacements, e.state.raw, c.mode);
            && e.state.raw == AppendUnique(c.key, s.raw, suffix)
            && e.state.emitted == s.emitted + e.delta
            && (s.emitted <= batch ==> e.state.emitted == batch)
            && (!(s.emitted <= batch) ==> e.delta == "")
  {
    var t := AppendRaw(c, s, suffix);
    EmissionExtends(t, Process(c.replacements, t.raw, c.mode));
  }

  /** What an append adds, in every case: the end of the delta. If the delta repeats two or
      more of the first words and is at least as long as the text, or is all repetition, the
      positions are kept; otherwise the result is the shortest bridge. */
  lemma AppendInEveryCase(key: string -> string, target: string, delta: string)
    requires Canonical(target) && Trim(delta) != ""
    ensures var ws, incoming := Split(target), Split(Trim(delta));
            var r := Split(AppendUnique(key, target, delta));
            var shared := Shared(key, ws, incoming);
            var k := |r| - |ws|;
            && 0 <= k <= |incoming| && r == ws + incoming[|incoming| - k..]
            && if shared >= 2 && (|incoming| >= |ws| || shared == |incoming|)
               then |r| == (if |ws| >= |incoming| then |ws| else |incoming|)
               else IsShortestBridge(key, ws, incoming, r)
  {
    AppendUniqueWords(key, target, delta);
    var ws, incoming := Split(target), Split(Trim(delta));
    var n := Skip(key, ws, incoming);
    assert |incoming[n..]| == |incoming| - n;
    OverlapBridges(key, ws, incoming);
  }

  /** The guard is twice the number of words of the longest pattern, or 2 if that has none. */
  lemma {:induction false} GuardSpec(replacements: seq<Replacement>)
    ensures forall i | 0 <= i < |replacements| :: 2 * |Split(replacements[i].from)| <= GuardWords(replacements)
    ensures GuardWords(replacements) == 2 ||
            exists i :: 0 <= i < |replacements| && GuardWords(replacements) == 2 * |Split(replacements[i].from)|
    ensures GuardWords(replacements) >= 2
  {
    if replacements != [] {
      var rest := replacements[1..];
      GuardSpec(rest);
      forall i | 0 <= i < |replacements| ensures 2 * |Split(replacements[i].from)| <= GuardWords(replacements) {
        if i > 0 {
          assert replacements[i] == rest[i - 1];
        }
      }
      if GuardWords(replacements) != 2 && GuardWords(replacements) == GuardWords(rest) {
        var i :| 0 <= i < |rest| && GuardWords(rest) == 2 * |Split(rest[i].from)|;
        assert replacements[i + 1] == rest[i];
      }
    }
  }

  ghost predicate CutOf(c: Config, ws: seq<string>, emitted: string, k: int) {
    0 < k <= |ws| && emitted == Process(c.replacements, Join(ws[..k]), c.mode)
  }

  /** What has been emitted is nothing, or the batch form of some leading words of the raw text. */
  ghost predicate EmittedIsACut(c: Config, s: State) {
    s.emitted == "" || exists k :: CutOf(c, Split(s.raw), s.emitted, k)
  }

  /** The same for a given number of leading words. */
  ghost predicate EmittedAt(c: Config, s: State, k: int) {
    s.emitted == "" || CutOf(c, Split(s.raw), s.emitted, k)
  }

  lemma SafeTextIsCut(c: Config, tokens: seq<string>)
    requires |tokens| > GuardWords(c.replacements)
    ensures CutOf(c, tokens, SafeText(c, tokens), |tokens| - GuardWords(c.replacements))
  {}

  lemma EmitPrefixCases(s: State, processed: string)
    ensures EmitPrefix(s, processed).state == s || EmitPrefix(s, processed).state == State(s.raw, processed)
  {}

  lemma EmitSafeCases(c: Config, t: State)
    ensures var u := EmitSafe(c, t).state;
            || u == t
            || (|Split(t.raw)| > GuardWords(c.replacements) && u == State(t.raw, SafeText(c, Split(t.raw))))
  {
    if |Split(t.raw)| > GuardWords(c.replacements) {
      EmitPrefixCases(t, SafeText(c, Split(t.raw)));
    }
  }

  lemma SafeIsEmittedAt(c: Config, raw: string, tokens: seq<string>, safe: string)
    requires tokens == Split(raw) && |tokens| > GuardWords(c.replacements) && safe == SafeText(c, tokens)
    ensures EmittedAt(c, State(raw, safe), |tokens| - GuardWords(c.replacements))
  {}

  lemma EmitSafeCuts(c: Config, t: State, k: int)
    requires EmittedAt(c, t, k)
    ensures var u := EmitSafe(c, t).state;
            && u.raw == t.raw
            && (EmittedAt(c, u, k) || EmittedAt(c, u, |Split(t.raw)| - GuardWords(c.replacements)))
  {
    EmitSafeCases(c, t);
    if |Split(t.raw)| > GuardWords(c.replacements) {
      SafeIsEmittedAt(c, t.raw, Split(t.raw), SafeText(c, Split(t.raw)));
    }
  }

  lemma EmitSafeKeepsCut(c: Config, t: State)
    requires EmittedIsACut(c, t)
    ensures EmittedIsACut(c, EmitSafe(c, t).state) && EmitSafe(c, t).state.raw == t.raw
  {
    EmitSafeCases(c, t);
    if |Split(t.raw)| > GuardWords(c.replacements) {
      SafeTextIsCut(c, Split(t.raw));
    }
  }

  lemma AppendKeepsCutAt(c: Config, s: State, delta: string, k: int)
    requires Canonical(s.raw) && EmittedAt(c, s, k)
    ensures var t := AppendRaw(c, s, delta);
            Canonical(t.raw) && EmittedAt(c, t, k) && Split(s.raw) <= Split(t.raw)
  {
    var t := AppendRaw(c, s, delta);
    AppendUniqueWords(c.key, s.raw, delta);
    if s.emitted != "" {
      assert Split(t.raw)[..k] == Split(s.raw)[..k];
    }
  }

  lemma AppendKeepsCut(c: Config, s: State, delta: string)
    requires Canonical(s.raw) && EmittedIsACut(c, s)
    ensures var t := AppendRaw(c, s, delta); Canonical(t.raw) && EmittedIsACut(c, t)
  {
    if s.emitted == "" {
      AppendKeepsCutAt(c, s, delta, 0);
    } else {
      var k :| CutOf(c, Split(s.raw), s.emitted, k);
      AppendKeepsCutAt(c, s, delta, k);
      assert CutOf(c, Split(AppendRaw(c, s, delta).raw), s.emitted, k);
    }
  }

  lemma {:induction false} RunIsConsistent(c: Config, deltas: seq<string>)
    ensures var r := Run(c, deltas);
            r.delta == r.state.emitted && Canonical(r.state.raw) && EmittedIsACut(c, r.state)
  {
    if deltas != [] {
      var init := deltas[..|deltas| - 1];
      RunIsConsistent(c, init);
      var s, delta := Run(c, init).state, deltas[|deltas| - 1];
      PushExtends(c, s, delta);
      AppendKeepsCut(c, s, delta);
      EmitSafeKeepsCut(c, AppendRaw(c, s, delta));
    }
  }

  /** For every configuration and every run, output is append-only and is what `final_text` holds. */
  lemma OutputIsAppendOnly(c: Config, deltas: seq<string>, delta: string, suffix: string)
    ensures Run(c, deltas).delta <= Run(c, deltas + [delta]).delta
    ensures Run(c, deltas).delta <= RunToEnd(c, deltas, suffix).delta
    ensures RunToEnd(c, deltas, suffix).delta == RunToEnd(c, deltas, suffix).state.emitted
  {
    RunIsConsistent(c, deltas);
    RunOfOneMore(c, deltas, delta);
    FinishExtends(c, Run(c, deltas).state, suffix);
  }

  lemma RunOfOneMore(c: Config, deltas: seq<string>, delta: string)
    ensures Run(c, deltas + [delta]).delta == Run(c, deltas).delta + PushStep(c, Run(c, deltas).state, delta).delta
  {
    assert (deltas + [delta])[..|deltas|] == deltas;
  }

  /** For every configuration and every run, the stream ends in the batch text exactly when
      the text emitted before the end is a prefix of it; otherwise finish emits nothing. */
  lemma FinishReachesBatchIff(c: Config, deltas: seq<string>, suffix: string)
    ensures var before := Run(c, deltas);
            var end := RunToEnd(c, deltas, suffix);
            var batch := Process(c.replacements, end.state.raw, c.mode);
            && (end.delta == batch <==> before.state.emitted <= batch)
            && (end.delta != batch ==> end.delta == before.delta)
  {
    RunIsConsistent(c, deltas);
    FinishExtends(c, Run(c, deltas).state, suffix);
  }

  /** No match of the replacements covers the end of the first k words. */
  ghost predicate CleanCut(c: Config, ws: seq<string>, k: int) {
    0 < k < |ws| ==> NoStraddle(c.replacements, Join(ws[..k]), Join(ws[k..]))
  }

  function BatchOf(c: Config, ws: seq<string>): string {
    Process(c.replacements, Join(ws), c.mode)
  }

  lemma CutIsPrefixOfBatch(c: Config, ws: seq<string>, emitted: string, k: int)
    requires AllWords(ws) && CutOf(c, ws, emitted, k) && CleanCut(c, ws, k)
    ensures emitted <= Process(c.replacements, Join(ws), c.mode)
  {
    FrontAndBack(ws, k);
    FrontIsPrefix(c, ws[..k], ws[k..], emitted, BatchOf(c, ws));
  }

  lemma FrontAndBack(ws: seq<string>, k: nat)
    requires 0 < k <= |ws|
    ensures ws[..k] + ws[k..] == ws && ws[..k] != [] && (ws[k..] != [] <==> k < |ws|)
  {}

  lemma FrontIsPrefix(c: Config, front: seq<string>, back: seq<string>, emitted: string, batch: string)
    requires AllWords(front + back) && front != []
    requires back != [] ==> NoStraddle(c.replacements, Join(front), Join(back))
    requires emitted == BatchOf(c, front) && batch == BatchOf(c, front + back)
    ensures emitted <= batch
  {
    if back == [] {
      assert front + back == front;
    } else {
      ProcessedPrefix(c, front, back);
    }
  }

  lemma ProcessedPrefix(c: Config, front: seq<string>, back: seq<string>)
    requires AllWords(front + back) && front != [] && back != []
    requires NoStraddle(c.replacements, Join(front), Join(back))
    ensures Process(c.replacements, Join(front), c.mode) <= Process(c.replacements, Join(front + back), c.mode)
  {
    forall i | 0 <= i < |front| ensures IsWord(front[i]) {
      assert front[i] == (front + back)[i];
    }
    NormalizeCanonical(front, c.mode);
    NormalizeCanonical(front + back, c.mode);
    JoinAppend(front, back);
    ReplaceAllDistributes(c.replacements, Join(front), Join(back));
  }

  /** How many leading words were past the guard after i deltas. */
  function CutAfter(c: Config, deltas: seq<string>, i: nat): int
    requires i <= |deltas|
  {
    |Split(Run(c, deltas[..i]).state.raw)| - GuardWords(c.replacements)
  }

  lemma PushCuts(c: Config, s: State, delta: string, k: int) returns (now: int)
    requires Canonical(s.raw) && EmittedAt(c, s, k)
    ensures var u := PushStep(c, s, delta).state;
            EmittedAt(c, u, now) && (now == k || now == |Split(u.raw)| - GuardWords(c.replacements))
  {
    AppendKeepsCutAt(c, s, delta, k);
    EmitSafeCuts(c, AppendRaw(c, s, delta), k);
    var u := PushStep(c, s, delta).state;
    now := if EmittedAt(c, u, k) then k else |Split(u.raw)| - GuardWords(c.replacements);
  }

  lemma CutAfterInit(c: Config, deltas: seq<string>, i: nat)
    requires deltas != [] && i < |deltas|
    ensures CutAfter(c, deltas, i) == CutAfter(c, deltas[..|deltas| - 1], i)
  {
    assert deltas[..i] == deltas[..|deltas| - 1][..i];
  }

  lemma CutAfterAll(c: Config, deltas: seq<string>)
    ensures CutAfter(c, deltas, |deltas|) == |Split(Run(c, deltas).state.raw)| - GuardWords(c.replacements)
  {
    assert deltas[..|deltas|] == deltas;
  }

  /** What a run has emitted ends at one of the cuts its own pushes made. */
  lemma {:induction false} LastCut(c: Config, deltas: seq<string>) returns (i: nat)
    ensures i <= |deltas| && EmittedAt(c, Run(c, deltas).state, CutAfter(c, deltas, i))
  {
    if deltas == [] {
      i := 0;
    } else {
      var init := deltas[..|deltas| - 1];
      i := LastCut(c, init);
      RunIsConsistent(c, init);
      var now := PushCuts(c, Run(c, init).state, deltas[|deltas| - 1], CutAfter(c, init, i));
      CutAfterInit(c, deltas, i);
      CutAfterAll(c, deltas);
      i := if now == CutAfter(c, init, i) then i else |deltas|;
    }
  }

  /** No match of the replacements in the final raw text covers a cut of this run. */
  ghost predicate CleanRun(c: Config, deltas: seq<string>, suffix: string) {
    forall i | 0 <= i <= |deltas| :: CleanCut(c, Split(RunToEnd(c, deltas, suffix).state.raw), CutAfter(c, deltas, i))
  }

  lemma FinishIsBatch(c: Config, s: State, suffix: string, k: int)
    requires Canonical(s.raw) && EmittedAt(c, s, k)
    requires CleanCut(c, Split(FinishStep(c, s, suffix).state.raw), k)
    ensures var e := FinishStep(c, s, suffix);
            && e.state.emitted == s.emitted + e.delta
            && e.state.emitted == Process(c.replacements, e.state.raw, c.mode)
  {
    FinishExtends(c, s, suffix);
    AppendKeepsCutAt(c, s, suffix, k);
    var t := AppendRaw(c, s, suffix);
    if t.emitted != "" {
      CutIsPrefixOfBatch(c, Split(t.raw), t.emitted, k);
    }
    assert t.emitted == s.emitted && t.raw == FinishStep(c, s, suffix).state.raw;
  }

  /** The streaming refinement: every run in every mode in which no match covers a cut
      produces exactly the batch text of the accumulated raw transcript. */
  lemma {:induction false} CleanRunEqualsBatch(c: Config, deltas: seq<string>, suffix: string)
    requires CleanRun(c, deltas, suffix)
    ensures var end := RunToEnd(c, deltas, suffix);
            end.delta == end.state.emitted == Process(c.replacements, end.state.raw, c.mode)
  {
    RunIsConsistent(c, deltas);
    var i := LastCut(c, deltas);
    FinishIsBatch(c, Run(c, deltas).state, suffix, CutAfter(c, deltas, i));
  }

  lemma SpaceFreeCut(c: Config, ws: seq<string>, k: int)
    requires SpaceFree(c.replacements)
    ensures CleanCut(c, ws, k)
  {
    if 0 < k < |ws| {
      SpaceFreeNoStraddle(c.replacements, Join(ws[..k]), Join(ws[k..]));
    }
  }

  /** In particular, when no pattern contains a space, every run does. */
  lemma {:induction false} StreamEqualsBatch(c: Config, deltas: seq<string>, suffix: string)
    requires SpaceFree(c.replacements)
    ensures var end := RunToEnd(c, deltas, suffix);
            end.delta == end.state.emitted == Process(c.replacements, end.state.raw, c.mode)
  {
    var ws := Split(RunToEnd(c, deltas, suffix).state.raw);
    forall i | 0 <= i <= |deltas| ensures CleanCut(c, ws, CutAfter(c, deltas, i)) {
      SpaceFreeCut(c, ws, CutAfter(c, deltas, i));
    }
    CleanRunEqualsBatch(c, deltas, suffix);
  }

  /** The batch form of all words but the guarded ones. */
  function Unguarded(c: Config, ws: seq<string>): string {
    var k := |ws| - GuardWords(c.replacements);
    if k <= 0 then "" else BatchOf(c, ws[..k])
  }

  lemma BatchGrows(c: Config, front: seq<string>, back: seq<string>)
    requires SpaceFree(c.replacements) && AllWords(front + back) && front != []
    ensures BatchOf(c, front) <= BatchOf(c, front + back)
  {
    SpaceFreeNoStraddle(c.replacements, Join(front), Join(back));
    FrontIsPrefix(c, front, back, BatchOf(c, front), BatchOf(c, front + back));
  }

  lemma UnguardedAt(c: Config, ws: seq<string>, k: nat)
    requires 0 < k == |ws| - GuardWords(c.replacements)
    ensures Unguarded(c, ws) == BatchOf(c, ws[..k])
  {}

  lemma NothingUnguarded(c: Config, ws: seq<string>)
    requires |ws| <= GuardWords(c.replacements)
    ensures Unguarded(c, ws) == ""
  {}

  lemma EmptyIsPrefix(text: string)
    ensures "" <= text
  {}

  lemma FrontOfLonger(ws: seq<string>, more: seq<string>, g: nat)
    requires ws <= more && |ws| > g
    ensures ws[..|ws| - g] <= more[..|more| - g] && ws[..|ws| - g] != []
  {}

  lemma FrontsGrow(c: Config, front: seq<string>, longer: seq<string>)
    requires SpaceFree(c.replacements) && AllWords(longer) && front != [] && front <= longer
    ensures BatchOf(c, front) <= BatchOf(c, longer)
  {
    assert front + longer[|front|..] == longer;
    BatchGrows(c, front, longer[|front|..]);
  }

  lemma UnguardedGrows(c: Config, ws: seq<string>, more: seq<string>)
    requires SpaceFree(c.replacements) && AllWords(more) && ws <= more
    ensures Unguarded(c, ws) <= Unguarded(c, more)
  {
    if |ws| > GuardWords(c.replacements) {
      PastTheGuard(c, ws, more, GuardWords(c.replacements));
    } else {
      NothingUnguarded(c, ws);
      EmptyIsPrefix(Unguarded(c, more));
    }
  }

  lemma PastTheGuard(c: Config, ws: seq<string>, more: seq<string>, g: nat)
    requires SpaceFree(c.replacements) && AllWords(more) && ws <= more && |ws| > g == GuardWords(c.replacements)
    ensures Unguarded(c, ws) <= Unguarded(c, more)
  {
    UnguardedAt(c, ws, |ws| - g);
    UnguardedAt(c, more, |more| - g);
    FrontOfLonger(ws, more, g);
    WordsOfFront(more, |more| - g);
    FrontsGrow(c, ws[..|ws| - g], more[..|more| - g]);
  }

  lemma WordsOfFront(ws: seq<string>, k: nat)
    requires AllWords(ws) && k <= |ws|
    ensures AllWords(ws[..k])
  {}

  lemma SafeIsUnguarded(c: Config, t: State)
    requires t.emitted <= Unguarded(c, Split(t.raw))
    ensures EmitSafe(c, t).state.raw == t.raw
    ensures t.emitted == "" || |Split(t.raw)| > GuardWords(c.replacements) ==>
              EmitSafe(c, t).state.emitted == Unguarded(c, Split(t.raw))
  {
    if |Split(t.raw)| > GuardWords(c.replacements) {
      EmissionExtends(t, SafeText(c, Split(t.raw)));
    }
  }

  /** Nothing more is held back than the guard: without spaces in patterns, after every run
      exactly the batch form of all words but the last guarded ones has been emitted. */
  lemma {:induction false} EmitsAllButTheGuard(c: Config, deltas: seq<string>)
    requires SpaceFree(c.replacements)
    ensures var s := Run(c, deltas).state; s.emitted == Unguarded(c, Split(s.raw))
  {
    if deltas != [] {
      var init, delta := deltas[..|deltas| - 1], deltas[|deltas| - 1];
      EmitsAllButTheGuard(c, init);
      RunIsConsistent(c, init);
      PushEmitsUnguarded(c, Run(c, init).state, delta);
    }
  }

  lemma PushEmitsUnguarded(c: Config, s: State, delta: string)
    requires SpaceFree(c.replacements) && Canonical(s.raw) && s.emitted == Unguarded(c, Split(s.raw))
    ensures var t := PushStep(c, s, delta).state; t.emitted == Unguarded(c, Split(t.raw))
  {
    var t := AppendRaw(c, s, delta);
    AppendUniqueWords(c.key, s.raw, delta);
    UnguardedGrows(c, Split(s.raw), Split(t.raw));
    SafeIsUnguarded(c, t);
  }

  lemma FinishIsSpaceFreeBatch(c: Config, s: State, suffix: string)
    requires SpaceFree(c.replacements) && Canonical(s.raw) && EmittedIsACut(c, s)
    ensures var e := FinishStep(c, s, suffix); e.state.emitted == Process(c.replacements, e.state.raw, c.mode)
  {
    var ws := Split(FinishStep(c, s, suffix).state.raw);
    if s.emitted == "" {
      FinishIsBatch(c, s, suffix, 0);
    } else {
      var k :| CutOf(c, Split(s.raw), s.emitted, k);
      SpaceFreeCut(c, ws, k);
      FinishIsBatch(c, s, suffix, k);
    }
  }

  // ---- a run on which the guard is too short ----

  const HEAD := ["a", "b"]
  const TAIL := ["c", "d", "e"]
  const TWO_WORDS := [Replacement(Join(HEAD), "X")]

  lemma HeadTailText()
    ensures Join(HEAD) == "a b" && Join(HEAD + TAIL) == "a b" + (" " + Join(TAIL))
    ensures 'a' !in " " + Join(TAIL)
  {
    JoinAppend(HEAD, TAIL);
    assert HEAD[1..] == ["b"];
    assert TAIL[1..] == ["d", "e"] && TAIL[1..][1..] == ["e"];
  }

  lemma HeadTailWords()
    ensures Split(Join(HEAD + TAIL)) == HEAD + TAIL && Trim(Join(HEAD + TAIL)) == Join(HEAD + TAIL)
    ensures GuardWords(TWO_WORDS) == 4
  {
    SplitJoin(HEAD + TAIL);
    SplitJoin(HEAD);
    JoinEnds(HEAD + TAIL);
    assert TWO_WORDS[0].from == Join(HEAD) && TWO_WORDS[1..] == [];
    assert MaxPatternWords([]) == 1;
  }

  lemma ReplaceHead(rest: string)
    requires 'a' !in rest
    ensures Replace("a b" + rest, "a b", "X") == "X" + rest
    ensures Replace("a", "a b", "X") == "a"
  {
    assert ("a b" + rest)[|"a b"|..] == rest;
    ReplaceAbsent(rest, "a b", "X");
    assert "a"[1..] == "";
  }

  lemma ReplaceOnlyHead(text: string)
    ensures ReplaceAll(TWO_WORDS, text) == Replace(text, Join(HEAD), "X")
  {
    assert TWO_WORDS[1..] == [];
  }

  lemma ProcessHeadTail()
    ensures Process(TWO_WORDS, Join(HEAD + TAIL), Raw) == "X" + (" " + Join(TAIL))
    ensures Process(TWO_WORDS, "a", Raw) == "a"
  {
    HeadTailWords();
    JoinEnds(["a"]);
    ReplaceOnlyHead(Join(HEAD + TAIL));
    ReplaceOnlyHead("a");
    HeadTailText();
    ReplaceHead(" " + Join(TAIL));
  }

  lemma FirstPushEmitsHead(key: string -> string)
    ensures var text := Join(HEAD + TAIL);
            PushStep(Config(key, Raw, TWO_WORDS), FRESH, text) == Emission(State(text, "a"), "a")
  {
    FirstAppend(key);
    FirstSafeText(key);
    FirstPush(Config(key, Raw, TWO_WORDS), Join(HEAD + TAIL), "a");
  }

  lemma FirstSafeText(key: string -> string)
    ensures Split(Join(HEAD + TAIL)) == HEAD + TAIL && |HEAD + TAIL| > GuardWords(TWO_WORDS)
    ensures SafeText(Config(key, Raw, TWO_WORDS), HEAD + TAIL) == "a"
  {
    HeadTailWords();
    assert (HEAD + TAIL)[..|HEAD + TAIL| - 4] == ["a"] && Join(["a"]) == "a";
    ProcessHeadTail();
  }

  lemma FirstPush(c: Config, text: string, safe: string)
    requires AppendUnique(c.key, "", text) == text && |Split(text)| > GuardWords(c.replacements)
    requires SafeText(c, Split(text)) == safe
    ensures PushStep(c, FRESH, text) == Emission(State(text, safe), safe)
  {
    assert AppendRaw(c, FRESH, text) == State(text, "");
    EmissionExtends(State(text, ""), safe);
    assert "" + EmitPrefix(State(text, ""), safe).delta == EmitPrefix(State(text, ""), safe).delta;
  }

  lemma FirstAppend(key: string -> string)
    ensures AppendUnique(key, "", Join(HEAD + TAIL)) == Join(HEAD + TAIL)
  {
    HeadTailWords();
    JoinEnds(HEAD + TAIL);
    var ws := HEAD + TAIL;
    assert Skip(key, [], ws) == 0 && ws[0..] == ws;
  }

  /** The guard does not keep a pattern of two words inside the held-back suffix: with "a b"
      to be replaced by "X" and "a b c d e" pushed at once, the cut falls inside the match,
      "a" is emitted unreplaced, and finish must stay silent. */
  lemma GuardCanSplitAPattern(key: string -> string)
    ensures var text := Join(["a", "b", "c", "d", "e"]);
            var c := Config(key, Raw, [Replacement(Join(["a", "b"]), "X")]);
            && RunToEnd(c, [text], "") == Emission(State(text, "a"), "a")
            && Process(c.replacements, text, Raw) == "X" + (" " + Join(["c", "d", "e"]))
  {
    var text := Join(HEAD + TAIL);
    assert HEAD + TAIL == ["a", "b", "c", "d", "e"];
    ProcessHeadTail();
    FirstPushEmitsHead(key);
    DifferentStart(" " + Join(TAIL));
    SilentFinish(Config(key, Raw, TWO_WORDS), text, "a");
  }

  lemma SilentFinish(c: Config, text: string, head: string)
    requires PushStep(c, FRESH, text) == Emission(State(text, head), head)
    requires !(head <= Process(c.replacements, text, c.mode))
    ensures RunToEnd(c, [text], "") == Emission(State(text, head), head)
  {
    RunOfOne(c, text);
    NothingToFinish(c, State(text, head));
    assert head + "" == head;
  }

  lemma RunOfOne(c: Config, text: string)
    ensures Run(c, [text]) == PushStep(c, FRESH, text)
  {
    var e := PushStep(c, FRESH, text);
    assert [text][..0] == [] && "" + e.delta == e.delta;
  }

  lemma NothingToFinish(c: Config, s: State)
    requires !(s.emitted <= Process(c.replacements, s.raw, c.mode))
    ensures FinishStep(c, s, "") == Emission(s, "")
  {
    assert Trim("") == "";
    assert AppendRaw(c, s, "") == s;
    EmissionExtends(s, Process(c.replacements, s.raw, c.mode));
  }

  lemma DifferentStart(text: string)
    ensures !("a" <= "X" + text)
  {
    assert ("X" + text)[0] == 'X' && "a"[0] == 'a';
  }
}
