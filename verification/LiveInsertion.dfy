/** Live insertion while dictating (crates/openwhisperd/src/lib.rs): each committed delta is
    processed and pasted into the target window, and a ledger records what was inserted. */
module LiveInsertion {
  import opened Prelude
  import opened TextProcessing
  import opened Words
  import Lines
  import Stabilizer
  import StreamingText

  datatype Status = NotRequested | Active | Suspended | Complete

  /** `delivered` is the text that really reached the target window. */
  datatype Live = Live(stab: Stabilizer.State, proc: StreamingText.State, status: Status,
                       insertedBytes: nat, delivered: string)

  function Begin(requested: bool): Live {
    Live(Stabilizer.FRESH, StreamingText.FRESH, if requested then Active else NotRequested, 0, "")
  }

  // ---- byte counts ----

  function Utf8Width(c: char): (n: nat)
    ensures 1 <= n <= 4
  {
    if c < '\U{80}' then 1 else if c < '\U{800}' then 2 else if c < '\U{10000}' then 3 else 4
  }

  function Utf8Length(s: string): (n: nat)
    ensures n >= |s|
  {
    if s == "" then 0 else Utf8Length(s[..|s| - 1]) + Utf8Width(s[|s| - 1])
  }

  lemma {:induction false} Utf8LengthAppend(a: string, b: string)
    ensures Utf8Length(a + b) == Utf8Length(a) + Utf8Length(b)
  {
    if b == "" {
      assert a + b == a;
    } else {
      assert (a + b)[..|a + b| - 1] == a + b[..|b| - 1];
      Utf8LengthAppend(a, b[..|b| - 1]);
    }
  }

  /** The scalar values of a text. */
  function ScalarsOf(s: string): seq<nat> {
    seq(|s|, i requires 0 <= i < |s| => s[i] as int)
  }

  lemma {:induction false} EncodeSnoc(ns: seq<nat>, n: nat)
    requires Lines.AllScalars(ns) && Lines.IsScalar(n)
    ensures Lines.AllScalars(ns + [n]) && Lines.Encode(ns + [n]) == Lines.Encode(ns) + Lines.EncodeScalar(n)
  {
    if ns == [] {
      assert ns + [n] == [n] && [n][1..] == [];
    } else {
      assert (ns + [n])[1..] == ns[1..] + [n];
      EncodeSnoc(ns[1..], n);
    }
  }

  /** The byte count is that of the UTF-8 encoding. */
  lemma {:induction false} Utf8LengthIs(s: string)
    ensures Lines.AllScalars(ScalarsOf(s)) && Utf8Length(s) == |Lines.Encode(ScalarsOf(s))|
  {
    if s != "" {
      var init, last := s[..|s| - 1], s[|s| - 1];
      Utf8LengthIs(init);
      EncodeSnoc(ScalarsOf(init), last as int);
      assert ScalarsOf(s) == ScalarsOf(init) + [last as int];
    }
  }

  // ---- one hypothesis, and the end ----

  /** Paste a processed delta, if insertion is active; `pasted` is how the paste turned out. */
  function Deliver(s: Live, delta: string, pasted: bool): Live {
    if s.status != Active || delta == "" then s
    else if pasted then s.(insertedBytes := s.insertedBytes + Utf8Length(delta), delivered := s.delivered + delta)
    else s.(status := Suspended)
  }

  /** Stabilise and process one hypothesis; the text to paste is returned with the state. */
  function Absorb(c: StreamingText.Config, s: Live, text: string): (Live, string) {
    var stab := Stabilizer.UpdateStep(c.key, s.stab, Split(text));
    var delta := Join(stab.committed[|s.stab.committed|..]);
    if delta == "" then (s.(stab := stab), "")
    else
      var e := StreamingText.PushStep(c, s.proc, delta);
      (s.(stab := stab, proc := e.state), e.delta)
  }

  function HypothesisStep(c: StreamingText.Config, s: Live, text: string, pasted: bool): Live {
    var a := Absorb(c, s, text);
    Deliver(a.0, a.1, pasted)
  }

  function AbsorbLast(c: StreamingText.Config, s: Live, text: string): (Live, string) {
    var stab := Stabilizer.FinishStep(c.key, s.stab, Some(Split(text)));
    var e := StreamingText.FinishStep(c, s.proc, Join(stab.committed[|s.stab.committed|..]));
    (s.(stab := stab, proc := e.state), e.delta)
  }

  /** Paste the final suffix; an empty transcript is an error before anything is pasted. */
  function Conclude(s: Live, suffix: string, pasted: bool): Live {
    if Trim(Join(s.stab.committed)) == "" || s.status != Active then s
    else if suffix == "" then s.(status := Complete)
    else
      var t := Deliver(s, suffix, pasted);
      if pasted then t.(status := Complete) else t
  }

  function FinishStep(c: StreamingText.Config, s: Live, text: string, pasted: bool): Live {
    var a := AbsorbLast(c, s, text);
    Conclude(a.0, a.1, pasted)
  }

  class LiveTranscript {
    const config: StreamingText.Config
    const stabilizer: Stabilizer.TranscriptStabilizer
    const processor: StreamingText.StreamingTextProcessor
    var insertionStatus: Status
    var insertedBytes: nat
    ghost var delivered: string

    ghost predicate Valid() {
      stabilizer.key == config.key && processor.config == config && processor.Valid()
    }

    ghost function Value(): Live
      reads this, stabilizer, processor
    {
      Live(stabilizer.Value(), processor.Value(), insertionStatus, insertedBytes, delivered)
    }

    constructor (config: StreamingText.Config, requested: bool)
      ensures Valid() && Value() == Begin(requested) && this.config == config
      ensures fresh(stabilizer) && fresh(processor)
    {
      this.config := config;
      stabilizer := new Stabilizer.TranscriptStabilizer(config.key);
      processor := new StreamingText.StreamingTextProcessor(config);
      insertionStatus := if requested then Active else NotRequested;
      insertedBytes, delivered := 0, "";
    }

    method Record(delta: string, pasted: bool)
      requires delta != "" && insertionStatus == Active
      modifies this
      ensures Value() == Deliver(old(Value()), delta, pasted)
    {
      if pasted {
        delivered := delivered + delta;
        insertedBytes := insertedBytes + Utf8Length(delta);
      } else {
        insertionStatus := Suspended;
      }
    }

    method OnHypothesis(text: string, pasted: bool)
      requires Valid()
      modifies this, stabilizer, processor
      ensures Value() == HypothesisStep(config, old(Value()), text, pasted)
    {
      var update := stabilizer.Update(text);
      if update.committedDelta != "" {
        var processed := processor.Push(update.committedDelta);
        if insertionStatus == Active && processed != "" {
          Record(processed, pasted);
        }
      }
    }

    /** False stands for the "no text" error. */
    method OnFinish(text: string, pasted: bool) returns (ok: bool)
      requires Valid()
      modifies this, stabilizer, processor
      ensures Value() == FinishStep(config, old(Value()), text, pasted)
      ensures ok == (Trim(Join(stabilizer.committedWords)) != "")
    {
      var update := stabilizer.Finish(Some(text));
      var suffix := processor.Finish(update.committedDelta);
      if Trim(update.committed) == "" {
        return false;
      }
      ok := true;
      if insertionStatus == Active {
        if suffix == "" {
          insertionStatus := Complete;
        } else {
          Record(suffix, pasted);
          if pasted {
            insertionStatus := Complete;
          }
        }
      }
    }
  }

  // ---- whole dictations ----

  datatype Hypothesis = Hypothesis(text: string, pasted: bool)

  function Run(c: StreamingText.Config, requested: bool, hs: seq<Hypothesis>): Live {
    if hs == [] then Begin(requested)
    else HypothesisStep(c, Run(c, requested, hs[..|hs| - 1]), hs[|hs| - 1].text, hs[|hs| - 1].pasted)
  }

  /** What the ledger says is what happened. */
  ghost predicate Ledger(s: Live) {
    && s.delivered <= s.proc.emitted
    && s.insertedBytes == Utf8Length(s.delivered)
    && (s.status == Complete ==> s.delivered == s.proc.emitted)
    && (s.status == Suspended ==> s.delivered != s.proc.emitted)
    && (s.status == NotRequested ==> s.delivered == "")
  }

  /** While dictating, an active insertion has also missed nothing. */
  ghost predicate Honest(s: Live) {
    Ledger(s) && (s.status == Active ==> s.delivered == s.proc.emitted)
  }

  ghost predicate Sound(c: StreamingText.Config, s: Live) {
    Canonical(s.proc.raw) && StreamingText.EmittedIsACut(c, s.proc)
  }

  lemma PushEmits(c: StreamingText.Config, p: StreamingText.State, delta: string)
    requires Canonical(p.raw) && StreamingText.EmittedIsACut(c, p)
    ensures var e := StreamingText.PushStep(c, p, delta);
            && e.state.emitted == p.emitted + e.delta
            && Canonical(e.state.raw) && StreamingText.EmittedIsACut(c, e.state)
  {
    StreamingText.AppendKeepsCut(c, p, delta);
    StreamingText.EmitSafeKeepsCut(c, StreamingText.AppendRaw(c, p, delta));
    StreamingText.PushExtends(c, p, delta);
  }

  lemma AbsorbEmits(c: StreamingText.Config, s: Live, text: string)
    requires Sound(c, s)
    ensures var a := Absorb(c, s, text);
            && Sound(c, a.0) && a.0.proc.emitted == s.proc.emitted + a.1
            && a.0.(stab := s.stab, proc := s.proc) == s
  {
    var stab := Stabilizer.UpdateStep(c.key, s.stab, Split(text));
    var delta := Join(stab.committed[|s.stab.committed|..]);
    if delta == "" {
      assert s.proc.emitted + "" == s.proc.emitted;
    } else {
      PushEmits(c, s.proc, delta);
    }
  }

  lemma AbsorbLastEmits(c: StreamingText.Config, s: Live, text: string)
    ensures var a := AbsorbLast(c, s, text);
            && a.0.proc.emitted == s.proc.emitted + a.1
            && a.0.(stab := s.stab, proc := s.proc) == s
  {}

  lemma DeliverStaysHonest(s: Live, t: Live, delta: string, pasted: bool)
    requires Honest(s) && t.proc.emitted == s.proc.emitted + delta
    requires t.(stab := s.stab, proc := s.proc) == s && s.status != Complete
    ensures Honest(Deliver(t, delta, pasted))
  {
    if t.status == Active {
      Utf8LengthAppend(s.delivered, delta);
      if delta == "" {
        assert s.delivered + delta == s.delivered;
      }
    }
  }

  lemma {:induction false} RunIsHonest(c: StreamingText.Config, requested: bool, hs: seq<Hypothesis>)
    ensures var s := Run(c, requested, hs);
            Honest(s) && Sound(c, s) && s.status != Complete && (s.status == NotRequested <==> !requested)
  {
    if hs != [] {
      var s, h := Run(c, requested, hs[..|hs| - 1]), hs[|hs| - 1];
      RunIsHonest(c, requested, hs[..|hs| - 1]);
      AbsorbEmits(c, s, h.text);
      DeliverStaysHonest(s, Absorb(c, s, h.text).0, Absorb(c, s, h.text).1, h.pasted);
    }
  }

  lemma NextIsHonest(c: StreamingText.Config, s: Live, h: Hypothesis)
    requires Honest(s) && Sound(c, s) && s.status != Complete
    ensures var next := HypothesisStep(c, s, h.text, h.pasted);
            && Honest(next) && s.delivered <= next.delivered
            && (s.status == Suspended ==> next.status == Suspended)
  {
    var a := Absorb(c, s, h.text);
    AbsorbEmits(c, s, h.text);
    DeliverStaysHonest(s, a.0, a.1, h.pasted);
  }

  lemma ConcludeStaysHonest(s: Live, t: Live, suffix: string, pasted: bool)
    requires Honest(s) && t.proc.emitted == s.proc.emitted + suffix
    requires t.(stab := s.stab, proc := s.proc) == s && s.status != Complete
    ensures var end := Conclude(t, suffix, pasted);
            && Ledger(end) && s.delivered <= end.delivered
            && (s.status == Suspended ==> end.status == Suspended)
            && (end.status == Active <==> s.status == Active && Trim(Join(t.stab.committed)) == "")
  {
    DeliverStaysHonest(s, t, suffix, pasted);
    assert s.delivered <= s.proc.emitted <= t.proc.emitted;
    assert s.proc.emitted + "" == s.proc.emitted;
  }

  lemma EndIsHonest(c: StreamingText.Config, s: Live, h: Hypothesis)
    requires Honest(s) && s.status != Complete
    ensures var end := FinishStep(c, s, h.text, h.pasted);
            && Ledger(end) && s.delivered <= end.delivered
            && (s.status == Suspended ==> end.status == Suspended)
            && (end.status == Active <==> s.status == Active && Trim(Join(end.stab.committed)) == "")
  {
    var a := AbsorbLast(c, s, h.text);
    AbsorbLastEmits(c, s, h.text);
    ConcludeStaysHonest(s, a.0, a.1, h.pasted);
  }

  /** For every dictation, whatever is pasted and whatever fails: the delivered text is a
      prefix of the emitted text and only grows, the byte count is its UTF-8 length, a
      suspended insertion stays suspended, `complete` means that everything emitted was
      delivered, and only an empty transcript leaves an insertion active at the end. Of a
      requested insertion, the delivered text is the emitted text, which a partial result
      reports as typed, exactly when it was never suspended. */
  lemma LedgerIsHonest(c: StreamingText.Config, requested: bool, hs: seq<Hypothesis>, h: Hypothesis)
    ensures var s := Run(c, requested, hs);
            var next := HypothesisStep(c, s, h.text, h.pasted);
            var end := FinishStep(c, s, h.text, h.pasted);
            && Honest(s) && Honest(next) && Ledger(end)
            && s.delivered <= next.delivered && s.delivered <= end.delivered
            && (s.status == Suspended ==> next.status == Suspended && end.status == Suspended)
            && (end.status == Active <==> s.status == Active && Trim(Join(end.stab.committed)) == "")
            && (requested ==>
                  && (s.delivered == s.proc.emitted <==> s.status != Suspended)
                  && (next.delivered == next.proc.emitted <==> next.status != Suspended)
                  && (end.status != Active ==> (end.delivered == end.proc.emitted <==> end.status != Suspended)))
  {
    RunIsHonest(c, requested, hs);
    NextIsHonest(c, Run(c, requested, hs), h);
    EndIsHonest(c, Run(c, requested, hs), h);
  }

  /** When no replacement pattern contains a space, a completed insertion has typed exactly
      the batch-processed form of the processor's raw transcript. */
  lemma CompletedInsertionIsBatchText(c: StreamingText.Config, requested: bool, hs: seq<Hypothesis>, h: Hypothesis)
    requires SpaceFree(c.replacements)
    ensures var end := FinishStep(c, Run(c, requested, hs), h.text, h.pasted);
            end.status == Complete ==> end.delivered == Process(c.replacements, end.proc.raw, c.mode)
  {
    RunIsHonest(c, requested, hs);
    EndIsHonest(c, Run(c, requested, hs), h);
    EndIsBatch(c, Run(c, requested, hs), h);
  }

  lemma EndIsBatch(c: StreamingText.Config, s: Live, h: Hypothesis)
    requires SpaceFree(c.replacements) && Sound(c, s)
    ensures IsBatch(c, FinishStep(c, s, h.text, h.pasted).proc)
  {
    var stab := Stabilizer.FinishStep(c.key, s.stab, Some(Split(h.text)));
    var suffix := Join(stab.committed[|s.stab.committed|..]);
    FinishedProcessor(c, s, h, suffix);
    BatchAtFinish(c, s.proc, suffix);
  }

  ghost predicate IsBatch(c: StreamingText.Config, p: StreamingText.State) {
    p.emitted == Process(c.replacements, p.raw, c.mode)
  }

  lemma FinishedProcessor(c: StreamingText.Config, s: Live, h: Hypothesis, suffix: string)
    requires suffix == Join(Stabilizer.FinishStep(c.key, s.stab, Some(Split(h.text))).committed[|s.stab.committed|..])
    ensures FinishStep(c, s, h.text, h.pasted).proc == StreamingText.FinishStep(c, s.proc, suffix).state
  {}

  lemma BatchAtFinish(c: StreamingText.Config, p: StreamingText.State, suffix: string)
    requires SpaceFree(c.replacements) && Canonical(p.raw) && StreamingText.EmittedIsACut(c, p)
    ensures IsBatch(c, StreamingText.FinishStep(c, p, suffix).state)
  {
    StreamingText.FinishIsSpaceFreeBatch(c, p, suffix);
  }

  /** The stream task is aborted after `push` and before the outcome is recorded. */
  function AbortStep(c: StreamingText.Config, s: Live, text: string, pasted: bool): Live {
    var a := Absorb(c, s, text);
    if pasted && s.status == Active then a.0.(delivered := s.delivered + a.1) else a.0
  }

  /** Why such runs are excluded: after an abort, an insertion that still reaches `complete`
      has lost the delta exactly when there was one and it was not pasted, and has miscounted
      it exactly when there was one and it was. */
  lemma AbortLosesTheDeltaInTheAir(c: StreamingText.Config, requested: bool, hs: seq<Hypothesis>, text: string, pasted: bool, last: string)
    ensures var s := Run(c, requested, hs);
            var delta := Absorb(c, s, text).1;
            var end := FinishStep(c, AbortStep(c, s, text, pasted), last, true);
            end.status == Complete ==>
              && (end.delivered == end.proc.emitted <==> delta == "" || pasted)
              && (end.insertedBytes == Utf8Length(end.delivered) <==> delta == "" || !pasted)
  {
    var s := Run(c, requested, hs);
    var a := Absorb(c, s, text);
    RunIsHonest(c, requested, hs);
    AbsorbEmits(c, s, text);
    var t := AbortStep(c, s, text, pasted);
    var b := AbsorbLast(c, t, last);
    AbsorbLastEmits(c, t, last);
    ConcludeAfterAbort(s, t, b.0, a.1, b.1, pasted);
  }

  lemma ConcludeAfterAbort(s: Live, t: Live, u: Live, delta: string, suffix: string, pasted: bool)
    requires Honest(s) && s.status != Complete
    requires t.proc.emitted == s.proc.emitted + delta && t.status == s.status && t.insertedBytes == s.insertedBytes
    requires s.status == Active ==> t.delivered == if pasted then s.delivered + delta else s.delivered
    requires u.proc.emitted == t.proc.emitted + suffix && u.(stab := t.stab, proc := t.proc) == t
    ensures var end := Conclude(u, suffix, true);
            end.status == Complete ==>
              && (end.delivered == end.proc.emitted <==> delta == "" || pasted)
              && (end.insertedBytes == Utf8Length(end.delivered) <==> delta == "" || !pasted)
  {
    if s.status == Active {
      AbortArithmetic(s.delivered, delta, suffix);
      assert suffix == "" ==> t.delivered + suffix == t.delivered;
    }
  }

  lemma AbortArithmetic(delivered: string, delta: string, suffix: string)
    ensures delivered + suffix == delivered + delta + suffix <==> delta == ""
    ensures Utf8Length(delivered + delta + suffix) == Utf8Length(delivered) + Utf8Length(delta) + Utf8Length(suffix)
    ensures Utf8Length(delivered + suffix) == Utf8Length(delivered) + Utf8Length(suffix)
    ensures Utf8Length(delta) == 0 <==> delta == ""
    ensures delivered + "" == delivered
  {
    Utf8LengthAppend(delivered, delta);
    Utf8LengthAppend(delivered + delta, suffix);
    Utf8LengthAppend(delivered, suffix);
    assert |delivered + suffix| == |delivered| + |suffix|;
    assert delta == "" ==> delivered + delta == delivered;
  }

  /** Such a dictation: three words are heard twice, the stream task is aborted before the first of
      them is pasted, and the insertion still ends complete without it. */
  lemma AbortedDictationLosesAWord(key: string -> string, mode: Mode, a: string, b: string, d: string)
    requires IsWord(a) && IsWord(b) && IsWord(d)
    ensures var c := StreamingText.Config(key, mode, []);
            var text := Join([a, b, d]);
            var s := Run(c, true, [Hypothesis(text, true)]);
            var end := FinishStep(c, AbortStep(c, s, text, false), text, true);
            && Absorb(c, s, text).1 == a
            && end.status == Complete && end.delivered != end.proc.emitted
  {
    var c := StreamingText.Config(key, mode, []);
    var ws, text := [a, b, d], Join([a, b, d]);
    var h := Hypothesis(text, true);
    var s := Run(c, true, [h]);
    SplitJoin(ws);
    JoinEnds(ws);
    HeardOnce(c, h, ws);
    HeardTwice(c, s, text, ws);
    AbortLosesTheDeltaInTheAir(c, true, [h], text, false, text);
    var t := AbortStep(c, s, text, false);
    NothingMoreCommitted(c, t, text, ws);
  }

  lemma HeardOnce(c: StreamingText.Config, h: Hypothesis, ws: seq<string>)
    requires Split(h.text) == ws
    ensures Run(c, true, [h]) == Begin(true).(stab := Stabilizer.State([], ws))
  {
    var none: seq<string> := [];
    assert [h][..0] == [];
    CommitPrevious(c.key, none, none, ws);
    assert none + none == none && none + none + ws == ws && none[0..] == none;
  }

  lemma HeardTwice(c: StreamingText.Config, s: Live, text: string, ws: seq<string>)
    requires s == Begin(true).(stab := Stabilizer.State([], ws)) && c.replacements == []
    requires |ws| == 3 && AllWords(ws) && text == Join(ws)
    ensures var u := Absorb(c, s, text);
            && u.1 == ws[0] && u.0.stab == Stabilizer.State(ws, [])
            && u.0 == s.(stab := u.0.stab, proc := u.0.proc)
  {
    var none: seq<string> := [];
    SplitJoin(ws);
    JoinEnds(ws);
    CommitPrevious(c.key, none, ws, none);
    assert none + ws == ws && none + ws + none == ws && ws[0..] == ws;
    FirstEmission(c, ws, text);
  }

  lemma FirstEmission(c: StreamingText.Config, ws: seq<string>, text: string)
    requires c.replacements == [] && |ws| == 3 && AllWords(ws) && text == Join(ws)
    ensures StreamingText.PushStep(c, StreamingText.FRESH, text).delta == ws[0]
  {
    SplitJoin(ws);
    JoinEnds(ws);
    assert StreamingText.Skip(c.key, [], ws) == 0 && ws[0..] == ws;
    assert StreamingText.AppendUnique(c.key, "", text) == text;
    assert ws[..1] == [ws[0]] && Join([ws[0]]) == ws[0];
    NormalizeCanonical([ws[0]], c.mode);
    assert StreamingText.SafeText(c, ws) == ws[0];
    StreamingText.FirstPush(c, text, ws[0]);
  }

  lemma NothingMoreCommitted(c: StreamingText.Config, t: Live, text: string, ws: seq<string>)
    requires t.stab == Stabilizer.State(ws, []) && Split(text) == ws && AllWords(ws) && ws != [] && t.status == Active
    ensures FinishStep(c, t, text, true).status == Complete
  {
    assert ws[..|ws|] == ws && ws[|ws|..] == [] && ws + [] == ws;
    Stabilizer.DroppedOfExtension(c.key, ws, ws);
    JoinEnds(ws);
  }

  // ---- typed text and reported text ----

  /** The words one hypothesis adds to the committed ones. */
  function Added(c: StreamingText.Config, s: Live, text: string): seq<string> {
    Stabilizer.UpdateStep(c.key, s.stab, Split(text)).committed[|s.stab.committed|..]
  }

  function AddedLast(c: StreamingText.Config, s: Live, text: string): seq<string> {
    Stabilizer.FinishStep(c.key, s.stab, Some(Split(text))).committed[|s.stab.committed|..]
  }

  lemma UpdateAddsWords(key: string -> string, s: Stabilizer.State, h: seq<string>)
    requires AllWords(s.committed) && AllWords(s.previous) && AllWords(h)
    ensures var t := Stabilizer.UpdateStep(key, s, h);
            && s.committed <= t.committed && t.committed == s.committed + t.committed[|s.committed|..]
            && AllWords(t.committed) && AllWords(t.previous) && AllWords(t.committed[|s.committed|..])
  {
    var d := Stabilizer.Dropped(key, s.committed, h);
    var n := Shared(key, s.previous, h[d..]);
    assert (s.committed + h[d..d + n])[|s.committed|..] == h[d..d + n];
  }

  lemma FinishAddsWords(key: string -> string, s: Stabilizer.State, h: seq<string>)
    requires AllWords(s.committed) && AllWords(h)
    ensures var t := Stabilizer.FinishStep(key, s, Some(h));
            && s.committed <= t.committed && t.committed == s.committed + t.committed[|s.committed|..]
            && AllWords(t.committed[|s.committed|..])
  {
    var kept := Stabilizer.Kept(key, s.committed, h);
    assert (s.committed + kept)[|s.committed|..] == kept;
  }

  /** The raw text after some words were pushed: all of them, less those skipped. */
  lemma PushedWords(key: string -> string, raw: string, added: seq<string>)
    requires Canonical(raw) && AllWords(added)
    ensures var r := StreamingText.AppendUnique(key, raw, Join(added));
            && Canonical(r)
            && Split(r) == Split(raw) + added[StreamingText.Skip(key, Split(raw), added)..]
            && (StreamingText.Skip(key, Split(raw), added) == 0 <==> StreamingText.RepeatsNothing(key, Split(raw), added))
  {
    StreamingText.AppendUniqueWords(key, raw, Join(added));
    if added == [] {
      assert Trim("") == "";
      assert Split(raw) + [] == Split(raw);
    } else {
      SplitJoin(added);
      JoinEnds(added);
    }
  }

  lemma HypothesisPushes(c: StreamingText.Config, s: Live, text: string, pasted: bool)
    ensures var t := HypothesisStep(c, s, text, pasted);
            && t.stab == Stabilizer.UpdateStep(c.key, s.stab, Split(text))
            && t.proc.raw == StreamingText.AppendUnique(c.key, s.proc.raw, Join(Added(c, s, text)))
  {
    if Join(Added(c, s, text)) == "" {
      assert Trim("") == "";
    } else {
      StreamingText.PushExtends(c, s.proc, Join(Added(c, s, text)));
    }
  }

  lemma LastHypothesisPushes(c: StreamingText.Config, s: Live, text: string, pasted: bool)
    ensures var t := FinishStep(c, s, text, pasted);
            && t.stab == Stabilizer.FinishStep(c.key, s.stab, Some(Split(text)))
            && t.proc.raw == StreamingText.AppendUnique(c.key, s.proc.raw, Join(AddedLast(c, s, text)))
  {
    StreamingText.FinishExtends(c, s.proc, Join(AddedLast(c, s, text)));
  }

  /** No step of the dictation commits words that read like a repetition of the words
      committed before: a condition on the stabilizer's run alone. */
  ghost predicate NothingRepeated(c: StreamingText.Config, requested: bool, hs: seq<Hypothesis>) {
    if hs == [] then true
    else
      var s := Run(c, requested, hs[..|hs| - 1]);
      && NothingRepeated(c, requested, hs[..|hs| - 1])
      && StreamingText.RepeatsNothing(c.key, s.stab.committed, Added(c, s, hs[|hs| - 1].text))
  }

  ghost predicate NothingRepeatedToEnd(c: StreamingText.Config, requested: bool, hs: seq<Hypothesis>, text: string) {
    var s := Run(c, requested, hs);
    NothingRepeated(c, requested, hs) && StreamingText.RepeatsNothing(c.key, s.stab.committed, AddedLast(c, s, text))
  }

  /** The spaces in a processed sequence of words. */
  function Weight(c: StreamingText.Config, ws: seq<string>): nat {
    Spaces(ReplaceAll(c.replacements, Join(ws)))
  }

  function Spaces(s: string): nat {
    if s == "" then 0 else (if s[0] == ' ' then 1 else 0) + Spaces(s[1..])
  }

  lemma {:induction false} SpacesAppend(a: string, b: string)
    ensures Spaces(a + b) == Spaces(a) + Spaces(b)
  {
    if a == "" {
      assert a + b == b;
    } else {
      assert (a + b)[1..] == a[1..] + b;
      SpacesAppend(a[1..], b);
    }
  }

  lemma WeightAppend(c: StreamingText.Config, a: seq<string>, b: seq<string>)
    requires SpaceFree(c.replacements) && a != [] && b != []
    ensures Weight(c, a + b) == Weight(c, a) + 1 + Weight(c, b)
  {
    JoinAppend(a, b);
    SpaceFreeNoStraddle(c.replacements, Join(a), Join(b));
    ReplaceAllDistributes(c.replacements, Join(a), Join(b));
    var x, y := ReplaceAll(c.replacements, Join(a)), ReplaceAll(c.replacements, Join(b));
    SpacesAppend(x + " ", y);
    SpacesAppend(x, " ");
  }

  /** Dropping words loses spaces. */
  lemma WeightOfRest(c: StreamingText.Config, ws: seq<string>, n: nat)
    requires SpaceFree(c.replacements) && 0 < n < |ws|
    ensures Weight(c, ws[n..]) < Weight(c, ws)
  {
    assert ws == ws[..n] + ws[n..];
    WeightAppend(c, ws[..n], ws[n..]);
  }

  /** The typed words r are the committed words t, or fewer of them, which then shows in the
      spaces of the processed text. */
  ghost predicate Follows(c: StreamingText.Config, r: seq<string>, t: seq<string>) {
    && (r == t || |r| < |t|)
    && (r == [] <==> t == [])
    && (SpaceFree(c.replacements) ==> r == t || Weight(c, r) < Weight(c, t))
  }

  lemma WeightGrows(c: StreamingText.Config, r: seq<string>, t: seq<string>, d: seq<string>, n: nat)
    requires SpaceFree(c.replacements) && r != [] && t != [] && d != [] && n <= |d|
    requires Weight(c, r) <= Weight(c, t) && (n > 0 || Weight(c, r) < Weight(c, t))
    ensures Weight(c, r + d[n..]) < Weight(c, t + d)
  {
    WeightAppend(c, t, d);
    if n == |d| {
      assert r + d[n..] == r;
    } else {
      WeightAppend(c, r, d[n..]);
      if n == 0 {
        assert d[n..] == d;
      } else {
        WeightOfRest(c, d, n);
      }
    }
  }

  lemma FollowsStep(c: StreamingText.Config, r: seq<string>, t: seq<string>, d: seq<string>, n: nat)
    requires Follows(c, r, t) && n == StreamingText.Skip(c.key, r, d)
    ensures Follows(c, r + d[n..], t + d)
    ensures r + d[n..] == t + d <==> r == t && n == 0
  {
    assert |r + d[n..]| == |r| + |d| - n && |t + d| == |t| + |d|;
    if d == [] {
      assert r + d[n..] == r && t + d == t;
    } else if r == [] {
      assert n == 0 && d[0..] == d;
    } else if r == t && n == 0 {
      assert d[0..] == d;
    } else if SpaceFree(c.replacements) {
      WeightGrows(c, r, t, d, n);
    }
  }

  ghost predicate Tracks(c: StreamingText.Config, s: Live) {
    && Canonical(s.proc.raw) && AllWords(s.stab.committed) && AllWords(s.stab.previous)
    && Follows(c, Split(s.proc.raw), s.stab.committed)
  }

  /** After every dictation the words in the raw text typed from are the committed words
      exactly when no step repeated anything. Words once missing stay missing. */
  lemma {:induction false} TypedWordsAreCommittedIff(c: StreamingText.Config, requested: bool, hs: seq<Hypothesis>)
    ensures var s := Run(c, requested, hs);
            && Tracks(c, s)
            && (Split(s.proc.raw) == s.stab.committed <==> NothingRepeated(c, requested, hs))
  {
    if hs != [] {
      var init, h := hs[..|hs| - 1], hs[|hs| - 1];
      var s := Run(c, requested, init);
      TypedWordsAreCommittedIff(c, requested, init);
      HypothesisPushes(c, s, h.text, h.pasted);
      UpdateAddsWords(c.key, s.stab, Split(h.text));
      PushedWords(c.key, s.proc.raw, Added(c, s, h.text));
      FollowsStep(c, Split(s.proc.raw), s.stab.committed, Added(c, s, h.text),
                  StreamingText.Skip(c.key, Split(s.proc.raw), Added(c, s, h.text)));
    }
  }

  lemma TypedWordsAtEnd(c: StreamingText.Config, requested: bool, hs: seq<Hypothesis>, h: Hypothesis)
    ensures var end := FinishStep(c, Run(c, requested, hs), h.text, h.pasted);
            && Canonical(end.proc.raw) && AllWords(end.stab.committed)
            && Follows(c, Split(end.proc.raw), end.stab.committed)
            && (Split(end.proc.raw) == end.stab.committed <==> NothingRepeatedToEnd(c, requested, hs, h.text))
  {
    var s := Run(c, requested, hs);
    TypedWordsAreCommittedIff(c, requested, hs);
    LastHypothesisPushes(c, s, h.text, h.pasted);
    FinishAddsWords(c.key, s.stab, Split(h.text));
    PushedWords(c.key, s.proc.raw, AddedLast(c, s, h.text));
    FollowsStep(c, Split(s.proc.raw), s.stab.committed, AddedLast(c, s, h.text),
                StreamingText.Skip(c.key, Split(s.proc.raw), AddedLast(c, s, h.text)));
  }

  /** The `final_text` the daemon reports, copies and stores: the committed text, processed. */
  function FinalText(c: StreamingText.Config, s: Live): string {
    Process(c.replacements, Join(s.stab.committed), c.mode)
  }

  lemma ProcessedWordsDiffer(c: StreamingText.Config, r: seq<string>, t: seq<string>)
    requires SpaceFree(c.replacements) && AllWords(r) && AllWords(t) && Follows(c, r, t)
    ensures Process(c.replacements, Join(r), c.mode) == Process(c.replacements, Join(t), c.mode) <==> r == t
  {
    NormalizeCanonical(r, c.mode);
    NormalizeCanonical(t, c.mode);
  }

  /** A completed insertion has typed exactly the text the daemon then reports, for every
      configuration without spaces in patterns, when and only when no step repeated anything. */
  lemma TypedTextIsFinalTextIff(c: StreamingText.Config, requested: bool, hs: seq<Hypothesis>, h: Hypothesis)
    requires SpaceFree(c.replacements)
    ensures var end := FinishStep(c, Run(c, requested, hs), h.text, h.pasted);
            end.status == Complete ==>
              (end.delivered == FinalText(c, end) <==> NothingRepeatedToEnd(c, requested, hs, h.text))
  {
    var end := FinishStep(c, Run(c, requested, hs), h.text, h.pasted);
    CompletedInsertionIsBatchText(c, requested, hs, h);
    TypedWordsAtEnd(c, requested, hs, h);
    ProcessedWordsDiffer(c, Split(end.proc.raw), end.stab.committed);
  }

  /** Such a dictation: a word dictated twice in a row is committed twice, but is in the text
      typed only once, whatever is configured and whatever is pasted. */
  lemma RepeatedWordIsTypedOnce(c: StreamingText.Config, requested: bool, w: string, pasted: bool)
    requires IsWord(w)
    ensures var once, twice := Hypothesis(w, pasted), Hypothesis(w + " " + w, pasted);
            var s := Run(c, requested, [once, twice, twice]);
            s.stab.committed == [w, w] && Split(s.proc.raw) == [w]
  {
    var once, twice := Hypothesis(w, pasted), Hypothesis(w + " " + w, pasted);
    var none: seq<string> := [];
    WordTexts(w);
    PushTwice(c.key, w);
    OneAndTwo(none, w);
    assert [] + [once] == [once] && [once] + [twice] == [once, twice] && [once, twice] + [twice] == [once, twice, twice];
    CommitMore(c, requested, [], once, none, none, [w]);
    CommitMore(c, requested, [once], twice, none, [w], [w]);
    CommitMore(c, requested, [once, twice], twice, [w], [w], none);
  }

  lemma OneAndTwo(none: seq<string>, w: string)
    requires none == []
    ensures none + none == none && none + none + [w] == [w] && none + [w] == [w]
    ensures [w] + [w] == [w, w] && none + [w] + [w] == [w, w] && [w] + [w] + none == [w, w]
  {}

  lemma WordTexts(w: string)
    requires IsWord(w)
    ensures Split(w) == [w] && Split(w + " " + w) == [w, w]
  {
    SplitJoin([w]);
    SplitJoin([w, w]);
    assert [w, w][1..] == [w];
    assert Join([w, w]) == w + " " + w;
  }

  lemma RunSnoc(c: StreamingText.Config, requested: bool, hs: seq<Hypothesis>, h: Hypothesis)
    ensures Run(c, requested, hs + [h]) == HypothesisStep(c, Run(c, requested, hs), h.text, h.pasted)
  {
    assert (hs + [h])[..|hs|] == hs;
  }

  lemma CommitMore(c: StreamingText.Config, requested: bool, hs: seq<Hypothesis>, h: Hypothesis,
                   t: seq<string>, p: seq<string>, rest: seq<string>)
    requires Run(c, requested, hs).stab == Stabilizer.State(t, p) && Split(h.text) == t + p + rest
    ensures var u := Run(c, requested, hs + [h]);
            && u.stab == Stabilizer.State(t + p, rest)
            && u.proc.raw == StreamingText.AppendUnique(c.key, Run(c, requested, hs).proc.raw, Join(p))
  {
    RunSnoc(c, requested, hs, h);
    CommitStep(c, Run(c, requested, hs), t, p, rest, h.text, h.pasted);
  }

  /** One step on a hypothesis that repeats all known words: the unstable ones p are committed
      and pushed. */
  lemma CommitStep(c: StreamingText.Config, s: Live, t: seq<string>, p: seq<string>, rest: seq<string>, text: string, pasted: bool)
    requires s.stab == Stabilizer.State(t, p) && Split(text) == t + p + rest
    ensures var u := HypothesisStep(c, s, text, pasted);
            && u.stab == Stabilizer.State(t + p, rest)
            && u.proc.raw == StreamingText.AppendUnique(c.key, s.proc.raw, Join(p))
  {
    CommitPrevious(c.key, t, p, rest);
    HypothesisPushes(c, s, text, pasted);
    assert (t + p)[|t|..] == p;
  }

  lemma PushTwice(key: string -> string, w: string)
    requires IsWord(w)
    ensures StreamingText.AppendUnique(key, "", "") == ""
    ensures StreamingText.AppendUnique(key, "", Join([w])) == w
    ensures StreamingText.AppendUnique(key, w, Join([w])) == w
    ensures Split(w) == [w]
  {
    WordTexts(w);
    assert Trim("") == "";
    JoinEnds([w]);
    assert Join([w]) == w && [w][0..] == [w] && [w][1..] == [];
    assert StreamingText.Skip(key, [], [w]) == 0;
    OverlapIs(key, [w], [w], 1);
    assert Shared(key, [w], [w]) == 1;
  }

  /** A hypothesis that repeats all known words commits the unstable ones. */
  lemma CommitPrevious(key: string -> string, c: seq<string>, p: seq<string>, rest: seq<string>)
    ensures Stabilizer.UpdateStep(key, Stabilizer.State(c, p), c + p + rest) == Stabilizer.State(c + p, rest)
  {
    var h := c + p + rest;
    assert h[..|c|] == c && h[|c|..] == p + rest;
    Stabilizer.DroppedOfExtension(key, c, h);
    SharedIs(key, p, p + rest, |p|);
    assert h[|c|..|c| + |p|] == p && h[|c| + |p|..] == rest;
  }

  // ---- exactly when an insertion is suspended or complete ----

  /** Hypothesis i made the processor emit something, and pasting it failed. */
  ghost predicate FailsAt(c: StreamingText.Config, requested: bool, hs: seq<Hypothesis>, i: nat)
    requires i < |hs|
  {
    !hs[i].pasted && Run(c, requested, hs[..i + 1]).proc.emitted != Run(c, requested, hs[..i]).proc.emitted
  }

  ghost predicate NoneFails(c: StreamingText.Config, requested: bool, hs: seq<Hypothesis>) {
    forall i: nat | i < |hs| :: !FailsAt(c, requested, hs, i)
  }

  lemma FailsAtSnoc(c: StreamingText.Config, requested: bool, hs: seq<Hypothesis>, h: Hypothesis)
    ensures NoneFails(c, requested, hs + [h]) <==>
              && NoneFails(c, requested, hs)
              && (h.pasted || Run(c, requested, hs + [h]).proc.emitted == Run(c, requested, hs).proc.emitted)
  {
    var more := hs + [h];
    assert more[..|hs|] == hs && more[..|more|] == more && more[|hs|] == h;
    forall i: nat | i < |hs| ensures FailsAt(c, requested, more, i) <==> FailsAt(c, requested, hs, i) {
      assert more[..i] == hs[..i] && more[..i + 1] == hs[..i + 1];
    }
    assert FailsAt(c, requested, more, |hs|) <==>
           !h.pasted && Run(c, requested, more).proc.emitted != Run(c, requested, hs).proc.emitted;
  }

  lemma StatusAfter(c: StreamingText.Config, s: Live, h: Hypothesis)
    requires Sound(c, s)
    ensures var next := HypothesisStep(c, s, h.text, h.pasted);
            next.status == if s.status == Active && !h.pasted && next.proc.emitted != s.proc.emitted then Suspended else s.status
  {
    AbsorbEmits(c, s, h.text);
    assert |s.proc.emitted + Absorb(c, s, h.text).1| == |s.proc.emitted| + |Absorb(c, s, h.text).1|;
  }

  ghost predicate StatusIs(status: Status, requested: bool, noneFails: bool) {
    status == if !requested then NotRequested else if noneFails then Active else Suspended
  }

  ghost predicate StatusFits(c: StreamingText.Config, requested: bool, hs: seq<Hypothesis>, status: Status) {
    StatusIs(status, requested, NoneFails(c, requested, hs))
  }

  lemma StatusOfOneMore(c: StreamingText.Config, requested: bool, init: seq<Hypothesis>, h: Hypothesis, s: Live)
    requires s == Run(c, requested, init) && Sound(c, s) && StatusFits(c, requested, init, s.status)
    ensures StatusFits(c, requested, init + [h], HypothesisStep(c, s, h.text, h.pasted).status)
  {
    RunSnoc(c, requested, init, h);
    StatusAfter(c, s, h);
    FailsAtSnoc(c, requested, init, h);
  }

  lemma LastApart(hs: seq<Hypothesis>)
    requires hs != []
    ensures hs[..|hs| - 1] + [hs[|hs| - 1]] == hs
  {}

  lemma StatusAtStart(c: StreamingText.Config, requested: bool)
    ensures StatusFits(c, requested, [], Begin(requested).status)
  {}

  /** In every dictation, a requested insertion is suspended exactly when some text that was
      emitted failed to be pasted, and is active otherwise. */
  lemma {:induction false} SuspendedIff(c: StreamingText.Config, requested: bool, hs: seq<Hypothesis>)
    ensures StatusFits(c, requested, hs, Run(c, requested, hs).status)
  {
    if hs == [] {
      StatusAtStart(c, requested);
    } else {
      var init, h := hs[..|hs| - 1], hs[|hs| - 1];
      SuspendedIff(c, requested, init);
      RunIsHonest(c, requested, init);
      StatusOfOneMore(c, requested, init, h, Run(c, requested, init));
      LastApart(hs);
    }
  }

  lemma FinishStatus(c: StreamingText.Config, s: Live, h: Hypothesis)
    requires s.status != Complete
    ensures var end := FinishStep(c, s, h.text, h.pasted);
            end.status == Complete <==>
              s.status == Active && Trim(Join(end.stab.committed)) != "" && (h.pasted || end.proc.emitted == s.proc.emitted)
  {
    var a := AbsorbLast(c, s, h.text);
    AbsorbLastEmits(c, s, h.text);
  }

  /** It is complete at the end exactly when, besides, the transcript is not blank and the
      last text, if any was emitted, was pasted. */
  lemma CompleteIff(c: StreamingText.Config, requested: bool, hs: seq<Hypothesis>, h: Hypothesis, s: Live)
    requires s == Run(c, requested, hs)
    ensures var end := FinishStep(c, s, h.text, h.pasted);
            end.status == Complete <==>
              && requested && NoneFails(c, requested, hs) && Trim(Join(end.stab.committed)) != ""
              && (h.pasted || end.proc.emitted == s.proc.emitted)
  {
    SuspendedIff(c, requested, hs);
    FinishStatus(c, s, h);
  }
}
