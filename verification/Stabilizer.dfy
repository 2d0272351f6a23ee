/** TranscriptStabilizer (crates/openwhisper-core/src/streaming.rs): a word is committed
    once two consecutive hypotheses agree on it; committed words are never rewritten. */
module Stabilizer {
  import opened Prelude
  import opened Words

  /** Words in place of the source's joined strings. */
  datatype State = State(committed: seq<string>, previous: seq<string>)

  const FRESH := State([], [])

  /** How many leading words of hypothesis h are taken to be in the committed words c. */
  function Dropped(key: string -> string, c: seq<string>, h: seq<string>): (n: nat)
    ensures n <= |h|
  {
    var shared := Shared(key, c, h);
    var overlap := Overlap(key, c, h);
    if shared > 0 && (shared >= overlap || |h| >= |c|) then
      if |c| <= |h| then |c| else |h|
    else overlap
  }

  /** uncommitted_words: the part of hypothesis h not yet in the committed words c. */
  function Kept(key: string -> string, c: seq<string>, h: seq<string>): seq<string> {
    h[Dropped(key, c, h)..]
  }

  /** Commit, of the hypothesis words from position d on, those the previous hypothesis
      agrees with; keep the others as unstable. */
  function Advance(key: string -> string, s: State, h: seq<string>, d: nat): State
    requires d <= |h|
  {
    var n := Shared(key, s.previous, h[d..]);
    State(s.committed + h[d..d + n], h[d + n..])
  }

  lemma AdvanceIs(key: string -> string, s: State, h: seq<string>, d: nat)
    requires d <= |h|
    ensures var words := h[d..];
            var n := Shared(key, s.previous, words);
            Advance(key, s, h, d) == State(s.committed + words[..n], words[n..])
  {
    var n := Shared(key, s.previous, h[d..]);
    assert h[d..][..n] == h[d..d + n] && h[d..][n..] == h[d + n..];
  }

  function UpdateStep(key: string -> string, s: State, h: seq<string>): State {
    Advance(key, s, h, Dropped(key, s.committed, h))
  }

  function FinishStep(key: string -> string, s: State, h: Option<seq<string>>): State {
    var previous := if h.Some? then Kept(key, s.committed, h.value) else s.previous;
    State(s.committed + previous, [])
  }

  datatype StabilizedUpdate = StabilizedUpdate(committedDelta: string, committed: string, preview: string)

  class TranscriptStabilizer {
    const key: string -> string
    var committedWords: seq<string>
    var previousWords: seq<string>

    function Value(): State
      reads this
    {
      State(committedWords, previousWords)
    }

    constructor (key: string -> string)
      ensures this.key == key && Value() == FRESH
    {
      this.key := key;
      committedWords := [];
      previousWords := [];
    }

    method Update(hypothesis: string) returns (u: StabilizedUpdate)
      modifies this
      ensures Value() == UpdateStep(key, old(Value()), Split(hypothesis))
      ensures Reports(u, old(committedWords))
    {
      var words := Kept(key, committedWords, Split(hypothesis));
      var shared := Shared(key, previousWords, words);
      var delta := words[..shared];
      AdvanceIs(key, Value(), Split(hypothesis), Dropped(key, committedWords, Split(hypothesis)));
      committedWords := committedWords + delta;
      previousWords := words[shared..];
      u := Render(delta);
    }

    method Finish(hypothesis: Option<string>) returns (u: StabilizedUpdate)
      modifies this
      ensures Value() == FinishStep(key, old(Value()),
                if hypothesis.Some? then Some(Split(hypothesis.value)) else None)
      ensures Reports(u, old(committedWords))
    {
      if hypothesis.Some? {
        previousWords := Kept(key, committedWords, Split(hypothesis.value));
      }
      var delta := previousWords;
      previousWords := [];
      committedWords := committedWords + delta;
      u := Render(delta);
    }

    method ResetUnstable()
      modifies this
      ensures Value() == old(Value()).(previous := [])
    {
      previousWords := [];
    }

    /** The update describes the current state and exactly the words added since `before`. */
    ghost predicate Reports(u: StabilizedUpdate, before: seq<string>)
      reads this
    {
      && before <= committedWords
      && u.committedDelta == Join(committedWords[|before|..])
      && u.committed == Join(committedWords)
      && u.preview == Join(previousWords)
    }

    method Render(delta: seq<string>) returns (u: StabilizedUpdate)
      ensures u == StabilizedUpdate(Join(delta), Join(committedWords), Join(previousWords))
    {
      u := StabilizedUpdate(Join(delta), Join(committedWords), Join(previousWords));
    }
  }

  // ---- what a hypothesis adds ----

  ghost predicate Extends(key: string -> string, c: seq<string>, h: seq<string>) {
    |c| <= |h| && Equivalent(key, c, h[..|c|])
  }

  lemma DroppedOfExtension(key: string -> string, c: seq<string>, h: seq<string>)
    requires Extends(key, c, h)
    ensures Dropped(key, c, h) == |c|
  {
    forall i | 0 <= i < |c| ensures key(c[i]) == key(h[i]) {
      assert h[..|c|][i] == h[i];
    }
    SharedIs(key, c, h, |c|);
  }

  /** A hypothesis that does not start like the committed text is appended as the shortest
      bridge: the overlap dropped is as long as possible, and no more is dropped. */
  lemma KeptIsShortestBridge(key: string -> string, c: seq<string>, h: seq<string>)
    requires Shared(key, c, h) == 0
    ensures Bridges(key, c, h, c + Kept(key, c, h))
    ensures forall s | Bridges(key, c, h, s) :: |c + Kept(key, c, h)| <= |s|
  {
    OverlapBridges(key, c, h);
  }

  /** What a hypothesis adds, in every case. It is always the end of the hypothesis. One that
      starts like the committed words and is at least as long keeps their positions: the
      result has its length and its words from there on, whatever it revised before. A
      shorter one adds nothing if it overlaps their end by no more than it shares with their
      start. Any other is appended as the shortest bridge. */
  lemma KeptInEveryCase(key: string -> string, c: seq<string>, h: seq<string>)
    ensures var k := Kept(key, c, h);
            var shared, overlap := Shared(key, c, h), Overlap(key, c, h);
            && IsEnd(h, k)
            && (shared > 0 && |c| <= |h| ==> KeepsPositions(c, h, k))
            && (shared > 0 && |h| < |c| && shared >= overlap ==> k == [])
            && (shared == 0 || (|h| < |c| && shared < overlap) ==> IsShortestBridge(key, c, h, c + k))
  {
    OverlapBridges(key, c, h);
    if |c| <= |h| {
      PositionsFrom(c, h);
    }
  }

  ghost predicate IsEnd(h: seq<string>, k: seq<string>) {
    |k| <= |h| && k == h[|h| - |k|..]
  }

  ghost predicate KeepsPositions(c: seq<string>, h: seq<string>, k: seq<string>) {
    |c + k| == |h| && forall i | |c| <= i < |h| :: (c + k)[i] == h[i]
  }

  lemma PositionsFrom(c: seq<string>, h: seq<string>)
    requires |c| <= |h|
    ensures KeepsPositions(c, h, h[|c|..])
  {}

  /** An update commits, of what its hypothesis adds, the longest beginning that the unstable
      words agree with, and leaves the rest unstable. */
  lemma UpdateCommitsAgreement(key: string -> string, s: State, h: seq<string>)
    ensures var t, k := UpdateStep(key, s, h), Kept(key, s.committed, h);
            var n := |t.committed| - |s.committed|;
            && 0 <= n <= |k| && n <= |s.previous|
            && t.committed == s.committed + k[..n] && t.previous == k[n..]
            && (forall i | 0 <= i < n :: key(s.previous[i]) == key(k[i]))
            && (n < |k| && n < |s.previous| ==> key(s.previous[n]) != key(k[n]))
  {
    AdvanceIs(key, s, h, Dropped(key, s.committed, h));
    SharedSpec(key, s.previous, Kept(key, s.committed, h));
  }

  /** Committing part of what a hypothesis adds leaves exactly the rest to be added when the
      same hypothesis is seen again, whichever of the three interpretations applied. */
  lemma DroppedAfterCommit(key: string -> string, c: seq<string>, h: seq<string>, n: nat)
    requires Dropped(key, c, h) + n <= |h|
    ensures var d := Dropped(key, c, h); Dropped(key, c + h[d..d + n], h) == d + n
  {
    var d := Dropped(key, c, h);
    var e := h[d..d + n];
    if c == [] {
      assert c + e == h[..n];
    } else if Shared(key, c, h) == 0 {
      OverlapAfterCommit(key, c, h, n);
    } else if |h| < |c| && Shared(key, c, h) < Overlap(key, c, h) {
      OverlapAfterCommit(key, c, h, n);
      SharedIgnoresTail(key, c, e, h);
    } else if |h| < |c| {
      assert c + e == c;
    } else {
      assert (c + e)[0] == c[0];
    }
  }

  lemma {:induction false} SharedIgnoresTail(key: string -> string, c: seq<string>, e: seq<string>, h: seq<string>)
    requires |h| <= |c|
    ensures Shared(key, c + e, h) == Shared(key, c, h)
  {
    if h != [] {
      assert (c + e)[1..] == c[1..] + e;
      SharedIgnoresTail(key, c[1..], e, h[1..]);
    }
  }

  lemma OverlapAfterCommit(key: string -> string, c: seq<string>, h: seq<string>, n: nat)
    requires Overlap(key, c, h) + n <= |h|
    ensures var o := Overlap(key, c, h); Overlap(key, c + h[o..o + n], h) == o + n
  {
    var o := Overlap(key, c, h);
    OverlapSpec(key, c, h);
    var c' := c + h[o..o + n];
    forall k: nat | Overlaps(key, c', h, k) ensures k <= o + n {
      if k > o + n {
        OverlapShrinks(key, c, h[o..o + n], h, k);
      }
    }
    OverlapIs(key, c', h, o + n);
  }

  lemma OverlapShrinks(key: string -> string, c: seq<string>, e: seq<string>, h: seq<string>, k: nat)
    requires Overlaps(key, c + e, h, k) && |e| <= k
    ensures Overlaps(key, c, h, k - |e|)
  {
    forall i | 0 <= i < k - |e| ensures key(c[|c| - (k - |e|) + i]) == key(h[i]) {
      assert (c + e)[|c + e| - k + i] == c[|c| - (k - |e|) + i];
    }
  }

  lemma AdvanceAgain(key: string -> string, s: State, h: seq<string>, d: nat, n: nat)
    requires d <= |h| && n == Shared(key, s.previous, h[d..])
    ensures Advance(key, Advance(key, s, h, d), h, d + n) == State(s.committed + h[d..], [])
  {
    AdvanceIs(key, s, h, d);
    Rejoin(s.committed, h, d, n);
    AdvanceOverPrevious(key, Advance(key, s, h, d), h, d + n);
  }

  lemma Rejoin(c: seq<string>, h: seq<string>, d: nat, n: nat)
    requires d + n <= |h|
    ensures h[d..][n..] == h[d + n..] && c + h[d..][..n] + h[d + n..] == c + h[d..]
  {}

  lemma AdvanceOverPrevious(key: string -> string, s: State, h: seq<string>, d: nat)
    requires d <= |h| && h[d..] == s.previous
    ensures Advance(key, s, h, d) == State(s.committed + s.previous, [])
  {
    var p := s.previous;
    AdvanceIs(key, s, h, d);
    SharedIs(key, p, p, |p|);
    assert p[..|p|] == p && p[|p|..] == [];
  }

  lemma UpdateAgain(key: string -> string, s: State, h: seq<string>)
    ensures UpdateStep(key, UpdateStep(key, s, h), h) == State(s.committed + Kept(key, s.committed, h), [])
  {
    var d := Dropped(key, s.committed, h);
    var n := Shared(key, s.previous, h[d..]);
    var t := Advance(key, s, h, d);
    assert t.committed == s.committed + h[d..d + n];
    DroppedAfterCommit(key, s.committed, h, n);
    AdvanceAgain(key, s, h, d, n);
    assert UpdateStep(key, t, h) == Advance(key, t, h, d + n);
  }

  /** Whatever was committed before, a hypothesis seen twice in a row is committed once, and
      seeing it again, as after a worker crash, changes nothing. */
  lemma ReplayNeverDuplicates(key: string -> string, s: State, h: seq<string>)
    ensures var t := UpdateStep(key, UpdateStep(key, s, h), h);
            && t == State(s.committed + Kept(key, s.committed, h), [])
            && UpdateStep(key, t, h) == t
            && FinishStep(key, t, Some(h)) == t
            && FinishStep(key, s, Some(h)) == t
  {
    UpdateAgain(key, s, h);
    AllDropped(key, s.committed, h);
  }

  lemma AllDropped(key: string -> string, c: seq<string>, h: seq<string>)
    ensures Dropped(key, c + Kept(key, c, h), h) == |h|
  {
    var d := Dropped(key, c, h);
    assert h[d..d + (|h| - d)] == h[d..];
    DroppedAfterCommit(key, c, h, |h| - d);
  }

  // ---- agreement of two hypotheses ----

  ghost predicate AgreeUpTo(key: string -> string, a: seq<string>, b: seq<string>, n: nat) {
    n <= |a| && n <= |b| && forall i | 0 <= i < n :: key(a[i]) == key(b[i])
  }

  lemma SharedBeyond(key: string -> string, a: seq<string>, b: seq<string>, n: nat)
    requires AgreeUpTo(key, a, b, n)
    ensures Shared(key, a, b) == n + Shared(key, a[n..], b[n..])
    ensures AgreeUpTo(key, a, b, n + Shared(key, a[n..], b[n..]))
  {
    if n > 0 {
      assert a[1..][n - 1..] == a[n..] && b[1..][n - 1..] == b[n..];
      SharedBeyond(key, a[1..], b[1..], n - 1);
    }
    SharedSpec(key, a, b);
  }

  /** When both hypotheses continue the committed words, the committed words become the
      longest common prefix of the two, spelled as in the newer one past the old commit. */
  lemma {:induction false} AgreementIsCommonPrefix(key: string -> string, s: State, h0: seq<string>, h1: seq<string>)
    requires Extends(key, s.committed, h0)
    requires Extends(key, UpdateStep(key, s, h0).committed, h1)
    ensures var c1 := UpdateStep(key, s, h0).committed;
            var c2 := UpdateStep(key, UpdateStep(key, s, h0), h1).committed;
            |c1| <= Shared(key, h0, h1) && c2 == c1 + h1[|c1|..Shared(key, h0, h1)]
  {
    DroppedOfExtension(key, s.committed, h0);
    var s1 := UpdateStep(key, s, h0);
    CommitStaysExtension(key, s.committed, h0, |s1.committed| - |s.committed|);
    CommitToCommonPrefix(key, s1, h0, h1);
  }

  lemma CommitToCommonPrefix(key: string -> string, s: State, h0: seq<string>, h1: seq<string>)
    requires Extends(key, s.committed, h0) && Extends(key, s.committed, h1)
    requires s.previous == h0[|s.committed|..]
    ensures var n := Shared(key, h0, h1);
            |s.committed| <= n && UpdateStep(key, s, h1).committed == s.committed + h1[|s.committed|..n]
  {
    var m := |s.committed|;
    DroppedOfExtension(key, s.committed, h1);
    forall i | 0 <= i < m ensures key(h0[i]) == key(h1[i]) {
      assert h0[..m][i] == h0[i] && h1[..m][i] == h1[i];
    }
    SharedBeyond(key, h0, h1, m);
  }

  lemma CommitStaysExtension(key: string -> string, c: seq<string>, h: seq<string>, n: nat)
    requires Extends(key, c, h) && |c| + n <= |h|
    ensures Extends(key, c + h[|c|..|c| + n], h)
  {
    var c' := c + h[|c|..|c| + n];
    forall i | 0 <= i < |c'| ensures key(c'[i]) == key(h[..|c'|][i]) {
      if i < |c| {
        assert h[..|c|][i] == h[i];
      }
    }
  }

  function UpdateAll(key: string -> string, hs: seq<seq<string>>): State {
    if hs == [] then FRESH else UpdateStep(key, UpdateAll(key, hs[..|hs| - 1]), hs[|hs| - 1])
  }

  /** The committed words are those of g, spelled as they were seen, and the rest of h is unstable. */
  ghost predicate Lags(key: string -> string, s: State, g: seq<string>, h: seq<string>) {
    Equivalent(key, s.committed, g) && |s.committed| <= |h| && s.previous == h[|s.committed|..]
  }

  /** Hypotheses that only ever grow are committed with exactly one step of lag. */
  lemma {:induction false} GrowingHypothesesLagOneStep(key: string -> string, hs: seq<seq<string>>)
    requires hs != []
    requires forall i | 0 < i < |hs| :: Extends(key, hs[i - 1], hs[i])
    ensures Lags(key, UpdateAll(key, hs), if |hs| == 1 then [] else hs[|hs| - 2], hs[|hs| - 1])
  {
    var n := |hs| - 1;
    var init := hs[..n];
    if n == 0 {
      assert init == [] && UpdateAll(key, hs) == UpdateStep(key, FRESH, hs[0]);
      GrowingStep(key, FRESH, [], [], hs[0]);
    } else {
      GrowingHypothesesLagOneStep(key, init);
      assert init[n - 1] == hs[n - 1] && Extends(key, hs[n - 1], hs[n]);
      if n > 1 {
        assert init[n - 2] == hs[n - 2] && Extends(key, hs[n - 2], hs[n - 1]);
        GrowingStep(key, UpdateAll(key, init), hs[n - 2], hs[n - 1], hs[n]);
      } else {
        GrowingStep(key, UpdateAll(key, init), [], hs[0], hs[1]);
      }
    }
  }

  lemma GrowingStep(key: string -> string, s: State, g: seq<string>, h0: seq<string>, h1: seq<string>)
    requires Extends(key, g, h0) && Extends(key, h0, h1) && Lags(key, s, g, h0)
    ensures Lags(key, UpdateStep(key, s, h1), h0, h1)
  {
    var c := s.committed;
    forall i | 0 <= i < |h0| ensures key(h0[i]) == key(h1[i]) {
      assert h1[..|h0|][i] == h1[i];
    }
    forall i | 0 <= i < |c| ensures key(c[i]) == key(h0[i]) == key(h1[..|c|][i]) {
      assert h0[..|g|][i] == h0[i];
    }
    DroppedOfExtension(key, c, h1);
    SharedIs(key, h0[|c|..], h1[|c|..], |h0| - |c|);
  }

  // ---- whole runs ----

  datatype Op = UpdateOp(h: seq<string>) | FinishOp(last: Option<seq<string>>) | ResetOp

  function Apply(key: string -> string, s: State, op: Op): State {
    match op
    case UpdateOp(h) => UpdateStep(key, s, h)
    case FinishOp(last) => FinishStep(key, s, last)
    case ResetOp => s.(previous := [])
  }

  function Run(key: string -> string, ops: seq<Op>): State {
    if ops == [] then FRESH else Apply(key, Run(key, ops[..|ops| - 1]), ops[|ops| - 1])
  }

  /** The words each operation reports as its delta, concatenated. */
  function Deltas(key: string -> string, ops: seq<Op>): seq<string> {
    if ops == [] then []
    else
      var before, after := Run(key, ops[..|ops| - 1]), Run(key, ops);
      Deltas(key, ops[..|ops| - 1]) +
      if |before.committed| <= |after.committed| then after.committed[|before.committed|..] else []
  }

  /** Committed words are append-only and are exactly the concatenated deltas. */
  lemma {:induction false} CommitsAreTheDeltas(key: string -> string, ops: seq<Op>, n: nat)
    requires n <= |ops|
    ensures Run(key, ops).committed == Deltas(key, ops)
    ensures Run(key, ops[..n]).committed <= Run(key, ops).committed
  {
    if ops != [] {
      var init := ops[..|ops| - 1];
      assert Run(key, init).committed <= Run(key, ops).committed;
      CommitsAreTheDeltas(key, init, if n < |ops| then n else 0);
      if n < |ops| {
        assert ops[..n] == init[..n];
      } else {
        assert ops[..n] == ops;
      }
    }
  }

  /** In every run, two hypotheses that start like the committed words and are no shorter
      commit exactly the words past them on which the two agree, at the same positions, even
      if they revise words already committed; those are never rewritten. */
  lemma RevisionsKeepPositions(key: string -> string, ops: seq<Op>, h0: seq<string>, h1: seq<string>)
    requires var c := Run(key, ops).committed; Shared(key, c, h0) > 0 && |c| <= |h0|
    requires var c1 := Run(key, ops + [UpdateOp(h0)]).committed; Shared(key, c1, h1) > 0 && |c1| <= |h1|
    ensures var c, c1 := Run(key, ops).committed, Run(key, ops + [UpdateOp(h0)]).committed;
            var c2 := Run(key, ops + [UpdateOp(h0)] + [UpdateOp(h1)]).committed;
            && c <= c1 <= c2 && |c1| <= |h0| && |c2| <= |h0| && |c2| <= |h1|
            && (forall i | |c| <= i < |c1| :: c1[i] == h0[i])
            && (forall i | |c1| <= i < |c2| :: c2[i] == h1[i] && key(h0[i]) == key(h1[i]))
            && (|c2| < |h0| && |c2| < |h1| ==> key(h0[|c2|]) != key(h1[|c2|]))
  {
    var s := Run(key, ops);
    assert (ops + [UpdateOp(h0)])[..|ops|] == ops;
    assert (ops + [UpdateOp(h0)] + [UpdateOp(h1)])[..|ops| + 1] == ops + [UpdateOp(h0)];
    TwoRevisions(key, s, h0, h1);
  }

  lemma TwoRevisions(key: string -> string, s: State, h0: seq<string>, h1: seq<string>)
    requires Shared(key, s.committed, h0) > 0 && |s.committed| <= |h0|
    requires var c1 := UpdateStep(key, s, h0).committed; Shared(key, c1, h1) > 0 && |c1| <= |h1|
    ensures var c, c1 := s.committed, UpdateStep(key, s, h0).committed;
            var c2 := UpdateStep(key, UpdateStep(key, s, h0), h1).committed;
            && c <= c1 <= c2 && |c1| <= |h0| && |c2| <= |h0| && |c2| <= |h1|
            && (forall i | |c| <= i < |c1| :: c1[i] == h0[i])
            && (forall i | |c1| <= i < |c2| :: c2[i] == h1[i] && key(h0[i]) == key(h1[i]))
            && (|c2| < |h0| && |c2| < |h1| ==> key(h0[|c2|]) != key(h1[|c2|]))
  {
    var s1 := UpdateStep(key, s, h0);
    RevisionStep(key, s, h0);
    RevisionStep(key, s1, h1);
    AgreedPositions(key, s.committed, s1, UpdateStep(key, s1, h1), h0, h1);
  }

  lemma RevisionStep(key: string -> string, s: State, h: seq<string>)
    requires Shared(key, s.committed, h) > 0 && |s.committed| <= |h|
    ensures var t := UpdateStep(key, s, h);
            var k := h[|s.committed|..];
            var n := |t.committed| - |s.committed|;
            && 0 <= n <= |k| && n <= |s.previous|
            && t.committed == s.committed + k[..n]
            && t.committed == s.committed + h[|s.committed|..|t.committed|] && t.previous == h[|t.committed|..]
            && (forall i | 0 <= i < n :: key(s.previous[i]) == key(k[i]))
            && (n < |k| && n < |s.previous| ==> key(s.previous[n]) != key(k[n]))
  {
    UpdateCommitsAgreement(key, s, h);
    assert Kept(key, s.committed, h) == h[|s.committed|..];
    var n := |UpdateStep(key, s, h).committed| - |s.committed|;
  }

  lemma AgreedPositions(key: string -> string, c: seq<string>, s1: State, s2: State, h0: seq<string>, h1: seq<string>)
    requires |c| <= |s1.committed| <= |h0| && |s1.committed| <= |h1|
    requires s1.committed == c + h0[|c|..|s1.committed|] && s1.previous == h0[|s1.committed|..]
    requires var n := |s2.committed| - |s1.committed|;
             var k := h1[|s1.committed|..];
             && 0 <= n <= |k| && n <= |s1.previous| && s2.committed == s1.committed + k[..n]
             && (forall i | 0 <= i < n :: key(s1.previous[i]) == key(k[i]))
             && (n < |k| && n < |s1.previous| ==> key(s1.previous[n]) != key(k[n]))
    ensures forall i | |c| <= i < |s1.committed| :: s1.committed[i] == h0[i]
    ensures forall i | |s1.committed| <= i < |s2.committed| :: s2.committed[i] == h1[i] && key(h0[i]) == key(h1[i])
    ensures |s2.committed| < |h0| && |s2.committed| < |h1| ==> key(h0[|s2.committed|]) != key(h1[|s2.committed|])
  {
    var m := |s1.committed|;
    forall i | m <= i < |s2.committed| ensures s2.committed[i] == h1[i] && key(h0[i]) == key(h1[i]) {
      assert key(s1.previous[i - m]) == key(h1[m..][i - m]);
    }
  }

  /** Finishing without a hypothesis commits the words last previewed. */
  lemma FinishCommitsThePreview(key: string -> string, ops: seq<Op>)
    ensures var s, t := Run(key, ops), Run(key, ops + [FinishOp(None)]);
            t == State(s.committed + s.previous, [])
  {
    assert (ops + [FinishOp(None)])[..|ops|] == ops;
  }

  /** Resetting drops the unstable words, so that nothing is committed on the next update. */
  lemma NothingAgreesAfterReset(key: string -> string, ops: seq<Op>, h: seq<string>)
    ensures var s := Run(key, ops);
            && Run(key, ops + [ResetOp]) == State(s.committed, [])
            && Run(key, ops + [ResetOp] + [UpdateOp(h)]).committed == s.committed
  {
    var s := Run(key, ops);
    assert (ops + [ResetOp])[..|ops|] == ops;
    assert (ops + [ResetOp] + [UpdateOp(h)])[..|ops| + 1] == ops + [ResetOp];
    UpdateCommitsAgreement(key, State(s.committed, []), h);
    assert s.committed + Kept(key, s.committed, h)[..0] == s.committed;
  }

  function LastHypothesis(ops: seq<Op>): seq<string> {
    if ops != [] && ops[|ops| - 1].UpdateOp? then ops[|ops| - 1].h else []
  }

  lemma PreviousIsSuffixOfLastHypothesis(key: string -> string, ops: seq<Op>)
    ensures exists j: nat :: j <= |LastHypothesis(ops)| && Run(key, ops).previous == LastHypothesis(ops)[j..]
  {
    var g := LastHypothesis(ops);
    assert g[|g|..] == [];
  }

  ghost predicate SeenInBoth(key: string -> string, delta: seq<string>, g: seq<string>, h: seq<string>, i: nat, j: nat) {
    && i + |delta| <= |h| && j + |delta| <= |g|
    && delta == h[i..i + |delta|] && Equivalent(key, delta, g[j..j + |delta|])
  }

  lemma AdvanceSeenInBoth(key: string -> string, s: State, g: seq<string>, j: nat, h: seq<string>, d: nat)
    requires j <= |g| && s.previous == g[j..] && d <= |h|
    ensures var after := Advance(key, s, h, d).committed;
            s.committed <= after && SeenInBoth(key, after[|s.committed|..], g, h, d, j)
  {
    var words := h[d..];
    var n := Shared(key, s.previous, words);
    SharedSpec(key, s.previous, words);
    AdvanceIs(key, s, h, d);
    assert (s.committed + words[..n])[|s.committed|..] == words[..n];
    assert h[d..d + n] == words[..n];
    forall k | 0 <= k < n ensures key(words[..n][k]) == key(g[j..j + n][k]) {
      assert s.previous[k] == g[j + k];
    }
  }

  /** In every run, what an update commits is a block of the current hypothesis that the
      hypothesis immediately before also contained, word for word modulo equivalence. */
  lemma CommittedOnlyIfSeenTwice(key: string -> string, ops: seq<Op>, h: seq<string>)
    ensures var before := Run(key, ops).committed;
            var after := Run(key, ops + [UpdateOp(h)]).committed;
            && before <= after
            && exists i, j :: SeenInBoth(key, after[|before|..], LastHypothesis(ops), h, i, j)
  {
    PreviousIsSuffixOfLastHypothesis(key, ops);
    var s := Run(key, ops);
    assert (ops + [UpdateOp(h)])[..|ops|] == ops;
    var j: nat :| j <= |LastHypothesis(ops)| && s.previous == LastHypothesis(ops)[j..];
    AdvanceSeenInBoth(key, s, LastHypothesis(ops), j, h, Dropped(key, s.committed, h));
  }

  /** Flushing with a hypothesis that continues the committed words leaves them equivalent
      to that hypothesis. */
  lemma FinishCompletesTheHypothesis(key: string -> string, s: State, h: seq<string>)
    requires Extends(key, s.committed, h)
    ensures Equivalent(key, FinishStep(key, s, Some(h)).committed, h)
  {
    DroppedOfExtension(key, s.committed, h);
    assert h[|s.committed|..|h|] == h[|s.committed|..] && h[..|h|] == h;
    CommitStaysExtension(key, s.committed, h, |h| - |s.committed|);
  }
}
