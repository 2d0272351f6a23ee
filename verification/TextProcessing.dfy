/** Batch text processing (crates/openwhisper-core/src/processing.rs): normalise for the
    mode, then apply the replacements one after another. */
module TextProcessing {
  import opened Prelude
  import opened Words

  datatype Replacement = Replacement(from: string, to: string)

  // ---- normalisation ----

  /** lines(): split after each newline, dropping the newline and one carriage return before it. */
  function Lines(s: string): seq<string> {
    if s == "" then []
    else
      var n := LineLength(s, '\n');
      if n == |s| then [s]
      else [if n > 0 && s[n - 1] == '\r' then s[..n - 1] else s[..n]] + Lines(s[n + 1..])
  }

  function TrimEndEach(lines: seq<string>): seq<string> {
    if lines == [] then [] else [TrimEnd(lines[0])] + TrimEndEach(lines[1..])
  }

  function JoinLines(lines: seq<string>): string {
    if lines == [] then "" else if |lines| == 1 then lines[0] else lines[0] + "\n" + JoinLines(lines[1..])
  }

  function Normalize(input: string, mode: Mode): string {
    match mode
    case Code => Trim(JoinLines(TrimEndEach(Lines(input))))
    case Raw => Trim(input)
    case Clean => Join(Split(input))
  }

  // ---- replacement ----

  /** str::replace: non-overlapping matches, leftmost first; an empty pattern matches at
      every character boundary. */
  function Replace(s: string, from: string, to: string): string {
    if from == "" then Interleave(s, to)
    else if s == "" then ""
    else if from <= s then to + Replace(s[|from|..], from, to)
    else [s[0]] + Replace(s[1..], from, to)
  }

  function Interleave(s: string, to: string): string {
    if s == "" then to else to + [s[0]] + Interleave(s[1..], to)
  }

  function ReplaceAll(replacements: seq<Replacement>, text: string): string {
    if replacements == [] then text
    else ReplaceAll(replacements[1..], Replace(text, replacements[0].from, replacements[0].to))
  }

  function Process(replacements: seq<Replacement>, input: string, mode: Mode): string {
    ReplaceAll(replacements, Normalize(input, mode))
  }

  // ---- what normalising means ----

  /** Lines with trailing blanks, joined by newlines. */
  function BlankEnded(lines: seq<string>, blanks: seq<string>): seq<string>
    requires |lines| == |blanks|
  {
    seq(|lines|, i requires 0 <= i < |lines| => lines[i] + blanks[i])
  }

  ghost predicate IsLine(s: string) {
    '\n' !in s
  }

  lemma {:induction false} LineLengthIs(s: string, n: nat)
    requires n <= |s| && '\n' !in s[..n] && (n < |s| ==> s[n] == '\n')
    ensures LineLength(s, '\n') == n
  {
    if n > 0 {
      assert s[..n][0] == s[0] && s[1..][..n - 1] == s[..n][1..];
      LineLengthIs(s[1..], n - 1);
    }
  }

  /** A line less its carriage return, as lines() gives it. */
  function Chopped(line: string): string {
    if line != "" && line[|line| - 1] == '\r' then line[..|line| - 1] else line
  }

  lemma FirstLine(line: string, rest: string)
    requires IsLine(line)
    ensures Lines(line + "\n" + rest) == [Chopped(line)] + Lines(rest)
  {
    var s := line + "\n" + rest;
    assert s[..|line|] == line && s[|line|] == '\n' && s[|line| + 1..] == rest;
    LineLengthIs(s, |line|);
    assert line != "" ==> s[|line| - 1] == line[|line| - 1] && s[..|line| - 1] == line[..|line| - 1];
  }

  lemma {:induction false} TrimEndBlank(s: string, blank: string)
    requires IsBlank(blank)
    ensures TrimEnd(s + blank) == TrimEnd(s)
  {
    if blank == "" {
      assert s + blank == s;
    } else {
      var t := s + blank;
      assert IsSpace(t[|t| - 1]) && t[..|t| - 1] == s + blank[..|blank| - 1];
      TrimEndBlank(s, blank[..|blank| - 1]);
    }
  }

  ghost predicate NoBlankEnd(s: string) {
    s == "" || !IsSpace(s[|s| - 1])
  }

  /** In code mode the lines of a text keep their beginnings, indentation included, and lose
      the blanks at their ends; the last line is taken not to be empty. */
  lemma {:induction false} CodeLines(lines: seq<string>, blanks: seq<string>)
    requires |lines| == |blanks| > 0
    requires forall i | 0 <= i < |lines| :: IsLine(lines[i] + blanks[i]) && NoBlankEnd(lines[i]) && IsBlank(blanks[i])
    requires lines[|lines| - 1] + blanks[|lines| - 1] != ""
    ensures TrimEndEach(Lines(JoinLines(BlankEnded(lines, blanks)))) == lines
  {
    var all := BlankEnded(lines, blanks);
    if |lines| == 1 {
      OnlyCodeLine(lines[0], blanks[0]);
      assert all == [lines[0] + blanks[0]];
    } else {
      assert all[1..] == BlankEnded(lines[1..], blanks[1..]);
      CodeLines(lines[1..], blanks[1..]);
      FirstCodeLine(lines[0], blanks[0], JoinLines(all[1..]));
      assert lines == [lines[0]] + lines[1..];
    }
  }

  lemma OnlyCodeLine(line: string, blank: string)
    requires IsLine(line + blank) && NoBlankEnd(line) && IsBlank(blank) && line + blank != ""
    ensures TrimEndEach(Lines(line + blank)) == [line]
  {
    OneLine(line + blank);
    TrimEndBlank(line, blank);
    assert TrimEndEach([line + blank]) == [TrimEnd(line + blank)] + TrimEndEach([]);
  }

  lemma FirstCodeLine(line: string, blank: string, rest: string)
    requires IsLine(line + blank) && NoBlankEnd(line) && IsBlank(blank)
    ensures TrimEndEach(Lines(line + blank + "\n" + rest)) == [line] + TrimEndEach(Lines(rest))
  {
    FirstLine(line + blank, rest);
    TrimEndBlank(line, blank);
    var parts := [Chopped(line + blank)] + Lines(rest);
    assert parts[0] == Chopped(line + blank) && parts[1..] == Lines(rest);
  }

  /** Raw text only loses blanks at its ends. */
  lemma NormalizeRaw(input: string) returns (front: string, back: string)
    ensures IsBlank(front) && IsBlank(back) && input == front + Normalize(input, Raw) + back
    ensures var r := Normalize(input, Raw); r != "" ==> !IsSpace(r[0]) && !IsSpace(r[|r| - 1])
  {
    front, back := TrimSpec(input);
  }

  /** Clean text is its words with single spaces, however they were spaced. */
  lemma NormalizeClean(gaps: seq<string>, ws: seq<string>)
    requires AllWords(ws) && IsSpacing(gaps, |ws|)
    ensures Normalize(Spaced(gaps, ws), Clean) == Join(ws)
  {
    SplitOfSpaced(gaps, ws);
  }

  /** Code keeps its lines, less the blanks that end them and those around the whole. */
  lemma NormalizeCode(lines: seq<string>, blanks: seq<string>)
    requires |lines| == |blanks| > 0
    requires forall i | 0 <= i < |lines| :: IsLine(lines[i] + blanks[i]) && NoBlankEnd(lines[i]) && IsBlank(blanks[i])
    requires lines[|lines| - 1] + blanks[|lines| - 1] != ""
    ensures Normalize(JoinLines(BlankEnded(lines, blanks)), Code) == Trim(JoinLines(lines))
  {
    CodeLines(lines, blanks);
  }

  // ---- what replacing means ----

  /** Pieces with a text between each two. */
  function Weave(pieces: seq<string>, between: string): string
    requires pieces != []
  {
    if |pieces| == 1 then pieces[0] else pieces[0] + between + Weave(pieces[1..], between)
  }

  /** No match starts within the first n characters. */
  ghost predicate NoMatchBefore(s: string, from: string, n: nat) {
    n <= |s| && forall k | 0 <= k < n :: !(from <= s[k..])
  }

  /** Cut at `from`, these pieces are what a leftmost search without overlaps leaves. */
  ghost predicate AreLeftmost(pieces: seq<string>, from: string)
    requires pieces != []
  {
    && NoMatchBefore(Weave(pieces, from), from, |pieces[0]|)
    && (|pieces| > 1 ==> AreLeftmost(pieces[1..], from))
  }

  lemma {:induction false} SkipPiece(p: string, rest: string, from: string, to: string)
    requires from != "" && NoMatchBefore(p + rest, from, |p|)
    ensures Replace(p + rest, from, to) == p + Replace(rest, from, to)
  {
    var s := p + rest;
    if p == "" {
      assert s == rest && p + Replace(rest, from, to) == Replace(rest, from, to);
    } else {
      assert s[0..] == s && s[1..] == p[1..] + rest;
      forall k | 0 <= k < |p| - 1 ensures !(from <= (p[1..] + rest)[k..]) {
        assert (p[1..] + rest)[k..] == s[k + 1..];
      }
      SkipPiece(p[1..], rest, from, to);
      assert p == [p[0]] + p[1..];
      assert [p[0]] + (p[1..] + Replace(rest, from, to)) == p + Replace(rest, from, to);
    }
  }

  /** Replacing turns exactly the matches of the leftmost search into the replacement. */
  lemma {:induction false} ReplaceOfWoven(pieces: seq<string>, from: string, to: string)
    requires pieces != [] && from != "" && AreLeftmost(pieces, from)
    ensures Replace(Weave(pieces, from), from, to) == Weave(pieces, to)
  {
    var p := pieces[0];
    if |pieces| == 1 {
      assert p + "" == p;
      SkipPiece(p, "", from, to);
      assert p + Replace("", from, to) == p;
    } else {
      var rest := Weave(pieces[1..], from);
      assert p + from + rest == p + (from + rest);
      SkipPiece(p, from + rest, from, to);
      ReplaceOfWoven(pieces[1..], from, to);
      assert p + (to + Weave(pieces[1..], to)) == p + to + Weave(pieces[1..], to);
    }
  }

  lemma MorePieces(c: char, pieces: seq<string>, from: string) returns (more: seq<string>)
    requires pieces != [] && AreLeftmost(pieces, from)
    requires !(from <= [c] + Weave(pieces, from))
    ensures more != [] && Weave(more, from) == [c] + Weave(pieces, from) && AreLeftmost(more, from)
  {
    more := [[c] + pieces[0]] + pieces[1..];
    var s, t := Weave(more, from), Weave(pieces, from);
    assert more[1..] == pieces[1..];
    if |pieces| > 1 {
      assert [c] + (pieces[0] + from + Weave(pieces[1..], from)) == [c] + pieces[0] + from + Weave(pieces[1..], from);
    }
    assert s == [c] + t;
    forall k | 0 <= k < |more[0]| ensures !(from <= s[k..]) {
      if k > 0 {
        assert s[k..] == t[k - 1..];
      } else {
        assert s[0..] == s;
      }
    }
  }

  lemma PieceBeforeMatch(rest: seq<string>, from: string) returns (more: seq<string>)
    requires rest != [] && AreLeftmost(rest, from)
    ensures more != [] && Weave(more, from) == from + Weave(rest, from) && AreLeftmost(more, from)
  {
    more := [""] + rest;
    assert more[1..] == rest && "" + from + Weave(rest, from) == from + Weave(rest, from);
  }

  lemma {:induction false} LeftmostPieces(s: string, from: string) returns (pieces: seq<string>)
    requires from != ""
    ensures pieces != [] && AreLeftmost(pieces, from) && s == Weave(pieces, from)
    decreases |s|
  {
    if s == "" {
      pieces := [""];
    } else if from <= s {
      var rest := LeftmostPieces(s[|from|..], from);
      assert s == from + s[|from|..];
      pieces := PieceBeforeMatch(rest, from);
    } else {
      var rest := LeftmostPieces(s[1..], from);
      assert s == [s[0]] + s[1..];
      pieces := MorePieces(s[0], rest, from);
    }
  }

  /** Every text has such pieces, so this says what replacing does to it. */
  lemma ReplaceSubstitutesMatches(s: string, from: string, to: string) returns (pieces: seq<string>)
    requires from != ""
    ensures pieces != [] && AreLeftmost(pieces, from)
    ensures s == Weave(pieces, from) && Replace(s, from, to) == Weave(pieces, to)
  {
    pieces := LeftmostPieces(s, from);
    ReplaceOfWoven(pieces, from, to);
  }

  /** The characters of a text, with an empty piece at either end. */
  function Letters(s: string): seq<string> {
    [""] + seq(|s|, i requires 0 <= i < |s| => [s[i]]) + [""]
  }

  /** An empty pattern puts the replacement before every character and at the end. */
  lemma {:induction false} ReplaceEmptyPattern(s: string, to: string)
    ensures Replace(s, "", to) == Weave(Letters(s), to)
  {
    if s == "" {
      assert Letters(s) == ["", ""] && ["", ""][1..] == [""];
      assert "" + to + "" == to;
    } else {
      ReplaceEmptyPattern(s[1..], to);
      var all, rest := Letters(s), Letters(s[1..]);
      assert all[1..] == [[s[0]]] + rest[1..];
      LettersFirst(s[0], rest, to);
      assert "" + to + Weave(all[1..], to) == to + Weave(all[1..], to);
    }
  }

  lemma LettersFirst(c: char, rest: seq<string>, to: string)
    requires |rest| > 1 && rest[0] == ""
    ensures to + Weave([[c]] + rest[1..], to) == to + [c] + Weave(rest, to)
  {
    assert ([[c]] + rest[1..])[1..] == rest[1..];
    assert "" + to + Weave(rest[1..], to) == to + Weave(rest[1..], to);
    assert to + ([c] + to + Weave(rest[1..], to)) == to + [c] + (to + Weave(rest[1..], to));
  }

  /** All replacements are applied, each to the result of those before it. */
  lemma {:induction false} ReplaceAllInOrder(replacements: seq<Replacement>, r: Replacement, text: string)
    ensures ReplaceAll([], text) == text
    ensures ReplaceAll(replacements + [r], text) == Replace(ReplaceAll(replacements, text), r.from, r.to)
  {
    if replacements == [] {
      assert replacements + [r] == [r] && [r][1..] == [];
    } else {
      var first := replacements[0];
      assert (replacements + [r])[1..] == replacements[1..] + [r];
      ReplaceAllInOrder(replacements[1..], r, Replace(text, first.from, first.to));
    }
  }

  /** Processing normalises first and then replaces in order. */
  lemma ProcessInOrder(replacements: seq<Replacement>, r: Replacement, input: string, mode: Mode)
    ensures Process([], input, mode) == Normalize(input, mode)
    ensures Process(replacements + [r], input, mode) == Replace(Process(replacements, input, mode), r.from, r.to)
  {
    ReplaceAllInOrder(replacements, r, Normalize(input, mode));
  }

  // ---- properties ----

  /** Single-spaced text is already normal in every mode. */
  lemma NormalizeCanonical(ws: seq<string>, mode: Mode)
    requires AllWords(ws)
    ensures Normalize(Join(ws), mode) == Join(ws)
  {
    SplitJoin(ws);
    if ws != [] {
      JoinEnds(ws);
      var s := Join(ws);
      OneLine(s);
      assert TrimEndEach([s]) == [TrimEnd(s)] + TrimEndEach([]) == [s];
    }
  }

  lemma {:induction false} OneLine(s: string)
    requires '\n' !in s && s != ""
    ensures LineLength(s, '\n') == |s| && Lines(s) == [s]
  {
    if |s| > 1 {
      OneLine(s[1..]);
    }
  }

  ghost predicate SpaceFree(replacements: seq<Replacement>) {
    forall i | 0 <= i < |replacements| :: ' ' !in replacements[i].from
  }

  lemma {:induction false} InterleaveDistributes(x: string, y: string, to: string)
    ensures Interleave(x + " " + y, to) == Interleave(x, to) + " " + Interleave(y, to)
  {
    var s := x + " " + y;
    if x == "" {
      assert s[1..] == y;
    } else {
      assert s[1..] == x[1..] + " " + y;
      InterleaveDistributes(x[1..], y, to);
    }
  }

  lemma MatchStopsAtSpace(x: string, y: string, from: string)
    requires ' ' !in from
    ensures from <= x + " " + y ==> |from| <= |x|
  {
    var s := x + " " + y;
    assert s[|x|] == ' ';
    if from <= s {
      assert from == s[..|from|];
    }
  }

  /** In x and y joined by a space, the leftmost search for a pattern finds a match that
      covers the space. */
  predicate Straddles(x: string, y: string, from: string)
    decreases |x|
  {
    if from == "" then false
    else if from <= x + " " + y then |from| > |x| || Straddles(x[|from|..], y, from)
    else x != "" && Straddles(x[1..], y, from)
  }

  lemma {:induction false} SpaceFreeNeverStraddles(x: string, y: string, from: string)
    requires ' ' !in from
    ensures !Straddles(x, y, from)
    decreases |x|
  {
    if from != "" {
      MatchStopsAtSpace(x, y, from);
      if from <= x + " " + y {
        SpaceFreeNeverStraddles(x[|from|..], y, from);
      } else if x != "" {
        SpaceFreeNeverStraddles(x[1..], y, from);
      }
    }
  }

  lemma ReplaceAtMatch(x: string, y: string, from: string, to: string)
    requires from != "" && |from| <= |x| && from <= x + " " + y
    ensures Replace(x + " " + y, from, to) == to + Replace(x[|from|..] + " " + y, from, to)
    ensures Replace(x, from, to) == to + Replace(x[|from|..], from, to)
  {
    var s := x + " " + y;
    assert from == s[..|from|] == x[..|from|];
    assert s[|from|..] == x[|from|..] + " " + y;
  }

  lemma ReplaceElsewhere(x: string, y: string, from: string, to: string)
    requires from != "" && x != "" && !(from <= x + " " + y)
    ensures Replace(x + " " + y, from, to) == [x[0]] + Replace(x[1..] + " " + y, from, to)
    ensures Replace(x, from, to) == [x[0]] + Replace(x[1..], from, to)
  {
    var s := x + " " + y;
    assert x + (" " + y) == s;
    if from <= x {
      PrefixGrows(x, " " + y, from);
    }
    assert s[1..] == x[1..] + " " + y;
  }

  /** Replacing a pattern distributes over a space that no match covers. */
  lemma {:induction false} ReplaceDistributes(x: string, y: string, from: string, to: string)
    requires !Straddles(x, y, from)
    ensures Replace(x + " " + y, from, to) == Replace(x, from, to) + " " + Replace(y, from, to)
    decreases |x|
  {
    if from == "" {
      InterleaveDistributes(x, y, to);
    } else if x == "" {
      assert "" + " " + y == " " + y && "" + " " + Replace(y, from, to) == " " + Replace(y, from, to);
    } else if from <= x + " " + y {
      ReplaceAtMatch(x, y, from, to);
      ReplaceDistributes(x[|from|..], y, from, to);
      Regroup(to, Replace(x[|from|..], from, to), Replace(y, from, to));
    } else {
      ReplaceElsewhere(x, y, from, to);
      ReplaceDistributes(x[1..], y, from, to);
      Regroup([x[0]], Replace(x[1..], from, to), Replace(y, from, to));
    }
  }

  lemma Regroup(a: string, b: string, c: string)
    ensures a + (b + " " + c) == a + b + " " + c
  {}

  lemma PrefixGrows(x: string, rest: string, from: string)
    requires from <= x
    ensures from <= x + rest
  {}

  /** No match of any replacement, each applied to the result of those before, covers the space. */
  predicate NoStraddle(replacements: seq<Replacement>, x: string, y: string) {
    if replacements == [] then true
    else
      var r := replacements[0];
      !Straddles(x, y, r.from) && NoStraddle(replacements[1..], Replace(x, r.from, r.to), Replace(y, r.from, r.to))
  }

  lemma {:induction false} SpaceFreeNoStraddle(replacements: seq<Replacement>, x: string, y: string)
    requires SpaceFree(replacements)
    ensures NoStraddle(replacements, x, y)
  {
    if replacements != [] {
      var r := replacements[0];
      SpaceFreeNeverStraddles(x, y, r.from);
      SpaceFreeNoStraddle(replacements[1..], Replace(x, r.from, r.to), Replace(y, r.from, r.to));
    }
  }

  lemma {:induction false} ReplaceAllDistributes(replacements: seq<Replacement>, x: string, y: string)
    requires NoStraddle(replacements, x, y)
    ensures ReplaceAll(replacements, x + " " + y) == ReplaceAll(replacements, x) + " " + ReplaceAll(replacements, y)
  {
    if replacements != [] {
      var r := replacements[0];
      ReplaceDistributes(x, y, r.from, r.to);
      ReplaceAllDistributes(replacements[1..], Replace(x, r.from, r.to), Replace(y, r.from, r.to));
    }
  }

  /** Text in which a pattern cannot start is left alone. */
  lemma {:induction false} ReplaceAbsent(s: string, from: string, to: string)
    requires from != "" && from[0] !in s
    ensures Replace(s, from, to) == s
  {
    if s != "" {
      ReplaceAbsent(s[1..], from, to);
    }
  }
}
