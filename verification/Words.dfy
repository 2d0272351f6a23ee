/** Whitespace-separated text, and comparison of words modulo case and punctuation.

    Words are compared through a `key` function (the source trims non-alphanumeric
    characters and lower-cases); every result here holds for an arbitrary key. */
module Words {

  /** The characters with the Unicode property White_Space. */
  predicate IsSpace(c: char) {
    || '\t' <= c <= '\r' || c == ' ' || c == '\U{85}' || c == '\U{A0}' || c == '\U{1680}'
    || '\U{2000}' <= c <= '\U{200A}' || c == '\U{2028}' || c == '\U{2029}'
    || c == '\U{202F}' || c == '\U{205F}' || c == '\U{3000}'
  }

  predicate IsWord(w: string) {
    w != [] && forall i | 0 <= i < |w| :: !IsSpace(w[i])
  }

  predicate AllWords(ws: seq<string>) {
    forall i | 0 <= i < |ws| :: IsWord(ws[i])
  }

  predicate IsBlank(s: string) {
    forall i | 0 <= i < |s| :: IsSpace(s[i])
  }

  function TrimStart(s: string): (r: string)
    ensures |r| <= |s| && (r != [] ==> !IsSpace(r[0]))
  {
    if s != [] && IsSpace(s[0]) then TrimStart(s[1..]) else s
  }

  function TrimEnd(s: string): (r: string)
    ensures r <= s && (r != [] ==> !IsSpace(r[|r| - 1]))
  {
    if s != [] && IsSpace(s[|s| - 1]) then TrimEnd(s[..|s| - 1]) else s
  }

  function Trim(s: string): string {
    TrimEnd(TrimStart(s))
  }

  function WordLength(s: string): (n: nat)
    ensures n <= |s|
    ensures forall i | 0 <= i < n :: !IsSpace(s[i])
    ensures n < |s| ==> IsSpace(s[n])
  {
    if s == [] || IsSpace(s[0]) then 0 else 1 + WordLength(s[1..])
  }

  /** split_whitespace */
  function Split(s: string): (ws: seq<string>)
    ensures AllWords(ws)
    decreases |s|
  {
    var t := TrimStart(s);
    if t == [] then []
    else
      var n := WordLength(t);
      [t[..n]] + Split(t[n..])
  }

  /** join(" ") */
  function Join(ws: seq<string>): string {
    if ws == [] then ""
    else if |ws| == 1 then ws[0]
    else ws[0] + " " + Join(ws[1..])
  }

  /** Text whose words are separated by single spaces, with none at either end. */
  predicate Canonical(s: string) {
    Join(Split(s)) == s
  }

  lemma {:induction false} JoinAppend(a: seq<string>, b: seq<string>)
    requires a != [] && b != []
    ensures Join(a + b) == Join(a) + " " + Join(b)
  {
    if |a| == 1 {
      assert (a + b)[1..] == b;
    } else {
      assert (a + b)[1..] == a[1..] + b;
      JoinAppend(a[1..], b);
    }
  }

  lemma {:induction false} WordLengthOfWord(w: string, rest: string)
    requires IsWord(w) && (rest == [] || IsSpace(rest[0]))
    ensures WordLength(w + rest) == |w|
  {
    if |w| > 1 {
      assert (w + rest)[1..] == w[1..] + rest;
      WordLengthOfWord(w[1..], rest);
    } else {
      assert (w + rest)[1..] == rest;
    }
  }

  /** Splitting undoes joining. */
  lemma {:induction false} SplitJoin(ws: seq<string>)
    requires AllWords(ws)
    ensures Split(Join(ws)) == ws
    ensures Canonical(Join(ws))
  {
    if |ws| == 1 {
      WordLengthOfWord(ws[0], "");
      assert ws[0] + "" == ws[0];
    } else if |ws| > 1 {
      var rest := " " + Join(ws[1..]);
      var s := ws[0] + rest;
      assert Join(ws) == s;
      WordLengthOfWord(ws[0], rest);
      assert TrimStart(s) == s;
      assert s[|ws[0]|..] == rest && s[..|ws[0]|] == ws[0];
      SplitJoin(ws[1..]);
      assert rest[1..] == Join(ws[1..]);
      assert TrimStart(rest) == TrimStart(rest[1..]);
      assert Split(rest) == Split(rest[1..]) == ws[1..];
      assert [ws[0]] + ws[1..] == ws;
    }
  }

  lemma {:induction false} JoinEnds(ws: seq<string>)
    requires AllWords(ws) && ws != []
    ensures Join(ws) != [] && !IsSpace(Join(ws)[0]) && !IsSpace(Join(ws)[|Join(ws)| - 1])
    ensures Trim(Join(ws)) == Join(ws)
    ensures '\n' !in Join(ws)
  {
    if |ws| > 1 {
      JoinEnds(ws[1..]);
    }
  }

  // ---- what splitting and trimming mean for any text ----

  /** Words with gaps before, between and after them. */
  function Spaced(gaps: seq<string>, ws: seq<string>): string
    requires |gaps| == |ws| + 1
  {
    if ws == [] then gaps[0] else gaps[0] + ws[0] + Spaced(gaps[1..], ws[1..])
  }

  /** Gaps are blank, and not empty between words. */
  ghost predicate IsSpacing(gaps: seq<string>, n: nat) {
    && |gaps| == n + 1
    && (forall i | 0 <= i <= n :: IsBlank(gaps[i]))
    && (forall i | 0 < i < n :: gaps[i] != "")
  }

  lemma {:induction false} TrimBlank(blank: string, rest: string)
    requires IsBlank(blank)
    ensures TrimStart(blank + rest) == TrimStart(rest)
  {
    if blank == "" {
      assert blank + rest == rest;
    } else {
      assert IsSpace(blank[0]) && (blank + rest)[1..] == blank[1..] + rest;
      TrimBlank(blank[1..], rest);
    }
  }

  lemma SplitAfterGap(gap: string, w: string, rest: string)
    requires IsBlank(gap) && IsWord(w) && (rest == "" || IsSpace(rest[0]))
    ensures Split(gap + w + rest) == [w] + Split(rest)
  {
    var t := w + rest;
    assert gap + w + rest == gap + t && t[0] == w[0];
    TrimBlank(gap, t);
    WordLengthOfWord(w, rest);
    assert t[..|w|] == w && t[|w|..] == rest;
  }

  lemma SplitBlank(gap: string)
    requires IsBlank(gap)
    ensures Split(gap) == []
  {
    TrimBlank(gap, "");
    assert gap + "" == gap;
  }

  /** However they are spaced, splitting a text gives its words. */
  lemma {:induction false} SplitOfSpaced(gaps: seq<string>, ws: seq<string>)
    requires AllWords(ws) && IsSpacing(gaps, |ws|)
    ensures Split(Spaced(gaps, ws)) == ws
  {
    if ws == [] {
      SplitBlank(gaps[0]);
    } else {
      var rest := Spaced(gaps[1..], ws[1..]);
      assert |ws| > 1 ==> gaps[1] != "" && rest[0] == gaps[1][0];
      assert |ws| == 1 ==> rest == gaps[1];
      SplitAfterGap(gaps[0], ws[0], rest);
      SplitOfSpaced(gaps[1..], ws[1..]);
      assert [ws[0]] + ws[1..] == ws;
    }
  }

  lemma {:induction false} BlankBeforeTrim(s: string) returns (blank: string)
    ensures IsBlank(blank) && s == blank + TrimStart(s)
  {
    if s != "" && IsSpace(s[0]) {
      blank := BlankBeforeTrim(s[1..]);
      assert s == [s[0]] + s[1..];
      blank := [s[0]] + blank;
    } else {
      blank := "";
    }
  }

  lemma {:induction false} BlankAfterTrim(s: string) returns (blank: string)
    ensures IsBlank(blank) && s == TrimEnd(s) + blank
  {
    if s != "" && IsSpace(s[|s| - 1]) {
      blank := BlankAfterTrim(s[..|s| - 1]);
      assert s == s[..|s| - 1] + [s[|s| - 1]];
      blank := blank + [s[|s| - 1]];
    } else {
      blank := "";
    }
  }

  lemma SpaceOut(gap: string, w: string, rest: string, gaps: seq<string>)
    requires IsBlank(gap) && IsWord(w) && (rest == "" || IsSpace(rest[0]))
    requires IsSpacing(gaps, |Split(rest)|) && Spaced(gaps, Split(rest)) == rest
    ensures var s := gap + w + rest;
            IsSpacing([gap] + gaps, |Split(s)|) && Spaced([gap] + gaps, Split(s)) == s
  {
    SplitAfterGap(gap, w, rest);
  }

  /** Every text is its words with some spacing. */
  lemma {:induction false} EveryTextIsSpaced(s: string) returns (gaps: seq<string>)
    ensures IsSpacing(gaps, |Split(s)|) && Spaced(gaps, Split(s)) == s
    decreases |s|
  {
    var gap := BlankBeforeTrim(s);
    var t := TrimStart(s);
    if t == "" {
      gaps := [gap];
      assert s == gap;
    } else {
      var n := WordLength(t);
      gaps := EveryTextIsSpaced(t[n..]);
      assert s == gap + t[..n] + t[n..];
      SpaceOut(gap, t[..n], t[n..], gaps);
      gaps := [gap] + gaps;
    }
  }

  /** Trimming removes blank ends and nothing more. */
  lemma TrimSpec(s: string) returns (front: string, back: string)
    ensures IsBlank(front) && IsBlank(back) && s == front + Trim(s) + back
    ensures Trim(s) != "" ==> !IsSpace(Trim(s)[0]) && !IsSpace(Trim(s)[|Trim(s)| - 1])
  {
    front := BlankBeforeTrim(s);
    back := BlankAfterTrim(TrimStart(s));
    assert front + (Trim(s) + back) == front + Trim(s) + back;
  }

  // ---- comparison of word sequences through a key ----

  ghost predicate Equivalent(key: string -> string, a: seq<string>, b: seq<string>) {
    |a| == |b| && forall i | 0 <= i < |a| :: key(a[i]) == key(b[i])
  }

  /** Length of the longest common prefix modulo equivalence. */
  function Shared(key: string -> string, a: seq<string>, b: seq<string>): (n: nat)
    ensures n <= |a| && n <= |b|
  {
    if a == [] || b == [] || key(a[0]) != key(b[0]) then 0
    else 1 + Shared(key, a[1..], b[1..])
  }

  /** Whether the last n words of a match the first n words of b. */
  predicate Overlaps(key: string -> string, a: seq<string>, b: seq<string>, n: nat) {
    n <= |a| && n <= |b| && forall i | 0 <= i < n :: key(a[|a| - n + i]) == key(b[i])
  }

  /** The largest such n not above `limit`, searched downwards. */
  function OverlapUpTo(key: string -> string, a: seq<string>, b: seq<string>, limit: nat): (n: nat)
    ensures n <= limit
  {
    if limit == 0 || Overlaps(key, a, b, limit) then limit
    else OverlapUpTo(key, a, b, limit - 1)
  }

  function Overlap(key: string -> string, a: seq<string>, b: seq<string>): (n: nat)
    ensures n <= |a| && n <= |b|
  {
    OverlapUpTo(key, a, b, if |a| <= |b| then |a| else |b|)
  }

  lemma {:induction false} SharedSpec(key: string -> string, a: seq<string>, b: seq<string>)
    ensures var n := Shared(key, a, b);
            && (forall i | 0 <= i < n :: key(a[i]) == key(b[i]))
            && (n < |a| && n < |b| ==> key(a[n]) != key(b[n]))
  {
    if a != [] && b != [] && key(a[0]) == key(b[0]) {
      SharedSpec(key, a[1..], b[1..]);
      var n := Shared(key, a, b);
      forall i | 0 <= i < n ensures key(a[i]) == key(b[i]) {
        if i > 0 {
          assert a[i] == a[1..][i - 1] && b[i] == b[1..][i - 1];
        }
      }
    }
  }

  lemma {:induction false} SharedIs(key: string -> string, a: seq<string>, b: seq<string>, n: nat)
    requires n <= |a| && n <= |b|
    requires forall i | 0 <= i < n :: key(a[i]) == key(b[i])
    requires n < |a| && n < |b| ==> key(a[n]) != key(b[n])
    ensures Shared(key, a, b) == n
  {
    if n > 0 {
      SharedIs(key, a[1..], b[1..], n - 1);
    }
  }

  lemma {:induction false} OverlapUpToSpec(key: string -> string, a: seq<string>, b: seq<string>, limit: nat)
    ensures var n := OverlapUpTo(key, a, b, limit);
            && (n > 0 ==> Overlaps(key, a, b, n))
            && (forall k: nat | n < k <= limit :: !Overlaps(key, a, b, k))
  {
    if limit > 0 && !Overlaps(key, a, b, limit) {
      OverlapUpToSpec(key, a, b, limit - 1);
    }
  }

  lemma OverlapSpec(key: string -> string, a: seq<string>, b: seq<string>)
    ensures Overlaps(key, a, b, Overlap(key, a, b))
    ensures forall k: nat | Overlaps(key, a, b, k) :: k <= Overlap(key, a, b)
  {
    OverlapUpToSpec(key, a, b, if |a| <= |b| then |a| else |b|);
  }

  lemma OverlapIs(key: string -> string, a: seq<string>, b: seq<string>, n: nat)
    requires Overlaps(key, a, b, n)
    requires forall k: nat | Overlaps(key, a, b, k) :: k <= n
    ensures Overlap(key, a, b) == n
  {
    OverlapSpec(key, a, b);
  }

  // ---- shortest bridges ----

  /** s starts with the words c and ends, modulo equivalence, in the words h. */
  ghost predicate Bridges(key: string -> string, c: seq<string>, h: seq<string>, s: seq<string>) {
    c <= s && |h| <= |s| && Equivalent(key, s[|s| - |h|..], h)
  }

  ghost predicate IsShortestBridge(key: string -> string, c: seq<string>, h: seq<string>, s: seq<string>) {
    Bridges(key, c, h, s) && forall t | Bridges(key, c, h, t) :: |s| <= |t|
  }

  lemma OverlapBridges(key: string -> string, c: seq<string>, h: seq<string>)
    ensures IsShortestBridge(key, c, h, c + h[Overlap(key, c, h)..])
  {
    var o := Overlap(key, c, h);
    OverlapSpec(key, c, h);
    var r := c + h[o..];
    forall i | 0 <= i < |h| ensures key(r[|r| - |h| + i]) == key(h[i]) {
      if i < o {
        assert r[|r| - |h| + i] == c[|c| - o + i];
      } else {
        assert r[|r| - |h| + i] == h[i];
      }
    }
    forall t | Bridges(key, c, h, t) ensures |r| <= |t| {
      BridgeLength(key, c, h, t);
    }
  }

  lemma BridgeLength(key: string -> string, c: seq<string>, h: seq<string>, s: seq<string>)
    requires Bridges(key, c, h, s)
    ensures |c| + |h| - Overlap(key, c, h) <= |s|
  {
    OverlapSpec(key, c, h);
    if |s| < |c| + |h| {
      var n := |c| + |h| - |s|;
      forall i | 0 <= i < n ensures key(c[|c| - n + i]) == key(h[i]) {
        assert c[|c| - n + i] == s[|s| - |h| + i] == s[|s| - |h|..][i];
      }
      assert Overlaps(key, c, h, n);
    }
  }
}
