/** The benchmark's `distance` (benchmarks/score.ts): a two-row edit-distance table whose
    first row is 1, 2, .. n instead of 0, 1, .. n, and whose missing cells read as 0. */
module Distance {

  function Min(a: nat, b: nat): nat {
    if a <= b then a else b
  }

  function Mismatch<T(==)>(x: T, y: T): nat {
    if x == y then 0 else 1
  }

  // ---- edit scripts and Levenshtein distance ----

  datatype Edit<T> = Keep(x: T) | Substitute(x: T, y: T) | Insert(y: T) | Delete(x: T)

  /** The text an edit script starts from. */
  function Source<T>(script: seq<Edit<T>>): seq<T> {
    if script == [] then []
    else
      var last := script[|script| - 1];
      Source(script[..|script| - 1]) + if last.Insert? then [] else [last.x]
  }

  /** The text it leads to. */
  function Goal<T>(script: seq<Edit<T>>): seq<T> {
    if script == [] then []
    else match script[|script| - 1]
      case Keep(x) => Goal(script[..|script| - 1]) + [x]
      case Substitute(_, y) => Goal(script[..|script| - 1]) + [y]
      case Insert(y) => Goal(script[..|script| - 1]) + [y]
      case Delete(_) => Goal(script[..|script| - 1])
  }

  function Cost<T>(script: seq<Edit<T>>): nat {
    if script == [] then 0
    else Cost(script[..|script| - 1]) + if script[|script| - 1].Keep? then 0 else 1
  }

  function Min3(a: nat, b: nat, c: nat): nat {
    Min(Min(a, b), c)
  }

  /** Levenshtein distance between left[s..r] and right[..c]. */
  function LevAt<T(==)>(left: seq<T>, right: seq<T>, s: nat, r: nat, c: nat): nat
    requires s <= r <= |left| && c <= |right|
    decreases r, c
  {
    if r == s then c
    else if c == 0 then r - s
    else
      Min3(LevAt(left, right, s, r, c - 1) + 1,
           LevAt(left, right, s, r - 1, c) + 1,
           LevAt(left, right, s, r - 1, c - 1) + Mismatch(left[r - 1], right[c - 1]))
  }

  function Lev<T(==)>(a: seq<T>, b: seq<T>): nat {
    LevAt(a, b, 0, |a|, |b|)
  }

  ghost predicate Edits<T>(script: seq<Edit<T>>, a: seq<T>, b: seq<T>) {
    Source(script) == a && Goal(script) == b
  }

  lemma Extend<T>(script: seq<Edit<T>>, e: Edit<T>, a: seq<T>, b: seq<T>, r: nat, c: nat)
    requires r <= |a| && c <= |b| && Edits(script, a[..r], b[..c])
    requires !e.Insert? ==> r < |a| && e.x == a[r]
    requires e.Keep? ==> c < |b| && e.x == b[c]
    requires e.Substitute? || e.Insert? ==> c < |b| && e.y == b[c]
    ensures Edits(script + [e], a[..if e.Insert? then r else r + 1], b[..if e.Delete? then c else c + 1])
    ensures Cost(script + [e]) == Cost(script) + if e.Keep? then 0 else 1
  {
    assert r < |a| ==> a[..r + 1] == a[..r] + [a[r]];
    assert c < |b| ==> b[..c + 1] == b[..c] + [b[c]];
  }

  /** Which neighbour the table entry comes from, as the last edit of a best script. */
  function LastEdit<T(==)>(left: seq<T>, right: seq<T>, r: nat, c: nat): (e: Edit<T>)
    requires r <= |left| && c <= |right| && r + c > 0
    ensures e.Insert? ==> c > 0 && e.y == right[c - 1]
    ensures !e.Insert? ==> r > 0 && e.x == left[r - 1]
    ensures e.Keep? ==> c > 0 && e.x == right[c - 1]
    ensures e.Substitute? ==> c > 0 && e.y == right[c - 1]
    ensures LevAt(left, right, 0, r, c) ==
            LevAt(left, right, 0, if e.Insert? then r else r - 1, if e.Delete? then c else c - 1)
            + if e.Keep? then 0 else 1
  {
    var best := LevAt(left, right, 0, r, c);
    if c > 0 && best == LevAt(left, right, 0, r, c - 1) + 1 then Insert(right[c - 1])
    else if r > 0 && best == LevAt(left, right, 0, r - 1, c) + 1 then Delete(left[r - 1])
    else if left[r - 1] == right[c - 1] then Keep(left[r - 1])
    else Substitute(left[r - 1], right[c - 1])
  }

  /** Some script has exactly that cost. */
  lemma {:induction false} BestScript<T>(left: seq<T>, right: seq<T>, r: nat, c: nat) returns (script: seq<Edit<T>>)
    requires r <= |left| && c <= |right|
    ensures Edits(script, left[..r], right[..c]) && Cost(script) == LevAt(left, right, 0, r, c)
    decreases r + c
  {
    if r == 0 && c == 0 {
      script := [];
    } else {
      var e := LastEdit(left, right, r, c);
      var r', c' := if e.Insert? then r else r - 1, if e.Delete? then c else c - 1;
      var init := BestScript(left, right, r', c');
      Extend(init, e, left, right, r', c');
      script := init + [e];
    }
  }

  /** One more edit adds at most its cost. */
  lemma OneEditFurther<T>(left: seq<T>, right: seq<T>, r: nat, c: nat, e: Edit<T>)
    requires r <= |left| && c <= |right|
    requires !e.Insert? ==> r > 0
    requires !e.Delete? ==> c > 0
    requires e.Keep? ==> left[r - 1] == right[c - 1]
    ensures LevAt(left, right, 0, r, c) <=
            LevAt(left, right, 0, if e.Insert? then r else r - 1, if e.Delete? then c else c - 1) + if e.Keep? then 0 else 1
  {}

  /** No script is cheaper. */
  lemma {:induction false} NoScriptIsCheaper<T>(left: seq<T>, right: seq<T>, r: nat, c: nat, script: seq<Edit<T>>)
    requires r <= |left| && c <= |right| && Edits(script, left[..r], right[..c])
    ensures LevAt(left, right, 0, r, c) <= Cost(script)
  {
    if script != [] {
      var init, last := script[..|script| - 1], script[|script| - 1];
      var r' := if last.Insert? then r else r - 1;
      var c' := if last.Delete? then c else c - 1;
      assert |Source(script)| == r && |Goal(script)| == c;
      assert Source(init) == Source(script)[..r'] == left[..r'];
      assert Goal(init) == Goal(script)[..c'] == right[..c'];
      if !last.Insert? {
        assert last.x == Source(script)[r - 1] == left[r - 1];
      }
      if !last.Delete? {
        assert Goal(script)[c - 1] == right[c - 1];
      }
      NoScriptIsCheaper(left, right, r', c', init);
      OneEditFurther(left, right, r, c, last);
    } else {
      assert |left[..r]| == 0 && |right[..c]| == 0;
    }
  }

  /** Lev is the least cost of an edit script, and some script has that cost. */
  lemma LevIsMinimumScriptCost<T>(a: seq<T>, b: seq<T>)
    ensures forall script | Edits(script, a, b) :: Lev(a, b) <= Cost(script)
    ensures exists script :: Edits(script, a, b) && Cost(script) == Lev(a, b)
  {
    assert a[..|a|] == a && b[..|b|] == b;
    var best := BestScript(a, b, |a|, |b|);
    forall script | Edits(script, a, b) ensures Lev(a, b) <= Cost(script) {
      NoScriptIsCheaper(a, b, |a|, |b|, script);
    }
  }

  // ---- what the program computes ----

  /** The table entry for the first r elements of left and the first c of right, the last
      column excepted: one more than the cheaper of editing left[..r] and editing left[1..r]. */
  function Inner<T(==)>(left: seq<T>, right: seq<T>, r: nat, c: nat): nat
    requires r <= |left| && c <= |right|
  {
    if r == 0 then c + 1 else 1 + Min(LevAt(left, right, 0, r, c), LevAt(left, right, 1, r, c))
  }

  /** The table entry; the last column also offers deleting everything at cost r. */
  function Cell<T(==)>(left: seq<T>, right: seq<T>, r: nat, c: nat): nat
    requires r <= |left| && c <= |right|
  {
    if c == |right| then (if c == 0 then r else Min(r, Inner(left, right, r, c))) else Inner(left, right, r, c)
  }

  /** A cell as the program reads it: `?? 0` for one that is missing from the row. */
  function ReadCell(row: seq<nat>, i: nat): nat {
    if i < |row| then row[i] else 0
  }

  /** The first n cells of row r. */
  ghost predicate IsRowUpTo<T>(left: seq<T>, right: seq<T>, r: nat, n: nat, row: seq<nat>) {
    && r <= |left| && n <= |right| + 1 && |row| == n
    && forall c | 0 <= c < n :: row[c] == Cell(left, right, r, c)
  }

  /** Row 0 lacks its last cell. */
  ghost predicate IsRow<T>(left: seq<T>, right: seq<T>, r: nat, row: seq<nat>) {
    IsRowUpTo(left, right, r, if r == 0 then |right| else |right| + 1, row)
  }

  /** The new entry as the loop body computes it. */
  function Best<T(==)>(left: seq<T>, right: seq<T>, row: nat, column: nat, previous: seq<nat>, current: seq<nat>): nat
    requires row < |left| && column < |right|
  {
    Min3(ReadCell(current, column) + 1,
         ReadCell(previous, column + 1) + 1,
         ReadCell(previous, column) + if left[row] == right[column] then 0 else 1)
  }

  method Distance<T(==)>(left: seq<T>, right: seq<T>) returns (d: nat)
    ensures d == if left == [] || right == [] then |left|
                 else Min(|left|, 1 + Min(Lev(left, right), Lev(left[1..], right)))
  {
    var previous: seq<nat> := seq(|right|, i requires 0 <= i < |right| => i + 1);
    FirstRow(left, right, previous);
    var row := 0;
    while row < |left|
      invariant 0 <= row <= |left|
      invariant IsRow(left, right, row, previous)
    {
      var current: seq<nat> := [row + 1];
      var column := 0;
      while column < |right|
        invariant 0 <= column <= |right|
        invariant IsRowUpTo(left, right, row + 1, column + 1, current)
      {
        NextCell(left, right, row, column, previous, current);
        current := current + [Best(left, right, row, column, previous, current)];
        column := column + 1;
      }
      previous := current;
      row := row + 1;
    }
    LastCell(left, right, previous);
    DistanceInClosedForm(left, right);
    d := if |right| < |previous| then previous[|right|] else |left|;
  }

  lemma FirstRow<T>(left: seq<T>, right: seq<T>, row: seq<nat>)
    requires |row| == |right| && forall i | 0 <= i < |row| :: row[i] == i + 1
    ensures IsRow(left, right, 0, row)
  {}

  lemma NextCell<T>(left: seq<T>, right: seq<T>, row: nat, column: nat, previous: seq<nat>, current: seq<nat>)
    requires row < |left| && column < |right|
    requires IsRow(left, right, row, previous) && IsRowUpTo(left, right, row + 1, column + 1, current)
    ensures IsRowUpTo(left, right, row + 1, column + 2, current + [Best(left, right, row, column, previous, current)])
  {
    assert ReadCell(current, column) == Cell(left, right, row + 1, column);
    CellRecurrence(left, right, row + 1, column + 1);
    AddCell(left, right, row + 1, column + 1, current, Best(left, right, row, column, previous, current));
  }

  lemma AddCell<T>(left: seq<T>, right: seq<T>, r: nat, n: nat, row: seq<nat>, cell: nat)
    requires IsRowUpTo(left, right, r, n, row) && n <= |right| && cell == Cell(left, right, r, n)
    ensures IsRowUpTo(left, right, r, n + 1, row + [cell])
  {}

  lemma LastCell<T>(left: seq<T>, right: seq<T>, row: seq<nat>)
    requires IsRow(left, right, |left|, row)
    ensures Cell(left, right, |left|, |right|) == if |right| < |row| then row[|right|] else |left|
  {}

  /** Turning one element into c > 0 others costs at most c. */
  lemma {:induction false} LevOfOne<T>(left: seq<T>, right: seq<T>, c: nat)
    requires left != [] && c <= |right|
    ensures LevAt(left, right, 0, 1, c) <= if c == 0 then 1 else c
  {
    if c > 0 {
      LevOfOne(left, right, c - 1);
    }
  }

  lemma InnerRecurrence<T>(left: seq<T>, right: seq<T>, r: nat, c: nat)
    requires 0 < r <= |left| && 0 < c <= |right|
    ensures Inner(left, right, r, c) ==
            Min3(Inner(left, right, r, c - 1) + 1,
                 Inner(left, right, r - 1, c) + 1,
                 Inner(left, right, r - 1, c - 1) + Mismatch(left[r - 1], right[c - 1]))
  {
    if r == 1 {
      LevOfOne(left, right, c);
      LevOfOne(left, right, c - 1);
    }
  }

  /** Each cell is computed from its neighbours as they are read, missing cells included. */
  lemma CellRecurrence<T>(left: seq<T>, right: seq<T>, r: nat, c: nat)
    requires 0 < r <= |left| && 0 < c <= |right|
    ensures Cell(left, right, r, c) ==
            Min3(Cell(left, right, r, c - 1) + 1,
                 Cell(left, right, r - 1, c) + 1,
                 Cell(left, right, r - 1, c - 1) + Mismatch(left[r - 1], right[c - 1]))
  {
    InnerRecurrence(left, right, r, c);
  }

  // ---- how far off that is ----

  lemma {:induction false} LevDropFirst<T>(left: seq<T>, right: seq<T>, r: nat, c: nat)
    requires 0 < r <= |left| && c <= |right|
    ensures LevAt(left, right, 0, r, c) <= 1 + LevAt(left, right, 1, r, c)
    decreases r, c
  {
    if r == 1 {
      LevOfOne(left, right, c);
    } else if c > 0 {
      LevDropFirst(left, right, r, c - 1);
      LevDropFirst(left, right, r - 1, c);
      LevDropFirst(left, right, r - 1, c - 1);
    }
  }

  /** Without its first element, left has these table values. */
  ghost predicate TailValue<T>(left: seq<T>, right: seq<T>, r: nat, c: nat, value: nat) {
    && 0 < r <= |left| && c <= |right|
    && LevAt(left, right, 1, r, c) == value && LevAt(left[1..], right, 0, r - 1, c) == value
  }

  lemma {:induction false} LevOfTail<T>(left: seq<T>, right: seq<T>, r: nat, c: nat) returns (value: nat)
    requires 0 < r <= |left| && c <= |right|
    ensures TailValue(left, right, r, c, value)
    decreases r, c
  {
    if r == 1 || c == 0 {
      value := if r == 1 then c else r - 1;
    } else {
      var x := LevOfTail(left, right, r, c - 1);
      var y := LevOfTail(left, right, r - 1, c);
      var z := LevOfTail(left, right, r - 1, c - 1);
      value := Min3(x + 1, y + 1, z + Mismatch(left[r - 1], right[c - 1]));
    }
  }

  /** The value the program returns, in terms of true edit distances. */
  lemma DistanceInClosedForm<T>(left: seq<T>, right: seq<T>)
    ensures Cell(left, right, |left|, |right|) ==
            if left == [] || right == [] then |left|
            else Min(|left|, 1 + Min(Lev(left, right), Lev(left[1..], right)))
  {
    if left != [] {
      var tail := LevOfTail(left, right, |left|, |right|);
    }
  }

  lemma LevFirst<T>(left: seq<T>, right: seq<T>)
    requires left != []
    ensures Lev(left, right) <= 1 + Lev(left[1..], right)
  {
    LevDropFirst(left, right, |left|, |right|);
    var tail := LevOfTail(left, right, |left|, |right|);
  }

  /** It is never further from the edit distance than one above it or down to |left|. */
  lemma DistanceBounds<T>(left: seq<T>, right: seq<T>)
    ensures var d := Cell(left, right, |left|, |right|);
            Min(|left|, Lev(left, right)) <= d <= Min(|left|, Lev(left, right) + 1)
  {
    DistanceInClosedForm(left, right);
    if left != [] {
      LevFirst(left, right);
    }
  }

  /** It is the edit distance exactly when right is empty, when the edit distance is |left|,
      or when it is below that and reached by first deleting the first element of left. */
  lemma DistanceCorrectIff<T>(left: seq<T>, right: seq<T>)
    ensures Cell(left, right, |left|, |right|) == Lev(left, right) <==>
            || right == []
            || Lev(left, right) == |left|
            || (left != [] && Lev(left, right) < |left| && Lev(left, right) == 1 + Lev(left[1..], right))
  {
    DistanceInClosedForm(left, right);
    if left != [] {
      LevFirst(left, right);
    }
  }

  lemma {:induction false} LevOfSame<T>(left: seq<T>, r: nat)
    requires r <= |left|
    ensures LevAt(left, left, 0, r, r) == 0
  {
    if r > 0 {
      LevOfSame(left, r - 1);
    }
  }

  /** A correct prediction of any positive length is scored as one error, and a prediction
      for an empty reference as none. */
  lemma DistanceOfEqualTexts<T>(left: seq<T>, right: seq<T>)
    ensures left != [] ==> Cell(left, left, |left|, |left|) == 1 && Lev(left, left) == 0
    ensures Cell([], right, 0, |right|) == 0 && Lev([], right) == |right|
  {
    LevOfSame(left, |left|);
    DistanceInClosedForm(left, left);
    DistanceInClosedForm([], right);
  }
}
