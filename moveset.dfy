/** `get_moveset`: the four move slots of a set, read from its "move" lines. */
module Moves {
  import opened PyStr
  import opened Records
  import opened Reader

  /** "move", in any letter case, starts at index `i`. */
  predicate MoveAt(line: string, i: nat) {
    i + 4 <= |line| &&
    LowerChar(line[i]) == 'm' && LowerChar(line[i + 1]) == 'o' &&
    LowerChar(line[i + 2]) == 'v' && LowerChar(line[i + 3]) == 'e'
  }

  /** The line names a move: "move" occurs in it, in any letter case. */
  predicate HasMove(line: string) {
    exists i :: 0 <= i < |line| && MoveAt(line, i)
  }

  /** `HasMove` is the source's test `line.lower().find("move") > -1`. */
  lemma HasMoveIsFind(line: string)
    ensures HasMove(line) <==> Find(Lower(line), "move") > -1
  {
    FindSpec(Lower(line), "move");
    forall i | 0 <= i <= |line|
      ensures OccursAt(Lower(line), "move", i) <==> (i < |line| && MoveAt(line, i))
    {
      MoveAtLower(line, i);
    }
  }

  /** "move" occurs at `i` in the lowered line exactly where `MoveAt` holds. */
  lemma MoveAtLower(line: string, i: nat)
    requires i <= |line|
    ensures OccursAt(Lower(line), "move", i) <==> (i < |line| && MoveAt(line, i))
  {
    var low := Lower(line);
    OccursAtSlice(low, "move", i);
    if i + 4 <= |low| {
      LowerAt(line);
      assert low[i..i + 4] == [low[i], low[i + 1], low[i + 2], low[i + 3]];
    }
  }

  /** The move a "move N: Name" line names: the text four characters past
      the first space, up to one character before the first "/" when there is
      one. An empty name with no "/" becomes "null". */
  function MoveName(line: string): string {
    if Find(line, "/") == -1 then
      var name := Slice(line, Find(line, " ") + 4, |line|);
      if name != "" then name else "null"
    else
      Slice(line, Find(line, " ") + 4, Find(line, "/") - 1)
  }

  /** A move name is text of its line, or "null" exactly when a line with no
      "/" has nothing four characters past its first space. */
  lemma MoveNameText(line: string)
    ensures !Contains(line, "/") ==>
              (MoveName(line) == "null" <==> Slice(line, Find(line, " ") + 4, |line|) in {"", "null"})
    ensures MoveName(line) == "null" || IsSubstring(MoveName(line), line)
  {
    FindSpec(line, "/");
    SliceIsSubstring(line, Find(line, " ") + 4, |line|);
    SliceIsSubstring(line, Find(line, " ") + 4, Find(line, "/") - 1);
  }

  /** For a "move 1: Name / Other" line, the name before the alternatives. */
  lemma MoveNameExample(line: string)
    requires line == "move 1: Surf / Scald"
    ensures MoveName(line) == "Surf"
  {
    FindIs(line, " ", 4);
    FindIs(line, "/", 13);
    assert line[8..12] == "Surf";
  }

  function Nulls(n: nat): (r: seq<string>)
    ensures |r| == n && forall k :: 0 <= k < n ==> r[k] == "null"
  {
    if n == 0 then [] else Nulls(n - 1) + ["null"]
  }

  /** The `for i in range(0, 4)` loop from iteration `i` on, with `line`
      the current line, `pos` the cursor, `prev` the saved cursor and `acc`
      the moves so far; `isMove` tests a line and `name` reads its move. It
      returns the moves and the final cursor. */
  function MovesetLoop(isMove: string -> bool, name: string -> string,
                       line: string, lines: seq<string>, pos: nat, prev: nat, i: nat,
                       acc: seq<string>): (r: (seq<string>, nat))
    requires i <= 4 && |acc| == i && pos <= |lines| && prev <= |lines|
    requires i == 0 ==> isMove(line)
    requires i > 0 ==> prev <= pos
    ensures |r.0| == 4
    ensures (if i == 0 then pos else prev) <= r.1 <= |lines|
    decreases 4 - i
  {
    if i == 4 then (acc, pos)
    else if !isMove(line) then (acc + Nulls(4 - i), prev)
    else if i < 3 then
      MovesetLoop(isMove, name, LineAt(lines, pos), lines, NextPos(lines, pos), pos, i + 1, acc + [name(line)])
    else
      MovesetLoop(isMove, name, line, lines, pos, prev, i + 1, acc + [name(line)])
  }

  /** One iteration of the loop on a line that passes the test. */
  lemma LoopStep(isMove: string -> bool, name: string -> string,
                 line: string, lines: seq<string>, pos: nat, prev: nat, i: nat, acc: seq<string>)
    requires i < 4 && |acc| == i && pos <= |lines| && prev <= |lines| && isMove(line)
    requires i > 0 ==> prev <= pos
    ensures MovesetLoop(isMove, name, line, lines, pos, prev, i, acc) ==
            if i < 3 then MovesetLoop(isMove, name, LineAt(lines, pos), lines, NextPos(lines, pos), pos, i + 1, acc + [name(line)])
            else (acc + [name(line)], pos)
  {
  }

  /** `get_moveset(line, analysis)` from cursor `pos`: the moves and the
      cursor it leaves. The source reads the saved cursor before assigning it
      when the first line names no move, so that line must name one; the 0
      standing for the unassigned saved cursor is then never read. */
  function Moveset(line: string, lines: seq<string>, pos: nat): (r: (seq<string>, nat))
    requires pos <= |lines| && HasMove(line)
    ensures |r.0| == 4 && pos <= r.1 <= |lines|
  {
    MovesetLoop(HasMove, MoveName, line, lines, pos, 0, 0, [])
  }

  /** The `j`-th line the loop may look at: `line` itself, then the lines
      read after it from cursor `pos` (all "" past the end of the file). */
  function Upcoming(line: string, lines: seq<string>, pos: nat, j: nat): string {
    if j == 0 then line else LineAt(lines, pos + j - 1)
  }

  function Min(a: nat, b: nat): nat {
    if a <= b then a else b
  }

  /** The first of the four upcoming lines that fails `isMove`, or 4. */
  function FirstNonMove(isMove: string -> bool, line: string, lines: seq<string>, pos: nat, j: nat): (k: nat)
    requires j <= 4
    ensures j <= k <= 4
    decreases 4 - j
  {
    if j == 4 || !isMove(Upcoming(line, lines, pos, j)) then j
    else FirstNonMove(isMove, line, lines, pos, j + 1)
  }

  lemma {:induction false} FirstNonMoveEnds(isMove: string -> bool, line: string, lines: seq<string>,
                                            pos: nat, j: nat)
    requires j <= 4
    ensures var k := FirstNonMove(isMove, line, lines, pos, j);
            k < 4 ==> !isMove(Upcoming(line, lines, pos, k))
    decreases 4 - j
  {
    if j < 4 && isMove(Upcoming(line, lines, pos, j)) {
      FirstNonMoveEnds(isMove, line, lines, pos, j + 1);
    }
  }

  /** The names read from the first `n` upcoming lines. */
  function MoveNames(name: string -> string, line: string, lines: seq<string>, pos: nat, n: nat): (r: seq<string>)
    ensures |r| == n
  {
    if n == 0 then [] else MoveNames(name, line, lines, pos, n - 1) + [name(Upcoming(line, lines, pos, n - 1))]
  }

  lemma {:induction false} MoveNameSlot(name: string -> string, line: string, lines: seq<string>,
                                        pos: nat, n: nat, t: nat)
    requires t < n
    ensures MoveNames(name, line, lines, pos, n)[t] == name(Upcoming(line, lines, pos, t))
  {
    if t < n - 1 {
      MoveNameSlot(name, line, lines, pos, n - 1, t);
    }
  }

  /** What the loop leaves from iteration `i >= 1` on, read off the upcoming
      lines: with `k` the first of them that fails `isMove`, the names of the
      lines before `k`, then "null"s, and the cursor on line `k` (after the
      fourth line when there is none). */
  function Expected(isMove: string -> bool, name: string -> string,
                    line: string, lines: seq<string>, pos: nat, i: nat): (seq<string>, nat)
    requires 1 <= i <= 4
  {
    var k := FirstNonMove(isMove, line, lines, pos, i);
    (MoveNames(name, line, lines, pos, k) + Nulls(4 - k),
     if k < 4 then Min(pos + k - 1, |lines|) else Min(pos + 3, |lines|))
  }

  /** The fourth iteration, entered with the cursor `q` after the third
      upcoming line. */
  lemma ShapeFrom3(isMove: string -> bool, name: string -> string,
                   line: string, lines: seq<string>, pos: nat, q: nat)
    requires pos <= |lines| && q == Min(pos + 2, |lines|)
    ensures MovesetLoop(isMove, name, LineAt(lines, q), lines, NextPos(lines, q),
                        q, 3, MoveNames(name, line, lines, pos, 3))
            == Expected(isMove, name, line, lines, pos, 3)
  {
    assert LineAt(lines, q) == Upcoming(line, lines, pos, 3);
    if isMove(LineAt(lines, q)) {
      var acc' := MoveNames(name, line, lines, pos, 4);
      assert acc' + Nulls(0) == acc';
    }
  }

  /** The third iteration and after. */
  lemma ShapeFrom2(isMove: string -> bool, name: string -> string,
                   line: string, lines: seq<string>, pos: nat, q: nat)
    requires pos <= |lines| && q == Min(pos + 1, |lines|)
    ensures MovesetLoop(isMove, name, LineAt(lines, q), lines, NextPos(lines, q),
                        q, 2, MoveNames(name, line, lines, pos, 2))
            == Expected(isMove, name, line, lines, pos, 2)
  {
    assert LineAt(lines, q) == Upcoming(line, lines, pos, 2);
    if isMove(LineAt(lines, q)) {
      assert MoveNames(name, line, lines, pos, 3) == MoveNames(name, line, lines, pos, 2) + [name(LineAt(lines, q))];
      ShapeFrom3(isMove, name, line, lines, pos, NextPos(lines, q));
      assert Expected(isMove, name, line, lines, pos, 2) == Expected(isMove, name, line, lines, pos, 3);
    }
  }

  /** The second iteration and after: the loop as `get_moveset` enters it
      once the first line has passed. */
  lemma ShapeFrom1(isMove: string -> bool, name: string -> string,
                   line: string, lines: seq<string>, pos: nat)
    requires pos <= |lines|
    ensures MovesetLoop(isMove, name, LineAt(lines, pos), lines, NextPos(lines, pos), pos, 1,
                        MoveNames(name, line, lines, pos, 1))
            == Expected(isMove, name, line, lines, pos, 1)
  {
    assert LineAt(lines, pos) == Upcoming(line, lines, pos, 1);
    if isMove(LineAt(lines, pos)) {
      PassFrom1(isMove, name, line, lines, pos);
    } else {
      assert pos == Min(pos + 1 - 1, |lines|);
    }
  }

  /** The second upcoming line passes: the loop goes on to the third. */
  lemma PassFrom1(isMove: string -> bool, name: string -> string,
                  line: string, lines: seq<string>, pos: nat)
    requires pos <= |lines| && isMove(LineAt(lines, pos))
    ensures MovesetLoop(isMove, name, LineAt(lines, pos), lines, NextPos(lines, pos), pos, 1,
                        MoveNames(name, line, lines, pos, 1))
            == Expected(isMove, name, line, lines, pos, 1)
  {
    assert LineAt(lines, pos) == Upcoming(line, lines, pos, 1);
    assert MoveNames(name, line, lines, pos, 2) == MoveNames(name, line, lines, pos, 1) + [name(LineAt(lines, pos))];
    ShapeFrom2(isMove, name, line, lines, pos, NextPos(lines, pos));
    assert Expected(isMove, name, line, lines, pos, 1) == Expected(isMove, name, line, lines, pos, 2);
  }

  /** The whole loop, whose first line passes the test. */
  lemma ShapeFrom0(isMove: string -> bool, name: string -> string,
                   line: string, lines: seq<string>, pos: nat)
    requires pos <= |lines| && isMove(line)
    ensures MovesetLoop(isMove, name, line, lines, pos, 0, 0, []) == Expected(isMove, name, line, lines, pos, 1)
    ensures FirstNonMove(isMove, line, lines, pos, 0) == FirstNonMove(isMove, line, lines, pos, 1)
  {
    assert Upcoming(line, lines, pos, 0) == line;
    assert MoveNames(name, line, lines, pos, 1) == [name(line)];
    ShapeFrom1(isMove, name, line, lines, pos);
  }

  /** The loop's outcome for any line test: with `k` the first of the four
      upcoming lines that fails the test, the slots before `k` hold the names
      of those lines and the rest "null", and the cursor stands on line `k`,
      or after the fourth line when every upcoming line passes. */
  lemma LoopOutcome(isMove: string -> bool, name: string -> string,
                    line: string, lines: seq<string>, pos: nat)
    requires pos <= |lines| && isMove(line)
    ensures var r := MovesetLoop(isMove, name, line, lines, pos, 0, 0, []);
            var k := FirstNonMove(isMove, line, lines, pos, 0);
            && 1 <= k
            && (forall t :: 0 <= t < k ==> r.0[t] == name(Upcoming(line, lines, pos, t)))
            && (forall t :: k <= t < 4 ==> r.0[t] == "null")
            && (k < 4 ==> LineAt(lines, r.1) == Upcoming(line, lines, pos, k) &&
                          !isMove(Upcoming(line, lines, pos, k)))
            && (k == 4 ==> r.1 == Min(pos + 3, |lines|))
  {
    var r := MovesetLoop(isMove, name, line, lines, pos, 0, 0, []);
    var k := FirstNonMove(isMove, line, lines, pos, 0);
    ShapeFrom0(isMove, name, line, lines, pos);
    assert r == (MoveNames(name, line, lines, pos, k) + Nulls(4 - k),
                 if k < 4 then Min(pos + k - 1, |lines|) else Min(pos + 3, |lines|));
    forall t | 0 <= t < k
      ensures r.0[t] == name(Upcoming(line, lines, pos, t))
    {
      MoveNameSlot(name, line, lines, pos, k, t);
    }
    FirstNonMoveEnds(isMove, line, lines, pos, 0);
    if k < 4 {
      LineAtMin(lines, pos + k - 1);
    }
  }

  /** Reading at a cursor clamped to the end of the file reads the same line. */
  lemma LineAtMin(lines: seq<string>, p: nat)
    ensures LineAt(lines, Min(p, |lines|)) == LineAt(lines, p)
  {
  }

  /** Four moves always come back. With `k` the first of the four upcoming
      lines that names no move, the slots before `k` hold the moves those
      lines name and the rest hold "null"; the cursor is put back so that
      line `k` is the next one read, or stays after the fourth line. */
  lemma MovesetShape(line: string, lines: seq<string>, pos: nat)
    requires pos <= |lines| && HasMove(line)
    ensures var r := Moveset(line, lines, pos);
            var k := FirstNonMove(HasMove, line, lines, pos, 0);
            && |r.0| == 4 && 1 <= k
            && (forall t :: 0 <= t < k ==> r.0[t] == MoveName(Upcoming(line, lines, pos, t)))
            && (forall t :: k <= t < 4 ==> r.0[t] == "null")
            && (k < 4 ==> LineAt(lines, r.1) == Upcoming(line, lines, pos, k) &&
                          !HasMove(Upcoming(line, lines, pos, k)))
            && (k == 4 ==> r.1 == Min(pos + 3, |lines|))
  {
    LoopOutcome(HasMove, MoveName, line, lines, pos);
  }

  /** The loop from iteration `i` with this state still yields `spec`. */
  ghost predicate Resumes(spec: (seq<string>, nat), line: string, lines: seq<string>, pos: nat, prev: nat,
                          i: nat, acc: seq<string>)
  {
    && i <= 4 && |acc| == i && pos <= |lines| && prev <= |lines|
    && (i == 0 ==> HasMove(line)) && (i > 0 ==> prev <= pos)
    && MovesetLoop(HasMove, MoveName, line, lines, pos, prev, i, acc) == spec
  }

  /** `get_moveset` on an open file. */
  method GetMoveset(line: string, analysis: Analysis) returns (moveset: seq<string>)
    requires analysis.Valid() && HasMove(line)
    modifies analysis
    ensures analysis.Valid()
    ensures (moveset, analysis.pos) == Moveset(line, analysis.lines, old(analysis.pos))
  {
    ghost var spec := Moveset(line, analysis.lines, analysis.pos);
    moveset := [];
    var current := line;
    var previousLine: nat := 0;
    for i := 0 to 4
      invariant analysis.Valid() && Resumes(spec, current, analysis.lines, analysis.pos, previousLine, i, moveset)
    {
      if !HasMove(current) {
        moveset := PadMoves(current, previousLine, moveset, i, analysis, spec);
        return;
      }
      current, previousLine, moveset := TakeMove(current, previousLine, moveset, i, analysis, spec);
    }
  }

  /** The turn at a line that names no move: the remaining slots are
      "null" and the cursor goes back to the saved one. */
  method PadMoves(current: string, previousLine: nat, moveset: seq<string>, i: nat, analysis: Analysis,
                  ghost spec: (seq<string>, nat))
    returns (moveset': seq<string>)
    requires analysis.Valid() && i < 4 && !HasMove(current)
    requires Resumes(spec, current, analysis.lines, analysis.pos, previousLine, i, moveset)
    modifies analysis
    ensures analysis.Valid() && (moveset', analysis.pos) == spec
  {
    moveset' := moveset + Nulls(4 - i);
    analysis.Seek(previousLine);
  }

  /** One turn of the loop at a line that names a move: the move is kept
      and, before the last turn, the next line is read. */
  method TakeMove(current: string, previousLine: nat, moveset: seq<string>, i: nat, analysis: Analysis,
                  ghost spec: (seq<string>, nat))
    returns (current': string, previousLine': nat, moveset': seq<string>)
    requires analysis.Valid() && i < 4 && HasMove(current)
    requires Resumes(spec, current, analysis.lines, analysis.pos, previousLine, i, moveset)
    modifies analysis
    ensures analysis.Valid() && Resumes(spec, current', analysis.lines, analysis.pos, previousLine', i + 1, moveset')
  {
    LoopStep(HasMove, MoveName, current, analysis.lines, analysis.pos, previousLine, i, moveset);
    moveset' := moveset + [MoveName(current)];
    current', previousLine' := current, previousLine;
    if i < 3 {
      previousLine' := analysis.Tell();
      current' := analysis.ReadLine();
    }
  }
}
