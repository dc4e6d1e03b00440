/** An open analysis file. The file is its sequence of lines and a cursor:
    `readline` returns the line under the cursor and advances it, `tell`
    and `seek` save and restore the cursor (a line index where Python
    uses a byte offset). */
module Reader {
  import opened PyStr
  import opened Records

  /** `readline().strip()` at cursor `p`: the stripped line, or "" at end of file. */
  function LineAt(lines: seq<string>, p: nat): (r: string)
    ensures p >= |lines| ==> r == ""
  {
    if p < |lines| then Strip(lines[p]) else ""
  }

  /** The cursor after one `readline`: it stays put at end of file. */
  function NextPos(lines: seq<string>, p: nat): (q: nat)
    requires p <= |lines|
    ensures q <= |lines|
    ensures p < |lines| ==> q == p + 1
    ensures p == |lines| ==> q == p
  {
    if p < |lines| then p + 1 else p
  }

  class Analysis {
    const lines: seq<string>
    var pos: nat

    ghost predicate Valid()
      reads this
    {
      pos <= |lines|
    }

    constructor (lines: seq<string>)
      ensures this.lines == lines && pos == 0 && Valid()
    {
      this.lines := lines;
      pos := 0;
    }

    /** `readline().strip()`. */
    method ReadLine() returns (line: string)
      requires Valid()
      modifies this
      ensures Valid()
      ensures line == LineAt(lines, old(pos)) && pos == NextPos(lines, old(pos))
    {
      line := LineAt(lines, pos);
      pos := NextPos(lines, pos);
    }

    /** `readline()` without the strip: `None` stands for the empty string Python returns at end of file. */
    method ReadRaw() returns (line: Option<string>)
      requires Valid()
      modifies this
      ensures Valid()
      ensures old(pos) < |lines| ==> line == Some(lines[old(pos)]) && pos == old(pos) + 1
      ensures old(pos) == |lines| ==> line == None && pos == old(pos)
    {
      if pos < |lines| {
        line := Some(lines[pos]);
        pos := pos + 1;
      } else {
        line := None;
      }
    }

    /** `tell()`. */
    method Tell() returns (p: nat)
      requires Valid()
      ensures p == pos && p <= |lines|
    {
      p := pos;
    }

    /** `seek(p)` to a position saved by `Tell`. */
    method Seek(p: nat)
      requires p <= |lines|
      modifies this
      ensures pos == p && Valid()
    {
      pos := p;
    }
  }
}
