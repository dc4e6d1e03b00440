/** `fixline`: known typos of the analysis corpus rewritten before a detail
    line is read. The first rule that applies decides the result. */
module LineRepair {
  import opened PyStr

  /** `\w` of a Python 2 regex over a byte string: ASCII letters, digits and `_`. */
  predicate IsWordChar(c: char) {
    ('a' <= c <= 'z') || ('A' <= c <= 'Z') || ('0' <= c <= '9') || c == '_'
  }

  /** The end of the run of word characters that starts at `i`. */
  function RunEnd(s: string, i: nat): (e: nat)
    requires i <= |s|
    ensures i <= e <= |s|
    ensures forall k :: i <= k < e ==> IsWordChar(s[k])
    ensures e == |s| || !IsWordChar(s[e])
    decreases |s| - i
  {
    if i < |s| && IsWordChar(s[i]) then RunEnd(s, i + 1) else i
  }

  /** `( \/|\/ )` at `e`: a slash with a space on exactly one side of it. */
  predicate OneSidedSlashAt(s: string, e: nat) {
    e + 1 < |s| && ((s[e] == ' ' && s[e + 1] == '/') || (s[e] == '/' && s[e + 1] == ' '))
  }

  /** The regex `(\w{1,})( \/|\/ )(\w{1,})` matches at `i`. The first group
      can only end where the word run ends, since a shorter group leaves a
      word character where the separator must stand; so the match exists
      exactly when that run end is followed by a one-sided slash and a word
      character. */
  predicate SlashMatchAt(s: string, i: nat)
    requires i <= |s|
  {
    i < |s| && IsWordChar(s[i]) && OneSidedSlashAt(s, RunEnd(s, i)) &&
    RunEnd(s, i) + 2 < |s| && IsWordChar(s[RunEnd(s, i) + 2])
  }

  /** `pattern.search(s)` succeeds. */
  predicate HasSlashMatch(s: string) {
    exists i :: 0 <= i < |s| && SlashMatchAt(s, i)
  }

  /** `pattern.sub("\\1 / \\3", ...)` applied to `s[i..]`: each match, from
      the left and without overlap, becomes its two words around " / ". A
      position inside a word run matches only if the run's start does, so
      the scan may try every position in turn. */
  function SlashSub(s: string, i: nat): (r: string)
    requires i <= |s|
    decreases |s| - i
  {
    if i == |s| then []
    else if SlashMatchAt(s, i) then
      var e1 := RunEnd(s, i);
      var e3 := RunEnd(s, e1 + 2);
      s[i..e1] + " / " + s[e1 + 2..e3] + SlashSub(s, e3)
    else [s[i]] + SlashSub(s, i + 1)
  }

  /** `s` with its spaces removed. */
  function Despace(s: string): string {
    if s == [] then [] else (if s[0] == ' ' then [] else [s[0]]) + Despace(s[1..])
  }

  lemma {:induction false} DespaceConcat(a: string, b: string)
    ensures Despace(a + b) == Despace(a) + Despace(b)
    decreases |a|
  {
    if a == [] {
      assert a + b == b;
    } else {
      assert (a + b)[0] == a[0];
      assert (a + b)[1..] == a[1..] + b;
      DespaceConcat(a[1..], b);
    }
  }

  lemma DespaceCons(c: char, x: string)
    ensures Despace([c] + x) == (if c == ' ' then [] else [c]) + Despace(x)
  {
    assert ([c] + x)[1..] == x;
  }

  lemma DespaceConcat4(a: string, b: string, c: string, d: string)
    ensures Despace(a + b + c + d) == Despace(a) + Despace(b) + Despace(c) + Despace(d)
  {
    DespaceConcat(a + b + c, d);
    DespaceConcat(a + b, c);
    DespaceConcat(a, b);
  }

  /** The separator the regex matched and the one `sub` writes have the same non-space text. */
  lemma SeparatorSpacing(s: string, e: nat)
    requires OneSidedSlashAt(s, e)
    ensures Despace(s[e..e + 2]) == Despace(" / ")
  {
    var sep := s[e..e + 2];
    assert sep[1..] == [sep[1]];
    assert [sep[1]][1..] == [];
    assert " / "[1..] == "/ ";
    assert "/ "[1..] == " ";
    assert " "[1..] == [];
  }

  /** Without a match the substitution leaves the text as it is. */
  lemma {:induction false} SlashSubIdentity(s: string, i: nat)
    requires i <= |s|
    requires forall k :: i <= k < |s| ==> !SlashMatchAt(s, k)
    ensures SlashSub(s, i) == s[i..]
    decreases |s| - i
  {
    if i < |s| {
      SlashSubIdentity(s, i + 1);
      assert s[i..] == [s[i]] + s[i + 1..];
    }
  }

  /** One rewritten match keeps the non-space text, given that the rest of the line does. */
  lemma MatchSpacing(s: string, i: nat, e1: nat, e3: nat, tail: string)
    requires i <= e1 && e1 + 2 <= e3 <= |s| && OneSidedSlashAt(s, e1)
    requires Despace(tail) == Despace(s[e3..])
    ensures Despace(s[i..e1] + " / " + s[e1 + 2..e3] + tail) == Despace(s[i..])
  {
    SliceSplit4(s, i, e1, e3);
    SeparatorSpacing(s, e1);
    PartsSpacing(s[i..e1], s[e1..e1 + 2], " / ", s[e1 + 2..e3], s[e3..], tail);
  }

  /** A suffix cut at three points is the concatenation of its four parts. */
  lemma SliceSplit4(s: string, i: nat, e1: nat, e3: nat)
    requires i <= e1 && e1 + 2 <= e3 <= |s|
    ensures s[i..] == s[i..e1] + s[e1..e1 + 2] + s[e1 + 2..e3] + s[e3..]
  {
    assert s[i..] == s[i..e1] + s[e1..];
    assert s[e1..] == s[e1..e1 + 2] + s[e1 + 2..];
    assert s[e1 + 2..] == s[e1 + 2..e3] + s[e3..];
  }

  /** Swapping two parts of a concatenation for parts with the same non-space text keeps it. */
  lemma PartsSpacing(a: string, sep: string, sep': string, b: string, c: string, c': string)
    requires Despace(sep) == Despace(sep') && Despace(c) == Despace(c')
    ensures Despace(a + sep' + b + c') == Despace(a + sep + b + c)
  {
    DespaceConcat4(a, sep, b, c);
    DespaceConcat4(a, sep', b, c');
  }

  /** The substitution only moves spaces: with spaces removed, the text is unchanged. */
  lemma {:induction false} SlashSubSpacing(s: string, i: nat)
    requires i <= |s|
    ensures Despace(SlashSub(s, i)) == Despace(s[i..])
    decreases |s| - i
  {
    if i < |s| {
      if SlashMatchAt(s, i) {
        var e3 := RunEnd(s, RunEnd(s, i) + 2);
        SlashSubSpacing(s, e3);
        MatchStepSpacing(s, i);
      } else {
        SlashSubSpacing(s, i + 1);
        CopyStepSpacing(s, i);
      }
    }
  }

  /** A match at `i` is rewritten and the scan goes on after it. */
  lemma MatchStepSpacing(s: string, i: nat)
    requires i < |s| && SlashMatchAt(s, i)
    requires var e3 := RunEnd(s, RunEnd(s, i) + 2); Despace(SlashSub(s, e3)) == Despace(s[e3..])
    ensures Despace(SlashSub(s, i)) == Despace(s[i..])
  {
    var e1 := RunEnd(s, i);
    var e3 := RunEnd(s, e1 + 2);
    SlashSubAtMatch(s, i);
    MatchSpacing(s, i, e1, e3, SlashSub(s, e3));
  }

  /** The substitution at a match. */
  lemma SlashSubAtMatch(s: string, i: nat)
    requires i < |s| && SlashMatchAt(s, i)
    ensures var e1 := RunEnd(s, i);
            var e3 := RunEnd(s, e1 + 2);
            SlashSub(s, i) == s[i..e1] + " / " + s[e1 + 2..e3] + SlashSub(s, e3)
  {
  }

  /** A character where nothing matches is copied and the scan moves on by one. */
  lemma CopyStepSpacing(s: string, i: nat)
    requires i < |s| && !SlashMatchAt(s, i)
    requires Despace(SlashSub(s, i + 1)) == Despace(s[i + 1..])
    ensures Despace(SlashSub(s, i)) == Despace(s[i..])
  {
    assert SlashSub(s, i) == [s[i]] + SlashSub(s, i + 1);
    assert s[i..] == [s[i]] + s[i + 1..];
    DespaceCons(s[i], s[i + 1..]);
    DespaceCons(s[i], SlashSub(s, i + 1));
  }

  /** Replacing a text by one with the same non-space characters changes only spacing. */
  lemma {:induction false} ReplaceSpacing(s: string, p: string, q: string)
    requires |p| > 0 && Despace(p) == Despace(q)
    ensures Despace(Replace(s, p, q)) == Despace(s)
    decreases |s|
  {
    var k := Find(s, p);
    if k >= 0 {
      var rest := s[k + |p|..];
      ReplaceSpacing(rest, p, q);
      FindSplit(s, p);
      DespaceConcat(s[..k] + p, rest);
      DespaceConcat(s[..k], p);
      DespaceConcat(s[..k] + q, Replace(rest, p, q));
      DespaceConcat(s[..k], q);
    }
  }

  /** `fixline`: the first rule that applies, in the source's order, rewrites the line. */
  function Fixline(line: string): (r: string)
    ensures HasSlashMatch(line) ==> r == SlashSub(line, 0)
    ensures !HasSlashMatch(line) && Contains(line, " :") ==> r == Replace(line, " :", ":")
    ensures !HasSlashMatch(line) && !Contains(line, " :") &&
            (Contains(line, "evss") || Contains(line, "items")) ==>
              r == Replace(line, "s:", ":")
    ensures !HasSlashMatch(line) && !Contains(line, " :") && !Contains(line, "evss") &&
            !Contains(line, "items") && line == "ivs: HP 0" ==>
              r == "ivs: 0 HP"
    ensures !HasSlashMatch(line) && !Contains(line, " :") && !Contains(line, "evss") &&
            !Contains(line, "items") && line != "ivs: HP 0" && Contains(line, " or ") ==>
              0 <= Find(line, " or ") && r == line[..Find(line, " or ")]
    ensures !HasSlashMatch(line) && !Contains(line, " :") && !Contains(line, "evss") &&
            !Contains(line, "items") && !Contains(line, " or ") && line == "4 HP IVs" ==>
              r == "ivs: 4 HP"
    ensures !HasSlashMatch(line) && !Contains(line, " :") && !Contains(line, "evss") &&
            !Contains(line, "items") && line != "ivs: HP 0" && !Contains(line, " or ") &&
            line != "4 HP IVs" ==>
              r == line
  {
    FindSpec(line, " :");
    FindSpec(line, "evss");
    FindSpec(line, "items");
    FindSpec(line, " or ");
    if HasSlashMatch(line) then SlashSub(line, 0)
    else if Find(line, " :") > -1 then Replace(line, " :", ":")
    else if Find(line, "evss") > -1 || Find(line, "items") > -1 then Replace(line, "s:", ":")
    else if line == "ivs: HP 0" then "ivs: 0 HP"
    else if Find(line, " or ") > -1 then Slice(line, 0, Find(line, " or "))
    else if line == "4 HP IVs" then "ivs: 4 HP"
    else line
  }

  /** The first two rules only respace the line: its non-space text is kept. */
  lemma FixlineSpacing(line: string)
    requires HasSlashMatch(line) || Contains(line, " :")
    ensures Despace(Fixline(line)) == Despace(line)
  {
    if HasSlashMatch(line) {
      SlashSubSpacing(line, 0);
    } else {
      ReplaceSpacing(line, " :", ":");
    }
  }

  /** A slash with no space, or with a space on both sides, is left alone. */
  lemma BareSlashKept(line: string)
    requires line == "a/b"
    ensures Fixline(line) == line
  {
    assert RunEnd(line, 0) == 1;
    assert RunEnd(line, 2) == 3;
    assert forall k :: 0 <= k < |line| ==> !SlashMatchAt(line, k);
    FindSpec(line, " :");
    assert Find(line, " :") == -1;
    FindSpec(line, "evss");
    assert Find(line, "evss") == -1;
    FindSpec(line, "items");
    assert Find(line, "items") == -1;
    FindSpec(line, " or ");
    assert Find(line, " or ") == -1;
  }

  lemma SpacedSlashKept(line: string)
    requires line == "a / b"
    ensures Fixline(line) == line
  {
    assert RunEnd(line, 0) == 1;
    assert RunEnd(line, 4) == 5;
    assert forall k :: 0 <= k < |line| ==> !SlashMatchAt(line, k);
    FindSpec(line, " :");
    assert Find(line, " :") == -1;
    FindSpec(line, "evss");
    assert Find(line, "evss") == -1;
    FindSpec(line, "items");
    assert Find(line, "items") == -1;
    FindSpec(line, " or ");
    assert Find(line, " or ") == -1;
  }

  /** A slash with a space on one side only gets a space on both. */
  lemma OneSidedSlashFixed(line: string)
    requires line == "Atk /Spe" || line == "Atk/ Spe"
    ensures Fixline(line) == "Atk / Spe"
  {
    assert RunEnd(line, 3) == 3;
    assert RunEnd(line, 2) == 3;
    assert RunEnd(line, 1) == 3;
    assert RunEnd(line, 0) == 3;
    assert RunEnd(line, 7) == 8;
    assert RunEnd(line, 6) == 8;
    assert RunEnd(line, 5) == 8;
    assert SlashMatchAt(line, 0);
    assert SlashSub(line, 8) == [];
  }

  /** Only the first of two chained one-sided slashes is rewritten: the match
      ends at the second word, so scanning resumes after it. */
  lemma ChainedSlashOnce(line: string)
    requires line == "a /b /c"
    ensures Fixline(line) == "a / b /c"
  {
    assert RunEnd(line, 0) == 1;
    assert RunEnd(line, 3) == 4;
    assert RunEnd(line, 6) == 7;
    assert SlashMatchAt(line, 0);
    assert SlashSub(line, 7) == [];
    assert SlashSub(line, 6) == "c";
    assert SlashSub(line, 5) == "/c";
    assert SlashSub(line, 4) == " /c";
  }
}
