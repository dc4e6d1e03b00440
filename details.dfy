/** `get_set_details`: the detail lines that follow a set's "name" line, up
    to the first blank line, read into a set's details. */
module Details {
  import opened PyStr
  import opened Records
  import opened Reader
  import opened LineRepair
  import opened Moves

  /** The key of a detail line: the text before its first ":", stripped and
      lower-cased (with no ":", `find` answers -1 and the slice drops the
      last character). */
  function DetailKey(line: string): string {
    Lower(Strip(Slice(line, 0, Find(line, ":"))))
  }

  /** A text whose lower-cased form starts with "move" starts with "move"
      in some letter case. */
  lemma LowerMovePrefix(t: string)
    requires Slice(Lower(t), 0, 4) == "move"
    ensures MoveAt(t, 0)
  {
    var low := Lower(t);
    assert |low| >= 4;
    assert low[..4] == "move";
    LowerAt(t);
    assert low[0] == 'm' && low[1] == 'o' && low[2] == 'v' && low[3] == 'e';
  }

  /** A key starting with "move" comes from a line that contains "move" in
      some letter case, so `get_moveset` accepts it. */
  lemma MoveKeyHasMove(line: string)
    requires Slice(DetailKey(line), 0, 4) == "move"
    ensures HasMove(line)
  {
    var f := Find(line, ":");
    var a := Slice(line, 0, f);
    var t := Strip(a);
    LowerMovePrefix(t);
    SliceBounds(line, 0, f);
    var hi := Clamp(f, |line|);
    assert a == line[0..hi];
    StripShape(a);
    var o := StripStart(a);
    assert t[0] == line[o] && t[1] == line[o + 1] && t[2] == line[o + 2] && t[3] == line[o + 3];
    assert MoveAt(line, o);
  }

  /** The value of an "item", "nature" or "ability" line: the text after the
      first space, cut one character before the first "/" when there is one. */
  function FieldValue(line: string): (v: string) {
    if Find(line, "/") == -1 then Slice(line, Find(line, " ") + 1, |line|)
    else Slice(line, Find(line, " ") + 1, Find(line, "/") - 1)
  }

  /** A field value is a piece of its line. With no "/", it is everything
      after the first space; with a "/" after the first character, it holds
      no "/", so only the first of several alternatives is kept. */
  lemma FieldValueShape(line: string)
    ensures IsSubstring(FieldValue(line), line)
    ensures !Contains(line, "/") && Contains(line, " ") ==> FieldValue(line) == line[Find(line, " ") + 1..]
    ensures Find(line, "/") > 0 ==> '/' !in FieldValue(line)
  {
    FindSpec(line, " ");
    FindSpec(line, "/");
    var f, g := Find(line, " "), Find(line, "/");
    if g == -1 {
      SliceIsSubstring(line, f + 1, |line|);
    } else {
      SliceIsSubstring(line, f + 1, g - 1);
      if g > 0 {
        SliceBounds(line, f + 1, g - 1);
        var lo := Clamp(f + 1, |line|);
        if lo <= g - 1 {
          forall k | lo <= k < g - 1
            ensures line[k] != '/'
          {
            assert !OccursAt(line, "/", k);
          }
        }
      }
    }
  }

  lemma FieldValueExample(line: string)
    requires line == "item: Orb / Band"
    ensures FieldValue(line) == "Orb"
  {
    FindIs(line, " ", 5);
    FindIs(line, "/", 10);
    assert line[6..9] == "Orb";
  }

  /** `stats[rename_stat[name]] = value`, or the `KeyError` of a label
      `rename_stat` lacks. */
  function Store(st: Stats, name: string, value: string): (r: Result<Stats>) {
    if name in RenameStat then Ok(Put(st, RenameStat[name], value)) else Err(UnknownStat(name))
  }

  /** The label of a "value Stat" pair: the text after its first space, lower-cased. */
  function PairName(svp: string): string {
    Lower(Slice(svp, Find(svp, " ") + 1, |svp|))
  }

  /** The value of a "value Stat" pair: the text before its first space. */
  function PairValue(svp: string): string {
    Slice(svp, 0, Find(svp, " "))
  }

  /** One "value Stat" pair stored under the stat's code. */
  function StatEntry(st: Stats, svp: string): (r: Result<Stats>) {
    Store(st, PairName(svp), PairValue(svp))
  }

  /** The "value Stat" pairs of a line with a "/": the `while
      line.find("/") > -1` loop takes, before each "/", the text after the
      first space, stripped, and continues after that "/"; the stripped
      remainder is the last pair. */
  function Pairs(line: string): (r: seq<string>)
    ensures |r| > 0
    decreases |line|
  {
    if Find(line, "/") > -1 then
      [Strip(Slice(line, Find(line, " ") + 1, Find(line, "/")))] + Pairs(Slice(line, Find(line, "/") + 1, |line|))
    else [Strip(line)]
  }

  /** Each pair in turn stored into `st`; the first unknown label stops it. */
  function StoreAll(st: Stats, svps: seq<string>): (r: Result<Stats>)
    decreases |svps|
  {
    if svps == [] then Ok(st)
    else
      match StatEntry(st, svps[0])
      case Err(f) => Err(f)
      case Ok(st') => StoreAll(st', svps[1..])
  }

  /** The loop of lines 113-120 and the pair after it. */
  function ChainStats(line: string, st: Stats): (r: Result<Stats>) {
    StoreAll(st, Pairs(line))
  }

  /** The stat dictionary of an "evs" or "ivs" line: several "/"-separated
      pairs, or a single pair read as the text between ": " and the last
      space, and the label after the last space. */
  function StatLine(line: string): (r: Result<Stats>) {
    if Find(line, "/") > -1 then ChainStats(line, [])
    else Store([], SingleName(line), SingleValue(line))
  }

  /** The label of a line holding one stat: the text after its last space, lower-cased. */
  function SingleName(line: string): string {
    Lower(Slice(line, RFind(line, " ") + 1, |line|))
  }

  /** The value of a line holding one stat: the text from two characters
      after its first ":" up to its last space. */
  function SingleValue(line: string): string {
    Slice(line, Find(line, ":") + 2, RFind(line, " "))
  }

  /** A stat dictionary as the calculator reads it: each code once, every
      code one of the six. */
  predicate StatsOk(st: Stats) {
    Distinct(Codes(st)) && forall c :: c in Codes(st) ==> c in StatCodes
  }

  /** Storing a value under one of the six codes keeps a dictionary well formed. */
  lemma PutStatsOk(st: Stats, code: string, value: string)
    requires StatsOk(st) && code in StatCodes
    ensures StatsOk(Put(st, code, value))
  {
    PutDistinct(st, code, value);
    PutCodes(st, code, value);
  }

  /** Storing keeps a dictionary well formed and adds only the stored
      value; it fails exactly on a label `rename_stat` lacks. */
  lemma StoreShape(st: Stats, name: string, value: string)
    requires StatsOk(st)
    ensures var r := Store(st, name, value);
            && (r.Ok? <==> name in RenameStat)
            && (r.Ok? ==> StatsOk(r.value) && forall p :: p in r.value ==> p in st || p.1 == value)
            && (r.Err? ==> r.failure == UnknownStat(name))
  {
    if name in RenameStat {
      RenamedIsCode(name);
      PutStatsOk(st, RenameStat[name], value);
      PutPairs(st, RenameStat[name], value);
    }
  }

  lemma StatEntryShape(st: Stats, svp: string)
    requires StatsOk(st)
    ensures var r := StatEntry(st, svp);
            && (r.Ok? ==> StatsOk(r.value) && forall p :: p in r.value ==> p in st || IsSubstring(p.1, svp))
            && (r.Err? ==> r.failure.UnknownStat? && r.failure.stat !in RenameStat)
  {
    StoreShape(st, PairName(svp), PairValue(svp));
    SliceIsSubstring(svp, 0, Find(svp, " "));
  }

  /** Stored pairs come out under distinct codes of the six, with values
      taken from the pairs; a failure names a label that `rename_stat` lacks. */
  lemma {:induction false} StoreAllShape(st: Stats, svps: seq<string>)
    requires StatsOk(st)
    ensures var r := StoreAll(st, svps);
            && (r.Ok? ==> StatsOk(r.value))
            && (r.Ok? ==> forall p :: p in r.value ==> p in st || exists i :: 0 <= i < |svps| && IsSubstring(p.1, svps[i]))
            && (r.Err? ==> r.failure.UnknownStat? && r.failure.stat !in RenameStat)
    decreases |svps|
  {
    if svps != [] {
      StatEntryShape(st, svps[0]);
      var e := StatEntry(st, svps[0]);
      if e.Ok? {
        StoreAllShape(e.value, svps[1..]);
        var r := StoreAll(st, svps);
        assert r == StoreAll(e.value, svps[1..]);
        if r.Ok? {
          forall p | p in r.value && p !in st
            ensures exists i :: 0 <= i < |svps| && IsSubstring(p.1, svps[i])
          {
            if p in e.value {
              assert IsSubstring(p.1, svps[0]);
            } else {
              var i :| 0 <= i < |svps[1..]| && IsSubstring(p.1, svps[1..][i]);
              assert svps[1..][i] == svps[i + 1];
            }
          }
        }
      }
    }
  }

  /** Every pair of a line is a piece of it. */
  lemma {:induction false} PairsInLine(line: string)
    ensures forall i :: 0 <= i < |Pairs(line)| ==> IsSubstring(Pairs(line)[i], line)
    decreases |line|
  {
    if Find(line, "/") > -1 {
      var piece := Slice(line, Find(line, " ") + 1, Find(line, "/"));
      var rest := Slice(line, Find(line, "/") + 1, |line|);
      PairsUnfold(line);
      PairsInLine(rest);
      SliceIsSubstring(line, Find(line, "/") + 1, |line|);
      SliceIsSubstring(line, Find(line, " ") + 1, Find(line, "/"));
      StripIsSubstring(piece);
      SubstringTransitive(Strip(piece), piece, line);
      PiecesIn(Strip(piece), Pairs(rest), rest, line);
    } else {
      StripIsSubstring(line);
    }
  }

  /** A piece of `line` followed by pieces of a piece of `line` are all pieces of `line`. */
  lemma PiecesIn(x: string, xs: seq<string>, rest: string, line: string)
    requires IsSubstring(x, line) && IsSubstring(rest, line)
    requires forall i :: 0 <= i < |xs| ==> IsSubstring(xs[i], rest)
    ensures forall i :: 0 <= i < |[x] + xs| ==> IsSubstring(([x] + xs)[i], line)
  {
    forall i | 0 <= i < |[x] + xs| ensures IsSubstring(([x] + xs)[i], line) {
      if i > 0 {
        assert ([x] + xs)[i] == xs[i - 1];
        SubstringTransitive(xs[i - 1], rest, line);
      }
    }
  }

  /** A "/"-separated line gives distinct codes of the six with values taken
      from the line, or fails on a label that `rename_stat` lacks. */
  lemma ChainStatsShape(line: string)
    ensures var r := ChainStats(line, []);
            && (r.Ok? ==> StatsOk(r.value) && forall p :: p in r.value ==> IsSubstring(p.1, line))
            && (r.Err? ==> r.failure.UnknownStat? && r.failure.stat !in RenameStat)
  {
    assert StatsOk([]) by { assert Codes([]) == []; }
    var ps := Pairs(line);
    StoreAllShape([], ps);
    PairsInLine(line);
    var r := ChainStats(line, []);
    if r.Ok? {
      forall p | p in r.value ensures IsSubstring(p.1, line) {
        var i :| 0 <= i < |ps| && IsSubstring(p.1, ps[i]);
        SubstringTransitive(p.1, ps[i], line);
      }
    }
  }

  /** An "evs" or "ivs" line gives distinct codes of the six, each with a
      value taken from the line, or fails on a label `rename_stat` lacks. */
  lemma StatLineShape(line: string)
    ensures var r := StatLine(line);
            && (r.Ok? ==> StatsOk(r.value) && forall p :: p in r.value ==> IsSubstring(p.1, line))
            && (r.Err? ==> r.failure.UnknownStat? && r.failure.stat !in RenameStat)
  {
    if Find(line, "/") > -1 {
      ChainStatsShape(line);
    } else {
      assert StatsOk([]) by { assert Codes([]) == []; }
      StoreShape([], SingleName(line), SingleValue(line));
      SliceIsSubstring(line, Find(line, ":") + 2, RFind(line, " "));
    }
  }

  /** The code a pair is stored under: `rename_stat` of its label, or ""
      for a label `rename_stat` lacks. */
  function PairCode(svp: string): string {
    if PairName(svp) in RenameStat then RenameStat[PairName(svp)] else ""
  }

  /** Storing pairs succeeds exactly when `rename_stat` knows every label;
      otherwise it fails on the first label it lacks. */
  lemma StoreAllFails(st: Stats, svps: seq<string>)
    ensures var r := StoreAll(st, svps);
            && (r.Ok? <==> forall i :: 0 <= i < |svps| ==> PairName(svps[i]) in RenameStat)
            && (r.Err? ==> exists j :: 0 <= j < |svps| && PairName(svps[j]) !in RenameStat
                             && (forall i :: 0 <= i < j ==> PairName(svps[i]) in RenameStat)
                             && r.failure == UnknownStat(PairName(svps[j])))
  {
    StoreAllFailsAt(st, svps);
    var j := FirstUnknown(svps);
    if j < |svps| {
      assert PairName(svps[j]) !in RenameStat;
    }
  }

  /** The index of the first pair whose label `rename_stat` lacks, or the
      number of pairs when it knows them all. */
  function FirstUnknown(svps: seq<string>): (j: nat)
    ensures j <= |svps|
    ensures forall i :: 0 <= i < j ==> PairName(svps[i]) in RenameStat
    ensures j < |svps| ==> PairName(svps[j]) !in RenameStat
    decreases |svps|
  {
    if svps == [] then 0
    else if PairName(svps[0]) !in RenameStat then 0
    else
      var rest := svps[1..];
      assert forall i :: 1 <= i < |svps| ==> svps[i] == rest[i - 1];
      1 + FirstUnknown(rest)
  }

  /** A store fails exactly when some label is unknown, and then on the first. */
  lemma {:induction false} StoreAllFailsAt(st: Stats, svps: seq<string>)
    ensures StoreAll(st, svps).Err? <==> FirstUnknown(svps) < |svps|
    ensures StoreAll(st, svps).Err? ==> StoreAll(st, svps).failure == UnknownStat(PairName(svps[FirstUnknown(svps)]))
    decreases |svps|
  {
    if svps != [] {
      StoreAllHead(st, svps);
      if PairName(svps[0]) in RenameStat {
        var rest := svps[1..];
        StoreAllFailsAt(Put(st, PairCode(svps[0]), PairValue(svps[0])), rest);
        assert FirstUnknown(svps) == 1 + FirstUnknown(rest);
        if FirstUnknown(rest) < |rest| {
          assert rest[FirstUnknown(rest)] == svps[FirstUnknown(svps)];
        }
      }
    }
  }

  /** The first pair of a store: with a known label the rest is stored
      after it; with an unknown one the store fails on it. */
  lemma StoreAllHead(st: Stats, svps: seq<string>)
    requires svps != []
    ensures PairName(svps[0]) in RenameStat ==>
              StoreAll(st, svps) == StoreAll(Put(st, PairCode(svps[0]), PairValue(svps[0])), svps[1..])
    ensures PairName(svps[0]) !in RenameStat ==> StoreAll(st, svps) == Err(UnknownStat(PairName(svps[0])))
  {
  }

  /** One step of storing pairs: the first pair, then the rest. */
  lemma StoreAllStep(st: Stats, svps: seq<string>)
    requires svps != [] && StoreAll(st, svps).Ok?
    ensures PairName(svps[0]) in RenameStat
    ensures StoreAll(st, svps) == StoreAll(Put(st, PairCode(svps[0]), PairValue(svps[0])), svps[1..])
  {
  }

  /** On success the stored codes are the old ones and those of the pairs. */
  lemma {:induction false} StoreAllCodes(st: Stats, svps: seq<string>, c: string)
    requires StoreAll(st, svps).Ok?
    ensures c in Codes(StoreAll(st, svps).value) <==> c in Codes(st) || exists i :: 0 <= i < |svps| && PairCode(svps[i]) == c
    decreases |svps|
  {
    if svps != [] {
      StoreAllStep(st, svps);
      var c0, v0 := PairCode(svps[0]), PairValue(svps[0]);
      var rest := svps[1..];
      PutCodes(st, c0, v0);
      StoreAllCodes(Put(st, c0, v0), rest, c);
      if exists i :: 0 <= i < |rest| && PairCode(rest[i]) == c {
        var i :| 0 <= i < |rest| && PairCode(rest[i]) == c;
        assert svps[i + 1] == rest[i];
      }
      if exists i :: 0 <= i < |svps| && PairCode(svps[i]) == c {
        var i :| 0 <= i < |svps| && PairCode(svps[i]) == c;
        if i > 0 {
          assert rest[i - 1] == svps[i];
        }
      }
    }
  }

  /** On success a code no pair names reads what it read before. */
  lemma {:induction false} StoreAllKeeps(st: Stats, svps: seq<string>, c: string)
    requires StoreAll(st, svps).Ok?
    requires forall i :: 0 <= i < |svps| ==> PairCode(svps[i]) != c
    ensures Lookup(StoreAll(st, svps).value, c) == Lookup(st, c)
    decreases |svps|
  {
    if svps != [] {
      StoreAllStep(st, svps);
      var c0, v0 := PairCode(svps[0]), PairValue(svps[0]);
      var rest := svps[1..];
      assert c0 != c;
      PutLookup(st, c0, v0);
      assert forall k :: 0 <= k < |rest| ==> rest[k] == svps[k + 1];
      StoreAllKeeps(Put(st, c0, v0), rest, c);
    }
  }

  /** On success the code of pair `i` reads its value when no later pair
      names the same code. */
  lemma {:induction false} StoreAllLast(st: Stats, svps: seq<string>, i: nat)
    requires StoreAll(st, svps).Ok? && i < |svps|
    requires forall k :: i < k < |svps| ==> PairCode(svps[k]) != PairCode(svps[i])
    ensures Lookup(StoreAll(st, svps).value, PairCode(svps[i])) == Some(PairValue(svps[i]))
    decreases |svps|
  {
    StoreAllStep(st, svps);
    var c0, v0 := PairCode(svps[0]), PairValue(svps[0]);
    var rest := svps[1..];
    assert forall k :: 0 <= k < |rest| ==> rest[k] == svps[k + 1];
    if i > 0 {
      StoreAllLast(Put(st, c0, v0), rest, i - 1);
    } else {
      PutLookup(st, c0, v0);
      StoreAllKeeps(Put(st, c0, v0), rest, c0);
    }
  }

  /** A line with a "/" fails exactly when one of its pairs has a label
      `rename_stat` lacks, and then on the first such label; a line without
      one fails exactly when the label after its last space is unknown. */
  lemma StatLineFails(line: string)
    ensures var r := StatLine(line); var ps := Pairs(line);
            Find(line, "/") > -1 ==>
              && (r.Ok? <==> forall i :: 0 <= i < |ps| ==> PairName(ps[i]) in RenameStat)
              && (r.Err? ==> exists j :: 0 <= j < |ps| && PairName(ps[j]) !in RenameStat
                               && (forall i :: 0 <= i < j ==> PairName(ps[i]) in RenameStat)
                               && r.failure == UnknownStat(PairName(ps[j])))
    ensures var r := StatLine(line);
            Find(line, "/") == -1 ==>
              && (r.Ok? <==> SingleName(line) in RenameStat)
              && (r.Ok? ==> r.value == [(RenameStat[SingleName(line)], SingleValue(line))])
              && (r.Err? ==> r.failure == UnknownStat(SingleName(line)))
  {
    if Find(line, "/") > -1 {
      ChainIsStoreAll(line);
      StoreAllFails([], Pairs(line));
    }
  }

  /** Pairs stored into an empty dictionary: exactly the codes of the pairs,
      each reading the value text of the last pair that names it. */
  lemma StoredPairs(ps: seq<string>)
    requires StoreAll([], ps).Ok?
    ensures var r := StoreAll([], ps).value;
            && (forall c :: c in Codes(r) <==> exists i :: 0 <= i < |ps| && PairCode(ps[i]) == c)
            && (forall i :: 0 <= i < |ps| && (forall k :: i < k < |ps| ==> PairCode(ps[k]) != PairCode(ps[i])) ==>
                  Lookup(r, PairCode(ps[i])) == Some(PairValue(ps[i])))
  {
    var r := StoreAll([], ps).value;
    assert Codes([]) == [];
    forall c ensures c in Codes(r) <==> exists i :: 0 <= i < |ps| && PairCode(ps[i]) == c {
      StoreAllCodes([], ps, c);
    }
    forall i | 0 <= i < |ps| && (forall k :: i < k < |ps| ==> PairCode(ps[k]) != PairCode(ps[i]))
      ensures Lookup(r, PairCode(ps[i])) == Some(PairValue(ps[i]))
    {
      StoreAllLast([], ps, i);
    }
  }

  /** A "/" line stores its pairs in turn into an empty dictionary. */
  lemma ChainIsStoreAll(line: string)
    requires Find(line, "/") > -1
    ensures StatLine(line) == StoreAll([], Pairs(line))
  {
  }

  /** The stats a "/" line stores: exactly the codes of its pairs, each
      reading the value text of the last pair that names it. */
  lemma StatLineValues(line: string)
    requires Find(line, "/") > -1 && StatLine(line).Ok?
    ensures var r := StatLine(line).value; var ps := Pairs(line);
            && (forall c :: c in Codes(r) <==> exists i :: 0 <= i < |ps| && PairCode(ps[i]) == c)
            && (forall i :: 0 <= i < |ps| && (forall k :: i < k < |ps| ==> PairCode(ps[k]) != PairCode(ps[i])) ==>
                  Lookup(r, PairCode(ps[i])) == Some(PairValue(ps[i])))
  {
    ChainIsStoreAll(line);
    StoredPairs(Pairs(line));
  }

  /** The pairs of the line "evs: 4 Atk / 8 Spe", one at a time. */
  lemma FirstPairExample(svp: string)
    requires svp == "4 Atk"
    ensures StatEntry([], svp) == Ok([("at", "4")])
  {
    FindIs(svp, " ", 1);
    assert Slice(svp, 2, 5) == "Atk";
    assert Slice(svp, 0, 1) == "4";
    assert Lower("Atk") == "atk";
  }

  lemma SecondPairExample(svp: string)
    requires svp == "8 Spe"
    ensures StatEntry([("at", "4")], svp) == Ok([("at", "4"), ("sp", "8")])
  {
    FindIs(svp, " ", 1);
    assert Slice(svp, 2, 5) == "Spe";
    assert Slice(svp, 0, 1) == "8";
    assert Lower("Spe") == "spe";
    assert RenameStat["spe"] == "sp";
    var st: Stats := [("at", "4")];
    assert st[0].0 != "sp" && st[1..] == [];
    assert Put(st, "sp", "8") == [("at", "4"), ("sp", "8")];
  }

  lemma LastPairExample(rest: string)
    requires rest == " 8 Spe"
    ensures Pairs(rest) == ["8 Spe"]
  {
    ContainsChar(rest, '/');
    FindSpec(rest, "/");
    StripIs(rest, 1, 6);
    assert rest[1..6] == "8 Spe";
  }

  lemma PairsExample(line: string)
    requires line == "evs: 4 Atk / 8 Spe"
    ensures Find(line, "/") > -1 && Pairs(line) == ["4 Atk", "8 Spe"]
  {
    FindIs(line, "/", 11);
    FindIs(line, " ", 4);
    assert line[5..11] == [line[5], line[6], line[7], line[8], line[9], line[10]];
    FirstPiece(line[5..11]);
    assert line[12..] == [line[12], line[13], line[14], line[15], line[16], line[17]];
    LastPairExample(line[12..]);
    TwoPairs(line, line[5..11], line[12..]);
  }

  /** One round of the loop: the first pair, then the pairs after the first "/". */
  lemma PairsUnfold(line: string)
    requires Find(line, "/") > -1
    ensures Pairs(line) == [Strip(Slice(line, Find(line, " ") + 1, Find(line, "/")))] + Pairs(Slice(line, Find(line, "/") + 1, |line|))
  {
  }

  /** A line whose first space is at `s` and whose only "/" is at `d` has
      the piece between them and the remainder as its pairs. */
  lemma TwoPairs(line: string, first: string, rest: string)
    requires Find(line, "/") > -1
    requires Slice(line, Find(line, " ") + 1, Find(line, "/")) == first
    requires Slice(line, Find(line, "/") + 1, |line|) == rest
    requires Pairs(rest) == [Strip(rest)]
    ensures Pairs(line) == [Strip(first), Strip(rest)]
  {
    PairsUnfold(line);
  }

  lemma FirstPiece(piece: string)
    requires piece == "4 Atk "
    ensures Strip(piece) == "4 Atk"
  {
    StripIs(piece, 0, 5);
    assert piece[0..5] == "4 Atk";
  }

  lemma StoreAllExample()
    ensures StoreAll([], ["4 Atk", "8 Spe"]) == Ok([("at", "4"), ("sp", "8")])
  {
    FirstPairExample("4 Atk");
    SecondPairExample("8 Spe");
    assert StoreAll([], ["4 Atk", "8 Spe"]) == StoreAll([("at", "4")], ["8 Spe"]);
    assert ["8 Spe"][1..] == [];
  }

  /** Two "/"-separated pairs are stored in the order they are written. */
  lemma StatLineExample(line: string)
    requires line == "evs: 4 Atk / 8 Spe"
    ensures StatLine(line) == Ok([("at", "4"), ("sp", "8")])
  {
    PairsExample(line);
    StatLineOfPairs(line);
  }

  lemma StatLineOfPairs(line: string)
    requires Find(line, "/") > -1 && Pairs(line) == ["4 Atk", "8 Spe"]
    ensures StatLine(line) == Ok([("at", "4"), ("sp", "8")])
  {
    StoreAllExample();
  }

  /** The line "evs: 252 Atk / 4 SpD / 252 Spe" splits into three pairs. */
  lemma ThreePairsExample(line: string)
    requires line == "evs: 252 Atk / 4 SpD / 252 Spe"
    ensures Find(line, "/") > -1 && Pairs(line) == ["252 Atk", "4 SpD", "252 Spe"]
  {
    var first, rest := ThreeLineCut(line);
    FirstPieceOfThree(first);
    RestPairsOfThree(rest);
    PairsCons(line, first, rest);
  }

  /** One round of the loop, for a line already cut at its first space and first "/". */
  lemma PairsCons(line: string, first: string, rest: string)
    requires Find(line, "/") > -1
    requires Slice(line, Find(line, " ") + 1, Find(line, "/")) == first
    requires Slice(line, Find(line, "/") + 1, |line|) == rest
    ensures Pairs(line) == [Strip(first)] + Pairs(rest)
  {
    PairsUnfold(line);
  }

  lemma ThreeLineCut(line: string) returns (first: string, rest: string)
    requires line == "evs: 252 Atk / 4 SpD / 252 Spe"
    ensures Find(line, "/") == 13 && Find(line, " ") == 4
    ensures first == "252 Atk " && rest == " 4 SpD / 252 Spe"
    ensures Slice(line, Find(line, " ") + 1, Find(line, "/")) == first
    ensures Slice(line, Find(line, "/") + 1, |line|) == rest
  {
    ThreeLineSlash(line);
    ThreeLineSpace(line);
    first := line[5..13];
    assert first == [line[5], line[6], line[7], line[8], line[9], line[10], line[11], line[12]];
    rest := line[14..];
    assert rest == [line[14], line[15], line[16], line[17], line[18], line[19], line[20], line[21],
                    line[22], line[23], line[24], line[25], line[26], line[27], line[28], line[29]];
  }

  lemma ThreeLineSlash(line: string)
    requires line == "evs: 252 Atk / 4 SpD / 252 Spe"
    ensures Find(line, "/") == 13
  {
    FindIs(line, "/", 13);
  }

  lemma ThreeLineSpace(line: string)
    requires line == "evs: 252 Atk / 4 SpD / 252 Spe"
    ensures Find(line, " ") == 4
  {
    FindIs(line, " ", 4);
  }

  lemma FirstPieceOfThree(first: string)
    requires first == "252 Atk "
    ensures Strip(first) == "252 Atk"
  {
    StripIs(first, 0, 7);
    assert first[0..7] == [first[0], first[1], first[2], first[3], first[4], first[5], first[6]];
  }

  /** The text after the first "/" of the three-pair line holds the other two pairs. */
  lemma RestPairsOfThree(rest: string)
    requires rest == " 4 SpD / 252 Spe"
    ensures Pairs(rest) == ["4 SpD", "252 Spe"]
  {
    var second, last := RestCut(rest);
    StripIs(second, 0, 5);
    assert second[0..5] == [second[0], second[1], second[2], second[3], second[4]];
    LastOfThree(last);
    PairsCons(rest, second, last);
  }

  lemma RestCut(rest: string) returns (second: string, last: string)
    requires rest == " 4 SpD / 252 Spe"
    ensures Find(rest, "/") > -1
    ensures second == "4 SpD " && last == " 252 Spe"
    ensures Slice(rest, Find(rest, " ") + 1, Find(rest, "/")) == second
    ensures Slice(rest, Find(rest, "/") + 1, |rest|) == last
  {
    FindIs(rest, "/", 7);
    FindIs(rest, " ", 0);
    second := rest[1..7];
    assert second == [rest[1], rest[2], rest[3], rest[4], rest[5], rest[6]];
    last := rest[8..];
    assert last == [rest[8], rest[9], rest[10], rest[11], rest[12], rest[13], rest[14], rest[15]];
  }

  lemma LastOfThree(last: string)
    requires last == " 252 Spe"
    ensures Pairs(last) == ["252 Spe"]
  {
    ContainsChar(last, '/');
    FindSpec(last, "/");
    StripIs(last, 1, 8);
    assert last[1..8] == [last[1], last[2], last[3], last[4], last[5], last[6], last[7]];
  }

  lemma AtkEntryExample(svp: string)
    requires svp == "252 Atk"
    ensures StatEntry([], svp) == Ok([("at", "252")])
  {
    FindIs(svp, " ", 3);
    assert Slice(svp, 4, 7) == "Atk";
    assert Slice(svp, 0, 3) == "252";
    assert Lower("Atk") == "atk";
  }

  lemma SpDEntryExample(svp: string, st: Stats)
    requires svp == "4 SpD" && st == [("at", "252")]
    ensures StatEntry(st, svp) == Ok([("at", "252"), ("sd", "4")])
  {
    FindIs(svp, " ", 1);
    assert Slice(svp, 2, 5) == "SpD";
    assert Slice(svp, 0, 1) == "4";
    assert Lower("SpD") == "spd";
    assert RenameStat["spd"] == "sd";
    assert st[0].0 != "sd" && st[1..] == [];
    assert Put(st, "sd", "4") == [("at", "252"), ("sd", "4")];
  }

  lemma SpeEntryExample(svp: string, st: Stats)
    requires svp == "252 Spe" && st == [("at", "252"), ("sd", "4")]
    ensures StatEntry(st, svp) == Ok([("at", "252"), ("sd", "4"), ("sp", "252")])
  {
    FindIs(svp, " ", 3);
    assert Slice(svp, 4, 7) == "Spe";
    assert Slice(svp, 0, 3) == "252";
    assert Lower("Spe") == "spe";
    assert RenameStat["spe"] == "sp";
    assert st[0].0 != "sp" && st[1..][0].0 != "sp" && st[2..] == [];
    assert Put(st[2..], "sp", "252") == [("sp", "252")];
    assert Put(st[1..], "sp", "252") == [("sd", "4"), ("sp", "252")];
    assert Put(st, "sp", "252") == [("at", "252"), ("sd", "4"), ("sp", "252")];
  }

  /** Three "/"-separated pairs: every value is its pair's own digit text,
      under the code of its label, in the order written. */
  lemma ThreeStatLineExample(line: string)
    requires line == "evs: 252 Atk / 4 SpD / 252 Spe"
    ensures StatLine(line) == Ok([("at", "252"), ("sd", "4"), ("sp", "252")])
  {
    ThreePairsExample(line);
    var ps := ["252 Atk", "4 SpD", "252 Spe"];
    assert StatLine(line) == StoreAll([], ps);
    AtkEntryExample(ps[0]);
    SpDEntryExample(ps[1], [("at", "252")]);
    SpeEntryExample(ps[2], [("at", "252"), ("sd", "4")]);
    assert ps[1..] == ["4 SpD", "252 Spe"] && ps[1..][1..] == ["252 Spe"] && ps[1..][1..][1..] == [];
  }

  /** The while loop of lines 113-123 on an open line. */
  method ParseStats(line: string) returns (r: Result<Stats>)
    ensures r == StatLine(line)
  {
    if Find(line, "/") > -1 {
      r := ParseChain(line);
    } else {
      var name := SingleName(line);
      var value := SingleValue(line);
      if name !in RenameStat {
        return Err(UnknownStat(name));
      }
      r := Ok([(RenameStat[name], value)]);
    }
  }

  /** The `while line.find("/") > -1` loop of lines 115-119 and the last
      pair after it (lines 120-122). */
  method ParseChain(line: string) returns (r: Result<Stats>)
    requires Find(line, "/") > -1
    ensures r == StatLine(line)
  {
    ChainIsStoreAll(line);
    var rest := line;
    var stats: Stats := [];
    while Find(rest, "/") > -1
      invariant StoreAll(stats, Pairs(rest)) == StatLine(line)
      decreases |rest|
    {
      var svp := Strip(Slice(rest, Find(rest, " ") + 1, Find(rest, "/")));
      ChainStep(stats, rest);
      var name := PairName(svp);
      if name !in RenameStat {
        return Err(UnknownStat(name));
      }
      stats := Put(stats, RenameStat[name], PairValue(svp));
      rest := Slice(rest, Find(rest, "/") + 1, |rest|);
    }
    var svp := Strip(rest);
    ChainLast(stats, rest);
    var name := PairName(svp);
    if name !in RenameStat {
      return Err(UnknownStat(name));
    }
    r := Ok(Put(stats, RenameStat[name], PairValue(svp)));
  }

  /** One round of the loop: the pair before the first "/" is stored, or its
      unknown label fails the line. */
  lemma ChainStep(stats: Stats, rest: string)
    requires Find(rest, "/") > -1
    ensures var svp := Strip(Slice(rest, Find(rest, " ") + 1, Find(rest, "/")));
            var after := Slice(rest, Find(rest, "/") + 1, |rest|);
            && (PairName(svp) in RenameStat ==>
                  StoreAll(stats, Pairs(rest)) == StoreAll(Put(stats, RenameStat[PairName(svp)], PairValue(svp)), Pairs(after)))
            && (PairName(svp) !in RenameStat ==> StoreAll(stats, Pairs(rest)) == Err(UnknownStat(PairName(svp))))
  {
    PairsUnfold(rest);
    StoreAllHead(stats, Pairs(rest));
  }

  /** The stripped remainder after the last "/" is the last pair. */
  lemma ChainLast(stats: Stats, rest: string)
    requires Find(rest, "/") == -1
    ensures var svp := Strip(rest);
            && (PairName(svp) in RenameStat ==> StoreAll(stats, Pairs(rest)) == Ok(Put(stats, RenameStat[PairName(svp)], PairValue(svp))))
            && (PairName(svp) !in RenameStat ==> StoreAll(stats, Pairs(rest)) == Err(UnknownStat(PairName(svp))))
  {
    assert Pairs(rest) == [Strip(rest)];
    StoreAllHead(stats, Pairs(rest));
  }

  const NoDetails: SetDetails := SetDetails(0, None, None, None, None, None, None)

  /** `sdet[key] = value` for the text keys. */
  function WithField(sdet: SetDetails, key: string, value: string): SetDetails {
    if key == "item" then sdet.(item := Some(value))
    else if key == "nature" then sdet.(nature := Some(value))
    else sdet.(ability := Some(value))
  }

  /** `sdet[key] = stats` for "evs" and "ivs". */
  function WithStats(sdet: SetDetails, key: string, st: Stats): SetDetails {
    if key == "evs" then sdet.(evs := Some(st)) else sdet.(ivs := Some(st))
  }

  /** The loop of `get_set_details` from the current line `line` and cursor
      `pos`: the details and the cursor after the blank line that ends them,
      or the `KeyError` of an unknown stat. */
  function DetailsLoop(lines: seq<string>, pos: nat, line: string, sdet: SetDetails): (r: Result<(SetDetails, nat)>)
    requires pos <= |lines|
    ensures r.Ok? ==> pos <= r.value.1 <= |lines|
    decreases |lines| - pos, if line == "" then 0 else 1
  {
    if line == "" then Ok((sdet, pos))
    else
      var fixed := Fixline(line);
      var key := DetailKey(fixed);
      if Slice(key, 0, 4) == "move" then
        MoveKeyHasMove(fixed);
        var (moves, p) := Moveset(fixed, lines, pos);
        DetailsLoop(lines, NextPos(lines, p), LineAt(lines, p), sdet.(moves := Some(moves)))
      else if key == "item" || key == "nature" || key == "ability" then
        DetailsLoop(lines, NextPos(lines, pos), LineAt(lines, pos), WithField(sdet, key, FieldValue(fixed)))
      else if key == "evs" || key == "ivs" then
        match StatLine(fixed)
        case Err(f) => Err(f)
        case Ok(st) => DetailsLoop(lines, NextPos(lines, pos), LineAt(lines, pos), WithStats(sdet, key, st))
      else DetailsLoop(lines, NextPos(lines, pos), LineAt(lines, pos), sdet)
  }

  /** `get_set_details(tier, analysis)` with the cursor at `pos`. */
  function SetDetailsOf(tier: string, lines: seq<string>, pos: nat): (r: Result<(SetDetails, nat)>)
    requires pos <= |lines|
    ensures r.Ok? ==> pos <= r.value.1 <= |lines|
  {
    DetailsLoop(lines, NextPos(lines, pos), LineAt(lines, pos), NoDetails.(level := LevelOf(tier)))
  }

  /** Details as the rest of the parser relies on them: four moves when
      there are moves, and stat dictionaries in the calculator's codes. */
  predicate DetailsOk(d: SetDetails) {
    && (d.moves.Some? ==> |d.moves.value| == 4)
    && (d.evs.Some? ==> StatsOk(d.evs.value))
    && (d.ivs.Some? ==> StatsOk(d.ivs.value))
  }

  /** The loop keeps the level it starts with and keeps details well formed;
      it fails only on a stat name `rename_stat` lacks. */
  lemma {:induction false} DetailsLoopShape(lines: seq<string>, pos: nat, line: string, sdet: SetDetails)
    requires pos <= |lines| && DetailsOk(sdet)
    ensures var r := DetailsLoop(lines, pos, line, sdet);
            && (r.Ok? ==> DetailsOk(r.value.0) && r.value.0.level == sdet.level)
            && (r.Err? ==> r.failure.UnknownStat? && r.failure.stat !in RenameStat)
    decreases |lines| - pos, if line == "" then 0 else 1, 1
  {
    if line != "" {
      var key := DetailKey(Fixline(line));
      if Slice(key, 0, 4) == "move" {
        MoveLineShape(lines, pos, line, sdet);
      } else if key == "evs" || key == "ivs" {
        StatsLineShape(lines, pos, line, sdet);
      } else {
        OtherLineShape(lines, pos, line, sdet);
      }
    }
  }

  /** `DetailsLoopShape` at a "move" line. */
  lemma {:induction false} MoveLineShape(lines: seq<string>, pos: nat, line: string, sdet: SetDetails)
    requires pos <= |lines| && DetailsOk(sdet) && line != "" && Slice(DetailKey(Fixline(line)), 0, 4) == "move"
    ensures var r := DetailsLoop(lines, pos, line, sdet);
            && (r.Ok? ==> DetailsOk(r.value.0) && r.value.0.level == sdet.level)
            && (r.Err? ==> r.failure.UnknownStat? && r.failure.stat !in RenameStat)
    decreases |lines| - pos, 1, 0
  {
    var fixed := Fixline(line);
    MoveKeyHasMove(fixed);
    var (moves, p) := Moveset(fixed, lines, pos);
    var sdet' := sdet.(moves := Some(moves));
    assert DetailsLoop(lines, pos, line, sdet) == DetailsLoop(lines, NextPos(lines, p), LineAt(lines, p), sdet');
    DetailsLoopShape(lines, NextPos(lines, p), LineAt(lines, p), sdet');
  }

  /** `DetailsLoopShape` at an "evs" or "ivs" line. */
  lemma {:induction false} StatsLineShape(lines: seq<string>, pos: nat, line: string, sdet: SetDetails)
    requires pos <= |lines| && DetailsOk(sdet) && line != ""
    requires var key := DetailKey(Fixline(line)); Slice(key, 0, 4) != "move" && (key == "evs" || key == "ivs")
    ensures var r := DetailsLoop(lines, pos, line, sdet);
            && (r.Ok? ==> DetailsOk(r.value.0) && r.value.0.level == sdet.level)
            && (r.Err? ==> r.failure.UnknownStat? && r.failure.stat !in RenameStat)
    decreases |lines| - pos, 1, 0
  {
    var fixed := Fixline(line);
    var key := DetailKey(fixed);
    StatLineShape(fixed);
    var st := StatLine(fixed);
    if st.Ok? {
      var sdet' := WithStats(sdet, key, st.value);
      assert DetailsLoop(lines, pos, line, sdet) == DetailsLoop(lines, NextPos(lines, pos), LineAt(lines, pos), sdet');
      DetailsLoopShape(lines, NextPos(lines, pos), LineAt(lines, pos), sdet');
    } else {
      assert DetailsLoop(lines, pos, line, sdet) == Err(st.failure);
    }
  }

  /** `DetailsLoopShape` at a text field or an unrecognised line. */
  lemma {:induction false} OtherLineShape(lines: seq<string>, pos: nat, line: string, sdet: SetDetails)
    requires pos <= |lines| && DetailsOk(sdet) && line != ""
    requires var key := DetailKey(Fixline(line)); Slice(key, 0, 4) != "move" && key != "evs" && key != "ivs"
    ensures var r := DetailsLoop(lines, pos, line, sdet);
            && (r.Ok? ==> DetailsOk(r.value.0) && r.value.0.level == sdet.level)
            && (r.Err? ==> r.failure.UnknownStat? && r.failure.stat !in RenameStat)
    decreases |lines| - pos, 1, 0
  {
    var fixed := Fixline(line);
    var key := DetailKey(fixed);
    var sdet' := if key == "item" || key == "nature" || key == "ability" then WithField(sdet, key, FieldValue(fixed)) else sdet;
    assert DetailsLoop(lines, pos, line, sdet) == DetailsLoop(lines, NextPos(lines, pos), LineAt(lines, pos), sdet');
    DetailsLoopShape(lines, NextPos(lines, pos), LineAt(lines, pos), sdet');
  }

  /** A set's details carry the level of its tier, four moves if any, and
      stats in the calculator's codes. */
  lemma SetDetailsShape(tier: string, lines: seq<string>, pos: nat)
    requires pos <= |lines|
    ensures var r := SetDetailsOf(tier, lines, pos);
            && (r.Ok? ==> DetailsOk(r.value.0) && r.value.0.level == LevelOf(tier))
            && (r.Err? ==> r.failure.UnknownStat? && r.failure.stat !in RenameStat)
  {
    DetailsLoopShape(lines, NextPos(lines, pos), LineAt(lines, pos), NoDetails.(level := LevelOf(tier)));
  }

  /** The repaired lines whose keys the loop reads, in order, from the
      current line up to the blank line that ends the set. The lines
      `get_moveset` consumes as further moves are not among them; every
      line after the first is a line of the file at or after `pos`. */
  function KeyedLines(lines: seq<string>, pos: nat, line: string): (r: seq<string>)
    requires pos <= |lines|
    ensures line == "" <==> r == []
    ensures r != [] ==> r[0] == Fixline(line)
    ensures forall i :: 0 < i < |r| ==> exists k :: pos <= k < |lines| && r[i] == Fixline(LineAt(lines, k))
    decreases |lines| - pos, if line == "" then 0 else 1
  {
    if line == "" then []
    else
      var fixed := Fixline(line);
      var p := if Slice(DetailKey(fixed), 0, 4) == "move" then MoveEnd(fixed, lines, pos) else pos;
      [fixed] + KeyedLines(lines, NextPos(lines, p), LineAt(lines, p))
  }

  /** Where the cursor is after a "move" line: `get_moveset`'s cursor. */
  function MoveEnd(fixed: string, lines: seq<string>, pos: nat): (p: nat)
    requires pos <= |lines| && Slice(DetailKey(fixed), 0, 4) == "move"
    ensures pos <= p <= |lines|
  {
    MoveKeyHasMove(fixed);
    Moveset(fixed, lines, pos).1
  }

  /** `sdet[key]` for a text key. */
  function Field(d: SetDetails, key: string): Option<string> {
    if key == "item" then d.item else if key == "nature" then d.nature else d.ability
  }

  /** The text keys `get_set_details` stores. */
  predicate TextKey(key: string) {
    key == "item" || key == "nature" || key == "ability"
  }

  /** The value of the last of `keyed` whose key is `key`, if any. */
  function LastField(keyed: seq<string>, key: string): (r: Option<string>)
    decreases |keyed|
  {
    if keyed == [] then None
    else
      var later := LastField(keyed[1..], key);
      if later.Some? then later
      else if DetailKey(keyed[0]) == key then Some(FieldValue(keyed[0]))
      else None
  }

  /** `LastField` is absent exactly when no line has the key, and otherwise
      the value of a line with the key that no later line with it follows. */
  lemma {:induction false} LastFieldSpec(keyed: seq<string>, key: string)
    ensures LastField(keyed, key).None? <==> forall i :: 0 <= i < |keyed| ==> DetailKey(keyed[i]) != key
    ensures LastField(keyed, key).Some? ==>
              exists i :: 0 <= i < |keyed| && DetailKey(keyed[i]) == key
                && LastField(keyed, key).value == FieldValue(keyed[i])
                && forall k :: i < k < |keyed| ==> DetailKey(keyed[k]) != key
    decreases |keyed|
  {
    if keyed != [] {
      var rest := keyed[1..];
      LastFieldSpec(rest, key);
      assert forall k :: 0 < k < |keyed| ==> keyed[k] == rest[k - 1];
      var r := LastField(keyed, key);
      if LastField(rest, key).Some? {
        var i :| 0 <= i < |rest| && DetailKey(rest[i]) == key
                 && LastField(rest, key).value == FieldValue(rest[i])
                 && forall k :: i < k < |rest| ==> DetailKey(rest[k]) != key;
        assert DetailKey(keyed[i + 1]) == key;
      } else if r.Some? {
        assert DetailKey(keyed[0]) == key;
      }
    }
  }

  /** A text key does not start with "move". */
  lemma TextKeyNotMove(key: string)
    requires TextKey(key)
    ensures Slice(key, 0, 4) != "move"
  {
    assert key[0] != 'm';
  }

  /** On success, each text field the loop ends with is that of the last
      line keyed by it, or the one it started with when no line is. */
  lemma {:induction false} DetailsLoopFields(lines: seq<string>, pos: nat, line: string, sdet: SetDetails, key: string)
    requires pos <= |lines| && TextKey(key)
    ensures var r := DetailsLoop(lines, pos, line, sdet); var last := LastField(KeyedLines(lines, pos, line), key);
            r.Ok? ==> Field(r.value.0, key) == if last.Some? then last else Field(sdet, key)
    decreases |lines| - pos, if line == "" then 0 else 1
  {
    if line != "" {
      var fixed := Fixline(line);
      var k := DetailKey(fixed);
      var p := if Slice(k, 0, 4) == "move" then MoveEnd(fixed, lines, pos) else pos;
      if Slice(k, 0, 4) == "move" {
        MoveKeyHasMove(fixed);
      }
      var sdet' :=
        if Slice(k, 0, 4) == "move" then sdet.(moves := Some(Moveset(fixed, lines, pos).0))
        else if TextKey(k) then WithField(sdet, k, FieldValue(fixed))
        else if k == "evs" || k == "ivs" then (if StatLine(fixed).Ok? then WithStats(sdet, k, StatLine(fixed).value) else sdet)
        else sdet;
      var r := DetailsLoop(lines, pos, line, sdet);
      if r.Ok? {
        assert r == DetailsLoop(lines, NextPos(lines, p), LineAt(lines, p), sdet');
        DetailsLoopFields(lines, NextPos(lines, p), LineAt(lines, p), sdet', key);
        assert KeyedLines(lines, pos, line) == [fixed] + KeyedLines(lines, NextPos(lines, p), LineAt(lines, p));
        assert ([fixed] + KeyedLines(lines, NextPos(lines, p), LineAt(lines, p)))[1..] == KeyedLines(lines, NextPos(lines, p), LineAt(lines, p));
        if k == key {
          TextKeyNotMove(key);
        }
      }
    }
  }

  /** A set's item, nature and ability: each is present exactly when a line
      the loop reads has that key, and is then the value of the last such line. */
  lemma SetDetailsFields(tier: string, lines: seq<string>, pos: nat, key: string)
    requires pos <= |lines| && TextKey(key)
    ensures var r := SetDetailsOf(tier, lines, pos); var keyed := KeyedLines(lines, NextPos(lines, pos), LineAt(lines, pos));
            r.Ok? ==>
              && (Field(r.value.0, key).Some? <==> exists i :: 0 <= i < |keyed| && DetailKey(keyed[i]) == key)
              && (Field(r.value.0, key).Some? ==>
                    exists i :: 0 <= i < |keyed| && DetailKey(keyed[i]) == key
                      && Field(r.value.0, key).value == FieldValue(keyed[i])
                      && forall k :: i < k < |keyed| ==> DetailKey(keyed[k]) != key)
  {
    var keyed := KeyedLines(lines, NextPos(lines, pos), LineAt(lines, pos));
    DetailsLoopFields(lines, NextPos(lines, pos), LineAt(lines, pos), NoDetails.(level := LevelOf(tier)), key);
    LastFieldSpec(keyed, key);
  }

  /** `get_set_details(tier, analysis)` on an open file. A `KeyError` is
      returned as `Err`; the cursor is then left wherever the read stopped. */
  method GetSetDetails(tier: string, analysis: Analysis) returns (r: Result<SetDetails>)
    requires analysis.Valid()
    modifies analysis
    ensures analysis.Valid()
    ensures var spec := SetDetailsOf(tier, analysis.lines, old(analysis.pos));
            && (spec.Ok? ==> r == Ok(spec.value.0) && analysis.pos == spec.value.1)
            && (spec.Err? ==> r == Err(spec.failure))
  {
    ghost var spec := SetDetailsOf(tier, analysis.lines, analysis.pos);
    var sdet := NoDetails.(level := LevelOf(tier));
    var line := analysis.ReadLine();
    while line != ""
      invariant analysis.Valid()
      invariant DetailsLoop(analysis.lines, analysis.pos, line, sdet) == spec
      decreases |analysis.lines| - analysis.pos, if line == "" then 0 else 1
    {
      line := Fixline(line);
      var key := DetailKey(line);
      if Slice(key, 0, 4) == "move" {
        MoveKeyHasMove(line);
        var moves := GetMoveset(line, analysis);
        sdet := sdet.(moves := Some(moves));
      } else if key == "item" || key == "nature" || key == "ability" {
        sdet := WithField(sdet, key, FieldValue(line));
      } else if key == "evs" || key == "ivs" {
        var stats := ParseStats(line);
        if stats.Err? {
          return Err(stats.failure);
        }
        sdet := WithStats(sdet, key, stats.value);
      }
      line := analysis.ReadLine();
    }
    r := Ok(sdet);
  }
}
