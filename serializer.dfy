/** `parse_setdex`: the setdex written as the text of the calculator's
    JavaScript object, one species after another, each with its sets and
    each set with its fields in a fixed order. */
module Serializer {
  import opened PyStr
  import opened Records
  import opened Dex
  import Collector

  /** `sep.join(xs)`: the texts with `sep` between neighbours and nowhere else. */
  function Join(sep: string, xs: seq<string>): string
    decreases |xs|
  {
    if |xs| == 0 then "" else if |xs| == 1 then xs[0] else xs[0] + sep + Join(sep, xs[1..])
  }

  /** Joining one more text puts one separator before it. */
  lemma {:induction false} JoinSnoc(sep: string, xs: seq<string>, x: string)
    requires |xs| > 0
    ensures Join(sep, xs + [x]) == Join(sep, xs) + sep + x
    decreases |xs|
  {
    if |xs| == 1 {
      assert (xs + [x])[1..] == [x];
    } else {
      assert (xs + [x])[1..] == xs[1..] + [x];
      JoinSnoc(sep, xs[1..], x);
    }
  }

  /** Every joined text is a piece of the result. */
  lemma {:induction false} JoinPieces(sep: string, xs: seq<string>)
    ensures forall i :: 0 <= i < |xs| ==> IsSubstring(xs[i], Join(sep, xs))
    decreases |xs|
  {
    if |xs| > 1 {
      JoinPieces(sep, xs[1..]);
      var j := Join(sep, xs);
      var tail := Join(sep, xs[1..]);
      assert j == xs[0] + sep + tail;
      assert IsSubstring(xs[0], j) by { assert j[0..|xs[0]|] == xs[0]; }
      assert IsSubstring(tail, j) by { assert j[|xs[0]| + |sep|..|j|] == tail; }
      forall i | 1 <= i < |xs| ensures IsSubstring(xs[i], j) {
        assert xs[i] == xs[1..][i - 1];
        SubstringTransitive(xs[i], tail, j);
      }
    } else if |xs| == 1 {
      assert Join(sep, xs)[0..|xs[0]|] == xs[0];
    }
  }

  /** `s.split(c)`: the pieces between the occurrences of `c`. */
  function SplitOn(s: string, c: char): (r: seq<string>)
    ensures |r| >= 1
    decreases |s|
  {
    if s == [] then [""]
    else if s[0] == c then [""] + SplitOn(s[1..], c)
    else
      var rest := SplitOn(s[1..], c);
      [[s[0]] + rest[0]] + rest[1..]
  }

  /** A text free of `c`, followed by `c` and more, splits off as the first piece. */
  lemma {:induction false} SplitAfter(a: string, c: char, b: string)
    requires c !in a
    ensures SplitOn(a + [c] + b, c) == [a] + SplitOn(b, c)
    ensures SplitOn(a, c) == [a]
    decreases |a|
  {
    if a != [] {
      SplitAfter(a[1..], c, b);
      assert (a + [c] + b)[1..] == a[1..] + [c] + b;
      assert [a[0]] + a[1..] == a;
    } else {
      assert [] + [c] + b == [c] + b;
      assert ([c] + b)[1..] == b;
    }
  }

  /** Splitting a join on a separator no piece contains gives the pieces back. */
  lemma {:induction false} SplitJoin(xs: seq<string>, c: char)
    requires |xs| >= 1 && forall i :: 0 <= i < |xs| ==> c !in xs[i]
    ensures SplitOn(Join([c], xs), c) == xs
    decreases |xs|
  {
    SplitAfter(xs[0], c, []);
    if |xs| > 1 {
      SplitJoin(xs[1..], c);
      SplitAfter(xs[0], c, Join([c], xs[1..]));
      assert [xs[0]] + xs[1..] == xs;
    }
  }

  /** `"stat":value`. */
  function StatItem(p: (string, string)): string {
    "\"" + p.0 + "\":" + p.1
  }

  function StatItems(st: Stats): (r: seq<string>)
    ensures |r| == |st| && forall i :: 0 <= i < |st| ==> r[i] == StatItem(st[i])
  {
    if st == [] then [] else [StatItem(st[0])] + StatItems(st[1..])
  }

  /** The inside of an "evs" or "ivs" object. */
  function StatsText(st: Stats): string {
    Join(",", StatItems(st))
  }

  /** The `for index, stat in enumerate(...)` loop: each entry, then a comma
      unless it is the last. */
  method StatsStream(st: Stats) returns (s: string)
    ensures s == StatsText(st)
  {
    ghost var items := StatItems(st);
    ghost var done := "";
    s := "";
    for i := 0 to |st|
      invariant done == Join(",", items[..i])
      invariant s == if 0 < i < |st| then done + "," else done
    {
      JoinExtend(",", items, i, done);
      s := s + ("\"" + st[i].0 + "\":" + st[i].1);
      done := (if i == 0 then done else done + ",") + items[i];
      if i != |st| - 1 {
        s := s + ",";
      }
    }
    assert items[..|st|] == items;
  }

  lemma StatItemFree(p: (string, string), c: char)
    requires c != '"' && c != ':' && c !in p.0 && c !in p.1
    ensures c !in StatItem(p)
  {
    var t := StatItem(p);
    forall k | 0 <= k < |t| ensures t[k] != c {
      if k == 0 {
      } else if k < 1 + |p.0| {
        assert t[k] == p.0[k - 1];
      } else if k < 3 + |p.0| {
      } else {
        assert t[k] == p.1[k - 3 - |p.0|];
      }
    }
  }

  /** With no comma in any code or value, splitting the text on commas gives
      back one entry per stat: there is no empty trailing entry. */
  lemma StatsReadBack(st: Stats)
    requires |st| >= 1 && forall i :: 0 <= i < |st| ==> ',' !in st[i].0 && ',' !in st[i].1
    ensures SplitOn(StatsText(st), ',') == StatItems(st)
  {
    var items := StatItems(st);
    forall i | 0 <= i < |items| ensures ',' !in items[i] {
      StatItemFree(st[i], ',');
    }
    SplitJoin(items, ',');
  }

  /** One move of the moves list: the move, its closing quote, and the
      separator and next opening quote after every move but the fourth. */
  function MoveItem(i: nat, move: string): string {
    move + "\"" + (if i != 3 then ",\"" else "")
  }

  /** The moves loop after its first `k` moves. */
  function MovesUpTo(moves: seq<string>, k: nat): string
    requires k <= |moves|
  {
    if k == 0 then "" else MovesUpTo(moves, k - 1) + MoveItem(k - 1, moves[k - 1])
  }

  /** The `for index, move in enumerate(...)` loop of the moves list. */
  method MovesStream(moves: seq<string>) returns (s: string)
    ensures s == MovesUpTo(moves, |moves|)
  {
    s := "";
    for i := 0 to |moves|
      invariant s == MovesUpTo(moves, i)
    {
      s := s + moves[i] + "\"";
      if i != 3 {
        s := s + ",\"";
      }
    }
  }

  function Quoted(moves: seq<string>): (r: seq<string>)
    ensures |r| == |moves| && forall i :: 0 <= i < |moves| ==> r[i] == "\"" + moves[i] + "\""
  {
    if moves == [] then [] else ["\"" + moves[0] + "\""] + Quoted(moves[1..])
  }

  lemma NextMove(j: string, u: string, m: string)
    requires "\"" + u == j + ",\""
    ensures "\"" + (u + (m + "\"" + ",\"")) == (j + "," + ("\"" + m + "\"")) + ",\""
  {
    calc {
      "\"" + (u + (m + "\"" + ",\""));
      ("\"" + u) + (m + "\"" + ",\"");
      j + ",\"" + (m + "\"" + ",\"");
    }
  }

  lemma LastMove(j: string, u: string, m: string)
    requires "\"" + u == j + ",\""
    ensures "\"" + (u + (m + "\"" + "")) == j + "," + ("\"" + m + "\"")
  {
    calc {
      "\"" + (u + (m + "\"" + ""));
      ("\"" + u) + (m + "\"");
      j + ",\"" + (m + "\"");
    }
  }

  /** Before the fourth move the loop has written the quoted moves so far,
      comma-separated, and the next opening quote. */
  lemma {:induction false} MovesPrefix(moves: seq<string>, k: nat)
    requires 1 <= k <= 3 && k <= |moves|
    ensures "\"" + MovesUpTo(moves, k) == Join(",", Quoted(moves)[..k]) + ",\""
  {
    var q := Quoted(moves);
    if k == 1 {
      assert q[..1] == [q[0]];
    } else {
      MovesPrefix(moves, k - 1);
      JoinExtend(",", q, k - 1, Join(",", q[..k - 1]));
      NextMove(Join(",", q[..k - 1]), MovesUpTo(moves, k - 1), moves[k - 1]);
    }
  }

  /** With four moves the list is the array of the quoted moves. */
  lemma FourMovesArray(moves: seq<string>)
    requires |moves| == 4
    ensures "\"" + MovesUpTo(moves, 4) == Join(",", Quoted(moves))
  {
    var q := Quoted(moves);
    MovesPrefix(moves, 3);
    JoinExtend(",", q, 3, Join(",", q[..3]));
    LastMove(Join(",", q[..3]), MovesUpTo(moves, 3), moves[3]);
    assert q[..4] == q;
  }

  /** With three moves the list ends in an opening quote that nothing closes. */
  lemma ThreeMovesDangle(moves: seq<string>)
    requires |moves| == 3
    ensures var t := MovesUpTo(moves, 3); |t| >= 2 && t[|t| - 2..] == ",\""
  {
  }

  /** A label with every `"` written as `\u0022`. */
  function EscapeLabel(name: string): string {
    Replace(name, "\"", "\\u0022")
  }

  /** The escaped label has no `"` left to end its key early, and a label
      without one is written as it is. */
  lemma LabelEscaped(name: string)
    ensures '"' !in EscapeLabel(name)
    ensures '"' !in name ==> EscapeLabel(name) == name
  {
    ReplaceCharGone(name, '"', "\\u0022");
    ContainsChar(name, '"');
  }

  /** A species with every `'` written as `\u0027`. */
  function EscapeSpecies(pokemon: string): string {
    Replace(pokemon, "'", "\\u0027")
  }

  lemma SpeciesEscaped(pokemon: string)
    ensures '\'' !in EscapeSpecies(pokemon)
    ensures '\'' !in pokemon ==> EscapeSpecies(pokemon) == pokemon
  {
    ReplaceCharGone(pokemon, '\'', "\\u0027");
    ContainsChar(pokemon, '\'');
  }

  function StatsField(key: string, st: Option<Stats>): string {
    if st.Some? then ",\"" + key + "\":{" + StatsText(st.value) + "}" else ""
  }

  function TextField(key: string, v: Option<string>): string {
    if v.Some? then ",\"" + key + "\":\"" + v.value + "\"" else ""
  }

  function MovesField(moves: seq<string>): string {
    ",\"moves\":[\"" + MovesUpTo(moves, |moves|) + "]}"
  }

  /** `"label":{` opening a set. */
  function EntryHead(name: string): string {
    "\"" + EscapeLabel(name) + "\":{"
  }

  /** The fields after the level, in the order evs, ivs, nature, ability,
      item, moves, each one present only when the set has it. */
  function LaterFields(d: SetDetails): string
    requires d.moves.Some?
  {
    StatsField("evs", d.evs) + StatsField("ivs", d.ivs) + TextField("nature", d.nature)
    + TextField("ability", d.ability) + TextField("item", d.item) + MovesField(d.moves.value)
  }

  function EntryFields(d: SetDetails): string
    requires d.moves.Some?
  {
    "\"level\":" + DecimalText(d.level) + LaterFields(d)
  }

  function EntryText(e: Entry): string
    requires e.details.moves.Some?
  {
    EntryHead(e.name) + EntryFields(e.details)
  }

  /** A set's key is delimited by the first `"` after the opening one, so
      it reads back as the escaped label. */
  lemma HeadDelimited(name: string, rest: string)
    ensures var t := (EntryHead(name) + rest)[1..];
            Find(t, "\"") == |EscapeLabel(name)| && t[..Find(t, "\"")] == EscapeLabel(name)
  {
    var esc := EscapeLabel(name);
    LabelEscaped(name);
    var t := (EntryHead(name) + rest)[1..];
    assert t == esc + "\":{" + rest;
    assert OccursAt(t, "\"", |esc|);
    forall k | 0 <= k < |esc| ensures !OccursAt(t, "\"", k) {
      assert t[k] == esc[k];
    }
    FindIs(t, "\"", |esc|);
    assert t[..|esc|] == esc;
  }

  /** Text that is empty or starts a new field with a comma. */
  predicate CommaLed(s: string) {
    s == [] || s[0] == ','
  }

  lemma CommaLedAppend(a: string, b: string)
    requires CommaLed(a) && CommaLed(b)
    ensures CommaLed(a + b)
  {
    if a != [] {
      assert (a + b)[0] == a[0];
    }
  }

  /** Every field after the level starts with a comma. */
  lemma LaterFieldsCommaLed(d: SetDetails)
    requires d.moves.Some?
    ensures |LaterFields(d)| > 0 && LaterFields(d)[0] == ','
  {
    var a := StatsField("evs", d.evs);
    var b := StatsField("ivs", d.ivs);
    var c := TextField("nature", d.nature);
    var e := TextField("ability", d.ability);
    var f := TextField("item", d.item);
    var g := MovesField(d.moves.value);
    CommaLedAppend(a, b);
    CommaLedAppend(a + b, c);
    CommaLedAppend(a + b + c, e);
    CommaLedAppend(a + b + c + e, f);
    CommaLedAppend(a + b + c + e + f, g);
    assert LaterFields(d) == a + b + c + e + f + g;
  }

  /** Decimal digits followed by a comma read back as their value. */
  lemma DigitsReadBack(level: nat, rest: string)
    requires |rest| > 0 && rest[0] == ','
    ensures var t := "\"level\":" + DecimalText(level) + rest; var n := |DecimalText(level)|;
            8 + n < |t| && t[..8] == "\"level\":" && t[8 + n] == ','
            && (forall k :: 8 <= k < 8 + n ==> '0' <= t[k] <= '9')
            && DecimalValue(t[8..8 + n]) == level
  {
    var digits := DecimalText(level);
    var t := "\"level\":" + digits + rest;
    assert t[8..8 + |digits|] == digits;
    assert t[8 + |digits|] == rest[0];
    DecimalRoundTrip(level);
  }

  /** The level is written as its decimal digits up to the next field's
      comma, and they read back as the level. */
  lemma LevelReadBack(d: SetDetails)
    requires d.moves.Some?
    ensures var t := EntryFields(d); var n := |DecimalText(d.level)|;
            8 + n < |t| && t[..8] == "\"level\":" && t[8 + n] == ','
            && (forall k :: 8 <= k < 8 + n ==> '0' <= t[k] <= '9')
            && DecimalValue(t[8..8 + n]) == d.level
  {
    LaterFieldsCommaLed(d);
    DigitsReadBack(d.level, LaterFields(d));
  }

  /** A "nature", "ability" or "item" field is written exactly when the set
      has the value; its text is `,"key":"` and the value up to the next
      `"`, which closes it. */
  lemma TextFieldReadBack(key: string, v: Option<string>)
    ensures TextField(key, v) == "" <==> v.None?
    ensures v.Some? && '"' !in v.value ==>
              var t := TextField(key, v); var pre := ",\"" + key + "\":\"";
              && |t| == |pre| + |v.value| + 1 && t[..|pre|] == pre
              && Find(t[|pre|..], "\"") == |v.value| && t[|pre|..][..|v.value|] == v.value
              && t[|t| - 1] == '"'
  {
    if v.Some? && '"' !in v.value {
      var t := TextField(key, v);
      var pre := ",\"" + key + "\":\"";
      var u := t[|pre|..];
      assert u == v.value + "\"";
      assert OccursAt(u, "\"", |v.value|);
      forall k | 0 <= k < |v.value| ensures !OccursAt(u, "\"", k) {
        assert u[k] == v.value[k];
      }
      FindIs(u, "\"", |v.value|);
      assert u[..|v.value|] == v.value;
    }
  }

  /** An "evs" or "ivs" field is written exactly when the set has the
      dictionary; its text is `,"key":{`, the entries, and a closing `}`,
      and with no comma in any code or value the inside splits on commas
      into one entry per stat. */
  lemma StatsFieldReadBack(key: string, st: Option<Stats>)
    ensures StatsField(key, st) == "" <==> st.None?
    ensures st.Some? && |st.value| >= 1 && (forall i :: 0 <= i < |st.value| ==> ',' !in st.value[i].0 && ',' !in st.value[i].1) ==>
              var t := StatsField(key, st); var pre := ",\"" + key + "\":{";
              && |t| > |pre| && t[..|pre|] == pre && t[|t| - 1] == '}'
              && SplitOn(t[|pre|..|t| - 1], ',') == StatItems(st.value)
  {
    if st.Some? && |st.value| >= 1 && (forall i :: 0 <= i < |st.value| ==> ',' !in st.value[i].0 && ',' !in st.value[i].1) {
      var t := StatsField(key, st);
      var pre := ",\"" + key + "\":{";
      assert t == pre + StatsText(st.value) + "}";
      assert t[|pre|..|t| - 1] == StatsText(st.value);
      StatsReadBack(st.value);
    }
  }

  /** Lines 215-228 for one of "evs" and "ivs". */
  method StatsFieldStream(key: string, st: Option<Stats>) returns (s: string)
    ensures s == "" <==> st.None?
    ensures s == StatsField(key, st)
  {
    s := "";
    if st.Some? {
      var t := StatsStream(st.value);
      s := ",\"" + key + "\":{" + t + "}";
    }
  }

  /** Lines 211-239 for one set. */
  method EntryStream(e: Entry) returns (s: string)
    requires e.details.moves.Some?
    ensures s == EntryText(e)
  {
    var d := e.details;
    var later := StatsFieldStream("evs", d.evs);
    var f := StatsFieldStream("ivs", d.ivs);
    later := later + f;
    later := later + TextField("nature", d.nature);
    later := later + TextField("ability", d.ability);
    later := later + TextField("item", d.item);
    var m := MovesStream(d.moves.value);
    later := later + (",\"moves\":[\"" + m + "]}");
    s := "\"" + Replace(e.name, "\"", "\\u0022") + "\":{" + ("\"level\":" + DecimalText(d.level) + later);
  }

  /** Every set of a species has moves to write. */
  predicate AllHaveMoves(sets: seq<Entry>) {
    forall i :: 0 <= i < |sets| ==> sets[i].details.moves.Some?
  }

  function EntryTexts(sets: seq<Entry>): (r: seq<string>)
    requires AllHaveMoves(sets)
    ensures |r| == |sets| && forall i :: 0 <= i < |sets| ==> r[i] == EntryText(sets[i])
  {
    seq(|sets|, i requires 0 <= i < |sets| => EntryText(sets[i]))
  }

  /** Adding the next text to a join of the earlier ones, after a separator
      unless it is the first, is the join of one more. */
  lemma JoinExtend(sep: string, xs: seq<string>, i: nat, acc: string)
    requires i < |xs| && acc == Join(sep, xs[..i])
    ensures (if i == 0 then acc else acc + sep) + xs[i] == Join(sep, xs[..i + 1])
  {
    assert xs[..i + 1] == xs[..i] + [xs[i]];
    if i > 0 {
      JoinSnoc(sep, xs[..i], xs[i]);
    } else {
      assert xs[..0] == [];
    }
  }

  /** The sets of a species, each after a comma but the first. */
  function SetsText(sets: seq<Entry>): string
    requires AllHaveMoves(sets)
  {
    Join(",", EntryTexts(sets))
  }

  /** Lines 208-210 as written, over the sets and their texts: the comma is
      left out before every set equal to the first as a dictionary, not
      only before the first. */
  function JoinAsWritten(sets: seq<Entry>, texts: seq<string>, k: nat): string
    requires k <= |sets| == |texts|
  {
    if k == 0 then ""
    else JoinAsWritten(sets, texts, k - 1) + (if !SameEntry(sets[k - 1], sets[0]) then "," else "") + texts[k - 1]
  }

  function SetsTextAsWritten(sets: seq<Entry>): string
    requires AllHaveMoves(sets)
  {
    JoinAsWritten(sets, EntryTexts(sets), |sets|)
  }

  /** When no later set equals the first as a dictionary, the test by value
      is the test by position. */
  lemma {:induction false} AsWrittenAgrees(sets: seq<Entry>, texts: seq<string>, k: nat)
    requires k <= |sets| == |texts|
    requires forall i :: 0 < i < |sets| ==> !SameEntry(sets[i], sets[0])
    ensures JoinAsWritten(sets, texts, k) == Join(",", texts[..k])
  {
    if k > 0 {
      AsWrittenAgrees(sets, texts, k - 1);
      JoinExtend(",", texts, k - 1, JoinAsWritten(sets, texts, k - 1));
    } else {
      assert texts[..0] == [];
    }
  }

  /** So for such a species the text as written is the comma-separated list. */
  lemma AsWrittenAgreesAll(sets: seq<Entry>)
    requires AllHaveMoves(sets)
    requires forall i :: 0 < i < |sets| ==> !SameEntry(sets[i], sets[0])
    ensures SetsTextAsWritten(sets) == SetsText(sets)
  {
    var texts := EntryTexts(sets);
    AsWrittenAgrees(sets, texts, |sets|);
    assert texts[..|sets|] == texts;
  }

  /** A second set equal to the first as a dictionary: no comma between
      their texts. */
  lemma RepeatedJoin(e: Entry, f: Entry, t: string, u: string)
    requires SameEntry(f, e)
    ensures JoinAsWritten([e, f], [t, u], 2) == t + u
    ensures Join(",", [t, u]) == t + "," + u
  {
    assert JoinAsWritten([e, f], [t, u], 1) == "" + "" + t;
    assert [t, u][1..] == [u];
  }

  /** A species whose second set repeats its first loses the comma between
      them: the text is one character shorter than a comma-separated list. */
  lemma RepeatedSetLosesComma(e: Entry)
    requires e.details.moves.Some?
    ensures SetsTextAsWritten([e, e]) == EntryText(e) + EntryText(e)
    ensures SetsText([e, e]) == EntryText(e) + "," + EntryText(e)
    ensures |SetsTextAsWritten([e, e])| + 1 == |SetsText([e, e])|
  {
    var t := EntryText(e);
    assert EntryTexts([e, e]) == [t, t];
    SameEntryReflexive(e);
    RepeatedJoin(e, e, t, t);
  }

  /** The same holds for two sets that differ only in the order their evs
      were read ("evs: 4 Atk / 8 Spe" and "evs: 8 Spe / 4 Atk"): the
      dictionaries are equal, so the second loses its comma although its
      text differs. */
  lemma ReorderedSetLosesComma(e: Entry)
    requires e.details.moves.Some? && e.details.evs == Some([("at", "4"), ("sp", "8")])
    ensures var f := Entry(e.name, e.details.(evs := Some([("sp", "8"), ("at", "4")])));
            && f != e
            && SetsTextAsWritten([e, f]) == EntryText(e) + EntryText(f)
            && SetsText([e, f]) == EntryText(e) + "," + EntryText(f)
  {
    var f := Entry(e.name, e.details.(evs := Some([("sp", "8"), ("at", "4")])));
    ReorderedStatsSame();
    assert f.details.evs != e.details.evs;
    assert SameStats(f.details.evs.value, e.details.evs.value);
    SameEntryReflexive(e);
    assert SameEntry(f, e);
    var t, u := EntryText(e), EntryText(f);
    assert EntryTexts([e, f]) == [t, u];
    RepeatedJoin(e, f, t, u);
  }

  /** `"species":{` and its sets. */
  function SpeciesText(pokemon: string, sets: seq<Entry>): string
    requires AllHaveMoves(sets)
  {
    "\"" + EscapeSpecies(pokemon) + "\":{" + SetsText(sets)
  }

  /** Lines 205-239 for one species, with the comma placed by position. */
  method SpeciesStream(pokemon: string, sets: seq<Entry>) returns (s: string)
    requires AllHaveMoves(sets)
    ensures s == SpeciesText(pokemon, sets)
  {
    ghost var texts := EntryTexts(sets);
    var body := "";
    for i := 0 to |sets|
      invariant body == Join(",", texts[..i])
    {
      var t := EntryStream(sets[i]);
      JoinExtend(",", texts, i, body);
      if i != 0 {
        body := body + ",";
      }
      body := body + t;
    }
    assert texts[..|sets|] == texts;
    s := "\"" + Replace(pokemon, "'", "\\u0027") + "\":{" + body;
  }

  /** An order of the setdex's species: each key exactly once. */
  ghost predicate IsOrderOf(order: seq<string>, m: Sets) {
    && (forall i, j :: 0 <= i < j < |order| ==> order[i] != order[j])
    && (forall k :: k in m <==> k in order)
  }

  predicate Writable(m: Sets) {
    forall k :: k in m ==> AllHaveMoves(m[k])
  }

  function SpeciesTexts(m: Sets, order: seq<string>): (r: seq<string>)
    requires Writable(m) && forall i :: 0 <= i < |order| ==> order[i] in m
    ensures |r| == |order| && forall i :: 0 <= i < |order| ==> r[i] == SpeciesText(order[i], m[order[i]])
  {
    seq(|order|, i requires 0 <= i < |order| => SpeciesText(order[i], m[order[i]]))
  }

  /** The setdex text: the species in the given order, each but the last
      closed and followed by a comma. */
  function SetdexText(m: Sets, order: seq<string>): string
    requires Writable(m) && IsOrderOf(order, m)
  {
    Join("},", SpeciesTexts(m, order))
  }

  /** Every species of the setdex, with all its sets, is in the text. */
  lemma SetdexHasEverySpecies(m: Sets, order: seq<string>, k: string)
    requires Writable(m) && IsOrderOf(order, m) && k in m
    ensures IsSubstring(SpeciesText(k, m[k]), SetdexText(m, order))
  {
    var texts := SpeciesTexts(m, order);
    JoinPieces("},", texts);
    var i :| 0 <= i < |order| && order[i] == k;
    assert texts[i] == SpeciesText(k, m[k]);
  }

  /** `parse_setdex(setdex)`, with `order` standing for the order in which
      the dictionary yields its species. */
  method ParseSetdex(m: Sets, order: seq<string>) returns (stream: string)
    requires Writable(m) && IsOrderOf(order, m)
    ensures stream == SetdexText(m, order)
  {
    ghost var texts := SpeciesTexts(m, order);
    stream := "";
    for i := 0 to |order|
      invariant stream == Join("},", texts[..i])
      invariant i > 0 <==> stream != ""
    {
      stream := StreamSpecies(stream, m, order, texts, i);
    }
    assert texts[..|order|] == texts;
  }

  /** One turn of the species loop: the species after the text so far,
      closing the previous species first unless there is none. */
  method StreamSpecies(stream: string, m: Sets, order: seq<string>, ghost texts: seq<string>, i: nat)
    returns (r: string)
    requires Writable(m) && IsOrderOf(order, m) && i < |order| && texts == SpeciesTexts(m, order)
    requires stream == Join("},", texts[..i]) && (i > 0 <==> stream != "")
    ensures r == Join("},", texts[..i + 1]) && r != ""
  {
    var pokemon := order[i];
    var sets := m[pokemon];
    var t := SpeciesStream(pokemon, sets);
    JoinExtend("},", texts, i, stream);
    r := stream;
    if r != "" {
      r := r + "},";
    }
    r := r + t;
  }

  /** What the collection files can always be written: every set has a
      moves list, and it has four moves, so it renders as an array. */
  lemma CollectedWritable(m: Sets)
    requires Collector.WellFiled(m)
    ensures Writable(m)
    ensures forall k, i :: k in m && 0 <= i < |m[k]| ==> |m[k][i].details.moves.value| == 4
  {
    forall k, i | k in m && 0 <= i < |m[k]|
      ensures m[k][i].details.moves.Some? && |m[k][i].details.moves.value| == 4
    {
      assert m[k][i] in m[k];
    }
  }
}
