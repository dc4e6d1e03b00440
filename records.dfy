/** The values the parser builds: a set's details (the `sdet` dictionary),
    its stat dictionaries, a labelled set, and the failures that end a run. */
module Records {
  import opened PyStr

  datatype Option<T> = None | Some(value: T)

  /** The `KeyError`s the parser can raise. */
  datatype Failure =
    | UnknownStat(stat: string)     // a stat label missing from `rename_stat`
    | MissingMoves(setName: string) // a kept set with no `moves` entry, named by its set label

  datatype Result<T> = Ok(value: T) | Err(failure: Failure)

  /** The outcome of collecting one analysis file. */
  datatype Outcome = Done | Failed(failure: Failure)

  /** A stat dictionary: (stat code, value text) pairs, one per code, in the
      order the codes were first stored. */
  type Stats = seq<(string, string)>

  function Codes(st: Stats): (r: seq<string>)
    ensures |r| == |st|
    ensures forall k :: 0 <= k < |st| ==> r[k] == st[k].0
  {
    if st == [] then [] else [st[0].0] + Codes(st[1..])
  }

  predicate Distinct(xs: seq<string>) {
    forall i, j :: 0 <= i < j < |xs| ==> xs[i] != xs[j]
  }

  /** `stats[code]`, if stored. */
  function Lookup(st: Stats, code: string): (r: Option<string>)
    ensures r.None? <==> code !in Codes(st)
    ensures r.Some? ==> (code, r.value) in st
  {
    if st == [] then None
    else if st[0].0 == code then Some(st[0].1)
    else Lookup(st[1..], code)
  }

  /** `stats[code] = value`: an existing code keeps its place and takes the
      new value; a new one is stored last. */
  function Put(st: Stats, code: string, value: string): (r: Stats)
    ensures |r| >= |st|
  {
    if st == [] then [(code, value)]
    else if st[0].0 == code then [(code, value)] + st[1..]
    else [st[0]] + Put(st[1..], code, value)
  }

  /** After `Put`, the code reads back the new value and every other code
      reads what it read before. */
  lemma {:induction false} PutLookup(st: Stats, code: string, value: string)
    ensures Lookup(Put(st, code, value), code) == Some(value)
    ensures forall c :: c != code ==> Lookup(Put(st, code, value), c) == Lookup(st, c)
  {
    if st != [] && st[0].0 != code {
      PutLookup(st[1..], code, value);
      assert Put(st, code, value) == [st[0]] + Put(st[1..], code, value);
    }
  }

  /** Where `Put` stores its code. */
  lemma {:induction false} PutCodes(st: Stats, code: string, value: string)
    ensures code in Codes(st) ==> Codes(Put(st, code, value)) == Codes(st)
    ensures code !in Codes(st) ==> Codes(Put(st, code, value)) == Codes(st) + [code]
  {
    if st != [] {
      var rest := Put(st[1..], code, value);
      assert Codes(st) == [st[0].0] + Codes(st[1..]);
      if st[0].0 != code {
        PutCodes(st[1..], code, value);
        assert Put(st, code, value) == [st[0]] + rest;
        assert Codes([st[0]] + rest) == [st[0].0] + Codes(rest);
      } else {
        assert Codes([(code, value)] + st[1..]) == [code] + Codes(st[1..]);
      }
    } else {
      assert Codes([(code, value)]) == [code];
    }
  }

  /** Every pair `Put` leaves is the new one or an old one. */
  lemma {:induction false} PutPairs(st: Stats, code: string, value: string)
    ensures forall p :: p in Put(st, code, value) ==> p == (code, value) || p in st
  {
    if st != [] && st[0].0 != code {
      PutPairs(st[1..], code, value);
      assert Put(st, code, value) == [st[0]] + Put(st[1..], code, value);
    }
  }

  /** A dictionary's codes never repeat. */
  lemma PutDistinct(st: Stats, code: string, value: string)
    requires Distinct(Codes(st))
    ensures Distinct(Codes(Put(st, code, value)))
  {
    PutCodes(st, code, value);
  }

  /** `rename_stat`: the labels an analysis uses for a stat, lower-cased, to the calculator's codes. */
  const RenameStat: map<string, string> := map[
    "hp" := "hp", "atk" := "at", "def" := "df", "spa" := "sa",
    "spd" := "sd", "spe" := "sp", "spdef" := "sd", "speed" := "sp"]

  const StatCodes: set<string> := {"hp", "at", "df", "sa", "sd", "sp"}

  /** Eight labels reach exactly the six codes. */
  lemma RenameStatOntoCodes()
    ensures |RenameStat.Keys| == 8
    ensures forall l :: l in RenameStat ==> RenameStat[l] in StatCodes
    ensures forall c :: c in StatCodes ==> exists l :: l in RenameStat && RenameStat[l] == c
  {
    assert RenameStat["hp"] == "hp" && RenameStat["atk"] == "at" && RenameStat["def"] == "df";
    assert RenameStat["spa"] == "sa" && RenameStat["spd"] == "sd" && RenameStat["spe"] == "sp";
  }

  /** Every label of `rename_stat` reaches one of the six codes. */
  lemma RenamedIsCode(name: string)
    requires name in RenameStat
    ensures RenameStat[name] in StatCodes
  {
    assert name in {"hp", "atk", "def", "spa", "spd", "spe", "spdef", "speed"};
  }

  /** The `sdet` dictionary: `level` is always present, every other key may be absent. */
  datatype SetDetails = SetDetails(
    level: nat,
    evs: Option<Stats>,
    ivs: Option<Stats>,
    nature: Option<string>,
    ability: Option<string>,
    item: Option<string>,
    moves: Option<seq<string>>)

  /** `{set_name: set_details}`, one element of a species' list in the setdex. */
  datatype Entry = Entry(name: string, details: SetDetails)

  /** Python's `==` on two stat dictionaries: the same codes, each with the
      same value, in whatever order they were stored. */
  predicate SameStats(a: Stats, b: Stats) {
    && (forall c :: c in Codes(a) ==> Lookup(b, c) == Lookup(a, c))
    && (forall c :: c in Codes(b) ==> Lookup(a, c) == Lookup(b, c))
  }

  /** The test looks only at stored codes, and is exactly "every code reads
      the same in both". */
  lemma SameStatsLookup(a: Stats, b: Stats)
    ensures SameStats(a, b) ==> forall c :: Lookup(a, c) == Lookup(b, c)
    ensures (forall c :: Lookup(a, c) == Lookup(b, c)) ==> SameStats(a, b)
  {
    if SameStats(a, b) {
      forall c ensures Lookup(a, c) == Lookup(b, c) {
        if c !in Codes(a) && c !in Codes(b) {
          assert Lookup(a, c).None? && Lookup(b, c).None?;
        }
      }
    }
  }

  predicate SameOptStats(a: Option<Stats>, b: Option<Stats>) {
    a.None? == b.None? && (a.Some? ==> SameStats(a.value, b.value))
  }

  /** Python's `==` on two `{set_name: sdet}` dictionaries: the same label,
      and `sdet` with the same keys holding equal values. Only the stat
      dictionaries ignore order; the moves are a list. */
  predicate SameEntry(x: Entry, y: Entry) {
    var d, e := x.details, y.details;
    && x.name == y.name
    && d.level == e.level
    && SameOptStats(d.evs, e.evs)
    && SameOptStats(d.ivs, e.ivs)
    && d.nature == e.nature && d.ability == e.ability && d.item == e.item
    && d.moves == e.moves
  }

  /** Equal values are equal dictionaries. */
  lemma SameEntryReflexive(x: Entry)
    ensures SameEntry(x, x)
  {
  }

  /** "evs: 4 Atk / 8 Spe" and "evs: 8 Spe / 4 Atk" store their codes in
      different orders, yet the dictionaries are equal. */
  lemma ReorderedStatsSame()
    ensures [("at", "4"), ("sp", "8")] != [("sp", "8"), ("at", "4")]
    ensures SameStats([("at", "4"), ("sp", "8")], [("sp", "8"), ("at", "4")])
  {
    var a: Stats := [("at", "4"), ("sp", "8")];
    var b: Stats := [("sp", "8"), ("at", "4")];
    assert a[0] != b[0];
    forall c ensures Lookup(a, c) == Lookup(b, c) {
      assert a[1..] == [("sp", "8")] && b[1..] == [("at", "4")];
      assert a[1..][1..] == [] && b[1..][1..] == [];
    }
    SameStatsLookup(a, b);
  }

  /** The level a tier plays at: 5 for Little Cup, 50 for the VGC formats, 100 otherwise. */
  function LevelOf(tier: string): (n: nat)
    ensures n == 5 <==> tier == "LC"
    ensures n == 50 <==> tier != "LC" && |tier| >= 3 && tier[..3] == "VGC"
    ensures n == 100 <==> tier != "LC" && !(|tier| >= 3 && tier[..3] == "VGC")
  {
    if tier != "LC" && Slice(tier, 0, 3) != "VGC" then 100
    else if tier == "LC" then 5
    else 50
  }
}
