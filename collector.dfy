/** The per-file loop of `parse_scms`: each "name" line of an analysis
    starts a set, which is labelled, filtered and filed into the setdex
    under the species, its "-P", "-Shield"/"-Blade" formes or its evolved
    forme. */
module Collector {
  import opened PyStr
  import opened Records
  import opened Reader
  import opened Naming
  import opened Details
  import opened Mega
  import opened Dex

  /** `subdir[len(directory)+1:]`: the tier directory below the root. */
  function TierOf(directory: string, subdir: string): string {
    Slice(subdir, |directory| + 1, |subdir|)
  }

  /** A tier directory directly below the root is named by its tier. */
  lemma TierOfSubdir(directory: string, tier: string)
    ensures TierOf(directory, directory + "/" + tier) == tier
  {
    var s := directory + "/" + tier;
    assert s[|directory| + 1..] == tier;
  }

  /** `subdir[subdir.rfind("/")-2:subdir.rfind("/")]`: the two characters
      before the last "/", the generation's directory name. */
  function GenOf(subdir: string): string {
    Slice(subdir, RFind(subdir, "/") - 2, RFind(subdir, "/"))
  }

  /** Below ".../gs/", ".../rb/" and the like, the generation is that name. */
  lemma GenOfSubdir(root: string, gen: string, tier: string)
    requires |gen| == 2 && '/' !in tier
    ensures GenOf(root + gen + "/" + tier) == gen
  {
    var s := root + gen + "/" + tier;
    var n := |root| + 2;
    assert s[n] == '/';
    assert OccursAt(s, "/", n);
    RFindSpec(s, "/");
    var r := RFind(s, "/");
    assert n <= r;
    assert s[r..r + 1] == "/";
    forall k | n < k < |s| ensures s[k] != '/' {
      assert s[k] == tier[k - n - 1];
    }
    assert r == n;
    assert s[n - 2..n] == gen;
  }

  /** The label of the set on a stripped "name" line: from the first "[" for
      unreleased Pokemon, otherwise the tier, a space and what follows the
      line's first space. */
  function SetLabel(tier: string, line: string): string {
    if tier == "Unreleased" then Slice(line, Find(line, "["), |line|)
    else tier + " " + Slice(line, Find(line, " ") + 1, |line|)
  }

  /** A released tier's label is the tier, a space and the text after the
      line's first space (all of the line when it has none). */
  lemma ReleasedLabel(tier: string, line: string)
    requires tier != "Unreleased"
    ensures Contains(line, " ") ==> 0 <= Find(line, " ") && SetLabel(tier, line) == tier + " " + line[Find(line, " ") + 1..]
    ensures !Contains(line, " ") ==> SetLabel(tier, line) == tier + " " + line
  {
    FindSpec(line, " ");
  }

  /** An unreleased set's label is its line from the first "[". */
  lemma UnreleasedLabel(line: string)
    requires Contains(line, "[")
    ensures 0 <= Find(line, "[") && SetLabel("Unreleased", line) == line[Find(line, "[")..]
    ensures SetLabel("Unreleased", line)[0] == '['
  {
    FindSpec(line, "[");
  }

  /** Sets the analyses give for other levels (the "FEAR" sets): their labels
      mention "Level" or "Lv.". */
  predicate IsFearLabel(name: string) {
    Find(name, "Level") > -1 || Find(name, "Lv.") > -1
  }

  /** The "-P" forme's append, made for sets with Relic Song. */
  function RelicRoutes(pokemon: string, e: Entry): (r: Routes)
    requires e.details.moves.Some?
    ensures |r| <= 1
  {
    if "Relic Song" in e.details.moves.value then [(pokemon + "-P", e)] else []
  }

  /** The evolved forme's append, made for sets holding a stone. */
  function MegaRoutes(pokemon: string, setName: string, d: SetDetails): (r: Routes)
    requires d.moves.Some?
    ensures |r| <= 1
  {
    if HasMegastone(d) then [(MegaName(pokemon, d.item.value), Entry(setName, MegaDetails(pokemon, d)))] else []
  }

  /** The appends one kept set makes, in order: the "-P" forme for Relic
      Song, then either both Aegislash formes and nothing else, or the
      evolved forme when there is a stone and the species itself. */
  function SetRoutes(pokemon: string, setName: string, d: SetDetails): (r: Routes)
    requires d.moves.Some?
  {
    var e := Entry(setName, d);
    if pokemon == "Aegislash" then RelicRoutes(pokemon, e) + [(pokemon + "-Shield", e), (pokemon + "-Blade", e)]
    else RelicRoutes(pokemon, e) + MegaRoutes(pokemon, setName, d) + [(pokemon, e)]
  }

  /** Where a kept set is filed: Relic Song sets (and only they) under
      "P-P"; Aegislash sets under both formes and never under "Aegislash";
      every other set last under its own species, unchanged, and before
      that under its evolved forme exactly when it holds a stone. */
  lemma SetRoutesShape(pokemon: string, setName: string, d: SetDetails)
    requires d.moves.Some?
    ensures var r := SetRoutes(pokemon, setName, d);
            var e := Entry(setName, d);
            && 1 <= |r| <= 3
            && (forall i :: 0 <= i < |r| ==> r[i].1 == e || (d.item.Some? && r[i].1 == Entry(setName, MegaDetails(pokemon, d))))
            && ((exists i :: 0 <= i < |r| && r[i].0 == pokemon + "-P") <==> "Relic Song" in d.moves.value)
            && ("Relic Song" in d.moves.value ==> r[0] == (pokemon + "-P", e))
            && (pokemon == "Aegislash" ==> (pokemon + "-Shield", e) in r && (pokemon + "-Blade", e) in r)
            && (pokemon == "Aegislash" ==> forall i :: 0 <= i < |r| ==> r[i].0 != pokemon && r[i].1 == e)
            && (pokemon != "Aegislash" ==> r[|r| - 1] == (pokemon, e))
            && (pokemon != "Aegislash" && HasMegastone(d) ==>
                  (MegaName(pokemon, d.item.value), Entry(setName, MegaDetails(pokemon, d))) in r)
            && (pokemon != "Aegislash" && !HasMegastone(d) ==> forall i :: 0 <= i < |r| ==> r[i].1 == e)
  {
    if pokemon == "Aegislash" {
      AegislashRoutes(pokemon, setName, d);
    } else {
      SpeciesRoutes(pokemon, setName, d);
    }
    RelicRoutesShape(pokemon, setName, d);
  }

  lemma AegislashRoutes(pokemon: string, setName: string, d: SetDetails)
    requires d.moves.Some? && pokemon == "Aegislash"
    ensures var r := SetRoutes(pokemon, setName, d);
            var e := Entry(setName, d);
            && 2 <= |r| <= 3
            && (pokemon + "-Shield", e) in r && (pokemon + "-Blade", e) in r
            && forall i :: 0 <= i < |r| ==> r[i].0 != pokemon && r[i].1 == e
  {
    var e := Entry(setName, d);
    var relic := RelicRoutes(pokemon, e);
    var r := SetRoutes(pokemon, setName, d);
    assert r == relic + [(pokemon + "-Shield", e), (pokemon + "-Blade", e)];
    assert r[|relic|] == (pokemon + "-Shield", e) && r[|relic| + 1] == (pokemon + "-Blade", e);
    forall i | 0 <= i < |r| ensures r[i].0 != pokemon && r[i].1 == e {
      if i < |relic| {
        assert r[i] == relic[i];
      }
    }
  }

  lemma SpeciesRoutes(pokemon: string, setName: string, d: SetDetails)
    requires d.moves.Some? && pokemon != "Aegislash"
    ensures var r := SetRoutes(pokemon, setName, d);
            var e := Entry(setName, d);
            && 1 <= |r| <= 3
            && r[|r| - 1] == (pokemon, e)
            && (forall i :: 0 <= i < |r| ==> r[i].1 == e || (d.item.Some? && r[i].1 == Entry(setName, MegaDetails(pokemon, d))))
            && (HasMegastone(d) ==> (MegaName(pokemon, d.item.value), Entry(setName, MegaDetails(pokemon, d))) in r)
            && (!HasMegastone(d) ==> forall i :: 0 <= i < |r| ==> r[i].1 == e)
  {
    var e := Entry(setName, d);
    var relic := RelicRoutes(pokemon, e);
    var mega := MegaRoutes(pokemon, setName, d);
    var r := SetRoutes(pokemon, setName, d);
    assert r == relic + mega + [(pokemon, e)];
    forall i | 0 <= i < |r| ensures r[i].1 == e || (d.item.Some? && r[i].1 == Entry(setName, MegaDetails(pokemon, d))) {
      if i < |relic| {
        assert r[i] == relic[i];
      } else if i < |relic| + |mega| {
        assert r[i] == mega[i - |relic|];
      }
    }
    if HasMegastone(d) {
      assert r[|relic|] == mega[0];
    } else {
      forall i | 0 <= i < |r| ensures r[i].1 == e {
        if i < |relic| {
          assert r[i] == relic[i];
        }
      }
    }
  }

  /** Only the Relic Song append is filed under "P-P": every other key is
      longer or shorter. */
  lemma RelicRoutesShape(pokemon: string, setName: string, d: SetDetails)
    requires d.moves.Some?
    ensures var r := SetRoutes(pokemon, setName, d);
            && ((exists i :: 0 <= i < |r| && r[i].0 == pokemon + "-P") <==> "Relic Song" in d.moves.value)
            && ("Relic Song" in d.moves.value ==> r[0] == (pokemon + "-P", Entry(setName, d)))
  {
    var e := Entry(setName, d);
    var relic := RelicRoutes(pokemon, e);
    var mega := MegaRoutes(pokemon, setName, d);
    var r := SetRoutes(pokemon, setName, d);
    if HasMegastone(d) && pokemon != "Aegislash" {
      assert |MegaName(pokemon, d.item.value)| >= |pokemon| + 5;
    }
    if "Relic Song" in d.moves.value {
      assert r[0] == relic[0];
    } else {
      forall i | 0 <= i < |r| ensures r[i].0 != pokemon + "-P" {
        if pokemon == "Aegislash" {
          assert r == [(pokemon + "-Shield", e), (pokemon + "-Blade", e)];
        } else {
          assert r == mega + [(pokemon, e)];
          if i < |mega| {
            assert r[i] == mega[i];
          }
        }
      }
    }
  }

  /** What `parse_scms` gathers from one analysis: the appends in order, and
      the `KeyError` that stopped it, if any. */
  datatype Collected = Collected(routes: Routes, failure: Option<Failure>)

  /** The label of the set a raw line starts: the line must begin with
      "name" once stripped, and FEAR sets start nothing. */
  function SetStart(tier: string, raw: string): (r: Option<string>)
    ensures r.Some? ==> !IsFearLabel(r.value)
  {
    var line := Strip(raw);
    if Slice(line, 0, 4) != "name" then None
    else
      var setName := SetLabel(tier, line);
      if IsFearLabel(setName) then None else Some(setName)
  }

  /** Sets without a nature are kept only for the first two generations. */
  predicate Keeps(gen: string, d: SetDetails) {
    !(d.nature.None? && gen != "gs" && gen != "rb")
  }

  /** What the loop needs of the reader of a set's details: it may start at
      any cursor and, when it succeeds, it leaves the cursor at or after the
      start. */
  ghost predicate ReaderOn(read: (string, seq<string>, nat) --> Result<(SetDetails, nat)>, tier: string, lines: seq<string>) {
    forall q: nat :: q <= |lines| ==>
      && read.requires(tier, lines, q)
      && (read(tier, lines, q).Ok? ==> q <= read(tier, lines, q).value.1 <= |lines|)
  }

  /** The `while True` loop from cursor `pos` to the end of the analysis,
      with `read` reading each set's details. */
  function CollectWith(read: (string, seq<string>, nat) --> Result<(SetDetails, nat)>,
                       tier: string, gen: string, pokemon: string, lines: seq<string>, pos: nat): Collected
    requires pos <= |lines| && ReaderOn(read, tier, lines)
    decreases |lines| - pos
  {
    if pos == |lines| then Collected([], None)
    else
      match SetStart(tier, lines[pos])
      case None => CollectWith(read, tier, gen, pokemon, lines, pos + 1)
      case Some(setName) =>
        match read(tier, lines, pos + 1)
        case Err(f) => Collected([], Some(f))
        case Ok((d, p)) =>
          if !Keeps(gen, d) then CollectWith(read, tier, gen, pokemon, lines, p)
          else if d.moves.None? then Collected([], Some(MissingMoves(setName)))
          else
            var rest := CollectWith(read, tier, gen, pokemon, lines, p);
            Collected(SetRoutes(pokemon, setName, d) + rest.routes, rest.failure)
  }

  lemma DetailsReader(tier: string, lines: seq<string>)
    ensures ReaderOn(SetDetailsOf, tier, lines)
  {
  }

  /** The loop with `get_set_details` as the reader. */
  function CollectFrom(tier: string, gen: string, pokemon: string, lines: seq<string>, pos: nat): Collected
    requires pos <= |lines|
  {
    DetailsReader(tier, lines);
    CollectWith(SetDetailsOf, tier, gen, pokemon, lines, pos)
  }

  /** The VGC 2011 and 2012 tiers and Ditto are not read at all. */
  predicate Skipped(tier: string, pokemon: string) {
    tier == "VGC12" || tier == "VGC11" || pokemon == "Ditto"
  }

  /** Everything one analysis file contributes. */
  function FileRoutes(tier: string, gen: string, pokemon: string, lines: seq<string>): (c: Collected)
    ensures Skipped(tier, pokemon) ==> c == Collected([], None)
  {
    if Skipped(tier, pokemon) then Collected([], None) else CollectFrom(tier, gen, pokemon, lines, 0)
  }

  /** A filed set as the loop guarantees it: not a FEAR set, four moves,
      a nature unless the generation is "gs" or "rb", the tier's level and
      well formed stats; and an Aegislash set never under "Aegislash". */
  predicate KeptRoute(tier: string, gen: string, pokemon: string, route: (string, Entry)) {
    var d := route.1.details;
    && !IsFearLabel(route.1.name)
    && d.moves.Some? && DetailsOk(d)
    && (d.nature.Some? || gen == "gs" || gen == "rb")
    && d.level == LevelOf(tier)
    && (pokemon == "Aegislash" ==> route.0 != pokemon)
  }

  /** The two ways a file can stop the run. */
  predicate ExpectedFailure(f: Failure) {
    || (f.UnknownStat? && f.stat !in RenameStat)
    || (f.MissingMoves? && !IsFearLabel(f.setName))
  }

  /** A reader that keeps the tier's level and well formed details, and
      fails only on an unknown stat label. */
  ghost predicate ReaderOk(read: (string, seq<string>, nat) --> Result<(SetDetails, nat)>, tier: string, lines: seq<string>)
    requires ReaderOn(read, tier, lines)
  {
    forall q: nat :: q <= |lines| ==>
      && (read(tier, lines, q).Ok? ==> DetailsOk(read(tier, lines, q).value.0) && read(tier, lines, q).value.0.level == LevelOf(tier))
      && (read(tier, lines, q).Err? ==> read(tier, lines, q).failure.UnknownStat? && read(tier, lines, q).failure.stat !in RenameStat)
  }

  lemma {:induction false} CollectWithShape(read: (string, seq<string>, nat) --> Result<(SetDetails, nat)>,
                                            tier: string, gen: string, pokemon: string, lines: seq<string>, pos: nat)
    requires pos <= |lines| && ReaderOn(read, tier, lines) && ReaderOk(read, tier, lines)
    ensures var c := CollectWith(read, tier, gen, pokemon, lines, pos);
            && (forall i :: 0 <= i < |c.routes| ==> KeptRoute(tier, gen, pokemon, c.routes[i]))
            && (c.failure.Some? ==> ExpectedFailure(c.failure.value))
    decreases |lines| - pos
  {
    if pos < |lines| {
      match SetStart(tier, lines[pos])
      case None =>
        CollectWithShape(read, tier, gen, pokemon, lines, pos + 1);
      case Some(setName) =>
        var sd := read(tier, lines, pos + 1);
        if sd.Ok? {
          var (d, p) := sd.value;
          CollectWithShape(read, tier, gen, pokemon, lines, p);
          if d.moves.Some? && Keeps(gen, d) {
            var own := SetRoutes(pokemon, setName, d);
            var rest := CollectWith(read, tier, gen, pokemon, lines, p);
            assert CollectWith(read, tier, gen, pokemon, lines, pos) == Collected(own + rest.routes, rest.failure);
            OwnRoutesKept(tier, gen, pokemon, setName, d);
            KeptConcat(tier, gen, pokemon, own, rest.routes);
          }
        }
    }
  }

  /** The routes of one set the loop keeps are all kept routes. */
  lemma OwnRoutesKept(tier: string, gen: string, pokemon: string, setName: string, d: SetDetails)
    requires d.moves.Some? && DetailsOk(d) && Keeps(gen, d) && d.level == LevelOf(tier) && !IsFearLabel(setName)
    ensures var own := SetRoutes(pokemon, setName, d);
            forall i :: 0 <= i < |own| ==> KeptRoute(tier, gen, pokemon, own[i])
  {
    var own := SetRoutes(pokemon, setName, d);
    SetRoutesShape(pokemon, setName, d);
    forall i | 0 <= i < |own| ensures KeptRoute(tier, gen, pokemon, own[i]) {
      assert own[i].1.details == d || (d.item.Some? && own[i].1.details == MegaDetails(pokemon, d));
    }
  }

  lemma KeptConcat(tier: string, gen: string, pokemon: string, a: Routes, b: Routes)
    requires forall i :: 0 <= i < |a| ==> KeptRoute(tier, gen, pokemon, a[i])
    requires forall i :: 0 <= i < |b| ==> KeptRoute(tier, gen, pokemon, b[i])
    ensures forall i :: 0 <= i < |a + b| ==> KeptRoute(tier, gen, pokemon, (a + b)[i])
  {
    forall i | 0 <= i < |a + b| ensures KeptRoute(tier, gen, pokemon, (a + b)[i]) {
      if i >= |a| {
        assert (a + b)[i] == b[i - |a|];
      }
    }
  }

  lemma DetailsReaderOk(tier: string, lines: seq<string>)
    ensures ReaderOn(SetDetailsOf, tier, lines) && ReaderOk(SetDetailsOf, tier, lines)
  {
    forall q: nat | q <= |lines| {
      SetDetailsShape(tier, lines, q);
    }
  }

  lemma CollectFromShape(tier: string, gen: string, pokemon: string, lines: seq<string>, pos: nat)
    requires pos <= |lines|
    ensures var c := CollectFrom(tier, gen, pokemon, lines, pos);
            && (forall i :: 0 <= i < |c.routes| ==> KeptRoute(tier, gen, pokemon, c.routes[i]))
            && (c.failure.Some? ==> ExpectedFailure(c.failure.value))
  {
    DetailsReaderOk(tier, lines);
    CollectWithShape(SetDetailsOf, tier, gen, pokemon, lines, pos);
  }

  /** Every set a file contributes is kept as the loop promises, and a file
      that is skipped contributes nothing. */
  lemma FileRoutesShape(tier: string, gen: string, pokemon: string, lines: seq<string>)
    ensures var c := FileRoutes(tier, gen, pokemon, lines);
            && (forall i :: 0 <= i < |c.routes| ==> KeptRoute(tier, gen, pokemon, c.routes[i]))
            && (c.failure.Some? ==> ExpectedFailure(c.failure.value))
  {
    if !Skipped(tier, pokemon) {
      CollectFromShape(tier, gen, pokemon, lines, 0);
    }
  }

  /** Lines that start no set are passed over: the loop from `pos` is the
      loop from `q`. */
  lemma {:induction false} NoSetSkipped(read: (string, seq<string>, nat) --> Result<(SetDetails, nat)>,
                                        tier: string, gen: string, pokemon: string, lines: seq<string>, pos: nat, q: nat)
    requires pos <= q <= |lines| && ReaderOn(read, tier, lines)
    requires forall k :: pos <= k < q ==> SetStart(tier, lines[k]).None?
    ensures CollectWith(read, tier, gen, pokemon, lines, pos) == CollectWith(read, tier, gen, pokemon, lines, q)
    decreases q - pos
  {
    if pos < q {
      NoSetSkipped(read, tier, gen, pokemon, lines, pos + 1, q);
    }
  }

  /** With no set left to start, nothing more is filed and nothing fails. */
  lemma NoSetNothingFiled(read: (string, seq<string>, nat) --> Result<(SetDetails, nat)>,
                          tier: string, gen: string, pokemon: string, lines: seq<string>, pos: nat)
    requires pos <= |lines| && ReaderOn(read, tier, lines)
    requires forall k :: pos <= k < |lines| ==> SetStart(tier, lines[k]).None?
    ensures CollectWith(read, tier, gen, pokemon, lines, pos) == Collected([], None)
  {
    NoSetSkipped(read, tier, gen, pokemon, lines, pos, |lines|);
  }

  /** The next set to start decides the loop: a kept set with moves is filed
      under its routes ahead of everything after it, a set dropped for its
      missing nature files nothing, and a failed read or a kept set with no
      moves ends the loop with that `KeyError`. */
  lemma NextSetDecides(read: (string, seq<string>, nat) --> Result<(SetDetails, nat)>,
                       tier: string, gen: string, pokemon: string, lines: seq<string>, pos: nat, q: nat, setName: string)
    requires pos <= q < |lines| && ReaderOn(read, tier, lines)
    requires forall k :: pos <= k < q ==> SetStart(tier, lines[k]).None?
    requires SetStart(tier, lines[q]) == Some(setName)
    ensures var sd := read(tier, lines, q + 1);
            var c := CollectWith(read, tier, gen, pokemon, lines, pos);
            && (sd.Err? ==> c == Collected([], Some(sd.failure)))
            && (sd.Ok? && !Keeps(gen, sd.value.0) ==> c == CollectWith(read, tier, gen, pokemon, lines, sd.value.1))
            && (sd.Ok? && Keeps(gen, sd.value.0) && sd.value.0.moves.None? ==> c == Collected([], Some(MissingMoves(setName))))
            && (sd.Ok? && Keeps(gen, sd.value.0) && sd.value.0.moves.Some? ==>
                  var rest := CollectWith(read, tier, gen, pokemon, lines, sd.value.1);
                  c == Collected(SetRoutes(pokemon, setName, sd.value.0) + rest.routes, rest.failure))
  {
    NoSetSkipped(read, tier, gen, pokemon, lines, pos, q);
    CollectSet(read, tier, gen, pokemon, lines, q, setName);
  }

  /** With `get_set_details` as the reader: the next set of a file, when
      `get_set_details` reads it, keeps it and finds its moves, is filed
      first under its routes. */
  lemma KeptSetFiled(tier: string, gen: string, pokemon: string, lines: seq<string>, pos: nat, q: nat, setName: string)
    requires pos <= q < |lines|
    requires forall k :: pos <= k < q ==> SetStart(tier, lines[k]).None?
    requires SetStart(tier, lines[q]) == Some(setName)
    requires SetDetailsOf(tier, lines, q + 1).Ok?
    requires Keeps(gen, SetDetailsOf(tier, lines, q + 1).value.0) && SetDetailsOf(tier, lines, q + 1).value.0.moves.Some?
    ensures var (d, p) := SetDetailsOf(tier, lines, q + 1).value;
            var rest := CollectFrom(tier, gen, pokemon, lines, p);
            CollectFrom(tier, gen, pokemon, lines, pos) == Collected(SetRoutes(pokemon, setName, d) + rest.routes, rest.failure)
  {
    DetailsReader(tier, lines);
    NextSetDecides(SetDetailsOf, tier, gen, pokemon, lines, pos, q, setName);
  }

  /** One turn of the loop at a line that starts no set. */
  lemma CollectNoSet(read: (string, seq<string>, nat) --> Result<(SetDetails, nat)>,
                     tier: string, gen: string, pokemon: string, lines: seq<string>, pos: nat)
    requires pos < |lines| && ReaderOn(read, tier, lines) && SetStart(tier, lines[pos]).None?
    ensures CollectWith(read, tier, gen, pokemon, lines, pos) == CollectWith(read, tier, gen, pokemon, lines, pos + 1)
  {
  }

  /** One turn of the loop at a set whose details were read from `pos + 1`. */
  lemma CollectSet(read: (string, seq<string>, nat) --> Result<(SetDetails, nat)>,
                   tier: string, gen: string, pokemon: string, lines: seq<string>, pos: nat, setName: string)
    requires pos < |lines| && ReaderOn(read, tier, lines) && SetStart(tier, lines[pos]) == Some(setName)
    ensures var sd := read(tier, lines, pos + 1);
            var c := CollectWith(read, tier, gen, pokemon, lines, pos);
            && (sd.Err? ==> c == Collected([], Some(sd.failure)))
            && (sd.Ok? && !Keeps(gen, sd.value.0) ==> c == CollectWith(read, tier, gen, pokemon, lines, sd.value.1))
            && (sd.Ok? && Keeps(gen, sd.value.0) && sd.value.0.moves.None? ==> c == Collected([], Some(MissingMoves(setName))))
            && (sd.Ok? && Keeps(gen, sd.value.0) && sd.value.0.moves.Some? ==>
                  var rest := CollectWith(read, tier, gen, pokemon, lines, sd.value.1);
                  c == Collected(SetRoutes(pokemon, setName, sd.value.0) + rest.routes, rest.failure))
  {
  }

  /** The body of the `for file in files` loop, on an opened analysis: files
      of skipped tiers and Ditto are left unread; otherwise every set is
      filed, and a `KeyError` ends the file as `Failed` after the appends
      made before it. */
  method CollectFile(tier: string, gen: string, pokemon: string, analysis: Analysis, setdex: Setdex) returns (o: Outcome)
    requires analysis.Valid() && analysis.pos == 0
    modifies analysis, setdex
    ensures analysis.Valid()
    ensures var c := FileRoutes(tier, gen, pokemon, analysis.lines);
            && setdex.sets == ApplyAll(old(setdex.sets), c.routes)
            && (c.failure.None? ==> o == Done)
            && (c.failure.Some? ==> o == Failed(c.failure.value))
  {
    if tier == "VGC12" || tier == "VGC11" || pokemon == "Ditto" {
      return Done;
    }
    DetailsReader(tier, analysis.lines);
    ghost var spec := CollectWith(SetDetailsOf, tier, gen, pokemon, analysis.lines, 0);
    ghost var goal := ApplyAll(setdex.sets, spec.routes);
    while true
      invariant analysis.Valid()
      invariant ApplyAll(setdex.sets, CollectWith(SetDetailsOf, tier, gen, pokemon, analysis.lines, analysis.pos).routes) == goal
      invariant CollectWith(SetDetailsOf, tier, gen, pokemon, analysis.lines, analysis.pos).failure == spec.failure
      decreases |analysis.lines| - analysis.pos
    {
      ghost var here := analysis.pos;
      var raw := analysis.ReadRaw();
      if raw.None? {
        break;
      }
      var stop := CollectLine(tier, gen, pokemon, raw.value, here, analysis, setdex);
      if stop.Some? {
        return Failed(stop.value);
      }
    }
    return Done;
  }

  /** One turn of the `for line in analysis` loop, on the raw line read from
      `here`: a line that starts no set is passed over; a set is read and,
      when kept, filed. It stops the file with the `KeyError` the set raises,
      or goes on from where the details left the cursor, in step with
      `CollectWith` either way. */
  method CollectLine(tier: string, gen: string, pokemon: string, raw: string, ghost here: nat,
                     analysis: Analysis, setdex: Setdex) returns (stop: Option<Failure>)
    requires analysis.Valid() && here < |analysis.lines| && analysis.lines[here] == raw && analysis.pos == here + 1
    modifies analysis, setdex
    ensures analysis.Valid() && (stop.None? ==> here < analysis.pos)
    ensures var before := CollectWith(SetDetailsOf, tier, gen, pokemon, analysis.lines, here);
            && (stop.None? ==>
                  var after := CollectWith(SetDetailsOf, tier, gen, pokemon, analysis.lines, analysis.pos);
                  && ApplyAll(old(setdex.sets), before.routes) == ApplyAll(setdex.sets, after.routes)
                  && after.failure == before.failure)
            && (stop.Some? ==> before == Collected([], stop) && setdex.sets == old(setdex.sets))
  {
    DetailsReader(tier, analysis.lines);
    var start := SetStart(tier, raw);
    if start.None? {
      CollectNoSet(SetDetailsOf, tier, gen, pokemon, analysis.lines, here);
      return None;
    }
    stop := CollectSetAt(tier, gen, pokemon, start.value, here, analysis, setdex);
  }

  /** The rest of the turn once line `here` started the set `setName`: its
      details are read and, when kept, the set is filed. */
  method CollectSetAt(tier: string, gen: string, pokemon: string, setName: string, ghost here: nat,
                      analysis: Analysis, setdex: Setdex) returns (stop: Option<Failure>)
    requires analysis.Valid() && here < |analysis.lines| && analysis.pos == here + 1
    requires SetStart(tier, analysis.lines[here]) == Some(setName)
    modifies analysis, setdex
    ensures analysis.Valid() && (stop.None? ==> here < analysis.pos)
    ensures var before := CollectWith(SetDetailsOf, tier, gen, pokemon, analysis.lines, here);
            && (stop.None? ==>
                  var after := CollectWith(SetDetailsOf, tier, gen, pokemon, analysis.lines, analysis.pos);
                  && ApplyAll(old(setdex.sets), before.routes) == ApplyAll(setdex.sets, after.routes)
                  && after.failure == before.failure)
            && (stop.Some? ==> before == Collected([], stop) && setdex.sets == old(setdex.sets))
  {
    DetailsReader(tier, analysis.lines);
    CollectSet(SetDetailsOf, tier, gen, pokemon, analysis.lines, here, setName);
    var details := GetSetDetails(tier, analysis);
    if details.Err? {
      return Some(details.failure);
    }
    var d := details.value;
    if d.nature.None? && gen != "gs" && gen != "rb" {
      return None;
    }
    if d.moves.None? {
      return Some(MissingMoves(setName));
    }
    ghost var rest := CollectWith(SetDetailsOf, tier, gen, pokemon, analysis.lines, analysis.pos);
    ApplyAllConcat(setdex.sets, SetRoutes(pokemon, setName, d), rest.routes);
    FileSet(pokemon, setName, d, setdex);
    return None;
  }

  /** The appends of lines 37-45 for one kept set. */
  method FileSet(pokemon: string, setName: string, d: SetDetails, setdex: Setdex)
    requires d.moves.Some?
    modifies setdex
    ensures setdex.sets == ApplyAll(old(setdex.sets), SetRoutes(pokemon, setName, d))
  {
    ghost var start := setdex.sets;
    var e := Entry(setName, d);
    ghost var made := RelicRoutes(pokemon, e);
    if "Relic Song" in d.moves.value {
      setdex.Append(pokemon + "-P", e);
      ApplyAllSnoc(start, [], pokemon + "-P", e);
      assert made == [] + [(pokemon + "-P", e)];
    }
    assert setdex.sets == ApplyAll(start, made);
    if pokemon == "Aegislash" {
      setdex.Append(pokemon + "-Shield", e);
      ApplyAllSnoc(start, made, pokemon + "-Shield", e);
      setdex.Append(pokemon + "-Blade", e);
      ApplyAllSnoc(start, made + [(pokemon + "-Shield", e)], pokemon + "-Blade", e);
      assert made + [(pokemon + "-Shield", e)] + [(pokemon + "-Blade", e)] == SetRoutes(pokemon, setName, d);
      return;
    }
    if HasMegastone(d) {
      AppendMegaEvolution(d, pokemon, setName, setdex);
      ApplyAllSnoc(start, made, MegaName(pokemon, d.item.value), Entry(setName, MegaDetails(pokemon, d)));
      made := made + MegaRoutes(pokemon, setName, d);
    } else {
      assert made + MegaRoutes(pokemon, setName, d) == made;
      made := made + MegaRoutes(pokemon, setName, d);
    }
    setdex.Append(pokemon, e);
    ApplyAllSnoc(start, made, pokemon, e);
  }

  /** One file of the directory walk: its directory, its name and its lines. */
  datatype AnalysisFile = AnalysisFile(subdir: string, file: string, lines: seq<string>)

  /** What one file of the walk contributes below `directory`. */
  function FileOf(directory: string, f: AnalysisFile): Collected {
    FileRoutes(TierOf(directory, f.subdir), GenOf(f.subdir), NamePokemon(f.file), f.lines)
  }

  /** `parse_scms(directory)` over the files of the walk, in walk order,
      starting from the setdex `m`: the first `KeyError` ends the run. */
  function ScmsFrom(directory: string, m: Sets, files: seq<AnalysisFile>): Result<Sets>
    decreases |files|
  {
    if files == [] then Ok(m)
    else
      var c := FileOf(directory, files[0]);
      if c.failure.Some? then Err(c.failure.value)
      else ScmsFrom(directory, ApplyAll(m, c.routes), files[1..])
  }

  /** `parse_scms(directory)`, with the walk given as its list of files. */
  method ParseScms(directory: string, files: seq<AnalysisFile>) returns (r: Result<Sets>)
    ensures r == ScmsFrom(directory, map[], files)
  {
    var setdex := new Setdex();
    for i := 0 to |files|
      invariant ScmsFrom(directory, setdex.sets, files[i..]) == ScmsFrom(directory, map[], files)
    {
      var f := files[i];
      var analysis := new Analysis(f.lines);
      var o := CollectFile(TierOf(directory, f.subdir), GenOf(f.subdir), NamePokemon(f.file), analysis, setdex);
      assert files[i..][1..] == files[i + 1..];
      if o.Failed? {
        return Err(o.failure);
      }
    }
    assert files[|files|..] == [];
    r := Ok(setdex.sets);
  }

  /** Every set the setdex holds has four moves and is no FEAR set. */
  predicate WellFiled(m: Sets) {
    forall k: string, e: Entry :: k in m && e in m[k] ==> e.details.moves.Some? && |e.details.moves.value| == 4 && !IsFearLabel(e.name)
  }

  lemma {:induction false} ApplyKept(m: Sets, routes: Routes, tier: string, gen: string, pokemon: string)
    requires WellFiled(m)
    requires forall i :: 0 <= i < |routes| ==> KeptRoute(tier, gen, pokemon, routes[i])
    ensures WellFiled(ApplyAll(m, routes))
    decreases |routes|
  {
    if routes != [] {
      var m' := AppendAt(m, routes[0].0, routes[0].1);
      forall k: string, e: Entry | k in m' && e in m'[k]
        ensures e.details.moves.Some? && |e.details.moves.value| == 4 && !IsFearLabel(e.name)
      {
        assert ListAt(m', k) == m'[k];
        if k == routes[0].0 {
          assert e in ListAt(m, k) + [routes[0].1];
          if e !in ListAt(m, k) {
            assert KeptRoute(tier, gen, pokemon, routes[0]);
          }
        } else {
          assert e in ListAt(m, k);
        }
      }
      ApplyKept(m', routes[1..], tier, gen, pokemon);
    }
  }

  /** A run that completes files only sets with four moves, none of them a
      FEAR set, so the serializer can write every set. */
  lemma {:induction false} ScmsWellFiled(directory: string, m: Sets, files: seq<AnalysisFile>)
    requires WellFiled(m)
    ensures var r := ScmsFrom(directory, m, files);
            && (r.Ok? ==> WellFiled(r.value))
            && (r.Err? ==> ExpectedFailure(r.failure))
    decreases |files|
  {
    if files != [] {
      var f := files[0];
      var tier, gen, pokemon := TierOf(directory, f.subdir), GenOf(f.subdir), NamePokemon(f.file);
      FileRoutesShape(tier, gen, pokemon, f.lines);
      var c := FileOf(directory, f);
      if c.failure.None? {
        ApplyKept(m, c.routes, tier, gen, pokemon);
        ScmsWellFiled(directory, ApplyAll(m, c.routes), files[1..]);
      }
    }
  }
}
