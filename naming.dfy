/** The species key an analysis file is filed under (`name_pokemon`): the
    file name without its extension, with a few formes kept whole, four
    formes renamed and every other forme cut to its first letter. */
module Naming {
  import opened PyStr

  /** Bases whose hyphenated names are kept whole. */
  const UniformBases: set<string> := {"Arceus", "Porygon", "Gourgeist", "Nidoran", "Meowstic"}

  /** The formes whose keys are fixed names rather than a first letter. */
  const FormeRemaps: map<string, string> :=
    map["Wormadam-Sandy" := "Wormadam-G", "Wormadam-Trash" := "Wormadam-S",
        "Rotom-Mow" := "Rotom-C", "Rotom-Fan" := "Rotom-S"]

  /** The file name without ".old" (looked for first) or ".txt"; with neither,
      Python's `find` answers -1 and the slice drops the last character. */
  function StemOf(file: string): (stem: string)
    ensures Contains(file, ".old") ==>
              0 <= Find(file, ".old") && stem == file[..Find(file, ".old")] && !Contains(stem, ".old")
    ensures !Contains(file, ".old") && Contains(file, ".txt") ==>
              0 <= Find(file, ".txt") && stem == file[..Find(file, ".txt")] && !Contains(stem, ".txt")
    ensures !Contains(file, ".old") && !Contains(file, ".txt") && |file| > 0 ==> stem == file[..|file| - 1]
  {
    FindSpec(file, ".old");
    FindSpec(file, ".txt");
    if Find(file, ".old") > -1 then
      PrefixBeforeFind(file, ".old");
      Slice(file, 0, Find(file, ".old"))
    else if Find(file, ".txt") > -1 then
      PrefixBeforeFind(file, ".txt");
      Slice(file, 0, Find(file, ".txt"))
    else
      Slice(file, 0, Find(file, ".txt"))
  }

  /** The text before the first hyphen, or the whole name when it has none. */
  function BaseForme(name: string): (base: string)
    ensures Contains(name, "-") ==> 0 <= Find(name, "-") && base == name[..Find(name, "-")] && '-' !in base
    ensures !Contains(name, "-") ==> base == name
  {
    FindSpec(name, "-");
    if Find(name, "-") > -1 then
      PrefixBeforeFind(name, "-");
      ContainsChar(name[..Find(name, "-")], '-');
      Slice(name, 0, Find(name, "-"))
    else name
  }

  /** The base, the hyphen and the first letter after it (the whole name when
      nothing follows the hyphen). */
  function FirstLetterForme(pokemon: string): (key: string)
    requires Contains(pokemon, "-")
    ensures var b := |BaseForme(pokemon)|;
      b < |key| <= b + 2 && |key| <= |pokemon| && key == pokemon[..|key|] && key[b] == '-' &&
      (|pokemon| > b + 1 ==> key == BaseForme(pokemon) + "-" + [pokemon[b + 1]])
  {
    FindSpec(pokemon, "-");
    var h := Find(pokemon, "-");
    assert pokemon[h..h + 1] == "-";
    if h + 2 <= |pokemon| then
      assert pokemon[..h + 2] == pokemon[..h] + "-" + [pokemon[h + 1]];
      Slice(pokemon, 0, h + 2)
    else
      Slice(pokemon, 0, h + 2)
  }

  /** `name_pokemon` on a name whose extension is already stripped. */
  function SpeciesKey(pokemon: string): (key: string)
    ensures !Contains(pokemon, "-") ==>
              key == (if pokemon == "Gourgeist" then "Gourgeist-Average" else pokemon)
    ensures Contains(pokemon, "-") && (BaseForme(pokemon) in UniformBases || pokemon == "Ho-Oh") ==>
              key == pokemon
    ensures Contains(pokemon, "-") && BaseForme(pokemon) == "Wormadam" && pokemon !in FormeRemaps ==>
              key == "Rotom-S"
    ensures Contains(pokemon, "-") && BaseForme(pokemon) !in UniformBases && BaseForme(pokemon) != "Wormadam" &&
            pokemon != "Ho-Oh" && pokemon !in FormeRemaps ==>
              key == FirstLetterForme(pokemon)
  {
    var base := BaseForme(pokemon);
    if !Contains(pokemon, "-") && pokemon != "Gourgeist" then pokemon
    else if base !in UniformBases && pokemon != "Ho-Oh" then
      if base != "Wormadam" && pokemon != "Rotom-Mow" && pokemon != "Rotom-Fan" then
        FirstLetterForme(pokemon)
      else if pokemon == "Wormadam-Sandy" then "Wormadam-G"
      else if pokemon == "Wormadam-Trash" then "Wormadam-S"
      else if pokemon == "Rotom-Mow" then "Rotom-C"
      else "Rotom-S"
    else if pokemon == "Gourgeist" then pokemon + "-Average"
    else pokemon
  }

  /** A name whose first hyphen is at `h` has the text before it as its base. */
  lemma BaseAt(name: string, h: nat)
    requires h < |name| && name[h] == '-' && '-' !in name[..h]
    ensures Contains(name, "-") && Find(name, "-") == h && BaseForme(name) == name[..h]
  {
    assert OccursAt(name, "-", h);
    forall k | 0 <= k < h ensures !OccursAt(name, "-", k) {
      assert name[..h][k] == name[k];
    }
    FindIs(name, "-", h);
  }

  lemma WormadamBase(pokemon: string)
    requires pokemon == "Wormadam-Sandy" || pokemon == "Wormadam-Trash"
    ensures BaseForme(pokemon) == "Wormadam"
  {
    BaseAt(pokemon, 8);
  }

  lemma WormadamSandyKey() ensures SpeciesKey("Wormadam-Sandy") == "Wormadam-G" { BaseAt("Wormadam-Sandy", 8); }
  lemma WormadamTrashKey() ensures SpeciesKey("Wormadam-Trash") == "Wormadam-S" { BaseAt("Wormadam-Trash", 8); }
  lemma RotomMowKey() ensures SpeciesKey("Rotom-Mow") == "Rotom-C" { BaseAt("Rotom-Mow", 5); }
  lemma RotomFanKey() ensures SpeciesKey("Rotom-Fan") == "Rotom-S" { BaseAt("Rotom-Fan", 5); }

  /** The four remapped formes get exactly the keys of the remap table. */
  lemma FormeRemapsApplied(pokemon: string)
    requires pokemon in FormeRemaps
    ensures SpeciesKey(pokemon) == FormeRemaps[pokemon]
  {
    assert pokemon in {"Wormadam-Sandy", "Wormadam-Trash", "Rotom-Mow", "Rotom-Fan"};
    if pokemon == "Wormadam-Sandy" {
      WormadamSandyKey();
    } else if pokemon == "Wormadam-Trash" {
      WormadamTrashKey();
    } else if pokemon == "Rotom-Mow" {
      RotomMowKey();
    } else {
      RotomFanKey();
    }
  }

  /** A first-letter key is filed under its own base and cut at the same place. */
  lemma FirstLetterFormeDetails(pokemon: string)
    requires Contains(pokemon, "-")
    ensures var key := FirstLetterForme(pokemon);
      Contains(key, "-") && BaseForme(key) == BaseForme(pokemon) && FirstLetterForme(key) == key
  {
    var key := FirstLetterForme(pokemon);
    FindSpec(pokemon, "-");
    var b := Find(pokemon, "-");
    assert pokemon[..|key|] == key;
    FindInPrefix(pokemon, "-", |key|);
    assert Find(key, "-") == b;
    FindSpec(key, "-");
  }

  lemma GourgeistKeyStable() ensures SpeciesKey("Gourgeist-Average") == "Gourgeist-Average" {
    BaseAt("Gourgeist-Average", 9);
    assert "Gourgeist-Average"[..9] == "Gourgeist";
  }
  lemma RotomCKeyStable() ensures SpeciesKey("Rotom-C") == "Rotom-C" { BaseAt("Rotom-C", 5); }
  lemma RotomSKeyStable() ensures SpeciesKey("Rotom-S") == "Rotom-S" { BaseAt("Rotom-S", 5); }

  lemma FirstLetterKeyStable(pokemon: string)
    requires Contains(pokemon, "-") && BaseForme(pokemon) !in UniformBases && BaseForme(pokemon) != "Wormadam"
    ensures SpeciesKey(FirstLetterForme(pokemon)) == FirstLetterForme(pokemon)
  {
    var key := FirstLetterForme(pokemon);
    FirstLetterFormeDetails(pokemon);
  }

  /** Re-keying a key changes nothing, except for Wormadam formes (see
      `WormadamKeyUnstable`). */
  lemma SpeciesKeyStable(pokemon: string)
    requires BaseForme(pokemon) != "Wormadam"
    ensures SpeciesKey(SpeciesKey(pokemon)) == SpeciesKey(pokemon)
  {
    if !Contains(pokemon, "-") {
      HyphenFreeKeyStable(pokemon);
    } else if BaseForme(pokemon) in UniformBases || pokemon == "Ho-Oh" {
      assert SpeciesKey(pokemon) == pokemon;
    } else if pokemon in FormeRemaps {
      assert pokemon in {"Wormadam-Sandy", "Wormadam-Trash", "Rotom-Mow", "Rotom-Fan"};
      if pokemon == "Wormadam-Sandy" || pokemon == "Wormadam-Trash" {
        WormadamBase(pokemon);
        assert false;
      }
      RemappedKeyStable(pokemon);
    } else {
      assert SpeciesKey(pokemon) == FirstLetterForme(pokemon);
      FirstLetterKeyStable(pokemon);
    }
  }

  lemma HyphenFreeKeyStable(pokemon: string)
    requires !Contains(pokemon, "-")
    ensures SpeciesKey(SpeciesKey(pokemon)) == SpeciesKey(pokemon)
  {
    if pokemon == "Gourgeist" {
      GourgeistKeyStable();
    }
  }

  lemma RemappedKeyStable(pokemon: string)
    requires pokemon == "Rotom-Mow" || pokemon == "Rotom-Fan"
    ensures SpeciesKey(SpeciesKey(pokemon)) == SpeciesKey(pokemon)
  {
    if pokemon == "Rotom-Mow" {
      RotomMowKey();
      RotomCKeyStable();
    } else {
      RotomFanKey();
      RotomSKeyStable();
    }
  }

  /** A Wormadam key does not map to itself: "Wormadam-G" would be filed as "Rotom-S". */
  lemma WormadamKeyUnstable()
    ensures SpeciesKey(SpeciesKey("Wormadam-Sandy")) == "Rotom-S"
  {
    WormadamSandyKey();
    BaseAt("Wormadam-G", 8);
  }

  /** `name_pokemon`: the species key of an analysis file. */
  function NamePokemon(file: string): string {
    SpeciesKey(StemOf(file))
  }

  /** A dot-free name saved with either extension yields that name back. */
  lemma StemOfExtension(name: string, ext: string)
    requires '.' !in name && (ext == ".txt" || ext == ".old")
    ensures StemOf(name + ext) == name
  {
    var file := name + ext;
    var n := |name|;
    forall i | 0 <= i < n ensures !OccursAt(file, ext, i) && !OccursAt(file, ".old", i) {
      assert file[i] == name[i];
    }
    assert OccursAt(file, ext, n) by { assert file[n..] == ext; OccursAtSlice(file, ext, n); }
    if ext == ".txt" {
      forall i | n <= i <= |file| ensures !OccursAt(file, ".old", i) {
        if i == n { assert file[n + 1] == 't'; }
        else if i < |file| { assert file[i] != '.'; }
      }
      FindNone(file, ".old");
    }
    FindIs(file, ext, n);
    assert file[..n] == name;
  }

  /** A dot-free name saved with either extension is filed under its own key. */
  lemma NameOfFile(name: string, ext: string)
    requires '.' !in name && (ext == ".txt" || ext == ".old")
    ensures NamePokemon(name + ext) == SpeciesKey(name)
  {
    StemOfExtension(name, ext);
  }

  /** Examples of the keys: the first-letter rule, a plain name and the
      Gourgeist default forme. */
  lemma RotomWashKey() ensures SpeciesKey("Rotom-Wash") == "Rotom-W" { BaseAt("Rotom-Wash", 5); }
  lemma PikachuKey() ensures SpeciesKey("Pikachu") == "Pikachu" { ContainsChar("Pikachu", '-'); }
  lemma GourgeistKey() ensures SpeciesKey("Gourgeist") == "Gourgeist-Average" { ContainsChar("Gourgeist", '-'); }
}
