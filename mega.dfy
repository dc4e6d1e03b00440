/** Mega Evolutions and Primal Reversions (`has_megastone`,
    `append_mega_evolution`): a set holding a Mega Stone or an orb is also
    filed under the evolved forme, without its ability and, except for
    Rayquaza, without its item. */
module Mega {
  import opened PyStr
  import opened Records
  import opened Dex

  /** `has_megastone` looks at the moves only when the item neither contains
      "ite" nor is the Blue Orb; there it needs them. */
  predicate MovesReached(d: SetDetails) {
    d.item.Some? && !Contains(d.item.value, "ite") && d.item.value != "Blue Orb" ==> d.moves.Some?
  }

  /** An item that triggers the forme change on its own. */
  predicate StoneLike(item: string) {
    Contains(item, "ite") || item == "Blue Orb" || item == "Red Orb"
  }

  /** The two held items whose names contain "ite" without being stones. */
  predicate NotAStone(item: string) {
    item == "Eviolite" || item == "White Herb"
  }

  /** `has_megastone(sdet)`. */
  function HasMegastone(d: SetDetails): (r: bool)
    requires MovesReached(d)
    ensures r ==> d.item.Some? && !NotAStone(d.item.value)
    ensures r ==> StoneLike(d.item.value) || (d.moves.Some? && "Dragon Ascent" in d.moves.value)
    ensures d.item.Some? && !NotAStone(d.item.value) && StoneLike(d.item.value) ==> r
    ensures d.item.Some? && !NotAStone(d.item.value) && d.moves.Some? && "Dragon Ascent" in d.moves.value ==> r
  {
    if d.item.Some? &&
       (Contains(d.item.value, "ite") || d.item.value == "Blue Orb" ||
        "Dragon Ascent" in d.moves.value || d.item.value == "Red Orb")
    then d.item.value != "Eviolite" && d.item.value != "White Herb"
    else false
  }

  /** The last two characters of `item` (all of it when shorter). */
  function Suffix(item: string): (r: string)
    ensures |item| >= 2 ==> r == item[|item| - 2..]
    ensures |item| < 2 ==> r == item
  {
    Slice(item, -2, |item|)
  }

  /** The key the evolved forme is filed under: "Primal P" for the orbs,
      "Mega P X" or "Mega P Y" for a stone named with that letter, "Mega P"
      otherwise. */
  function MegaName(pokemon: string, item: string): (name: string)
    ensures item == "Blue Orb" || item == "Red Orb" ==> name == "Primal " + pokemon
    ensures item != "Blue Orb" && item != "Red Orb" && (Suffix(item) == " X" || Suffix(item) == " Y") ==>
              name == "Mega " + pokemon + Suffix(item)
    ensures item != "Blue Orb" && item != "Red Orb" && Suffix(item) != " X" && Suffix(item) != " Y" ==>
              name == "Mega " + pokemon
  {
    var name := if Suffix(item) == " X" || Suffix(item) == " Y" then "Mega " + pokemon + Suffix(item) else "Mega " + pokemon;
    if item == "Blue Orb" || item == "Red Orb" then "Primal " + pokemon else name
  }

  /** The evolved forme is never filed under its own species: its key starts
      with "Mega " or "Primal ". */
  lemma MegaNameIsNew(pokemon: string, item: string)
    ensures MegaName(pokemon, item) != pokemon
    ensures StartsWith(MegaName(pokemon, item), "Mega ") || StartsWith(MegaName(pokemon, item), "Primal ")
  {
    var name := MegaName(pokemon, item);
    assert |name| > |pokemon|;
    if item == "Blue Orb" || item == "Red Orb" {
      assert name[..7] == "Primal ";
      OccursAtSlice(name, "Primal ", 0);
    } else {
      assert name[..5] == "Mega ";
      OccursAtSlice(name, "Mega ", 0);
    }
  }

  /** The details of the evolved forme: no ability, no item unless the
      species is Rayquaza, and everything else as the set has it. */
  function MegaDetails(pokemon: string, d: SetDetails): (m: SetDetails)
    requires d.item.Some?
    ensures m.ability.None?
    ensures m.item.None? <==> pokemon != "Rayquaza"
    ensures m.item.Some? ==> m.item == d.item
    ensures m.level == d.level && m.evs == d.evs && m.ivs == d.ivs && m.nature == d.nature && m.moves == d.moves
  {
    var noAbility := d.(ability := None);
    if pokemon != "Rayquaza" then noAbility.(item := None) else noAbility
  }

  /** `append_mega_evolution(sdet, pokemon, set_name, setdex)`: the copy goes
      under the evolved forme's key; the set itself is a value and stays as
      it was. */
  method AppendMegaEvolution(d: SetDetails, pokemon: string, setName: string, setdex: Setdex)
    requires d.item.Some?
    modifies setdex
    ensures setdex.sets == AppendAt(old(setdex.sets), MegaName(pokemon, d.item.value), Entry(setName, MegaDetails(pokemon, d)))
  {
    var megaPokemon := "Mega " + pokemon;
    var megaDetails := d.(ability := None);
    if pokemon != "Rayquaza" {
      megaDetails := megaDetails.(item := None);
    }
    var item := d.item.value;
    if Slice(item, -2, |item|) == " X" || Slice(item, -2, |item|) == " Y" {
      megaPokemon := "Mega " + pokemon + Slice(item, -2, |item|);
    }
    if item == "Blue Orb" || item == "Red Orb" {
      megaPokemon := "Primal " + pokemon;
    }
    setdex.Append(megaPokemon, Entry(setName, megaDetails));
  }

  /** Examples: a stone, the Eviolite (which contains "ite" but is no
      stone), an orb and Rayquaza's Dragon Ascent. */
  lemma CharizarditeXExamples(item: string)
    requires item == "Charizardite X"
    ensures MovesReached(NoMoves(item)) && HasMegastone(NoMoves(item))
    ensures MegaName("Charizard", item) == "Mega Charizard X"
  {
    assert item[9..12] == "ite";
    OccursAtSlice(item, "ite", 9);
    assert item[12..] == " X";
  }

  lemma EvioliteExample(d: SetDetails)
    requires d.item == Some("Eviolite")
    ensures MovesReached(d) && !HasMegastone(d)
  {
    assert d.item.value[5..8] == "ite";
    OccursAtSlice(d.item.value, "ite", 5);
  }

  lemma BlueOrbExample(item: string)
    requires item == "Blue Orb"
    ensures MovesReached(NoMoves(item)) && HasMegastone(NoMoves(item))
    ensures MegaName("Kyogre", item) == "Primal Kyogre"
  {
  }

  lemma DragonAscentExample(d: SetDetails, item: string)
    requires item == "Life Orb" && d.item == Some(item) && d.moves == Some(["Dragon Ascent", "Extreme Speed", "V-create", "Swords Dance"])
    ensures HasMegastone(d) && MegaName("Rayquaza", item) == "Mega Rayquaza"
    ensures MegaDetails("Rayquaza", d).item == Some("Life Orb")
  {
    assert "Dragon Ascent" in d.moves.value;
    assert item[6..] == "rb";
  }

  /** A set holding `item` and nothing else. */
  function NoMoves(item: string): (d: SetDetails)
    ensures d.item == Some(item) && d.moves.None?
  {
    SetDetails(100, None, None, None, None, Some(item), None)
  }
}
