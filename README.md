# scms_parser in Dafny

A model of `scms_parser.py`. That script reads Smogon's SCMS (Content Management System) analysis files for every tier. It collects each analysis's sets into a *setdex*: a dictionary from species key to the list of labelled sets filed under that key. It then writes the setdex as the text of the JavaScript object the damage calculator loads.

The model follows the script function by function:

- `naming.dfy`: `name_pokemon`. It turns an analysis file's name into a species key.
- `linerepair.dfy`: `fixline`. A chain of rewrites for lines known to be mistyped; the first rule that applies decides the result. The one regex it uses, `(\w{1,})( \/|\/ )(\w{1,})`, is written out as a scanner (`SlashMatchAt`, `SlashSub`).
- `details.dfy`: `get_set_details`. It reads a set's detail lines into a `SetDetails` value:
  - the level comes from the tier;
  - "item", "nature" and "ability" become text fields;
  - "evs"/"ivs" lines become stat dictionaries through `rename_stat`.

  An unknown stat label is the `KeyError` it raises. It is returned as `Err(UnknownStat(label))`.
- `moveset.dfy`: `get_moveset`. It reads the four move slots. It saves the cursor before each read with `tell` and puts the first line that names no move back with `seek`.
- `mega.dfy`: `has_megastone` and `append_mega_evolution`.
- `collector.dfy`: the per-file loop of `parse_scms`. It covers:
  - the tier and generation taken from the directory name;
  - the set label;
  - the FEAR-set and no-nature filters;
  - routing to "-P", "-Shield"/"-Blade", the evolved forme and the species itself.

  Also `parse_scms` over a given list of files.
- `serializer.dfy`: `parse_setdex`. The text of the setdex, species by species and set by set. Fields come in the fixed order level, evs, ivs, nature, ability, item, moves.
- `pystr.dfy`: Python 2 `str` operations, with Python's conventions:
  - `find`/`rfind` return -1 when the text is absent;
  - slices clamp their bounds and count negative bounds from the end;
  - `strip` removes ASCII whitespace;
  - `lower` folds ASCII letters;
  - `replace` rewrites occurrences left to right.
- `reader.dfy`: an open analysis file. It is its list of lines plus a line cursor. `readline().strip()` is `LineAt`; `tell`/`seek` read and set the cursor.
- `records.dfy`: the values the parser builds.
- `dex.dfy`: the setdex as a `map` from key to `seq<Entry>`, in a class the collector updates in place.

Operations the script performs step by step are methods. They are proved against a function of their inputs, and the properties are proved about that function:

| method | proved equal to |
|---|---|
| `GetSetDetails` | `SetDetailsOf` |
| `GetMoveset` | `Moveset` |
| `CollectFile` | `FileRoutes` |
| `ParseScms` | `ScmsFrom` |
| `ParseSetdex` | `SetdexText` |

## Model

| member | source | states |
|---|---|---|
| PyStr.FindSpec | scms_parser.py:51 | `find` is -1 exactly when the text is absent; otherwise it is the first index at which the text occurs |
| PyStr.RFindSpec | scms_parser.py:20 | `rfind` is -1 exactly when the text is absent; otherwise it is the last index at which the text occurs |
| PyStr.Slice | scms_parser.py:29 | Python slicing: in-range bounds give the plain slice, crossed bounds give "", and an end bound of -1 drops the last character |
| PyStr.StripShape | scms_parser.py:89 | `strip` keeps one piece of the line, neither starting nor ending with whitespace, and removes only whitespace around it |
| PyStr.LowerAt | scms_parser.py:93 | `lower` folds each character on its own and keeps the length |
| PyStr.Replace | scms_parser.py:138 | `replace` leaves a text without the pattern alone, and never lengthens a text when the replacement is no longer than the pattern |
| PyStr.ReplaceCharGone | scms_parser.py:206 | replacing a character by a text that lacks it leaves no such character |
| PyStr.DecimalRoundTrip | scms_parser.py:214 | `str(level)` is a string of digits that reads back as the level |
| Reader.LineAt | scms_parser.py:89 | `readline().strip()` past the end of the file is "" |
| Reader.NextPos | scms_parser.py:172 | a `readline` advances the cursor by one line and stays put at the end of the file |
| Reader.Analysis.constructor | scms_parser.py:17 | an opened file starts at its first line |
| Reader.Analysis.ReadLine | scms_parser.py:172 | returns the stripped line under the cursor and moves past it |
| Reader.Analysis.ReadRaw | scms_parser.py:23-25 | returns the unstripped line under the cursor, or `None` (Python's "") at the end of the file, which ends the loop |
| Reader.Analysis.Tell | scms_parser.py:171 | reports the cursor without moving it |
| Reader.Analysis.Seek | scms_parser.py:166 | puts the cursor back where `Tell` reported it |
| Records.PutLookup | scms_parser.py:118 | after `stats[code] = value` the code reads the new value and every other code reads what it read before |
| Records.PutCodes | scms_parser.py:118 | a stored code keeps its place; a new code is added last |
| Records.PutDistinct | scms_parser.py:118 | a stat dictionary never holds a code twice |
| Records.SameStatsLookup | scms_parser.py:209 | two stat dictionaries compare equal exactly when every code reads the same in both, whatever order the codes were stored in |
| Records.ReorderedStatsSame | scms_parser.py:209 | {at:4, sp:8} stored in either order: different sequences, equal dictionaries |
| Records.RenameStatOntoCodes | scms_parser.py:103-112 | `rename_stat` has 8 labels, and together they reach exactly the 6 codes hp/at/df/sa/sd/sp |
| Records.RenamedIsCode | scms_parser.py:117 | every label `rename_stat` knows maps to one of the six codes |
| Records.LevelOf | scms_parser.py:82-87 | the level is 5 exactly for "LC", 50 exactly for other tiers whose first three characters are "VGC", and 100 exactly otherwise |
| Naming.StemOf | scms_parser.py:51-54 | the name is cut before the first ".old" when there is one, else before the first ".txt"; the stem holds no such extension; with neither, the last character is dropped |
| Naming.BaseForme | scms_parser.py:59 | the base is the text before the first hyphen and holds no hyphen; a hyphen-free name is its own base |
| Naming.FirstLetterForme | scms_parser.py:64 | the key is a prefix of the name: its base, then "-", then the letter after the hyphen when there is one |
| Naming.SpeciesKey | scms_parser.py:56-75 | hyphen-free names other than Gourgeist are kept; Gourgeist becomes "Gourgeist-Average"; Arceus, Porygon, Gourgeist, Nidoran and Meowstic formes and Ho-Oh are kept; a Wormadam forme outside the remap table becomes "Rotom-S"; any other forme outside the table is cut to its first letter |
| Naming.NamePokemon | scms_parser.py:48-75 | a file is keyed by `SpeciesKey` of its stem (`StemOf`); `NameOfFile` proves that a dot-free name saved as ".txt" or ".old" is filed under the key of the bare name |
| Naming.BaseAt | scms_parser.py:59 | a name whose first hyphen is at `h` has the text before `h` as its base |
| Naming.WormadamBase | scms_parser.py:59 | "Wormadam-Sandy" and "Wormadam-Trash" have the base "Wormadam" |
| Naming.WormadamSandyKey | scms_parser.py:65-66 | "Wormadam-Sandy" is filed as "Wormadam-G" |
| Naming.WormadamTrashKey | scms_parser.py:67-68 | "Wormadam-Trash" is filed as "Wormadam-S" |
| Naming.RotomMowKey | scms_parser.py:69-70 | "Rotom-Mow" is filed as "Rotom-C" |
| Naming.RotomFanKey | scms_parser.py:71-72 | "Rotom-Fan" is filed as "Rotom-S" |
| Naming.FormeRemapsApplied | scms_parser.py:62-72 | each of the four remapped formes gets exactly the key of the remap table |
| Naming.FirstLetterFormeDetails | scms_parser.py:64 | a first-letter key has the same base as its name, and cutting it again changes nothing |
| Naming.GourgeistKeyStable | scms_parser.py:73-74 | "Gourgeist-Average" is its own key |
| Naming.RotomCKeyStable | scms_parser.py:64 | "Rotom-C" is its own key |
| Naming.RotomSKeyStable | scms_parser.py:64 | "Rotom-S" is its own key |
| Naming.FirstLetterKeyStable | scms_parser.py:64 | a first-letter key outside the uniform bases and Wormadam is its own key |
| Naming.HyphenFreeKeyStable | scms_parser.py:56-57 | keying a hyphen-free name twice gives the same key as keying it once |
| Naming.RemappedKeyStable | scms_parser.py:69-72 | the Rotom remaps are their own keys |
| Naming.SpeciesKeyStable | scms_parser.py:56-75 | keying is idempotent for every name whose base is not Wormadam |
| Naming.WormadamKeyUnstable | scms_parser.py:62-72 | keying "Wormadam-Sandy" twice gives "Rotom-S": the Wormadam keys are not stable |
| Naming.StemOfExtension | scms_parser.py:51-54 | a dot-free name saved as ".txt" or ".old" gives the name back |
| Naming.NameOfFile | scms_parser.py:48-75 | a dot-free file name with either extension is filed under the key of the bare name |
| Naming.RotomWashKey | scms_parser.py:64 | "Rotom-Wash" is filed as "Rotom-W" |
| Naming.PikachuKey | scms_parser.py:56-57 | "Pikachu" is filed as itself |
| Naming.GourgeistKey | scms_parser.py:73-74 | "Gourgeist" is filed as "Gourgeist-Average" |
| LineRepair.RunEnd | scms_parser.py:134 | the end of the longest run of word characters (ASCII letters, digits, `_`) starting at `i` |
| LineRepair.SlashMatchAt | scms_parser.py:134 | the regex matches at `i`: a maximal run of word characters, then " /" or "/ ", then a word character; `BareSlashKept`, `SpacedSlashKept` and `OneSidedSlashFixed` exercise it |
| LineRepair.SlashSub | scms_parser.py:136 | `pattern.sub` from index `i`: each match rewritten to "word / word" and scanning resumed after it; `SlashSubIdentity` and `SlashSubSpacing` state it |
| LineRepair.SeparatorSpacing | scms_parser.py:136 | the matched separator " /" or "/ " and the written " / " have the same non-space text |
| LineRepair.SlashSubIdentity | scms_parser.py:136 | with no match, the substitution returns the text unchanged |
| LineRepair.MatchSpacing | scms_parser.py:136 | rewriting one match keeps the non-space text of the line, given the rest keeps it |
| LineRepair.MatchStepSpacing | scms_parser.py:136 | a rewritten match keeps the non-space text from its position on |
| LineRepair.CopyStepSpacing | scms_parser.py:136 | a copied character keeps the non-space text from its position on |
| LineRepair.SlashSubSpacing | scms_parser.py:136 | the slash substitution only moves spaces: with spaces removed, the line is unchanged |
| LineRepair.ReplaceSpacing | scms_parser.py:138 | replacing " :" by ":" only removes spaces |
| LineRepair.Fixline | scms_parser.py:131-147 | exactly one rule applies, the first in source order: the slash regex, " :", "evss"/"items", the exact "ivs: HP 0", " or " truncation, the exact "4 HP IVs"; a line matching none comes back unchanged |
| LineRepair.FixlineSpacing | scms_parser.py:135-138 | the first two rules only change spacing |
| LineRepair.BareSlashKept | scms_parser.py:134-135 | "a/b" does not match the regex and is returned unchanged |
| LineRepair.SpacedSlashKept | scms_parser.py:134-135 | "a / b" does not match the regex and is returned unchanged |
| LineRepair.OneSidedSlashFixed | scms_parser.py:134-136 | "Atk /Spe" and "Atk/ Spe" both become "Atk / Spe" |
| LineRepair.ChainedSlashOnce | scms_parser.py:134-136 | in "a /b /c" only the first slash is respaced, because matches do not overlap |
| Moves.HasMove | scms_parser.py:155 | "move" occurs in the line in some letter case; `HasMoveIsFind` proves it is `line.lower().find("move") > -1` |
| Moves.HasMoveIsFind | scms_parser.py:155 | the model's test for "move" in any letter case is exactly `line.lower().find("move") > -1` |
| Moves.MoveAtLower | scms_parser.py:155 | "move" occurs at index `i` of the lowered line exactly where the raw line has "move" in some letter case |
| Moves.MoveName | scms_parser.py:156-162 | the text four characters past the first space, up to one character before the first "/", and "null" for an empty name with no "/"; `MoveNameText` and `MoveNameExample` state it |
| Moves.MoveNameText | scms_parser.py:156-162 | the move is text of its line, or "null" exactly when a line without "/" names nothing four characters past its first space |
| Moves.MoveNameExample | scms_parser.py:162 | "move 1: Surf / Scald" names "Surf" |
| Moves.Nulls | scms_parser.py:164-165 | the padding is `n` copies of "null" |
| Moves.MovesetLoop | scms_parser.py:154-174 | the loop always yields four slots, and its cursor stays between its start and the end of the file |
| Moves.Moveset | scms_parser.py:149-174 | `get_moveset` yields four moves and moves the cursor forward only |
| Moves.ShapeFrom3 | scms_parser.py:154-174 | from the fourth slot the loop gives the upcoming names, then "null"s, and the cursor on the first failing line |
| Moves.ShapeFrom2 | scms_parser.py:154-174 | the same from the third slot |
| Moves.ShapeFrom1 | scms_parser.py:154-174 | the same from the second slot |
| Moves.PassFrom1 | scms_parser.py:154-174 | the same from the second slot when its line passes |
| Moves.ShapeFrom0 | scms_parser.py:154-174 | the same for the whole loop, whose first line passes |
| Moves.LoopOutcome | scms_parser.py:152-174 | for any line test: with `k` the first of the four upcoming lines that fails, slots before `k` hold those lines' names and the rest "null", and the cursor is left on line `k` (after the fourth line when all pass) |
| Moves.MovesetShape | scms_parser.py:152-174 | four moves always come back; the first line naming no move fills the remaining slots with "null" and is put back to be read next |
| Moves.GetMoveset | scms_parser.py:149-174 | the method's moves and final cursor are those of `Moveset` |
| Moves.PadMoves | scms_parser.py:163-167 | at a line naming no move, the remaining slots become "null" and the cursor returns to the saved position |
| Moves.TakeMove | scms_parser.py:155-172 | at a line naming a move, the move is kept and the loop continues in step with `MovesetLoop` |
| Details.DetailKey | scms_parser.py:93 | the key is the stripped, lower-cased text before the first ":"; `MoveKeyHasMove` proves a key starting with "move" comes from a line containing "move" |
| Details.MoveKeyHasMove | scms_parser.py:95-96 | a line whose key starts with "move" contains "move", so the first line `get_moveset` sees always names a move |
| Details.FieldValue | scms_parser.py:97-101 | the text after the first space, cut one character before the first "/" when there is one; `FieldValueShape` and `FieldValueExample` state it |
| Details.FieldValueShape | scms_parser.py:97-101 | a field value is a piece of its line: everything after the first space when the line has no "/", and free of "/" when a "/" follows the first character |
| Details.FieldValueExample | scms_parser.py:101 | "item: Orb / Band" gives "Orb" |
| Details.PutStatsOk | scms_parser.py:118 | storing under one of the six codes keeps a stat dictionary well formed |
| Details.StoreShape | scms_parser.py:117-118 | storing fails exactly on a label `rename_stat` lacks, with that label; on success it adds only the stored value and keeps codes distinct and among the six |
| Details.StatEntryShape | scms_parser.py:116-118 | one "value Stat" pair stores text of the pair, or fails on an unknown label |
| Details.StoreAllShape | scms_parser.py:115-122 | storing the pairs in turn gives distinct codes of the six, each with text of some pair, or fails on a label `rename_stat` lacks |
| Details.FirstUnknown | scms_parser.py:115-122 | the index of the first pair whose label `rename_stat` does not know (or the pair count): every earlier label is known and the one at the index is not |
| Details.StoreAllFailsAt | scms_parser.py:115-122 | storing pairs fails exactly when some label is unknown, and the failure names the label of the first such pair |
| Details.StoreAllFails | scms_parser.py:115-122 | storing pairs succeeds exactly when `rename_stat` knows every label; otherwise it fails with `UnknownStat` of the first unknown label: no label defaults |
| Details.StoreAllCodes | scms_parser.py:116-118 | on success the stored codes are exactly the earlier ones and `rename_stat` of each pair's label |
| Details.StoreAllKeeps | scms_parser.py:116-118 | on success a code no pair names reads what it read before |
| Details.StoreAllLast | scms_parser.py:116-118 | on success each pair's code reads that pair's own value text when no later pair names the same code (a later one overwrites it) |
| Details.StoredPairs | scms_parser.py:113-122 | from an empty dictionary: the codes are exactly those of the pairs, each reading the value text of the last pair naming it |
| Details.Pairs | scms_parser.py:113-120 | the "value Stat" pairs the loop cuts out: the stripped text between the first space and each "/", then the stripped remainder, so never none; `PairsInLine` and `ThreePairsExample` state them |
| Details.StatLine | scms_parser.py:102-127 | the stat dictionary of an "evs"/"ivs" line, or its `KeyError`; `StatLineFails`, `StatLineValues` and `StatLineShape` state it |
| Details.PairsInLine | scms_parser.py:115-120 | every "value Stat" pair the loop cuts out is text of the line |
| Details.ChainStatsShape | scms_parser.py:113-123 | a "/" line gives distinct codes of the six, each with a value taken from the line; a failure names a label `rename_stat` lacks |
| Details.StatLineShape | scms_parser.py:102-127 | an "evs"/"ivs" line gives distinct codes among hp/at/df/sa/sd/sp, each with a value that is text of the line, never computed; a failure is `UnknownStat` of a label `rename_stat` lacks |
| Details.StatLineFails | scms_parser.py:113-127 | a "/" line fails exactly when one of its pairs has an unknown label, and then on the first; a line without "/" fails exactly when the lowered text after its last space is unknown, and otherwise stores that label's code with the text from two characters after the ":" to the last space |
| Details.StatLineValues | scms_parser.py:113-123 | a "/" line that succeeds stores exactly the codes of its pairs, each with the digit text of the last pair naming it, with no arithmetic |
| Details.ThreePairsExample | scms_parser.py:113-120 | "evs: 252 Atk / 4 SpD / 252 Spe" splits into "252 Atk", "4 SpD" and "252 Spe" |
| Details.ThreeStatLineExample | scms_parser.py:102-127 | "evs: 252 Atk / 4 SpD / 252 Spe" gives {at: "252", sd: "4", sp: "252"} in that order |
| Details.FirstPairExample | scms_parser.py:116-118 | "4 Atk" stores ("at", "4") |
| Details.SecondPairExample | scms_parser.py:116-118 | "8 Spe" after it stores ("sp", "8") after it |
| Details.LastPairExample | scms_parser.py:120 | the stripped remainder " 8 Spe" is the last pair |
| Details.PairsExample | scms_parser.py:113-120 | "evs: 4 Atk / 8 Spe" splits into the pairs "4 Atk" and "8 Spe" |
| Details.TwoPairs | scms_parser.py:115-120 | a line with one "/" has two pairs |
| Details.StoreAllExample | scms_parser.py:115-122 | the two pairs store [("at","4"),("sp","8")] in order |
| Details.StatLineExample | scms_parser.py:102-127 | "evs: 4 Atk / 8 Spe" gives {at: "4", sp: "8"} in that order |
| Details.ParseStats | scms_parser.py:113-127 | the method's loop gives exactly `StatLine` of the line, including its `KeyError` |
| Details.ParseChain | scms_parser.py:115-122 | the loop over the "/"-separated pairs, then the last pair, gives exactly `StatLine` of a line that has a "/", failing at the first unknown label |
| Details.DetailsLoop | scms_parser.py:89-128 | the cursor after the details is in the file and not before its start |
| Details.DetailsLoopShape | scms_parser.py:89-128 | the loop keeps the level it starts with and four moves when there are any, keeps stats in the six codes, and fails only on an unknown stat label |
| Details.MoveLineShape | scms_parser.py:95-96 | the same through a "move" line |
| Details.StatsLineShape | scms_parser.py:102-127 | the same through an "evs"/"ivs" line |
| Details.OtherLineShape | scms_parser.py:97-101 | the same through a text field or an ignored line |
| Details.SetDetailsOf | scms_parser.py:77-129 | `get_set_details` from a cursor: the details and the cursor after the blank line, or the `KeyError`; `SetDetailsShape` and `SetDetailsFields` state what the details hold |
| Details.SetDetailsShape | scms_parser.py:80-129 | a set's details carry its tier's level, four moves if any, and stats in the six codes; the only failure is an unknown stat label |
| Details.KeyedLines | scms_parser.py:89-128 | the repaired lines whose keys the loop reads, up to the blank line: the current line first, every later one a line of the file at or after the cursor; lines `get_moveset` takes as moves are not among them |
| Details.LastFieldSpec | scms_parser.py:97-101 | the value a text key ends with is absent exactly when no line has that key, and otherwise that of a line with the key that no later line with it follows |
| Details.DetailsLoopFields | scms_parser.py:89-128 | on success each of item, nature and ability is that of the last line keyed by it, or what the loop started with when no line is |
| Details.SetDetailsFields | scms_parser.py:80-129 | a set's item, nature and ability are each present exactly when a line the loop reads has that key, with the value of the last such line |
| Details.GetSetDetails | scms_parser.py:77-129 | the method returns the details of `SetDetailsOf` and leaves the cursor after the blank line, or returns its `KeyError` |
| Mega.HasMegastone | scms_parser.py:176-183 | true only with an item other than Eviolite and White Herb; then true exactly for an item with "ite", the Blue Orb or the Red Orb, or for moves with Dragon Ascent |
| Mega.Suffix | scms_parser.py:193 | `item[-2:]`: the last two characters, or all of a shorter item |
| Mega.MegaName | scms_parser.py:187-196 | "Primal P" for the orbs, "Mega P X"/"Mega P Y" for items ending in " X"/" Y", otherwise "Mega P" |
| Mega.MegaNameIsNew | scms_parser.py:187-196 | the evolved forme's key starts with "Mega " or "Primal " and is never the species itself |
| Mega.MegaDetails | scms_parser.py:188-192 | the copy has no ability, has no item exactly when the species is not Rayquaza, and keeps every other field |
| Mega.AppendMegaEvolution | scms_parser.py:185-197 | one append, of the copy under the evolved key; the original set is a value and is unchanged |
| Mega.CharizarditeXExamples | scms_parser.py:179-194 | "Charizardite X" is a stone and gives "Mega Charizard X" |
| Mega.EvioliteExample | scms_parser.py:181 | Eviolite contains "ite" but is no stone |
| Mega.BlueOrbExample | scms_parser.py:195-196 | the Blue Orb gives "Primal Kyogre" |
| Mega.DragonAscentExample | scms_parser.py:180-197 | Dragon Ascent makes a set evolve whatever its item; Rayquaza keeps its item |
| Dex.AppendAt | scms_parser.py:45 | `setdex[key].append(e)` on a `defaultdict(list)`: that key's list gains `e` at its end, and every other list is unchanged |
| Dex.ApplyAllLists | scms_parser.py:38-45 | after a run of appends, each key's list is its old list followed by the sets routed to it, in order |
| Dex.RoutedToMembers | scms_parser.py:38-45 | the sets routed to a key are exactly those the appends file under it |
| Dex.Setdex.constructor | scms_parser.py:13 | the setdex starts empty |
| Dex.Setdex.Append | scms_parser.py:45 | the method is `AppendAt` on the setdex |
| Collector.TierOf | scms_parser.py:18 | the tier is the directory path after the root and its "/" (Python slicing: "" for the root itself); `TierOfSubdir` proves a directory directly below the root is named by its tier |
| Collector.GenOf | scms_parser.py:20 | the generation is the two characters before the directory's last "/"; `GenOfSubdir` proves it for ".../gs/tier" |
| Collector.TierOfSubdir | scms_parser.py:18 | the tier of a file is the name of its directory below the root |
| Collector.GenOfSubdir | scms_parser.py:20 | below ".../gs/tier" the generation is "gs": the two characters before the last "/" |
| Collector.SetLabel | scms_parser.py:28-31 | an unreleased set is labelled from the first "[", any other by its tier, a space and the text after the first space; `ReleasedLabel`, `UnreleasedLabel` and `SetStart` state this |
| Collector.ReleasedLabel | scms_parser.py:31 | a released set is labelled by the tier, a space and the text after the line's first space (the whole line when it has none) |
| Collector.UnreleasedLabel | scms_parser.py:28-29 | an unreleased set is labelled from the first "[" |
| Collector.SetStart | scms_parser.py:26-33 | a started set's label never mentions "Level" or "Lv.", so FEAR sets are skipped |
| Collector.SetRoutes | scms_parser.py:37-45 | the appends one kept set makes, in source order; `SetRoutesShape`, `AegislashRoutes`, `SpeciesRoutes` and `RelicRoutesShape` state where it is filed |
| Collector.SetRoutesShape | scms_parser.py:37-45 | where a kept set is filed: under "P-P" exactly when it has Relic Song (first); an Aegislash set under both formes and never under "Aegislash"; any other set last under its species, and before that under its evolved forme when it holds a stone |
| Collector.AegislashRoutes | scms_parser.py:39-42 | an Aegislash set goes to "-Shield" and "-Blade", never to "Aegislash", and unchanged |
| Collector.SpeciesRoutes | scms_parser.py:43-45 | any other set goes last under its own species, unchanged; only the evolved copy differs from it |
| Collector.RelicRoutesShape | scms_parser.py:37-38 | only a Relic Song set is filed under "P-P", and that append comes first |
| Collector.FileRoutes | scms_parser.py:21 | a VGC11, VGC12 or Ditto file contributes nothing |
| Collector.CollectWith | scms_parser.py:22-45 | the `readline` loop of one file for a given reader of set details; `CollectWithShape` states that only kept sets are filed and how it fails, `NextSetDecides` and `NoSetNothingFiled` that every kept set with moves is filed, in file order |
| Collector.NoSetSkipped | scms_parser.py:22-26 | lines that start no set (not "name", or a FEAR label) are passed over without effect |
| Collector.NoSetNothingFiled | scms_parser.py:22-26 | when no later line starts a set, the loop files nothing and reaches the end of the file without a `KeyError` |
| Collector.NextSetDecides | scms_parser.py:22-45 | the next set to start decides the loop: a kept set with moves is filed under its `SetRoutes` ahead of everything after it, a nature-less set outside "gs"/"rb" files nothing, and a failed read or a kept set without moves ends the loop with that `KeyError` |
| Collector.KeptSetFiled | scms_parser.py:33-45 | with `get_set_details` as the reader, the next set of the file, kept and with moves, is filed first under its routes |
| Collector.CollectWithShape | scms_parser.py:22-45 | for any reader that keeps the level and well formed details, every filed set is kept: no FEAR set, four moves, a nature unless "gs"/"rb", the tier's level, and no Aegislash set under "Aegislash"; every failure is an unknown stat or missing moves |
| Collector.OwnRoutesKept | scms_parser.py:35-45 | every append one kept set makes files a kept set |
| Collector.DetailsReaderOk | scms_parser.py:80-129 | `get_set_details` is such a reader |
| Collector.CollectFromShape | scms_parser.py:22-45 | the loop with `get_set_details` files only kept sets and fails only on those two `KeyError`s |
| Collector.FileRoutesShape | scms_parser.py:21-45 | the same for a whole file, skipped or not |
| Collector.CollectFile | scms_parser.py:21-45 | the method's setdex is the old one after the file's appends, in order; the outcome is the file's `KeyError` or `Done` |
| Collector.CollectLine | scms_parser.py:23-45 | one turn of the loop keeps setdex and cursor in step with `CollectWith`, or stops with the `KeyError` the file raises there, having filed nothing |
| Collector.CollectSetAt | scms_parser.py:34-45 | the same for a turn that started a set |
| Collector.FileSet | scms_parser.py:37-45 | the appends for one kept set are `SetRoutes`, in order |
| Collector.ParseScms | scms_parser.py:10-46 | `parse_scms` over the walk's files, in order, is `ScmsFrom`: each file's appends, or the first `KeyError` |
| Collector.ApplyKept | scms_parser.py:37-45 | filing kept sets keeps every set of the setdex at four moves and no FEAR label |
| Collector.ScmsWellFiled | scms_parser.py:10-46 | a completed run files only sets with four moves and no FEAR label; a failed run fails on an unknown stat or missing moves |
| Serializer.StatsStream | scms_parser.py:217-221 | the stats loop writes the `"code":value` entries joined by commas, with no trailing comma |
| Serializer.StatsReadBack | scms_parser.py:217-221 | splitting the stats text on commas gives back one entry per stat, with no empty last entry |
| Serializer.MovesStream | scms_parser.py:236-239 | the method writes `MovesUpTo` for all moves |
| Serializer.FourMovesArray | scms_parser.py:235-240 | with four moves the list is exactly the quoted moves joined by commas |
| Serializer.ThreeMovesDangle | scms_parser.py:238 | with three moves the list ends in `,"`, a quote nothing closes: the rendering needs four moves |
| Serializer.LabelEscaped | scms_parser.py:212 | an escaped label holds no `"`, and a label without one is written as it is |
| Serializer.SpeciesEscaped | scms_parser.py:206 | an escaped species holds no `'`, and a species without one is written as it is |
| Serializer.HeadDelimited | scms_parser.py:212 | a set's key ends at the first `"` after the opening one, so it reads back as the escaped label |
| Serializer.LaterFieldsCommaLed | scms_parser.py:215-240 | every field after the level starts with a comma |
| Serializer.LevelReadBack | scms_parser.py:214 | the level is written as digits up to the next comma, and they read back as the level |
| Serializer.StatsFieldReadBack | scms_parser.py:215-228 | an "evs"/"ivs" field is written exactly when the set has it, as `,"key":{` then the entries then `}`, and the inside splits on commas back into one entry per stat |
| Serializer.TextFieldReadBack | scms_parser.py:229-234 | a "nature"/"ability"/"item" field is written exactly when the set has it, as `,"key":"` then the value up to the next `"`, which closes it |
| Serializer.EntryStream | scms_parser.py:211-240 | a set is written as its escaped label, then level, evs, ivs, nature, ability, item and moves, in that order; the stat loops run through `StatsFieldStream` and the moves loop through `MovesStream`; each optional field is empty exactly when the set lacks it (`StatsFieldReadBack`, `TextFieldReadBack`) |
| Serializer.AsWrittenAgrees | scms_parser.py:208-210 | when no later set equals the first as a Python dictionary (`SameEntry`: stats compared as dictionaries, ignoring their order), the by-value comma test agrees with the by-position one |
| Serializer.AsWrittenAgreesAll | scms_parser.py:208-210 | for such a species (no later set equal to the first as a dictionary), the text as written is the comma-separated list of its sets |
| Serializer.RepeatedSetLosesComma | scms_parser.py:209 | a species whose second set equals its first loses the comma between them |
| Serializer.ReorderedSetLosesComma | scms_parser.py:209 | so does a second set that differs from the first only in the order its evs were read: the values differ but the dictionaries are equal |
| Serializer.SpeciesStream | scms_parser.py:204-240 | a species is written as its escaped name and its sets joined by commas, one comma before every set but the first |
| Serializer.SetdexHasEverySpecies | scms_parser.py:203-241 | every species of the setdex appears in the text with all its sets |
| Serializer.ParseSetdex | scms_parser.py:199-241 | the method's text is the species texts, in the given order, joined by "}," |
| Serializer.StreamSpecies | scms_parser.py:203-206 | one turn closes the previous species with "}," unless it is the first, then writes the next one |
| Serializer.CollectedWritable | scms_parser.py:235-240 | a setdex that `parse_scms` completes can be written, every set with exactly four moves |

## Left out

- The directory walk (`os.walk`, `os.path.join`, `open`) is I/O. `Collector.ParseScms` takes the walk as a list of files, each with its directory, its name and its lines, in walk order.
- A byte offset for `tell`/`seek` becomes a line index: the model's file is a sequence of lines.
- The `__main__` block is not modelled. It only calls the two functions per generation, wraps the text in `var SETDEX_..={ ... }};` and writes files.
- Python 2 dictionary order is not modelled. `Serializer.ParseSetdex` takes the order of species as a parameter. A stat dictionary is iterated in insertion order (`Records.Put`), where Python 2 uses its hash order.
- Only the one regex of `fixline` exists, as a scanner. `\w` is ASCII letters, digits and `_`, as for a Python 2 byte string without a locale.
- Python 2 strings are bytes; the model uses `string`, and only ASCII letters are lower-cased.
- `copy.deepcopy` and aliasing are not modelled: set details are values. The copy one set's evolved forme gets can therefore never alias the original.
- Moves.Moveset: requires the first line to name a move. The source would raise a `NameError` at line 166 reading `previous_line` before assigning it. `Details.MoveKeyHasMove` shows that the only caller always passes such a line.
- Mega.HasMegastone: requires the moves to be present where the test reaches them. The source would raise a `KeyError` there. Its only caller runs after line 37, which has already read `moves`.
- Mega.AppendMegaEvolution: requires an item. The source's `del mega_sdet["item"]` would raise a `KeyError` otherwise, and `HasMegastone` guarantees an item.
- Details.GetSetDetails: does not state where the cursor is after a `KeyError`. The exception ends the whole run, so nothing reads the cursor again.
- Collector.CollectLine: does not state where the cursor is after a `KeyError`, for the same reason.
- Collector.CollectSetAt: the same.
- A `KeyError` is returned as an `Err` value, where Python raises it. `Collector.ParseScms` then returns no setdex, which matches the exception propagating out of `parse_scms`.
- Serializer.ParseSetdex: writes the comma before every set but the first, by position. This is the corrected behaviour; the by-value test of line 209 is modelled separately (see Findings).

- `scms_parser.py` has no move-renaming table, no generation-specific renames of item, nature or ability values, no deletion of item values, no rule for an empty "item:" line, no key suffixes for unreleased formes and no sorting of species keys, so the model has none of these either. `get_set_details` takes only the tier (line 77).

## Findings

| source | as written | input that shows it | evidently intended | confidence | as-written member | corrected member |
|---|---|---|---|---|---|---|
| scms_parser.py:209 | `if s != sets[0]` compares sets by value, so every later set equal to the first is written without its leading comma | a species whose list holds the same `{label: details}` twice (or twice up to the order of its evs or ivs), e.g. when both "Pikachu.txt" and "Pikachu.old" of one tier hold the same set; the text then has `"OU Set":{...}"OU Set":{...}` with no comma | a comma before every set but the first | not executed; the input needs a duplicated set | Serializer.RepeatedSetLosesComma | Serializer.SpeciesStream |
