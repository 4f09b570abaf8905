# DayZ ExpansionMod maintenance scripts, modelled in Dafny

This project models the Python maintenance scripts under `custom_scripts/`
that edit the DayZ Expansion server's configuration. Each script is one batch
transformation:

- `update_ammo_amts.py` walks every loadout tree depth first. It overwrites
  `Chance`, `Quantity.Min` and `Quantity.Max` on each object whose `ClassName`
  starts with `Ammo_`, and rewrites only the files it changed.
- `add_fnx45_to_m79_sets.py` gives an FNX45 pistol and two magazines to each
  Set that carries an M79 and its 40mm grenades but no FNX45 yet.
- `move_fnx45_from_hands_to_cargo.py` moves that pistol from the `Hands` slot
  into the Set's cargo and drops the `Hands` slots left empty.
- `fix_m79_ammo.py` takes the grenades stored inside an M79's own cargo and puts
  them in the Set's cargo, logging one line per grenade.
- `analyze_weapon_ammo_sets.py` reports, for every weapon of every Set, which
  ammunition and magazines the Set carries.
- `filter_snafu_types.py` and `filter_snafu_spawnable.py` keep only the
  `<type name="…">…</type>` blocks whose names are in a keep list, and rebuild
  the XML text from them.
- `add_roaming_patrols.py` reads locations from a text file and appends a
  copy of the first `ROAMING` patrol for each location not already present.

How the model is built:

- **JSON.** A loaded JSON document is one datatype, `Json.Value`. An object
  keeps its members in insertion order and looks keys up as a Python dict
  does. Numbers are kept as their literal text, because no script computes
  with them.
- **Errors.** Every exception a script can raise while editing a tree is a
  `Json.Error` inside a `Result`. Examples are `KeyError` on `d[key]`, `.append`
  on a non-list, `.startswith` on a non-string and `float()` of bad text.
- **Loops.** A loop that edits or collects something (over the Sets, the
  files, a cargo or slot list, the lines of a file) is a method with a `while`
  loop. The method is proved equal to a specification function of its inputs.
  Lemmas then state what that function means: what changes, what is kept,
  idempotence and dry-run agreement. A loop that only searches and returns a
  boolean with an early `return` (`has_m79_and_ammo`, `has_fnx45`,
  `is_weapon_class`) is a recursive function instead. Its contract, or a
  `…Means` lemma beside it, states the answer outright as an `exists` over the
  list.
- **Regular expressions.** They become explicit scanners (`TypeBlocks`,
  `RoamingPatrols.CoordsOf`), proved sound and complete for the pattern they
  stand for: `TypeBlocks.BlocksMeans` and `TypeBlocks.BlocksComplete`,
  `RoamingPatrols.CoordsOfSound` and `RoamingPatrols.CoordsOfComplete`.

Some behaviours of the code are easy to miss, and the model keeps them:

- An `Ammo_` object without a `Quantity` dict makes the walk raise, and the
  directory loop then skips that file. `AmmoUpdate.Patch` fails in the same
  case.
- A dry run of `move_fnx45_from_hands_to_cargo.py` still strips the pistol
  from `Hands` in memory, though nothing is written. `MoveFnx45.DryMoveStep`
  keeps that.
- `filter_snafu_types.py` cuts its header at the first `<type name=`, even
  where that text does not begin a well-formed block. `filter_snafu_spawnable.py`
  cuts at the first tab-indented opening tag.

`add_roaming_patrols.py` checks each new name only against the patrols that
were present before the run. A location listed twice in the file is therefore
added twice, and `RoamingPatrols.Fresh` keeps that behaviour (`RoamingPatrols.FreshKeepsRepeats`).

## Model

| member | source | states |
|---|---|---|
| Json.Put | custom_scripts/update_ammo_amts.py:27-29 | dict assignment: afterwards the key maps to the new value, every other key is unchanged; an existing key's member is replaced in place (the list is otherwise the same), a new key is appended at the end |
| Json.PutPut | custom_scripts/update_ammo_amts.py:27-29 | assigning a key twice is the same as assigning it once with the second value |
| Json.ZeroNumeralMeans | custom_scripts/move_fnx45_from_hands_to_cargo.py:94 | a literal has no digit other than `0` before its exponent exactly when every non-zero digit of it comes after the exponent marker |
| Json.NumberFalsyMeans | custom_scripts/move_fnx45_from_hands_to_cargo.py:94 | a JSON number is falsy (equal to zero) exactly when its literal has a digit and every non-zero digit comes after the exponent marker; `NaN` and the infinities are truthy |
| Json.ExtendList | custom_scripts/fix_m79_ammo.py:53-54 | `setdefault(k, []).extend(xs)` fails exactly when the field exists and is not a list; otherwise the field becomes the old list (or none) followed by `xs`, and no other field changes |
| Strings.Strip | custom_scripts/filter_snafu_types.py:19 | `str.strip()`: the result neither starts nor ends with whitespace, and is empty exactly when the line is all whitespace |
| Strings.StripMeans | custom_scripts/filter_snafu_types.py:19 | `str.strip()` cuts only whitespace: the result is a slice of the line with nothing but whitespace before and after it |
| Strings.RStrip | custom_scripts/filter_snafu_types.py:66 | `rstrip`: a prefix of the input whose last character is not stripped, with only stripped characters cut off |
| Strings.Before | custom_scripts/filter_snafu_types.py:45 | `split(sep)[0]`: a prefix of the text holding no occurrence of the separator, ending where the first occurrence starts or at the end of the text |
| AmmoUpdate.Patch | custom_scripts/update_ammo_amts.py:25-30 | patching a matched object fails exactly when `Quantity` is missing or not a dict |
| AmmoUpdate.PatchMeans | custom_scripts/update_ammo_amts.py:25-30 | a patched object holds the configured Chance, Min and Max, keeps every other field, keeps every other field of `Quantity`, and is no deeper than before |
| AmmoUpdate.UpdateAmmoRecursive | custom_scripts/update_ammo_amts.py:21-39 | the recursive walk computes the specification walk, and on success its changed flag is set exactly when the tree holds an `Ammo_` object at some depth |
| AmmoUpdate.UpdateMembers | custom_scripts/update_ammo_amts.py:33-35 | walking an object's values computes the specification walk; the flag is set exactly when some value holds an `Ammo_` object |
| AmmoUpdate.UpdateItems | custom_scripts/update_ammo_amts.py:37-39 | walking a list computes the specification walk; the flag is set exactly when some element holds an `Ammo_` object |
| AmmoUpdate.WalkMembersShape | custom_scripts/update_ammo_amts.py:33-35 | the walk keeps an object's keys in order and walks each value on its own |
| AmmoUpdate.WalkItemsShape | custom_scripts/update_ammo_amts.py:37-39 | the walk keeps a list's length and walks each element on its own |
| AmmoUpdate.WalkedHead | custom_scripts/update_ammo_amts.py:25-30 | a walked object keeps its `ClassName`, and is patched when that name starts with `Ammo_` |
| AmmoUpdate.WalkKeepsNumber | custom_scripts/update_ammo_amts.py:27-35 | a numeric field other than `Chance` and `Quantity` survives the walk unchanged |
| AmmoUpdate.WalkEstablishesDone | custom_scripts/update_ammo_amts.py:21-42 | after a successful walk every `Ammo_` object at every depth holds the configured values |
| AmmoUpdate.DoneIsFixpoint | custom_scripts/update_ammo_amts.py:21-42 | a tree whose `Ammo_` objects already hold the configured values is returned unchanged |
| AmmoUpdate.WalkIdempotent | custom_scripts/update_ammo_amts.py:21-42 | walking a walked tree again gives the same tree |
| AmmoUpdate.NoAmmoUnchanged | custom_scripts/update_ammo_amts.py:21-42 | a tree without `Ammo_` objects passes through unchanged |
| AmmoUpdate.UpdateAmmoProperties | custom_scripts/update_ammo_amts.py:11-52 | a file fails exactly when the walk raises; it is written exactly when the walk succeeds and found ammo, with the walked tree, in which all ammo is patched; otherwise the tree is unchanged |
| AmmoUpdate.UpdatedFilesMeans | custom_scripts/update_ammo_amts.py:54-73 | every file written is a non-ignored `.json` file that held ammo, written with its walked tree; every such file whose walk succeeds is written |
| AmmoUpdate.ProcessDirectory | custom_scripts/update_ammo_amts.py:54-73 | the directory loop writes exactly the files of the specification, and the count it reports is the number written |
| Loadout.AnyNamed | custom_scripts/add_fnx45_to_m79_sets.py:91-94 | true exactly when some item of the list has the class name |
| Loadout.AnyAttached | custom_scripts/add_fnx45_to_m79_sets.py:84-88 | true exactly when some item of some attachment slot has the class name |
| Loadout.AttachedIff | custom_scripts/add_fnx45_to_m79_sets.py:84-88 | the attachment scan finds a name exactly when some slot of the Set holds an item of that name |
| Loadout.CargoIff | custom_scripts/add_fnx45_to_m79_sets.py:91-94 | the cargo scan finds a name exactly when the Set's cargo holds an item of that name |
| Loadout.HasM79AndAmmoMeans | custom_scripts/add_fnx45_to_m79_sets.py:78-96 | a Set qualifies exactly when some slot holds an `M79` and its cargo holds an `Ammo_40mm_Explosive` |
| Loadout.FirstInSlot | custom_scripts/add_fnx45_to_m79_sets.py:118-122 | the index found is the first slot named `Hands`, or the end when there is none |
| Loadout.UnnamedMembers | custom_scripts/move_fnx45_from_hands_to_cargo.py:57-63 | the kept items are exactly the items without the class name |
| Loadout.NamedOnlyMembers | custom_scripts/fix_m79_ammo.py:43-47 | the selected items are exactly the items with the class name |
| Loadout.SplitByName | custom_scripts/fix_m79_ammo.py:43-47 | the kept and the selected items together are a permutation of the list: nothing is lost or duplicated |
| Loadout.Reverse | custom_scripts/fix_m79_ammo.py:43 | the reversed list has the same length and holds the items back to front |
| Loadout.MapSetsMeans | custom_scripts/move_fnx45_from_hands_to_cargo.py:116-135 | a successful pass over the Sets edits each Set on its own |
| Loadout.CountSetsZero | custom_scripts/move_fnx45_from_hands_to_cargo.py:137 | the count of matching Sets is zero exactly when no Set matches |
| AddFnx45.HasFnx45Means | custom_scripts/add_fnx45_to_m79_sets.py:98-111 | a Set has an FNX45 exactly when some slot or its cargo holds one |
| AddFnx45.WithPistolMeans | custom_scripts/add_fnx45_to_m79_sets.py:117-137 | the pistol goes at the end of the first `Hands` slot's items, all other slots unchanged; without a `Hands` slot a new one holding the pistol is appended; each fails exactly when the list it grows is not a list |
| AddFnx45.WithFnx45Means | custom_scripts/add_fnx45_to_m79_sets.py:113-148 | the whole edit adds the pistol as above and two magazines at the end of the cargo, and changes no other field; it fails exactly when a list it grows is not a list |
| AddFnx45.WithFnx45HasPistol | custom_scripts/add_fnx45_to_m79_sets.py:113-148 | after the edit the Set has an FNX45 attached and no longer qualifies |
| AddFnx45.FindHands | custom_scripts/add_fnx45_to_m79_sets.py:118-122 | the loop finds the first `Hands` slot |
| AddFnx45.AddFnx45ToSet | custom_scripts/add_fnx45_to_m79_sets.py:113-148 | the method computes the specified edit, and its notes are the slot note (only when a slot was created), the pistol note and the magazine note |
| AddFnx45.AddedSetsMeans | custom_scripts/add_fnx45_to_m79_sets.py:162-176 | the pass edits exactly the qualifying Sets without an FNX45 and leaves every other Set as it was |
| AddFnx45.SecondRunModifiesNothing | custom_scripts/add_fnx45_to_m79_sets.py:162-189 | after a real run no Set qualifies, so a second run modifies nothing |
| AddFnx45.VisitSet | custom_scripts/add_fnx45_to_m79_sets.py:163-176 | a Set is counted exactly when it qualifies; a dry run leaves it unchanged and a real run applies the edit |
| AddFnx45.RunSets | custom_scripts/add_fnx45_to_m79_sets.py:159-176 | the loop leaves the Sets unchanged in a dry run and computes the specified pass otherwise; the count is the number of qualifying Sets in both modes |
| AddFnx45.ProcessLoadoutFile | custom_scripts/add_fnx45_to_m79_sets.py:150-189 | a dry run changes nothing and returns whether some Set qualifies; a real run fails exactly when the pass fails, writes the edited loadout exactly when some Set qualified, and returns the same flag |
| MoveFnx45.RemovedFromHandsMeans | custom_scripts/move_fnx45_from_hands_to_cargo.py:49-74 | only the first `Hands` slot changes: it loses every FNX45 and keeps its other items in order; the pistol returned is the last FNX45 it held; with no `Hands` slot nothing changes and nothing is found |
| MoveFnx45.SplitHandsItems | custom_scripts/move_fnx45_from_hands_to_cargo.py:57-63 | the loop keeps the items that are not FNX45 and remembers the last FNX45 |
| MoveFnx45.FindAndRemoveFnx45FromHands | custom_scripts/move_fnx45_from_hands_to_cargo.py:49-74 | the method computes the specified removal |
| MoveFnx45.AddFnx45ToCargo | custom_scripts/move_fnx45_from_hands_to_cargo.py:76-83 | the pistol is appended to the cargo, created when missing, and nothing else changes; it fails exactly when the cargo is not a list |
| MoveFnx45.KeptSlots | custom_scripts/move_fnx45_from_hands_to_cargo.py:85-101 | the kept slots are exactly the slots that are not empty `Hands` slots |
| MoveFnx45.KeptSlotsAppend | custom_scripts/move_fnx45_from_hands_to_cargo.py:91-101 | cleaning goes slot by slot: the slots kept from a concatenation are those kept from each part, in order, so every kept slot, `Hands` or not, stays in its original order |
| MoveFnx45.KeptSlotsOne | custom_scripts/move_fnx45_from_hands_to_cargo.py:93-101 | a single slot is kept exactly when it is not a `Hands` slot with missing or empty `Items` |
| MoveFnx45.KeptSlotsKeepsOthers | custom_scripts/move_fnx45_from_hands_to_cargo.py:85-101 | cleaning keeps every slot other than `Hands`, in order |
| MoveFnx45.CleanEmptyHandsSlots | custom_scripts/move_fnx45_from_hands_to_cargo.py:85-101 | the loop computes the specified cleaning |
| MoveFnx45.MoveStepMeans | custom_scripts/move_fnx45_from_hands_to_cargo.py:117-130 | a moved Set's cargo is the old cargo plus the pistol taken from `Hands`, and every slot other than `Hands` is kept in order |
| MoveFnx45.VisitSet | custom_scripts/move_fnx45_from_hands_to_cargo.py:116-135 | a Set is counted exactly when it qualifies and has an FNX45 in its first `Hands` slot; the dry-run and the real edits are the specified ones |
| MoveFnx45.RunSets | custom_scripts/move_fnx45_from_hands_to_cargo.py:112-136 | the loop computes the specified pass for the mode and counts the Sets that move |
| MoveFnx45.ProcessLoadoutFile | custom_scripts/move_fnx45_from_hands_to_cargo.py:103-148 | the file fails exactly when the pass fails; it is written exactly on a real run that moved something, and it returns whether anything moved |
| MoveFnx45.ReturnedMeansMoved | custom_scripts/move_fnx45_from_hands_to_cargo.py:116-148 | the returned flag is set exactly when some qualifying Set had an FNX45 in its first `Hands` slot |
| MoveFnx45.OtherSetsUntouched | custom_scripts/move_fnx45_from_hands_to_cargo.py:116-135 | Sets without an M79 and its grenades are left exactly as they were, in both modes |
| FixM79Ammo.ItemsAmmoZero | custom_scripts/fix_m79_ammo.py:36-47 | the grenade count of a slot's items is zero exactly when no M79 among them has a grenade in its cargo |
| FixM79Ammo.M79AmmoZero | custom_scripts/fix_m79_ammo.py:37-47 | an item's grenade count is zero exactly when it is not an M79 or its cargo holds no grenade |
| FixM79Ammo.ShoulderAmmoZero | custom_scripts/fix_m79_ammo.py:34-47 | the grenade count of a Set's slots is zero exactly when no `Shoulder` slot holds an M79 with a grenade |
| FixM79Ammo.FixItemMeans | custom_scripts/fix_m79_ammo.py:37-49 | an M79 loses every grenade and keeps its other cargo in order and every other field; the grenades come out last first; any other item is untouched |
| FixM79Ammo.FixItemsMeans | custom_scripts/fix_m79_ammo.py:36-49 | after the fix no M79 in the slot holds a grenade, and one grenade moves per grenade found |
| FixM79Ammo.FixSlotsMeans | custom_scripts/fix_m79_ammo.py:34-49 | after the fix no `Shoulder` slot holds a grenade in an M79, and one grenade moves per grenade found |
| FixM79Ammo.FixSetClears | custom_scripts/fix_m79_ammo.py:31-54 | a fixed Set has no M79 with grenades in its `Shoulder` slots |
| FixM79Ammo.FixSetMoves | custom_scripts/fix_m79_ammo.py:31-54 | the moved grenades are appended to the Set's cargo; the grenade total of cargo and M79s is preserved; the cargo is left as it was when nothing moves |
| FixM79Ammo.MovedAreGrenades | custom_scripts/fix_m79_ammo.py:43-47 | everything moved is an `Ammo_40mm_Explosive` |
| FixM79Ammo.FixSetIdentity | custom_scripts/fix_m79_ammo.py:31-54 | a Set without misplaced grenades is returned unchanged and nothing moves |
| FixM79Ammo.FixAllSetsMeans | custom_scripts/fix_m79_ammo.py:30-54 | a successful pass fixes every Set on its own |
| FixM79Ammo.FixAllSetsIdentity | custom_scripts/fix_m79_ammo.py:30-54 | when every Set is already clean, the pass returns the Sets unchanged and logs nothing |
| FixM79Ammo.FixAllSetsLog | custom_scripts/fix_m79_ammo.py:43-49 | the change log holds one line per grenade moved in the whole loadout |
| FixM79Ammo.TotalZero | custom_scripts/fix_m79_ammo.py:30-49 | the loadout's grenade count is zero exactly when every Set is clean |
| FixM79Ammo.ChangesMeansAmmoFound | custom_scripts/fix_m79_ammo.py:25-56 | `changes_made` is set exactly when some Set had an M79 holding a grenade |
| FixM79Ammo.FixLoadoutIdempotent | custom_scripts/fix_m79_ammo.py:15-56 | fixing a fixed loadout succeeds, changes nothing, reports no change and logs nothing |
| FixM79Ammo.PopAmmo | custom_scripts/fix_m79_ammo.py:43-47 | the reverse-index pop loop leaves the non-grenade cargo in order and returns the grenades last first |
| FixM79Ammo.FixShoulderItems | custom_scripts/fix_m79_ammo.py:36-49 | the loop over a slot's items computes the specified fix and moved grenades |
| FixM79Ammo.FixShoulderSlots | custom_scripts/fix_m79_ammo.py:34-49 | the loop over the slots computes the specified fix, and logs one line per grenade moved |
| FixM79Ammo.FixSetAmmo | custom_scripts/fix_m79_ammo.py:31-54 | the method computes the specified fix of one Set and logs one line per grenade under the Set's name or `Set_<index>` |
| FixM79Ammo.FixM79AmmoInLoadout | custom_scripts/fix_m79_ammo.py:15-56 | the method computes the specified loadout fix: the fixed Sets, the changed flag and the log |
| WeaponAmmo.IsWeaponClass | custom_scripts/analyze_weapon_ammo_sets.py:12-33 | a class is a weapon exactly when it contains no excluded marker and contains some weapon marker |
| WeaponAmmo.ExcludedIsNoWeapon | custom_scripts/analyze_weapon_ammo_sets.py:22-27 | for every name: an excluded marker (`Ammo_`, `Mag_`, `Optic`, `Suppressor`, `Compensator`, `Bayonet`) occurring anywhere in it makes it no weapon, whatever indicators it also contains |
| WeaponAmmo.IndicatedIsWeapon | custom_scripts/analyze_weapon_ammo_sets.py:22-31 | for every name: one weapon indicator occurring in it, with no excluded marker anywhere, makes it a weapon |
| WeaponAmmo.MagazineIsNoWeapon | custom_scripts/analyze_weapon_ammo_sets.py:22-27 | example of the exclusion winning: `Mag_AKM_30Rnd` contains the indicator `AK` and is still no weapon |
| WeaponAmmo.EditedWeaponsAreWeapons | custom_scripts/analyze_weapon_ammo_sets.py:14-19 | the M79 and the FNX45 that the other scripts edit are both recognised as weapons |
| WeaponAmmo.NamesOfMeans | custom_scripts/analyze_weapon_ammo_sets.py:40 | the names read are one per item, each the item's `ClassName` or the empty default |
| WeaponAmmo.Bump | custom_scripts/analyze_weapon_ammo_sets.py:41 | counting one more occurrence raises that name's count by one and leaves every other count alone |
| WeaponAmmo.TallyMeans | custom_scripts/analyze_weapon_ammo_sets.py:35-43 | the tally has distinct names and positive counts, sums to the number of items, and counts each name by its occurrences |
| WeaponAmmo.TallyPrefixTotal | custom_scripts/analyze_weapon_ammo_sets.py:93-94 | the counts of the tally under a prefix add up to the number of items whose name has that prefix |
| WeaponAmmo.FindItemsInInventoryCargo | custom_scripts/analyze_weapon_ammo_sets.py:35-43 | the loop computes the specified tally |
| WeaponAmmo.WeaponsInMeans | custom_scripts/analyze_weapon_ammo_sets.py:66-73 | the weapons found in a list are exactly its weapon-named items, in order, each with the given location |
| WeaponAmmo.AnalyzeSetMeans | custom_scripts/analyze_weapon_ammo_sets.py:45-99 | one report per weapon found, in order; each carries the Set index, the file name, the weapon and its location, the number of cargo items starting with `Ammo_` and with `Mag_`, and says it has ammo exactly when some cargo item starts with either |
| WeaponAmmo.ReportedAreWeapons | custom_scripts/analyze_weapon_ammo_sets.py:55-73 | every reported weapon passes the weapon heuristic |
| WeaponAmmo.AnalyzeLoadoutMeans | custom_scripts/analyze_weapon_ammo_sets.py:101-120 | every report of a file comes from the analysis of the Set it names, and reports appear in Set order |
| WeaponAmmo.ReportListsMeans | custom_scripts/analyze_weapon_ammo_sets.py:128-130 | a report is in the with-ammo list exactly when it has ammo, and in the without-ammo list exactly when it has none |
| WeaponAmmo.ReportPartition | custom_scripts/analyze_weapon_ammo_sets.py:128-135 | the two lists are a partition of the reports: their sizes add up to the total printed |
| WeaponAmmo.CollectWeapons | custom_scripts/analyze_weapon_ammo_sets.py:66-73 | the loop computes the specified weapons of a list |
| WeaponAmmo.CollectSlotWeapons | custom_scripts/analyze_weapon_ammo_sets.py:56-64 | the loop computes the specified weapons of all attachment slots |
| WeaponAmmo.AnalyzeSetForWeaponsAndAmmo | custom_scripts/analyze_weapon_ammo_sets.py:45-99 | the method computes the specified reports of one Set |
| WeaponAmmo.AnalyzeLoadoutFile | custom_scripts/analyze_weapon_ammo_sets.py:101-120 | the loop computes the specified reports of one file |
| TypeBlocks.BlockAtMeans | custom_scripts/filter_snafu_types.py:38-41 | a block found at a position is a well-formed match: opening tag, a name without quotes, `">`, a body holding no closing tag, and the closing tag |
| TypeBlocks.MatchedText | custom_scripts/filter_snafu_types.py:54 | the rebuilt entry of a match is exactly the text it was matched from |
| TypeBlocks.BlocksMeans | custom_scripts/filter_snafu_types.py:41 | every block the scan returns is a well-formed match |
| TypeBlocks.BlockFound | custom_scripts/filter_snafu_types.py:41 | every block returned is the block found at its own start |
| TypeBlocks.BlocksOrdered | custom_scripts/filter_snafu_types.py:41 | the blocks come in text order and do not overlap |
| TypeBlocks.BlockAtComplete | custom_scripts/filter_snafu_types.py:38 | every well-formed match is found at its start, with its own name and body: the lazy body stops at the closing tag that ends it |
| TypeBlocks.BlocksCover | custom_scripts/filter_snafu_types.py:41 | the scan passes over no match: any position where a match starts lies inside a block the scan returned |
| TypeBlocks.BlocksComplete | custom_scripts/filter_snafu_types.py:38-41 | every well-formed match in the text starts inside one of the blocks `re.findall` returns |
| TypeBlocks.KeepSetMeans | custom_scripts/filter_snafu_types.py:16-21 | a name is kept exactly when some line of the keep file, stripped, is that non-empty name |
| TypeBlocks.ReadKeepList | custom_scripts/filter_snafu_types.py:16-21 | the loop reads the specified keep set |
| TypeBlocks.KeptEntriesMeans | custom_scripts/filter_snafu_types.py:52-60 | the kept entries are exactly the rebuilt entries of the blocks whose names are kept, one per kept block |
| TypeBlocks.KeptVerbatim | custom_scripts/filter_snafu_types.py:52-57 | the filter keeps exactly the blocks the keep file names, each as the very text it was matched from |
| TypeBlocks.FilterBlocks | custom_scripts/filter_snafu_types.py:48-60 | the loop computes the kept entries; kept and removed counts add up to the number of matches |
| FilterTypes.Rebuilt | custom_scripts/filter_snafu_types.py:62-66 | the rebuilt file ends with a newline and the `</types>` footer |
| FilterTypes.RebuildTypes | custom_scripts/filter_snafu_types.py:63-66 | the loop computes the specified rebuilt text |
| FilterTypes.RebuiltKept | custom_scripts/filter_snafu_types.py:62-66 | with kept entries, the file is the header, the entries one separator apart, a newline and the footer: the strip removes only the last separator |
| FilterTypes.HeaderBeforeBlocks | custom_scripts/filter_snafu_types.py:45 | the header ends at or before the start of every matched block |
| FilterTypes.FilteredFileMeans | custom_scripts/filter_snafu_types.py:44-66 | the output is the header, the kept entries in original order and the footer; with nothing kept it is the stripped header and the footer |
| FilterTypes.FilterTypesFile | custom_scripts/filter_snafu_types.py:9-76 | the backup is the original text, the output is the specified rebuilt file, and kept plus removed is the number of matches |
| FilterSpawnable.FirstOpen | custom_scripts/filter_snafu_spawnable.py:45 | the search finds the first tab-indented opening tag, or reports that there is none |
| FilterSpawnable.Rebuilt | custom_scripts/filter_snafu_spawnable.py:66-72 | the rebuilt file is a prefix of the header and entries and does not end with a newline |
| FilterSpawnable.RebuildSpawnable | custom_scripts/filter_snafu_spawnable.py:67-72 | the loop computes the specified rebuilt text |
| FilterSpawnable.RebuiltKept | custom_scripts/filter_snafu_spawnable.py:66-72 | with kept entries, the file is the header and the entries one newline apart, ending with the last kept entry |
| FilterSpawnable.HeaderBeforeBlocks | custom_scripts/filter_snafu_spawnable.py:44-49 | the header ends at or before every matched block, and a file without an opening tag has no blocks |
| FilterSpawnable.FilteredFileMeans | custom_scripts/filter_snafu_spawnable.py:51-72 | the output is the header and the kept entries in original order; with nothing kept it is the header without trailing newlines |
| FilterSpawnable.FilterSpawnableFile | custom_scripts/filter_snafu_spawnable.py:9-82 | the backup is the original text, the output is the specified rebuilt file, and kept plus removed is the number of matches |
| RoamingPatrols.CoordsOfSound | custom_scripts/add_roaming_patrols.py:35 | when the scanner accepts a line, the line matches `<x, y, z>` with groups of digits and dots and blank runs after the commas |
| RoamingPatrols.CoordsOfComplete | custom_scripts/add_roaming_patrols.py:35 | every line that matches the pattern is accepted, with the same three groups |
| RoamingPatrols.ParseFromSound | custom_scripts/add_roaming_patrols.py:22-52 | every location parsed comes from a non-empty line followed by a coordinate line, in file order, with no line used twice |
| RoamingPatrols.ParseRoamersComplete | custom_scripts/add_roaming_patrols.py:22-52 | a non-empty line that is not itself coordinates, followed by a coordinate line, is always parsed as a location |
| RoamingPatrols.ParseFromOk | custom_scripts/add_roaming_patrols.py:37-41 | parsing fails only when `float()` rejects a matched group |
| RoamingPatrols.ParseFromFails | custom_scripts/add_roaming_patrols.py:37-41 | when parsing fails, some pair the scan takes has coordinates that `float()` rejects |
| RoamingPatrols.ParseRoamersFile | custom_scripts/add_roaming_patrols.py:15-52 | the scanning loop computes the specified parse |
| RoamingPatrols.Instantiate | custom_scripts/add_roaming_patrols.py:55-64 | a new patrol is the template with `Name` set to `Roaming-<name>` and `Waypoints` to the one location, all other fields copied |
| RoamingPatrols.FirstRoaming | custom_scripts/add_roaming_patrols.py:76-83 | the template is the first patrol whose `Behaviour` is `ROAMING` |
| RoamingPatrols.FirstRoamingAppend | custom_scripts/add_roaming_patrols.py:76-116 | appending patrols does not change which patrol is the template |
| RoamingPatrols.ExistingNamesOk | custom_scripts/add_roaming_patrols.py:93 | collecting the existing names succeeds exactly when every patrol has a `Name` that is not a list or dict |
| RoamingPatrols.ExistingNamesFirstError | custom_scripts/add_roaming_patrols.py:93 | when it fails, it fails on the first patrol without a usable name: `KeyError` when `Name` is missing, `TypeError` when it is a list or dict |
| RoamingPatrols.ExistingNamesMeans | custom_scripts/add_roaming_patrols.py:93 | a name is existing exactly when some patrol has it |
| RoamingPatrols.FreshMeans | custom_scripts/add_roaming_patrols.py:99-105 | the locations added are exactly those whose patrol name is not existing |
| RoamingPatrols.FreshAppend | custom_scripts/add_roaming_patrols.py:98-105 | the fresh locations of a concatenation are those of each part, in parse order |
| RoamingPatrols.FreshOne | custom_scripts/add_roaming_patrols.py:99-105 | one location is added exactly when its patrol name was not there before the run |
| RoamingPatrols.FreshKeepsRepeats | custom_scripts/add_roaming_patrols.py:93-105 | a location listed twice under a new name is added twice, since the existing names are collected once before the loop |
| RoamingPatrols.CreatedAt | custom_scripts/add_roaming_patrols.py:107-116 | the created patrols are the template instantiated for each added location, in order |
| RoamingPatrols.CreatedNames | custom_scripts/add_roaming_patrols.py:100-116 | the created patrols carry exactly the patrol names of their locations |
| RoamingPatrols.AddPatrolsMeans | custom_scripts/add_roaming_patrols.py:67-133 | without a ROAMING patrol nothing changes and false is returned; otherwise the created patrols are appended to `Patrols` on a real run, no other field changes, added plus skipped is the number parsed, and the file is written exactly when a real run added some |
| RoamingPatrols.DryRunSameCounts | custom_scripts/add_roaming_patrols.py:113-131 | a dry run fails exactly when a real run fails, reports the same counts and return value, changes nothing and writes nothing |
| RoamingPatrols.SecondRunAddsNothing | custom_scripts/add_roaming_patrols.py:93-119 | a second real run on the result adds no patrol and changes nothing |
| RoamingPatrols.AddRoamingPatrols | custom_scripts/add_roaming_patrols.py:67-133 | the method computes the specified run |
| RoamingPatrols.AppendPatrols | custom_scripts/add_roaming_patrols.py:96-119 | the loop adds one patrol per fresh location, skips the rest, and appends the created patrols only on a real run |

## Left out

- Files and the command line: reading and writing files, `os.walk`, `os.path.exists`, `argparse`, `sys.exit`, the `.backup` write and every `print` are not modelled. A file's content is a parameter, and a "written" flag or output text stands for the write.
- Each `main()` and its fixed file lists are left out, because they only sequence I/O around the modelled functions. `print_analysis_report` is modelled only as its split into the with-ammo and without-ammo lists.
- `process_loadout_file` in `fix_m79_ammo.py` is left out: it only prints, writes and maps an exception to `(False, False, [])` around `fix_m79_ammo_in_loadout`, whose failure the model returns as `Err`.
- `json.load`, `json.dump` and `json.loads(json.dumps(…))`: parsing, serialising and indentation are not modelled. The deep copy of a patrol template is the template value itself.
- Number conversion: `float()` is modelled only as accepting or rejecting the matched text (`RoamingPatrols.Converted`). The coordinates are kept as that text, not as floating-point values.
- Numbers in logs: a `ClassName` that is a number is shown in a log line as its JSON text, not as Python's `repr` of the float. An object or list shown as a Set name becomes empty text.
- Tolerant reads: `.get(k, [])` on a non-dict, or a loop over a non-list value where Python would raise `AttributeError` or `TypeError` while reading, reads as absent or empty. Writes that Python would fail on are modelled as errors.
- Aliasing: `.copy()` of the FNX45 configuration and of the removed pistol is shallow in Python. Later edits to one copy could show in another, but no script makes such an edit, and the model treats every copy as an independent value.
- `FixM79Ammo.FixSet`: it extends the Set's cargo once with the grenades of all its M79s. Python extends once per M79 with ammo, which gives the same list in the same order.
- `AmmoUpdate.Patch`: Python assigns `Chance` before it fails on a bad `Quantity`. The model discards that partial edit, because the failing file is never written.
- Regular expressions: they are modelled by explicit scanners. `\d` is the ASCII digits, and `\s` and `strip()` use the characters for which `str.isspace()` holds.
- `Json.Truthy`: a number counts as false exactly when its literal has a digit and no non-zero digit before the exponent, so `NaN`, `Infinity` and `-Infinity` are true as in Python. A literal that Python's float reading underflows to zero, such as `1e-400`, still counts as true.
- `WeaponAmmo.NameOf`: a `ClassName` that is a list or an object is an error, which fails the Set's analysis. Python's `in` tests membership in such a value instead and goes on, so a name such as `["AK"]` can still be reported as a weapon.
- `plot_ai_locations.py` and the Enforce script sources (`missionserver.c`, `eAIBase.c`, `ZombieBase.c`) are not part of this model.
