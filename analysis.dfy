/** `analyze_weapon_ammo_sets.py`: lists the weapons of every Set of a loadout
    and reports, per weapon, whether the Set's cargo carries any ammunition or
    magazines. The script only reads the loadout. */
module WeaponAmmo {
  import opened Json
  import opened Strings
  import opened Loadout

  // ---------------------------------------------------------------------------
  // The weapon heuristic.

  const WeaponIndicators: seq<string> := [
    "AK", "M4", "Mosin", "SKS", "Winchester", "Blaze", "CR", "VSD", "SVD", "VSS",
    "UMP", "MP5", "Bizon", "Scorpion", "FNX", "Glock", "Makarov", "Magnum",
    "Shotgun", "Izh", "B95", "Scout", "Hunting", "Repeater", "Carbine",
    "M79", "LAR", "Tundra", "Pioneer", "Longhorn", "Deagle", "P1", "Mkii",
    "SSG82", "FAMAS", "AUG"]

  const NonWeapons: seq<string> := ["Ammo_", "Mag_", "Optic", "Suppressor", "Compensator", "Bayonet"]

  /** Some string of `subs` occurs in `name`: a `for sub in subs: if sub in
      name` loop with its early return. */
  function AnyContained(name: string, subs: seq<string>): (r: bool)
    ensures r <==> exists i :: 0 <= i < |subs| && Contains(name, subs[i])
  {
    |subs| > 0 && (Contains(name, subs[|subs| - 1]) || AnyContained(name, subs[..|subs| - 1]))
  }

  /** `is_weapon_class`: no exclusion occurs in the name and some indicator
      does; an exclusion wins over any indicator. Matching is case-sensitive. */
  function IsWeaponClass(name: string): (r: bool)
    ensures r <==>
      (forall i :: 0 <= i < |NonWeapons| ==> !Contains(name, NonWeapons[i])) &&
      (exists j :: 0 <= j < |WeaponIndicators| && Contains(name, WeaponIndicators[j]))
  {
    !AnyContained(name, NonWeapons) && AnyContained(name, WeaponIndicators)
  }

  /** A magazine is no weapon, although its name contains the indicator `AK`. */
  lemma MagazineIsNoWeapon()
    ensures Contains("Mag_AKM_30Rnd", "AK") && !IsWeaponClass("Mag_AKM_30Rnd")
  {
    assert OccursAt("Mag_AKM_30Rnd", "AK", 4);
    ContainsIff("Mag_AKM_30Rnd", "AK");
    assert OccursAt("Mag_AKM_30Rnd", NonWeapons[1], 0);
    ContainsIff("Mag_AKM_30Rnd", NonWeapons[1]);
  }

  /** An excluded marker occurring anywhere in a name makes it no weapon,
      whatever indicators the name also contains. */
  lemma ExcludedIsNoWeapon(name: string, marker: string, i: nat)
    requires marker in NonWeapons
    ensures OccursAt(name, marker, i) ==> !IsWeaponClass(name)
  {
    ContainsIff(name, marker);
  }

  /** A name in which some indicator occurs and no excluded marker occurs at
      any position is a weapon. */
  lemma IndicatedIsWeapon(name: string, indicator: string, i: nat)
    requires indicator in WeaponIndicators
    ensures (OccursAt(name, indicator, i) && forall m, k: nat :: m in NonWeapons ==> !OccursAt(name, m, k)) ==>
              IsWeaponClass(name)
  {
    ContainsIff(name, indicator);
    forall m | m in NonWeapons {
      ContainsIff(name, m);
    }
  }

  /** The two weapons the loadout editors deal with are weapons. */
  lemma EditedWeaponsAreWeapons()
    ensures IsWeaponClass(M79) && IsWeaponClass(Fnx45)
  {
    assert OccursAt(M79, WeaponIndicators[25], 0);
    ContainsIff(M79, WeaponIndicators[25]);
    assert OccursAt(Fnx45, WeaponIndicators[14], 0);
    ContainsIff(Fnx45, WeaponIndicators[14]);
    forall i: nat | i < |NonWeapons| ensures !Contains(Fnx45, NonWeapons[i]) {
      ContainsIff(Fnx45, NonWeapons[i]);
      forall k: nat ensures !OccursAt(Fnx45, NonWeapons[i], k) {
        if k + |NonWeapons[i]| <= |Fnx45| {
          assert Fnx45[k] != NonWeapons[i][0];
        }
      }
    }
  }

  // ---------------------------------------------------------------------------
  // Running over a list, stopping at the first exception.

  /** The concatenated results of `f` over `xs` with their positions, as a
      `for i, x in enumerate(xs)` loop extending a list; the first exception
      ends the loop. `ctx` is passed to every call. */
  function Collect<T>(f: (string, nat, Value) -> Result<seq<T>>, ctx: string, xs: seq<Value>): Result<seq<T>> {
    if |xs| == 0 then Ok([])
    else
      var init :- Collect(f, ctx, xs[..|xs| - 1]);
      var last :- f(ctx, |xs| - 1, xs[|xs| - 1]);
      Ok(init + last)
  }

  lemma CollectSnoc<T>(f: (string, nat, Value) -> Result<seq<T>>, ctx: string, xs: seq<Value>, i: nat, done: seq<T>)
    requires i < |xs| && Collect(f, ctx, xs[..i]) == Ok(done) && f(ctx, i, xs[i]).Ok?
    ensures Collect(f, ctx, xs[..i + 1]) == Ok(done + f(ctx, i, xs[i]).value)
  {
    assert xs[..i + 1][..i] == xs[..i];
  }

  lemma CollectFails<T>(f: (string, nat, Value) -> Result<seq<T>>, ctx: string, xs: seq<Value>, i: nat)
    requires i < |xs| && Collect(f, ctx, xs[..i]).Ok? && f(ctx, i, xs[i]).Err?
    ensures Collect(f, ctx, xs) == Err(f(ctx, i, xs[i]).error)
  {
    assert xs[..i + 1][..i] == xs[..i];
    var n := i + 1;
    while n < |xs|
      invariant i < n <= |xs|
      invariant Collect(f, ctx, xs[..n]) == Err(f(ctx, i, xs[i]).error)
    {
      assert xs[..n + 1][..n] == xs[..n];
      n := n + 1;
    }
    assert xs[..n] == xs;
  }

  /** What a run that raised nothing is made of: the results of every element,
      in order. */
  lemma {:induction false} CollectParts<T>(f: (string, nat, Value) -> Result<seq<T>>, ctx: string, xs: seq<Value>, i: nat)
    requires Collect(f, ctx, xs).Ok? && i <= |xs|
    ensures Collect(f, ctx, xs[..i]).Ok? && Collect(f, ctx, xs[..i]).value <= Collect(f, ctx, xs).value
    ensures i < |xs| ==>
      f(ctx, i, xs[i]).Ok? && Collect(f, ctx, xs[..i]).value + f(ctx, i, xs[i]).value <= Collect(f, ctx, xs).value
    decreases |xs| - i
  {
    if i == |xs| {
      assert xs[..i] == xs;
    } else {
      CollectParts(f, ctx, xs, i + 1);
      assert xs[..i + 1][..i] == xs[..i];
    }
  }

  // ---------------------------------------------------------------------------
  // Names and the cargo tally.

  /** `item.get('ClassName', '')`, used as a string: a non-object item has no
      `.get`, and a name that is not a string is taken as an error (Python's
      `in` would test membership in a list or dict name instead). */
  function NameOf(item: Value): Result<string> {
    if !item.Object? then Err(NotAnObject("ClassName"))
    else match Field(item, "ClassName")
      case None => Ok("")
      case Some(Str(n)) => Ok(n)
      case Some(_) => Err(NotAString("ClassName"))
  }

  function NameCell(ctx: string, i: nat, item: Value): Result<seq<string>> {
    var n :- NameOf(item);
    Ok([n])
  }

  /** The names of the items, in order. */
  function NamesOf(items: seq<Value>): Result<seq<string>> {
    Collect(NameCell, "", items)
  }

  lemma {:induction false} NamesOfMeans(items: seq<Value>)
    requires NamesOf(items).Ok?
    ensures |NamesOf(items).value| == |items|
    ensures forall i :: 0 <= i < |items| ==> NameOf(items[i]) == Ok(NamesOf(items).value[i])
  {
    if |items| > 0 {
      var init := items[..|items| - 1];
      NamesOfMeans(init);
      assert forall i :: 0 <= i < |init| ==> init[i] == items[i];
    }
  }

  /** A per-name count kept in the order in which names were first seen, as a
      Python dict keeps its keys. */
  type Inventory = seq<(string, nat)>

  /** `counts[name]`, 0 when absent. */
  function CountOf(t: Inventory, n: string): nat {
    if |t| == 0 then 0 else if t[0].0 == n then t[0].1 else CountOf(t[1..], n)
  }

  predicate DistinctKeys(t: Inventory) {
    forall i, j :: 0 <= i < j < |t| ==> t[i].0 != t[j].0
  }

  predicate PositiveCounts(t: Inventory) {
    forall i :: 0 <= i < |t| ==> t[i].1 > 0
  }

  function SumCounts(t: Inventory): nat {
    if |t| == 0 then 0 else t[0].1 + SumCounts(t[1..])
  }

  /** `items[class_name] += 1` on a `defaultdict(int)`: an existing key keeps
      its place, a new key goes last with count 1. */
  function Bump(t: Inventory, n: string): (r: Inventory)
    ensures CountOf(r, n) == CountOf(t, n) + 1
    ensures forall m :: m != n ==> CountOf(r, m) == CountOf(t, m)
    ensures SumCounts(r) == SumCounts(t) + 1
    ensures forall i :: 0 <= i < |r| ==> (r[i].0 == n || exists j :: 0 <= j < |t| && t[j].0 == r[i].0)
  {
    if |t| == 0 then [(n, 1)]
    else if t[0].0 == n then [(n, t[0].1 + 1)] + t[1..]
    else
      var rest := Bump(t[1..], n);
      var r := [t[0]] + rest;
      assert forall i :: 1 <= i < |r| ==> r[i] == rest[i - 1];
      r
  }

  lemma {:induction false} BumpKeeps(t: Inventory, n: string)
    requires DistinctKeys(t) && PositiveCounts(t)
    ensures DistinctKeys(Bump(t, n)) && PositiveCounts(Bump(t, n))
  {
    if |t| == 0 {
      assert Bump(t, n) == [(n, 1)];
    } else if t[0].0 == n {
      var r := Bump(t, n);
      assert r == [(n, t[0].1 + 1)] + t[1..];
      forall i, j | 0 <= i < j < |r| ensures r[i].0 != r[j].0 {
        assert r[i].0 == t[i].0 && r[j].0 == t[j].0;
      }
    } else {
      var rest := t[1..];
      BumpKeeps(rest, n);
      var b := Bump(rest, n);
      assert Bump(t, n) == [t[0]] + b;
      HeadNotInBump(t, n, b);
      ConsKeeps(t[0], b);
    }
  }

  /** Bumping the tail never brings in the head's key. */
  lemma HeadNotInBump(t: Inventory, n: string, b: Inventory)
    requires |t| > 0 && t[0].0 != n && DistinctKeys(t) && b == Bump(t[1..], n)
    ensures forall j :: 0 <= j < |b| ==> b[j].0 != t[0].0
  {
    forall j | 0 <= j < |b| ensures b[j].0 != t[0].0 {
      if b[j].0 != n {
        var k :| 0 <= k < |t[1..]| && t[1..][k].0 == b[j].0;
        assert t[1..][k] == t[k + 1];
      }
    }
  }

  /** A new key with a positive count in front of a well-formed tally. */
  lemma ConsKeeps(h: (string, nat), b: Inventory)
    requires h.1 > 0 && DistinctKeys(b) && PositiveCounts(b)
    requires forall j :: 0 <= j < |b| ==> b[j].0 != h.0
    ensures DistinctKeys([h] + b) && PositiveCounts([h] + b)
  {
    var r := [h] + b;
    forall i, j | 0 <= i < j < |r| ensures r[i].0 != r[j].0 {
      assert r[j] == b[j - 1];
      if i > 0 {
        assert r[i] == b[i - 1];
      }
    }
  }

  /** `find_items_in_inventory_cargo` over the names. */
  function Tally(names: seq<string>): Inventory {
    if |names| == 0 then [] else Bump(Tally(names[..|names| - 1]), names[|names| - 1])
  }

  /** Occurrences of `n` in `names`. */
  function Occurrences(names: seq<string>, n: string): nat {
    if |names| == 0 then 0
    else Occurrences(names[..|names| - 1], n) + if names[|names| - 1] == n then 1 else 0
  }

  /** The tally counts every name exactly as often as it occurs, once per key,
      and its counts add up to the number of items. */
  lemma {:induction false} TallyMeans(names: seq<string>)
    ensures DistinctKeys(Tally(names)) && PositiveCounts(Tally(names))
    ensures SumCounts(Tally(names)) == |names|
    ensures forall n :: CountOf(Tally(names), n) == Occurrences(names, n)
  {
    if |names| > 0 {
      TallyMeans(names[..|names| - 1]);
      BumpKeeps(Tally(names[..|names| - 1]), names[|names| - 1]);
    }
  }

  function TallyOf(cargo: seq<Value>): Result<Inventory> {
    var names :- NamesOf(cargo);
    Ok(Tally(names))
  }

  // ---------------------------------------------------------------------------
  // Ammunition and magazines in the tally.

  /** `[name for name in counts.keys() if name.startswith(p)]` */
  function PrefixKeys(t: Inventory, p: string): (r: seq<string>)
    ensures forall k :: k in r ==> StartsWith(k, p) && exists i :: 0 <= i < |t| && t[i].0 == k
  {
    if |t| == 0 then []
    else (if StartsWith(t[0].0, p) then [t[0].0] else []) + PrefixKeys(t[1..], p)
  }

  /** `sum(counts[k] for k in keys)` */
  function SumLookups(t: Inventory, keys: seq<string>): nat {
    if |keys| == 0 then 0 else CountOf(t, keys[0]) + SumLookups(t, keys[1..])
  }

  /** The counts of the keys starting with `p`. */
  function PrefixTotal(t: Inventory, p: string): nat {
    if |t| == 0 then 0 else (if StartsWith(t[0].0, p) then t[0].1 else 0) + PrefixTotal(t[1..], p)
  }

  /** Names in `names` that start with `p`. */
  function CountPrefix(names: seq<string>, p: string): nat {
    if |names| == 0 then 0
    else CountPrefix(names[..|names| - 1], p) + if StartsWith(names[|names| - 1], p) then 1 else 0
  }

  lemma {:induction false} SumLookupsSkip(e: (string, nat), t: Inventory, keys: seq<string>)
    requires forall k :: k in keys ==> k != e.0
    ensures SumLookups([e] + t, keys) == SumLookups(t, keys)
  {
    if |keys| > 0 {
      assert ([e] + t)[1..] == t;
      assert keys[0] in keys;
      assert forall k :: k in keys[1..] ==> k in keys;
      SumLookupsSkip(e, t, keys[1..]);
    }
  }

  /** With one entry per key, looking the prefix keys up adds up their
      counts. */
  lemma {:induction false} LookupsArePrefixTotal(t: Inventory, p: string)
    requires DistinctKeys(t)
    ensures SumLookups(t, PrefixKeys(t, p)) == PrefixTotal(t, p)
  {
    if |t| > 0 {
      var e, rest := t[0], t[1..];
      assert t == [e] + rest;
      assert DistinctKeys(rest) by {
        forall i, j | 0 <= i < j < |rest| ensures rest[i].0 != rest[j].0 {
          assert rest[i] == t[i + 1] && rest[j] == t[j + 1];
        }
      }
      LookupsArePrefixTotal(rest, p);
      var ks := PrefixKeys(rest, p);
      forall k | k in ks ensures k != e.0 {
        var i :| 0 <= i < |rest| && rest[i].0 == k;
        assert rest[i] == t[i + 1];
      }
      SumLookupsSkip(e, rest, ks);
      if StartsWith(e.0, p) {
        assert PrefixKeys(t, p) == [e.0] + ks;
        assert ([e.0] + ks)[1..] == ks;
        assert SumLookups(t, [e.0] + ks) == e.1 + SumLookups(t, ks);
      } else {
        assert PrefixKeys(t, p) == ks;
      }
    }
  }

  lemma {:induction false} BumpPrefixTotal(t: Inventory, n: string, p: string)
    ensures PrefixTotal(Bump(t, n), p) == PrefixTotal(t, p) + if StartsWith(n, p) then 1 else 0
  {
    if |t| > 0 && t[0].0 != n {
      BumpPrefixTotal(t[1..], n, p);
      assert Bump(t, n)[1..] == Bump(t[1..], n);
    } else if |t| > 0 {
      assert Bump(t, n)[1..] == t[1..];
    }
  }

  /** The tally's total over a prefix is the number of names with it. */
  lemma {:induction false} TallyPrefixTotal(names: seq<string>, p: string)
    ensures PrefixTotal(Tally(names), p) == CountPrefix(names, p)
  {
    if |names| > 0 {
      TallyPrefixTotal(names[..|names| - 1], p);
      BumpPrefixTotal(Tally(names[..|names| - 1]), names[|names| - 1], p);
    }
  }

  lemma {:induction false} PrefixKeysEmpty(t: Inventory, p: string)
    requires PositiveCounts(t)
    ensures PrefixKeys(t, p) == [] <==> PrefixTotal(t, p) == 0
  {
    if |t| > 0 {
      PrefixKeysEmpty(t[1..], p);
    }
  }

  lemma {:induction false} CountPrefixZero(names: seq<string>, p: string)
    ensures CountPrefix(names, p) == 0 <==> forall i :: 0 <= i < |names| ==> !StartsWith(names[i], p)
  {
    if |names| > 0 {
      var init := names[..|names| - 1];
      CountPrefixZero(init, p);
      assert forall i :: 0 <= i < |init| ==> init[i] == names[i];
    }
  }

  // ---------------------------------------------------------------------------
  // Weapons of a Set.

  datatype Weapon = Weapon(name: string, location: string)

  function WeaponCell(location: string, i: nat, item: Value): Result<seq<Weapon>> {
    var n :- NameOf(item);
    Ok(if IsWeaponClass(n) then [Weapon(n, location)] else [])
  }

  /** The weapons among `items`, in order, each found at `location`. */
  function WeaponsIn(items: seq<Value>, location: string): Result<seq<Weapon>> {
    Collect(WeaponCell, location, items)
  }

  /** `attachment.get('SlotName', '')` as the f-string shows it. */
  function SlotShown(att: Value): string {
    match Field(att, "SlotName")
    case None => ""
    case Some(v) => Shown(v)
  }

  function SlotCell(ctx: string, i: nat, att: Value): Result<seq<Weapon>> {
    if !att.Object? then Err(NotAnObject("SlotName"))
    else WeaponsIn(Items(att), "InventoryAttachments[" + SlotShown(att) + "]")
  }

  /** The weapons in the slots, slot by slot and item by item. */
  function AttachmentWeapons(atts: seq<Value>): Result<seq<Weapon>> {
    Collect(SlotCell, "", atts)
  }

  /** The names that `IsWeaponClass` accepts, in order. */
  function WeaponNames(names: seq<string>): (r: seq<string>)
    ensures forall n :: n in r <==> n in names && IsWeaponClass(n)
  {
    if |names| == 0 then []
    else
      var init := WeaponNames(names[..|names| - 1]);
      var last := names[|names| - 1];
      assert names == names[..|names| - 1] + [last];
      init + if IsWeaponClass(last) then [last] else []
  }

  /** The weapons found in a list of items are the items whose names pass the
      heuristic, in order, all at the same location. */
  lemma {:induction false} WeaponsInMeans(items: seq<Value>, location: string)
    requires WeaponsIn(items, location).Ok?
    ensures NamesOf(items).Ok?
    ensures var ws := WeaponsIn(items, location).value;
      var wn := WeaponNames(NamesOf(items).value);
      |ws| == |wn| && forall k :: 0 <= k < |ws| ==> ws[k] == Weapon(wn[k], location)
  {
    if |items| > 0 {
      var init := items[..|items| - 1];
      WeaponsInMeans(init, location);
      var ws := WeaponsIn(items, location).value;
      var ws0 := WeaponsIn(init, location).value;
      var wn0 := WeaponNames(NamesOf(init).value);
      var n := NameOf(items[|items| - 1]).value;
      assert NamesOf(items).value == NamesOf(init).value + [n];
      var names := NamesOf(items).value;
      assert names[..|names| - 1] == NamesOf(init).value;
      assert ws == ws0 + (if IsWeaponClass(n) then [Weapon(n, location)] else []);
    }
  }

  // ---------------------------------------------------------------------------
  // The report of one Set.

  /** One entry of `results`. */
  datatype Report = Report(
    loadout: string, setIndex: nat, weapon: string, weaponLocation: string,
    ammoItems: seq<string>, magItems: seq<string>,
    totalAmmoCount: nat, totalMagCount: nat,
    hasAmmoOrMags: bool, allInventoryItems: Inventory)

  function ReportFor(w: Weapon, idx: nat, loadout: string, inv: Inventory): Report {
    var ammo := PrefixKeys(inv, "Ammo_");
    var mags := PrefixKeys(inv, "Mag_");
    Report(loadout, idx, w.name, w.location, ammo, mags,
      SumLookups(inv, ammo), SumLookups(inv, mags), |ammo| + |mags| > 0, inv)
  }

  function Reports(ws: seq<Weapon>, idx: nat, loadout: string, inv: Inventory): (r: seq<Report>)
    ensures |r| == |ws|
  {
    if |ws| == 0 then [] else Reports(ws[..|ws| - 1], idx, loadout, inv) + [ReportFor(ws[|ws| - 1], idx, loadout, inv)]
  }

  /** `analyze_set_for_weapons_and_ammo`: the cargo is tallied, then the
      weapons in the slots and in the cargo are each reported. */
  function AnalyzeSet(s: Value, idx: nat, loadout: string): Result<seq<Report>> {
    if !s.Object? then Err(NotAnObject("InventoryCargo"))
    else
      var inv :- TallyOf(Cargo(s));
      var attached :- AttachmentWeapons(Attachments(s));
      var carried :- WeaponsIn(Cargo(s), "InventoryCargo");
      Ok(Reports(attached + carried, idx, loadout, inv))
  }

  lemma {:induction false} ReportsMeans(ws: seq<Weapon>, idx: nat, loadout: string, inv: Inventory)
    ensures forall k :: 0 <= k < |ws| ==> Reports(ws, idx, loadout, inv)[k] == ReportFor(ws[k], idx, loadout, inv)
  {
    if |ws| > 0 {
      var init := ws[..|ws| - 1];
      ReportsMeans(init, idx, loadout, inv);
      assert forall k :: 0 <= k < |init| ==> init[k] == ws[k];
    }
  }

  /** Every weapon of the Set gets one report, slots first, carrying the Set's
      index; the ammunition and magazine totals are the numbers of cargo items
      whose names start with `Ammo_` and `Mag_`, and `hasAmmoOrMags` holds
      exactly when some cargo item's name starts with either. */
  lemma AnalyzeSetMeans(s: Value, idx: nat, loadout: string)
    requires AnalyzeSet(s, idx, loadout).Ok?
    ensures NamesOf(Cargo(s)).Ok? && AttachmentWeapons(Attachments(s)).Ok? && WeaponsIn(Cargo(s), "InventoryCargo").Ok?
    ensures var r := AnalyzeSet(s, idx, loadout).value;
      var ws := AttachmentWeapons(Attachments(s)).value + WeaponsIn(Cargo(s), "InventoryCargo").value;
      var names := NamesOf(Cargo(s)).value;
      |r| == |ws| &&
      forall k :: 0 <= k < |r| ==>
        r[k].setIndex == idx && r[k].loadout == loadout &&
        r[k].weapon == ws[k].name && r[k].weaponLocation == ws[k].location &&
        r[k].totalAmmoCount == CountPrefix(names, "Ammo_") &&
        r[k].totalMagCount == CountPrefix(names, "Mag_") &&
        (r[k].hasAmmoOrMags <==>
          exists i :: 0 <= i < |names| && (StartsWith(names[i], "Ammo_") || StartsWith(names[i], "Mag_")))
  {
    var names := NamesOf(Cargo(s)).value;
    var inv := Tally(names);
    var ws := AttachmentWeapons(Attachments(s)).value + WeaponsIn(Cargo(s), "InventoryCargo").value;
    TallyMeans(names);
    ReportsMeans(ws, idx, loadout, inv);
    LookupsArePrefixTotal(inv, "Ammo_");
    LookupsArePrefixTotal(inv, "Mag_");
    TallyPrefixTotal(names, "Ammo_");
    TallyPrefixTotal(names, "Mag_");
    PrefixKeysEmpty(inv, "Ammo_");
    PrefixKeysEmpty(inv, "Mag_");
    CountPrefixZero(names, "Ammo_");
    CountPrefixZero(names, "Mag_");
  }

  /** Every reported weapon passes the heuristic. */
  lemma ReportedAreWeapons(s: Value, idx: nat, loadout: string)
    requires AnalyzeSet(s, idx, loadout).Ok?
    ensures forall r :: r in AnalyzeSet(s, idx, loadout).value ==> IsWeaponClass(r.weapon)
  {
    AnalyzeSetMeans(s, idx, loadout);
    var atts := Attachments(s);
    var attached := AttachmentWeapons(atts).value;
    var carried := WeaponsIn(Cargo(s), "InventoryCargo").value;
    WeaponsInMeans(Cargo(s), "InventoryCargo");
    SlotWeapons(atts);
    forall w: Weapon | w in attached + carried ensures IsWeaponClass(w.name) {
      if w in carried {
        var k :| 0 <= k < |carried| && carried[k] == w;
        assert WeaponNames(NamesOf(Cargo(s)).value)[k] in WeaponNames(NamesOf(Cargo(s)).value);
      }
    }
  }

  lemma {:induction false} SlotWeapons(atts: seq<Value>)
    requires AttachmentWeapons(atts).Ok?
    ensures forall w :: w in AttachmentWeapons(atts).value ==> IsWeaponClass(w.name)
  {
    if |atts| > 0 {
      var init := atts[..|atts| - 1];
      var att := atts[|atts| - 1];
      SlotWeapons(init);
      var location := "InventoryAttachments[" + SlotShown(att) + "]";
      WeaponsInMeans(Items(att), location);
      var ws := WeaponsIn(Items(att), location).value;
      var wn := WeaponNames(NamesOf(Items(att)).value);
      forall w: Weapon | w in ws ensures IsWeaponClass(w.name) {
        var k :| 0 <= k < |ws| && ws[k] == w;
        assert wn[k] in wn;
      }
    }
  }

  // ---------------------------------------------------------------------------
  // The whole loadout.

  /** `analyze_loadout_file` after loading: every Set with its index. */
  function AnalyzeLoadout(data: Value, loadout: string): Result<seq<Report>> {
    Collect(SetCell, loadout, Sets(data))
  }

  function SetCell(loadout: string, i: nat, s: Value): Result<seq<Report>> {
    AnalyzeSet(s, i, loadout)
  }

  /** Every report of the loadout belongs to the Set at its `setIndex`, and
      the reports come in Set order. */
  lemma AnalyzeLoadoutMeans(data: Value, loadout: string)
    requires AnalyzeLoadout(data, loadout).Ok?
    ensures var r := AnalyzeLoadout(data, loadout).value;
      forall k :: 0 <= k < |r| ==>
        r[k].setIndex < |Sets(data)| &&
        AnalyzeSet(Sets(data)[r[k].setIndex], r[k].setIndex, loadout).Ok? &&
        r[k] in AnalyzeSet(Sets(data)[r[k].setIndex], r[k].setIndex, loadout).value
    ensures var r := AnalyzeLoadout(data, loadout).value;
      forall k, l :: 0 <= k < l < |r| ==> r[k].setIndex <= r[l].setIndex
  {
    SetsReported(Sets(data), loadout);
  }

  lemma {:induction false} SetsReported(sets: seq<Value>, loadout: string)
    requires Collect(SetCell, loadout, sets).Ok?
    ensures var r := Collect(SetCell, loadout, sets).value;
      forall k :: 0 <= k < |r| ==>
        r[k].setIndex < |sets| &&
        AnalyzeSet(sets[r[k].setIndex], r[k].setIndex, loadout).Ok? &&
        r[k] in AnalyzeSet(sets[r[k].setIndex], r[k].setIndex, loadout).value
    ensures var r := Collect(SetCell, loadout, sets).value;
      forall k, l :: 0 <= k < l < |r| ==> r[k].setIndex <= r[l].setIndex
  {
    if |sets| > 0 {
      var idx := |sets| - 1;
      var init := sets[..idx];
      SetsReported(init, loadout);
      var r0 := Collect(SetCell, loadout, init).value;
      var last := AnalyzeSet(sets[idx], idx, loadout).value;
      var r := Collect(SetCell, loadout, sets).value;
      assert r == r0 + last;
      forall k | 0 <= k < |last| ensures last[k].setIndex == idx {
        AnalyzeSetMeans(sets[idx], idx, loadout);
      }
      forall k | 0 <= k < |r0| ensures r0[k].setIndex < idx && sets[r0[k].setIndex] == init[r0[k].setIndex] {
      }
    }
  }

  /** The two lists of `print_analysis_report`. */
  function WithAmmo(results: seq<Report>): seq<Report> {
    if |results| == 0 then []
    else
      var last := results[|results| - 1];
      WithAmmo(results[..|results| - 1]) + if last.hasAmmoOrMags then [last] else []
  }

  function WithoutAmmo(results: seq<Report>): seq<Report> {
    if |results| == 0 then []
    else
      var last := results[|results| - 1];
      WithoutAmmo(results[..|results| - 1]) + if last.hasAmmoOrMags then [] else [last]
  }

  /** The first list holds exactly the results with ammunition or magazines,
      the second exactly those without. */
  lemma {:induction false} ReportListsMeans(results: seq<Report>, x: Report)
    ensures x in WithAmmo(results) <==> x in results && x.hasAmmoOrMags
    ensures x in WithoutAmmo(results) <==> x in results && !x.hasAmmoOrMags
  {
    if |results| > 0 {
      var init, last := results[..|results| - 1], results[|results| - 1];
      ReportListsMeans(init, x);
      assert results == init + [last];
      assert x in results <==> x in init || x == last;
    }
  }

  /** The two lists split the results: every result is in exactly one of them,
      as often as it occurs. */
  lemma {:induction false} ReportPartition(results: seq<Report>)
    ensures multiset(WithAmmo(results)) + multiset(WithoutAmmo(results)) == multiset(results)
    ensures |WithAmmo(results)| + |WithoutAmmo(results)| == |results|
  {
    if |results| == 0 {
      assert WithAmmo(results) == [] && WithoutAmmo(results) == [];
    } else {
      var init, last := results[..|results| - 1], results[|results| - 1];
      ReportPartition(init);
      PartitionSnoc(init, last);
      assert results == init + [last];
    }
  }

  lemma PartitionSnoc(init: seq<Report>, last: Report)
    requires multiset(WithAmmo(init)) + multiset(WithoutAmmo(init)) == multiset(init)
    requires |WithAmmo(init)| + |WithoutAmmo(init)| == |init|
    ensures multiset(WithAmmo(init + [last])) + multiset(WithoutAmmo(init + [last])) == multiset(init + [last])
    ensures |WithAmmo(init + [last])| + |WithoutAmmo(init + [last])| == |init + [last]|
  {
    ReportListsSnoc(init, last);
    SplitSnoc(WithAmmo(init), WithoutAmmo(init), init, last);
  }

  /** A split of a list stays a split when one more item joins either side. */
  lemma SplitSnoc(with: seq<Report>, without: seq<Report>, whole: seq<Report>, x: Report)
    requires multiset(with) + multiset(without) == multiset(whole)
    ensures multiset(with + [x]) + multiset(without) == multiset(whole + [x])
    ensures multiset(with) + multiset(without + [x]) == multiset(whole + [x])
  {
  }

  /** One more result goes to the end of exactly one of the two lists. */
  lemma ReportListsSnoc(init: seq<Report>, last: Report)
    ensures WithAmmo(init + [last]) == if last.hasAmmoOrMags then WithAmmo(init) + [last] else WithAmmo(init)
    ensures WithoutAmmo(init + [last]) == if last.hasAmmoOrMags then WithoutAmmo(init) else WithoutAmmo(init) + [last]
  {
    assert (init + [last])[..|init|] == init;
  }

  // ---------------------------------------------------------------------------
  // The loops of the script.

  /** `find_items_in_inventory_cargo`. */
  method FindItemsInInventoryCargo(cargo: seq<Value>) returns (r: Result<Inventory>)
    ensures r == TallyOf(cargo)
  {
    var items: Inventory := [];
    ghost var names: seq<string> := [];
    var i := 0;
    while i < |cargo|
      invariant i <= |cargo|
      invariant NamesOf(cargo[..i]) == Ok(names)
      invariant items == Tally(names)
    {
      var name := NameOf(cargo[i]);
      if name.Err? {
        CollectFails(NameCell, "", cargo, i);
        return Err(name.error);
      }
      CollectSnoc(NameCell, "", cargo, i, names);
      items := Bump(items, name.value);
      names := names + [name.value];
      i := i + 1;
    }
    assert cargo[..i] == cargo;
    r := Ok(items);
  }

  /** The weapons among a list of items, as the two item loops collect them. */
  method CollectWeapons(items: seq<Value>, location: string) returns (r: Result<seq<Weapon>>)
    ensures r == WeaponsIn(items, location)
  {
    var found: seq<Weapon> := [];
    var i := 0;
    while i < |items|
      invariant i <= |items|
      invariant WeaponsIn(items[..i], location) == Ok(found)
    {
      var name := NameOf(items[i]);
      if name.Err? {
        CollectFails(WeaponCell, location, items, i);
        return Err(name.error);
      }
      CollectSnoc(WeaponCell, location, items, i, found);
      if IsWeaponClass(name.value) {
        found := found + [Weapon(name.value, location)];
      } else {
        assert found + [] == found;
      }
      i := i + 1;
    }
    assert items[..i] == items;
    r := Ok(found);
  }

  /** The loop over the slots. */
  method CollectSlotWeapons(atts: seq<Value>) returns (r: Result<seq<Weapon>>)
    ensures r == AttachmentWeapons(atts)
  {
    var found: seq<Weapon> := [];
    var a := 0;
    while a < |atts|
      invariant a <= |atts|
      invariant AttachmentWeapons(atts[..a]) == Ok(found)
    {
      var att := atts[a];
      if !att.Object? {
        CollectFails(SlotCell, "", atts, a);
        return Err(NotAnObject("SlotName"));
      }
      var ws := CollectWeapons(Items(att), "InventoryAttachments[" + SlotShown(att) + "]");
      if ws.Err? {
        CollectFails(SlotCell, "", atts, a);
        return Err(ws.error);
      }
      CollectSnoc(SlotCell, "", atts, a, found);
      found := found + ws.value;
      a := a + 1;
    }
    assert atts[..a] == atts;
    r := Ok(found);
  }

  /** `analyze_set_for_weapons_and_ammo`. */
  method AnalyzeSetForWeaponsAndAmmo(s: Value, idx: nat, loadout: string) returns (r: Result<seq<Report>>)
    ensures r == AnalyzeSet(s, idx, loadout)
  {
    if !s.Object? {
      return Err(NotAnObject("InventoryCargo"));
    }
    var inv :- FindItemsInInventoryCargo(Cargo(s));
    var attached :- CollectSlotWeapons(Attachments(s));
    var carried :- CollectWeapons(Cargo(s), "InventoryCargo");
    var weapons := attached + carried;
    var results: seq<Report> := [];
    var k := 0;
    while k < |weapons|
      invariant k <= |weapons|
      invariant results == Reports(weapons[..k], idx, loadout, inv)
    {
      ReportsSnoc(weapons, k, idx, loadout, inv);
      results := results + [ReportFor(weapons[k], idx, loadout, inv)];
      k := k + 1;
    }
    SetDone(s, idx, loadout, inv, attached, carried, weapons, k, results);
    r := Ok(results);
  }

  lemma ReportsSnoc(ws: seq<Weapon>, k: nat, idx: nat, loadout: string, inv: Inventory)
    requires k < |ws|
    ensures Reports(ws[..k + 1], idx, loadout, inv) == Reports(ws[..k], idx, loadout, inv) + [ReportFor(ws[k], idx, loadout, inv)]
  {
    assert ws[..k + 1][..k] == ws[..k];
  }

  lemma SetDone(s: Value, idx: nat, loadout: string, inv: Inventory, attached: seq<Weapon>, carried: seq<Weapon>,
                weapons: seq<Weapon>, k: nat, results: seq<Report>)
    requires s.Object? && TallyOf(Cargo(s)) == Ok(inv)
    requires AttachmentWeapons(Attachments(s)) == Ok(attached) && WeaponsIn(Cargo(s), "InventoryCargo") == Ok(carried)
    requires weapons == attached + carried && k == |weapons| && results == Reports(weapons[..k], idx, loadout, inv)
    ensures AnalyzeSet(s, idx, loadout) == Ok(results)
  {
    assert weapons[..k] == weapons;
  }

  /** The Sets loop of `analyze_loadout_file`. */
  method AnalyzeLoadoutFile(data: Value, loadout: string) returns (r: Result<seq<Report>>)
    ensures r == AnalyzeLoadout(data, loadout)
  {
    var sets := Sets(data);
    var results: seq<Report> := [];
    var idx := 0;
    while idx < |sets|
      invariant idx <= |sets|
      invariant Collect(SetCell, loadout, sets[..idx]) == Ok(results)
    {
      var setResults := AnalyzeSetForWeaponsAndAmmo(sets[idx], idx, loadout);
      if setResults.Err? {
        LoadoutFails(data, loadout, idx, setResults.error);
        return Err(setResults.error);
      }
      LoadoutStep(sets, loadout, idx, results, setResults.value);
      results := results + setResults.value;
      idx := idx + 1;
    }
    LoadoutDone(data, loadout, idx, results);
    r := Ok(results);
  }

  lemma LoadoutStep(sets: seq<Value>, loadout: string, idx: nat, results: seq<Report>, more: seq<Report>)
    requires idx < |sets| && Collect(SetCell, loadout, sets[..idx]) == Ok(results)
    requires AnalyzeSet(sets[idx], idx, loadout) == Ok(more)
    ensures Collect(SetCell, loadout, sets[..idx + 1]) == Ok(results + more)
  {
    CollectSnoc(SetCell, loadout, sets, idx, results);
  }

  lemma LoadoutFails(data: Value, loadout: string, idx: nat, e: Error)
    requires idx < |Sets(data)| && Collect(SetCell, loadout, Sets(data)[..idx]).Ok?
    requires AnalyzeSet(Sets(data)[idx], idx, loadout) == Err(e)
    ensures AnalyzeLoadout(data, loadout) == Err(e)
  {
    CollectFails(SetCell, loadout, Sets(data), idx);
  }

  lemma LoadoutDone(data: Value, loadout: string, idx: nat, results: seq<Report>)
    requires idx == |Sets(data)| && Collect(SetCell, loadout, Sets(data)[..idx]) == Ok(results)
    ensures AnalyzeLoadout(data, loadout) == Ok(results)
  {
    assert Sets(data)[..idx] == Sets(data);
  }
}
