/** Moves the 40mm grenades that loadouts put inside an M79's own
    `InventoryCargo` (a weapon has no storage) out to the cargo of its Set. */
module FixM79Ammo {
  import opened Json
  import opened Strings
  import opened Loadout

  const Shoulder := "Shoulder"

  // ---------------------------------------------------------------------------
  // The edit, as values.

  /** One item of a `Shoulder` slot: an M79 loses its grenades, which come out
      last first, as the reverse-index loop pops them. */
  function FixItem(item: Value): (Value, seq<Value>) {
    if NamedAs(item, M79) then
      var cargo := Cargo(item);
      (WithList(item, "InventoryCargo", Unnamed(cargo, Ammo40)), Reverse(NamedOnly(cargo, Ammo40)))
    else (item, [])
  }

  function FixItems(items: seq<Value>): (r: (seq<Value>, seq<Value>))
    ensures |r.0| == |items|
  {
    if |items| == 0 then ([], [])
    else
      var (init, moved) := FixItems(items[..|items| - 1]);
      var (item, m) := FixItem(items[|items| - 1]);
      (init + [item], moved + m)
  }

  /** One slot: only `Shoulder` slots are inspected. */
  function FixSlot(att: Value): (Value, seq<Value>) {
    if InSlot(att, Shoulder) then
      var (items, moved) := FixItems(Items(att));
      (WithList(att, "Items", items), moved)
    else (att, [])
  }

  function FixSlots(atts: seq<Value>): (r: (seq<Value>, seq<Value>))
    ensures |r.0| == |atts|
  {
    if |atts| == 0 then ([], [])
    else
      var (init, moved) := FixSlots(atts[..|atts| - 1]);
      var (att, m) := FixSlot(atts[|atts| - 1]);
      (init + [att], moved + m)
  }

  /** One Set: the grenades taken from its M79s go at the end of its cargo,
      which is created only when something moves. A non-list cargo makes the
      extension raise. Returns the Set and the grenades moved. */
  function FixSet(s: Value): Result<(Value, seq<Value>)> {
    var (atts, moved) := FixSlots(Attachments(s));
    if moved == [] then Ok((WithList(s, "InventoryAttachments", atts), []))
    else if !s.Object? then Ok((s, []))
    else
      var s1 :- ExtendList(s, "InventoryCargo", moved);
      Ok((WithList(s1, "InventoryAttachments", atts), moved))
  }

  // ---------------------------------------------------------------------------
  // Counting the grenades.

  /** Grenades in the cargo of an M79. */
  function M79Ammo(item: Value): nat {
    if NamedAs(item, M79) then CountNamed(Cargo(item), Ammo40) else 0
  }

  function ItemsAmmo(items: seq<Value>): nat {
    if |items| == 0 then 0 else ItemsAmmo(items[..|items| - 1]) + M79Ammo(items[|items| - 1])
  }

  /** Grenades inside the M79s of the `Shoulder` slots. */
  function ShoulderAmmo(atts: seq<Value>): nat {
    if |atts| == 0 then 0
    else ShoulderAmmo(atts[..|atts| - 1]) + if InSlot(atts[|atts| - 1], Shoulder) then ItemsAmmo(Items(atts[|atts| - 1])) else 0
  }

  /** No M79 in a `Shoulder` slot holds a grenade. */
  predicate ShoulderClear(atts: seq<Value>) {
    forall a :: 0 <= a < |atts| ==> SlotClear(atts[a])
  }

  /** A slot other than `Shoulder`, or one whose M79s hold no grenade. */
  predicate SlotClear(att: Value) {
    InSlot(att, Shoulder) ==> ItemsClear(Items(att))
  }

  predicate ItemsClear(items: seq<Value>) {
    forall i :: 0 <= i < |items| ==> M79Clear(items[i])
  }

  /** An item that is no M79, or an M79 whose cargo holds no grenade. */
  predicate M79Clear(item: Value) {
    NamedAs(item, M79) ==> !AnyNamed(Cargo(item), Ammo40)
  }

  lemma {:induction false} ItemsAmmoZero(items: seq<Value>)
    ensures ItemsAmmo(items) == 0 <==> ItemsClear(items)
  {
    if |items| == 0 {
      assert ItemsAmmo(items) == 0;
    } else {
      var init := items[..|items| - 1];
      var last := items[|items| - 1];
      ItemsAmmoZero(init);
      M79AmmoZero(last);
      assert ItemsAmmo(items) == ItemsAmmo(init) + M79Ammo(last);
      forall i | 0 <= i < |init| ensures init[i] == items[i] {
      }
    }
  }

  /** One item holds no counted grenade exactly when it is no M79 or its cargo
      has none. */
  lemma M79AmmoZero(item: Value)
    ensures M79Ammo(item) == 0 <==> M79Clear(item)
  {
    if NamedAs(item, M79) {
      var cargo := Cargo(item);
      if AnyNamed(cargo, Ammo40) {
        var j :| 0 <= j < |cargo| && NamedAs(cargo[j], Ammo40);
        NamedOnlyMembers(cargo, Ammo40);
        assert cargo[j] in NamedOnly(cargo, Ammo40);
      } else {
        NoneNamed(cargo, Ammo40);
      }
    }
  }

  /** The count is zero exactly when no `Shoulder` M79 holds a grenade. */
  lemma {:induction false} ShoulderAmmoZero(atts: seq<Value>)
    ensures ShoulderAmmo(atts) == 0 <==> ShoulderClear(atts)
  {
    if |atts| == 0 {
      assert ShoulderAmmo(atts) == 0;
    } else {
      var init := atts[..|atts| - 1];
      var last := atts[|atts| - 1];
      var here := if InSlot(last, Shoulder) then ItemsAmmo(Items(last)) else 0;
      assert ShoulderAmmo(atts) == ShoulderAmmo(init) + here;
      ShoulderAmmoZero(init);
      ItemsAmmoZero(Items(last));
      assert here == 0 <==> SlotClear(last);
      ShoulderClearSnoc(atts);
    }
  }

  lemma ShoulderClearSnoc(atts: seq<Value>)
    requires |atts| > 0
    ensures ShoulderClear(atts) <==> ShoulderClear(atts[..|atts| - 1]) && SlotClear(atts[|atts| - 1])
  {
    var init := atts[..|atts| - 1];
    assert forall a :: 0 <= a < |init| ==> init[a] == atts[a];
  }

  // ---------------------------------------------------------------------------
  // What the edit guarantees.

  /** An M79 keeps its other cargo, in order, and loses every grenade; every
      other item is left alone. */
  lemma FixItemMeans(item: Value)
    ensures var (r, m) := FixItem(item);
      (NamedAs(item, M79) ==>
        Cargo(r) == Unnamed(Cargo(item), Ammo40) && m == Reverse(NamedOnly(Cargo(item), Ammo40)) &&
        forall k :: k != "InventoryCargo" ==> Field(r, k) == Field(item, k)) &&
      (!NamedAs(item, M79) ==> r == item && m == []) &&
      (NamedAs(r, M79) <==> NamedAs(item, M79)) &&
      M79Ammo(r) == 0 && |m| == M79Ammo(item)
  {
    if NamedAs(item, M79) {
      var cargo := Cargo(item);
      assert (Field(item, "InventoryCargo").Some? && Field(item, "InventoryCargo").value.Array?) || cargo == [];
      UnnamedNoneNamed(cargo, Ammo40);
      NoneNamed(Unnamed(cargo, Ammo40), Ammo40);
    }
  }

  lemma {:induction false} FixItemsMeans(items: seq<Value>)
    ensures var (r, m) := FixItems(items);
      ItemsAmmo(r) == 0 && |m| == ItemsAmmo(items)
  {
    if |items| == 0 {
      assert FixItems(items) == ([], []);
    } else {
      var init, last := items[..|items| - 1], items[|items| - 1];
      FixItemsMeans(init);
      FixItemMeans(last);
      var (r0, m0) := FixItems(init);
      var (x, m1) := FixItem(last);
      var r := FixItems(items).0;
      assert r == r0 + [x];
      assert r[..|r| - 1] == r0 && r[|r| - 1] == x;
      assert ItemsAmmo(r) == ItemsAmmo(r0) + M79Ammo(x);
    }
  }

  /** The fixed list is the items fixed one by one. */
  lemma {:induction false} FixItemsAt(items: seq<Value>)
    ensures forall i :: 0 <= i < |items| ==> FixItems(items).0[i] == FixItem(items[i]).0
  {
    if |items| > 0 {
      var init, last := items[..|items| - 1], items[|items| - 1];
      FixItemsAt(init);
      var r0 := FixItems(init).0;
      var x := FixItem(last).0;
      var r := FixItems(items).0;
      assert r == r0 + [x];
      forall i | 0 <= i < |items| ensures r[i] == FixItem(items[i]).0 {
        if i < |init| {
          assert items[i] == init[i] && r[i] == r0[i];
        } else {
          assert items[i] == last && r[i] == x;
        }
      }
    }
  }

  lemma {:induction false} FixSlotsMeans(atts: seq<Value>)
    ensures var (r, m) := FixSlots(atts);
      ShoulderAmmo(r) == 0 && |m| == ShoulderAmmo(atts)
  {
    if |atts| > 0 {
      var init := atts[..|atts| - 1];
      var last := atts[|atts| - 1];
      FixSlotsMeans(init);
      var r := FixSlots(atts).0;
      assert r[..|r| - 1] == FixSlots(init).0;
      if InSlot(last, Shoulder) {
        FixItemsMeans(Items(last));
        var items := FixItems(Items(last)).0;
        assert Items(WithList(last, "Items", items)) == items || (items == [] && Items(last) == []);
      }
    }
  }

  /** The slots of a fixed Set are the fixed slots. */
  lemma FixSetSlots(s: Value)
    requires FixSet(s).Ok?
    ensures Attachments(FixSet(s).value.0) == FixSlots(Attachments(s)).0
  {
    var atts := Attachments(s);
    var (atts', moved) := FixSlots(atts);
    if moved != [] {
      var s1 := ExtendList(s, "InventoryCargo", moved).value;
      assert Field(s1, "InventoryAttachments") == Field(s, "InventoryAttachments");
    }
  }

  /** What the fix does to the Set's cargo: the grenades from its slots go at
      the end, and an absent cargo stays absent when nothing moves. */
  lemma FixSetCargo(s: Value)
    requires FixSet(s).Ok?
    ensures var (r, moved) := FixSet(s).value;
      moved == FixSlots(Attachments(s)).1 &&
      (moved == [] ==> Field(r, "InventoryCargo") == Field(s, "InventoryCargo")) &&
      (moved != [] ==> Cargo(r) == Cargo(s) + moved)
  {
    var atts := Attachments(s);
    var moved := FixSlots(atts).1;
    if !s.Object? {
      assert atts == [];
    } else if moved != [] {
      var s1 := ExtendList(s, "InventoryCargo", moved).value;
      assert Cargo(s1) == Cargo(s) + moved;
    }
  }

  /** After the fix no M79 of a `Shoulder` slot of the Set holds a grenade. */
  lemma FixSetClears(s: Value)
    requires FixSet(s).Ok?
    ensures ShoulderClear(Attachments(FixSet(s).value.0))
  {
    FixSetSlots(s);
    FixSlotsMeans(Attachments(s));
    ShoulderAmmoZero(Attachments(FixSet(s).value.0));
  }

  /** The grenades the `Shoulder` M79s held are now at the end of the Set's
      cargo, so the Set's count of them is conserved. Nothing moves, and no
      cargo is created, when there was nothing to move. */
  lemma FixSetMoves(s: Value)
    requires FixSet(s).Ok?
    ensures var (r, moved) := FixSet(s).value;
      |moved| == ShoulderAmmo(Attachments(s)) &&
      CountNamed(Cargo(r), Ammo40) + ShoulderAmmo(Attachments(r)) == CountNamed(Cargo(s), Ammo40) + ShoulderAmmo(Attachments(s)) &&
      (moved == [] ==> Field(r, "InventoryCargo") == Field(s, "InventoryCargo")) &&
      (moved != [] ==> Cargo(r) == Cargo(s) + moved)
  {
    var atts := Attachments(s);
    var (r, moved) := FixSet(s).value;
    FixSetCargo(s);
    FixSlotsMeans(atts);
    FixSetSlots(s);
    if moved != [] {
      NamedOnlyAppend(Cargo(s), moved, Ammo40);
      MovedAreGrenades(atts);
      AllNamed(moved, Ammo40);
    }
  }

  /** Everything a fix moves is a grenade. */
  lemma {:induction false} MovedAreGrenades(atts: seq<Value>)
    ensures forall x :: x in FixSlots(atts).1 ==> NamedAs(x, Ammo40)
  {
    if |atts| > 0 {
      MovedAreGrenades(atts[..|atts| - 1]);
      var last := atts[|atts| - 1];
      if InSlot(last, Shoulder) {
        ItemsMovedAreGrenades(Items(last));
      }
    }
  }

  lemma {:induction false} ItemsMovedAreGrenades(items: seq<Value>)
    ensures forall x :: x in FixItems(items).1 ==> NamedAs(x, Ammo40)
  {
    if |items| > 0 {
      ItemsMovedAreGrenades(items[..|items| - 1]);
      var last := items[|items| - 1];
      NamedOnlyMembers(Cargo(last), Ammo40);
      var named := NamedOnly(Cargo(last), Ammo40);
      forall i | 0 <= i < |named| ensures Reverse(named)[i] in named {
        assert Reverse(named)[i] == named[|named| - 1 - i];
      }
    }
  }

  lemma {:induction false} AllNamed(xs: seq<Value>, name: string)
    requires forall x :: x in xs ==> NamedAs(x, name)
    ensures NamedOnly(xs, name) == xs
  {
    if |xs| > 0 {
      assert xs[0] in xs;
      AllNamed(xs[1..], name);
      assert xs == [xs[0]] + xs[1..];
    }
  }

  /** A Set whose `Shoulder` M79s hold no grenade is left exactly as it is. */
  lemma {:induction false} FixItemsIdentity(items: seq<Value>)
    requires ItemsAmmo(items) == 0
    ensures FixItems(items) == (items, [])
  {
    if |items| == 0 {
      assert FixItems(items) == ([], []);
    } else {
      var init := items[..|items| - 1];
      var last := items[|items| - 1];
      assert ItemsAmmo(items) == ItemsAmmo(init) + M79Ammo(last);
      FixItemsIdentity(init);
      FixItemIdentity(last);
      InitLast(items);
      assert FixItems(items).0 == items;
      assert FixItems(items).1 == [];
    }
  }

  lemma FixItemIdentity(item: Value)
    requires M79Ammo(item) == 0
    ensures FixItem(item) == (item, [])
  {
    if NamedAs(item, M79) {
      M79AmmoZero(item);
      NoneNamed(Cargo(item), Ammo40);
      WithListSame(item, "InventoryCargo");
    }
  }

  lemma {:induction false} FixSlotsIdentity(atts: seq<Value>)
    requires ShoulderAmmo(atts) == 0
    ensures FixSlots(atts) == (atts, [])
  {
    if |atts| > 0 {
      var init := atts[..|atts| - 1];
      var last := atts[|atts| - 1];
      FixSlotsIdentity(init);
      if InSlot(last, Shoulder) {
        FixItemsIdentity(Items(last));
        WithListSame(last, "Items");
      }
      assert FixSlot(last) == (last, []);
      InitLast(atts);
      assert FixSlots(atts).0 == atts && FixSlots(atts).1 == [];
    }
  }

  lemma FixSetIdentity(s: Value)
    requires ShoulderAmmo(Attachments(s)) == 0
    ensures FixSet(s) == Ok((s, []))
  {
    FixSlotsIdentity(Attachments(s));
    WithListSame(s, "InventoryAttachments");
  }

  // ---------------------------------------------------------------------------
  // The whole loadout.

  /** The name a Set is logged under: its `ClassName`, or `Set_<index>` when
      it has none. */
  function SetName(s: Value, idx: nat): string {
    match Field(s, "ClassName")
    case None => "Set_" + NatToString(idx)
    case Some(v) => Shown(v)
  }

  function LogEntry(idx: nat, name: string): string {
    "Set " + NatToString(idx) + " (" + name + "): Moved Ammo_40mm_Explosive from M79 InventoryCargo to Set InventoryCargo"
  }

  function Repeat(line: string, n: nat): (r: seq<string>)
    ensures |r| == n
  {
    if n == 0 then [] else Repeat(line, n - 1) + [line]
  }

  lemma {:induction false} RepeatAt(line: string, n: nat)
    ensures forall i :: 0 <= i < n ==> Repeat(line, n)[i] == line
  {
    if n > 0 {
      RepeatAt(line, n - 1);
      assert Repeat(line, n) == Repeat(line, n - 1) + [line];
    }
  }

  /** The loop over all Sets with their index, stopping at the first error:
      the fixed Sets, and one log line per grenade moved. */
  function FixAllSets(sets: seq<Value>): (r: Result<(seq<Value>, seq<string>)>)
    ensures r.Ok? ==> |r.value.0| == |sets|
  {
    if |sets| == 0 then Ok(([], []))
    else
      var idx := |sets| - 1;
      var init :- FixAllSets(sets[..idx]);
      var fixed :- FixSet(sets[idx]);
      Ok((init.0 + [fixed.0], init.1 + Repeat(LogEntry(idx, SetName(sets[idx], idx)), |fixed.1|)))
  }

  /** `fix_m79_ammo_in_loadout` as a value: the loadout, whether anything
      changed, and the change log. */
  function FixLoadout(data: Value): Result<(Value, bool, seq<string>)> {
    var fixed :- FixAllSets(Sets(data));
    Ok((WithList(data, "Sets", fixed.0), |fixed.1| > 0, fixed.1))
  }

  /** Each Set is fixed on its own. */
  lemma {:induction false} FixAllSetsMeans(sets: seq<Value>)
    requires FixAllSets(sets).Ok?
    ensures forall j :: 0 <= j < |sets| ==> FixSet(sets[j]).Ok? && FixSet(sets[j]).value.0 == FixAllSets(sets).value.0[j]
  {
    if |sets| > 0 {
      var idx := |sets| - 1;
      var init := sets[..idx];
      var prev := FixAllSets(init);
      assert prev.Ok? && FixSet(sets[idx]).Ok?;
      FixAllSetsMeans(init);
      var out := FixAllSets(sets).value.0;
      assert out == prev.value.0 + [FixSet(sets[idx]).value.0];
      forall j | 0 <= j < |sets|
        ensures FixSet(sets[j]).Ok? && FixSet(sets[j]).value.0 == out[j]
      {
        if j < idx {
          assert init[j] == sets[j];
          assert FixSet(init[j]).Ok? && FixSet(init[j]).value.0 == prev.value.0[j];
          assert out[j] == prev.value.0[j];
        } else {
          assert out[j] == FixSet(sets[idx]).value.0;
        }
      }
    }
  }

  /** When every Set is already clear, the run changes nothing and logs nothing. */
  lemma {:induction false} FixAllSetsIdentity(sets: seq<Value>)
    requires forall j :: 0 <= j < |sets| ==> FixSet(sets[j]) == Ok((sets[j], []))
    ensures FixAllSets(sets).Ok? && FixAllSets(sets).value.0 == sets && FixAllSets(sets).value.1 == []
  {
    if |sets| == 0 {
      assert FixAllSets(sets) == Ok(([], []));
    } else {
      var idx := |sets| - 1;
      var init := sets[..idx];
      forall j | 0 <= j < |init| ensures FixSet(init[j]) == Ok((init[j], [])) {
        assert init[j] == sets[j];
      }
      FixAllSetsIdentity(init);
      FixAllSetsSnocClear(sets, idx, init, []);
      assert sets[..idx + 1] == sets;
      InitLast(sets);
    }
  }

  /** A Set the fix leaves alone adds nothing to the log. */
  lemma FixAllSetsSnocClear(sets: seq<Value>, i: nat, out: seq<Value>, log: seq<string>)
    requires i < |sets| && FixAllSets(sets[..i]) == Ok((out, log)) && FixSet(sets[i]) == Ok((sets[i], []))
    ensures FixAllSets(sets[..i + 1]) == Ok((out + [sets[i]], log))
  {
    var lines := Repeat(LogEntry(i, SetName(sets[i], i)), 0);
    FixAllSetsSnoc(sets, i, out, log, (sets[i], []), lines);
    assert |lines| == 0;
    assert log + lines == log;
  }

  lemma FixAllSetsSnoc(sets: seq<Value>, i: nat, out: seq<Value>, log: seq<string>, fixed: (Value, seq<Value>), lines: seq<string>)
    requires i < |sets| && FixAllSets(sets[..i]) == Ok((out, log)) && FixSet(sets[i]) == Ok(fixed)
    requires lines == Repeat(LogEntry(i, SetName(sets[i], i)), |fixed.1|)
    ensures FixAllSets(sets[..i + 1]) == Ok((out + [fixed.0], log + lines))
  {
    assert sets[..i + 1][..i] == sets[..i];
  }

  lemma {:induction false} FixAllSetsStops(sets: seq<Value>, i: nat)
    requires i < |sets| && FixAllSets(sets[..i]).Ok? && FixSet(sets[i]).Err?
    ensures FixAllSets(sets) == Err(FixSet(sets[i]).error)
    decreases |sets|
  {
    var init := sets[..|sets| - 1];
    if |sets| == i + 1 {
      FixAllSetsFails(sets);
    } else {
      assert init[..i] == sets[..i] && init[i] == sets[i];
      FixAllSetsStops(init, i);
      FixAllSetsPropagates(sets);
    }
  }

  lemma FixAllSetsFails(sets: seq<Value>)
    requires |sets| > 0 && FixAllSets(sets[..|sets| - 1]).Ok? && FixSet(sets[|sets| - 1]).Err?
    ensures FixAllSets(sets) == Err(FixSet(sets[|sets| - 1]).error)
  {
  }

  lemma FixAllSetsPropagates(sets: seq<Value>)
    requires |sets| > 0 && FixAllSets(sets[..|sets| - 1]).Err?
    ensures FixAllSets(sets) == FixAllSets(sets[..|sets| - 1])
  {
  }

  /** Grenades inside the `Shoulder` M79s of all Sets. */
  function TotalShoulderAmmo(sets: seq<Value>): nat {
    if |sets| == 0 then 0 else TotalShoulderAmmo(sets[..|sets| - 1]) + ShoulderAmmo(Attachments(sets[|sets| - 1]))
  }

  /** The log has one line per grenade that sat in a `Shoulder` M79. */
  lemma {:induction false} FixAllSetsLog(sets: seq<Value>)
    requires FixAllSets(sets).Ok?
    ensures |FixAllSets(sets).value.1| == TotalShoulderAmmo(sets)
  {
    if |sets| > 0 {
      var idx := |sets| - 1;
      FixAllSetsLog(sets[..idx]);
      FixSetMoves(sets[idx]);
    }
  }

  lemma {:induction false} TotalZero(sets: seq<Value>)
    ensures TotalShoulderAmmo(sets) == 0 <==> forall j :: 0 <= j < |sets| ==> ShoulderClear(Attachments(sets[j]))
  {
    if |sets| > 0 {
      var idx := |sets| - 1;
      TotalZero(sets[..idx]);
      assert forall j :: 0 <= j < idx ==> sets[..idx][j] == sets[j];
      forall j | 0 <= j < |sets| ensures ShoulderAmmo(Attachments(sets[j])) == 0 <==> ShoulderClear(Attachments(sets[j])) {
        ShoulderAmmoZero(Attachments(sets[j]));
      }
    }
  }

  /** `changes_made` is set exactly when some `Shoulder` M79 held a grenade. */
  lemma ChangesMeansAmmoFound(data: Value)
    requires FixLoadout(data).Ok?
    ensures FixLoadout(data).value.1 <==> exists j :: 0 <= j < |Sets(data)| && !ShoulderClear(Attachments(Sets(data)[j]))
  {
    FixAllSetsLog(Sets(data));
    TotalZero(Sets(data));
  }

  /** Idempotence: fixing the fixed loadout changes nothing and logs nothing. */
  lemma FixLoadoutIdempotent(data: Value)
    requires FixLoadout(data).Ok?
    ensures var data' := FixLoadout(data).value.0;
      FixLoadout(data').Ok? && FixLoadout(data').value.0 == data' && !FixLoadout(data').value.1 && FixLoadout(data').value.2 == []
  {
    var sets := Sets(data);
    var out := FixAllSets(sets).value.0;
    var data' := FixLoadout(data).value.0;
    FixAllSetsMeans(sets);
    assert Sets(data') == out;
    forall j | 0 <= j < |out| ensures FixSet(out[j]) == Ok((out[j], [])) {
      FixSetClears(sets[j]);
      ShoulderAmmoZero(Attachments(out[j]));
      FixSetIdentity(out[j]);
    }
    FixAllSetsIdentity(out);
    WithListSame(data', "Sets");
  }

  // ---------------------------------------------------------------------------
  // The loops of `fix_m79_ammo_in_loadout`.

  /** The reverse-index loop over an M79's cargo: each grenade is popped from
      the cargo and collected. */
  method PopAmmo(cargo: seq<Value>) returns (kept: seq<Value>, moved: seq<Value>)
    ensures kept == Unnamed(cargo, Ammo40)
    ensures moved == Reverse(NamedOnly(cargo, Ammo40))
  {
    kept, moved := cargo, [];
    var idx := |cargo| - 1;
    assert cargo[idx + 1..] == [] && cargo[..idx + 1] == cargo;
    assert Unnamed([], Ammo40) == [] && NamedOnly([], Ammo40) == [] && Reverse([]) == [];
    while idx >= 0
      invariant -1 <= idx < |cargo|
      invariant kept == cargo[..idx + 1] + Unnamed(cargo[idx + 1..], Ammo40)
      invariant moved == Reverse(NamedOnly(cargo[idx + 1..], Ammo40))
    {
      PopStep(cargo, idx, kept, moved);
      if NamedAs(kept[idx], Ammo40) {
        moved := moved + [kept[idx]];
        kept := kept[..idx] + kept[idx + 1..];
      }
      idx := idx - 1;
    }
    assert idx == -1 && cargo[..0] == [] && cargo[0..] == cargo;
  }

  /** One step of the reverse-index loop: the item at `idx` is popped and
      collected when it is a grenade, and kept otherwise. */
  lemma PopStep(cargo: seq<Value>, idx: nat, kept: seq<Value>, moved: seq<Value>)
    requires idx < |cargo|
    requires kept == cargo[..idx + 1] + Unnamed(cargo[idx + 1..], Ammo40)
    requires moved == Reverse(NamedOnly(cargo[idx + 1..], Ammo40))
    ensures kept[idx] == cargo[idx]
    ensures NamedAs(cargo[idx], Ammo40) ==>
      kept[..idx] + kept[idx + 1..] == cargo[..idx] + Unnamed(cargo[idx..], Ammo40) &&
      moved + [cargo[idx]] == Reverse(NamedOnly(cargo[idx..], Ammo40))
    ensures !NamedAs(cargo[idx], Ammo40) ==>
      kept == cargo[..idx] + Unnamed(cargo[idx..], Ammo40) &&
      moved == Reverse(NamedOnly(cargo[idx..], Ammo40))
  {
    PopKept(cargo, idx, kept);
    PopMoved(cargo, idx);
  }

  lemma PopKept(cargo: seq<Value>, idx: nat, kept: seq<Value>)
    requires idx < |cargo|
    requires kept == cargo[..idx + 1] + Unnamed(cargo[idx + 1..], Ammo40)
    ensures kept[idx] == cargo[idx]
    ensures NamedAs(cargo[idx], Ammo40) ==> kept[..idx] + kept[idx + 1..] == cargo[..idx] + Unnamed(cargo[idx..], Ammo40)
    ensures !NamedAs(cargo[idx], Ammo40) ==> kept == cargo[..idx] + Unnamed(cargo[idx..], Ammo40)
  {
    var pre, x, post := cargo[..idx], cargo[idx], Unnamed(cargo[idx + 1..], Ammo40);
    assert cargo[..idx + 1] == pre + [x];
    assert kept == pre + [x] + post;
    DropAt(pre, x, post);
    UnnamedCons(cargo, idx);
    if NamedAs(x, Ammo40) {
      assert Unnamed(cargo[idx..], Ammo40) == [] + post;
      assert [] + post == post;
    } else {
      assert Unnamed(cargo[idx..], Ammo40) == [x] + post;
    }
  }

  lemma UnnamedCons(cargo: seq<Value>, idx: nat)
    requires idx < |cargo|
    ensures Unnamed(cargo[idx..], Ammo40) == (if NamedAs(cargo[idx], Ammo40) then [] else [cargo[idx]]) + Unnamed(cargo[idx + 1..], Ammo40)
  {
    assert cargo[idx..][1..] == cargo[idx + 1..];
  }

  lemma DropAt(pre: seq<Value>, x: Value, post: seq<Value>)
    ensures (pre + [x] + post)[|pre|] == x
    ensures (pre + [x] + post)[..|pre|] + (pre + [x] + post)[|pre| + 1..] == pre + post
    ensures pre + [x] + post == pre + ([x] + post)
  {
    var s := pre + [x] + post;
    assert s[..|pre|] == pre;
    assert s[|pre| + 1..] == post;
  }

  lemma PopMoved(cargo: seq<Value>, idx: nat)
    requires idx < |cargo|
    ensures Reverse(NamedOnly(cargo[idx..], Ammo40)) ==
      Reverse(NamedOnly(cargo[idx + 1..], Ammo40)) + if NamedAs(cargo[idx], Ammo40) then [cargo[idx]] else []
  {
    var x, rest := cargo[idx], cargo[idx + 1..];
    assert cargo[idx..] == [x] + rest;
    NamedOnlyAppend([x], rest, Ammo40);
    ReverseAppend(NamedOnly([x], Ammo40), NamedOnly(rest, Ammo40));
  }

  lemma ReverseAppend(xs: seq<Value>, ys: seq<Value>)
    ensures Reverse(xs + ys) == Reverse(ys) + Reverse(xs)
  {
    var l, r := Reverse(xs + ys), Reverse(ys) + Reverse(xs);
    assert |l| == |r|;
    forall i | 0 <= i < |l| ensures l[i] == r[i] {
      if i < |ys| {
        assert r[i] == Reverse(ys)[i];
      } else {
        assert r[i] == Reverse(xs)[i - |ys|];
      }
    }
  }

  /** The loop over the items of a `Shoulder` slot. */
  method FixShoulderItems(items: seq<Value>) returns (fixed: seq<Value>, moved: seq<Value>)
    ensures fixed == FixItems(items).0 && moved == FixItems(items).1
  {
    fixed, moved := [], [];
    var i := 0;
    while i < |items|
      invariant i <= |items|
      invariant fixed == FixItems(items[..i]).0 && moved == FixItems(items[..i]).1
    {
      assert items[..i + 1][..i] == items[..i];
      var item := items[i];
      if NamedAs(item, M79) {
        var kept, m := PopAmmo(Cargo(item));
        item := WithList(item, "InventoryCargo", kept);
        moved := moved + m;
      }
      fixed := fixed + [item];
      i := i + 1;
    }
    assert items[..i] == items;
  }

  /** The loop over the slots of one Set, logging one line per grenade. */
  method FixShoulderSlots(atts: seq<Value>, entry: string) returns (fixed: seq<Value>, moved: seq<Value>, log: seq<string>)
    ensures fixed == FixSlots(atts).0 && moved == FixSlots(atts).1
    ensures log == Repeat(entry, |moved|)
  {
    fixed, moved, log := [], [], [];
    var a := 0;
    while a < |atts|
      invariant a <= |atts|
      invariant fixed == FixSlots(atts[..a]).0 && moved == FixSlots(atts[..a]).1
      invariant log == Repeat(entry, |moved|)
    {
      var att, m := atts[a], [];
      if InSlot(att, Shoulder) {
        var items;
        items, m := FixShoulderItems(Items(att));
        att := WithList(att, "Items", items);
      }
      assert (att, m) == FixSlot(atts[a]);
      ShoulderSlotsStep(atts, a, entry, fixed, moved, log);
      fixed, moved, log := fixed + [att], moved + m, log + Repeat(entry, |m|);
      a := a + 1;
    }
    assert atts[..a] == atts;
  }

  /** One pass of the slot loop keeps its invariant. */
  lemma ShoulderSlotsStep(atts: seq<Value>, a: nat, entry: string, fixed: seq<Value>, moved: seq<Value>, log: seq<string>)
    requires a < |atts|
    requires fixed == FixSlots(atts[..a]).0 && moved == FixSlots(atts[..a]).1 && log == Repeat(entry, |moved|)
    ensures var (att, m) := FixSlot(atts[a]);
      fixed + [att] == FixSlots(atts[..a + 1]).0 && moved + m == FixSlots(atts[..a + 1]).1 &&
      log + Repeat(entry, |m|) == Repeat(entry, |moved + m|)
  {
    var m := FixSlot(atts[a]).1;
    FixSlotsSnoc(atts, a);
    RepeatAppend(entry, |moved|, |m|, |moved + m|);
  }

  lemma FixSlotsSnoc(atts: seq<Value>, a: nat)
    requires a < |atts|
    ensures FixSlots(atts[..a + 1]).0 == FixSlots(atts[..a]).0 + [FixSlot(atts[a]).0]
    ensures FixSlots(atts[..a + 1]).1 == FixSlots(atts[..a]).1 + FixSlot(atts[a]).1
  {
    assert atts[..a + 1][..a] == atts[..a];
  }

  lemma RepeatAppend(line: string, m: nat, n: nat, k: nat)
    requires k == m + n
    ensures Repeat(line, m) + Repeat(line, n) == Repeat(line, k)
  {
    RepeatAt(line, m);
    RepeatAt(line, n);
    RepeatAt(line, k);
    var both := Repeat(line, m) + Repeat(line, n);
    forall i | 0 <= i < k ensures both[i] == Repeat(line, k)[i] {
      if i < m {
        assert both[i] == Repeat(line, m)[i];
      } else {
        assert both[i] == Repeat(line, n)[i - m];
      }
    }
  }

  /** One Set: the slot loop, then the grenades of all its M79s are added to
      the Set's cargo in one extension. */
  method FixSetAmmo(s: Value, idx: nat) returns (r: Result<(Value, seq<Value>)>, log: seq<string>)
    ensures r == FixSet(s)
    ensures r.Ok? ==> log == Repeat(LogEntry(idx, SetName(s, idx)), |r.value.1|)
  {
    var fixed, moved;
    fixed, moved, log := FixShoulderSlots(Attachments(s), LogEntry(idx, SetName(s, idx)));
    if moved == [] {
      return Ok((WithList(s, "InventoryAttachments", fixed), [])), log;
    }
    if !s.Object? {
      return Ok((s, [])), [];
    }
    var s1 := ExtendList(s, "InventoryCargo", moved);
    if s1.Err? {
      return Err(s1.error), log;
    }
    r := Ok((WithList(s1.value, "InventoryAttachments", fixed), moved));
  }

  /** `fix_m79_ammo_in_loadout`: the loop over the Sets, with their index. */
  method FixM79AmmoInLoadout(data: Value) returns (r: Result<(Value, bool, seq<string>)>)
    ensures r == FixLoadout(data)
  {
    var sets := Sets(data);
    var out: seq<Value> := [];
    var changeLog: seq<string> := [];
    var changesMade := false;
    var idx := 0;
    while idx < |sets|
      invariant FixedSoFar(sets, idx, out, changeLog, changesMade)
    {
      var fixed, log := FixSetAmmo(sets[idx], idx);
      if fixed.Err? {
        FixAllSetsStops(sets, idx);
        FixLoadoutFails(data);
        return Err(fixed.error);
      }
      ghost var before := changesMade;
      if |log| > 0 {
        changesMade := true;
      }
      var out', changeLog' := out + [fixed.value.0], changeLog + log;
      FixLoadoutStep(sets, idx, out, changeLog, before, fixed.value, log, changesMade, out', changeLog');
      out, changeLog, idx := out', changeLog', idx + 1;
    }
    FixLoadoutDone(data, sets, idx, out, changeLog, changesMade);
    r := Ok((WithList(data, "Sets", out), changesMade, changeLog));
  }

  /** The loop's state after the first `n` Sets: the fixed Sets and the log
      so far, and whether anything has been logged. */
  ghost predicate FixedSoFar(sets: seq<Value>, n: nat, out: seq<Value>, log: seq<string>, flag: bool) {
    n <= |sets| && FixAllSets(sets[..n]) == Ok((out, log)) && flag == (|log| > 0)
  }

  /** One Set of the loop: the fixed Set and its log lines are appended, and
      the flag says whether anything has been logged. */
  lemma FixLoadoutStep(sets: seq<Value>, i: nat, out: seq<Value>, log: seq<string>, flag: bool,
                       fixed: (Value, seq<Value>), lines: seq<string>, flag': bool, out': seq<Value>, log': seq<string>)
    requires i < |sets| && FixedSoFar(sets, i, out, log, flag)
    requires FixSet(sets[i]) == Ok(fixed) && lines == Repeat(LogEntry(i, SetName(sets[i], i)), |fixed.1|)
    requires flag' == (flag || |lines| > 0) && out' == out + [fixed.0] && log' == log + lines
    ensures FixedSoFar(sets, i + 1, out', log', flag')
  {
    FixAllSetsSnoc(sets, i, out, log, fixed, lines);
  }

  lemma FixLoadoutFails(data: Value)
    requires FixAllSets(Sets(data)).Err?
    ensures FixLoadout(data) == Err(FixAllSets(Sets(data)).error)
  {
  }

  lemma FixLoadoutDone(data: Value, sets: seq<Value>, n: nat, out: seq<Value>, changeLog: seq<string>, flag: bool)
    requires sets == Sets(data) && n >= |sets| && FixedSoFar(sets, n, out, changeLog, flag)
    ensures FixLoadout(data) == Ok((WithList(data, "Sets", out), flag, changeLog))
  {
    assert sets[..n] == sets;
  }
}
