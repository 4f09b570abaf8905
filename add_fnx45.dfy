/** Adds a backup FNX45 pistol and two of its magazines to every loadout Set
    that carries an M79 grenade launcher with its 40mm ammunition. */
module AddFnx45 {
  import opened Json
  import opened Strings
  import opened Loadout

  /** The magazine put into the Set's cargo (twice) and into the pistol's
      own attachment slot. */
  const Fnx45Magazine: Value := Object([
    ("ClassName", Str("Mag_FNX45_15Rnd")),
    ("Chance", Num("1.0")),
    ("Quantity", Object([("Min", Num("0.0")), ("Max", Num("0.0"))])),
    ("Health", Array([])),
    ("InventoryAttachments", Array([])),
    ("InventoryCargo", Array([])),
    ("ConstructionPartsBuilt", Array([])),
    ("Sets", Array([]))
  ])

  /** The pistol put into the `Hands` slot, loaded with one magazine. */
  const Fnx45Weapon: Value := Object([
    ("ClassName", Str("FNX45")),
    ("Chance", Num("1.0")),
    ("Quantity", Object([("Min", Num("0.0")), ("Max", Num("0.0"))])),
    ("Health", Array([])),
    ("InventoryAttachments", Array([Object([("SlotName", Str("")), ("Items", Array([Fnx45Magazine]))])])),
    ("InventoryCargo", Array([])),
    ("ConstructionPartsBuilt", Array([])),
    ("Sets", Array([]))
  ])

  const NewHandsSlot: Value := Object([("SlotName", Str("Hands")), ("Items", Array([]))])

  /** The slot a Set without `Hands` ends up with. */
  const HandsWithPistol: Value := Object([("SlotName", Str("Hands")), ("Items", Array([Fnx45Weapon]))])

  lemma HandsWithPistolFilled()
    ensures SetField(NewHandsSlot, "Items", Array([Fnx45Weapon])) == HandsWithPistol
    ensures Items(NewHandsSlot) == [] && Items(HandsWithPistol) == [Fnx45Weapon]
  {
    assert "SlotName" != "Items" by { assert |"SlotName"| != |"Items"|; }
    assert KeyIndex(NewHandsSlot.members, "Items") == 1;
    assert KeyIndex(HandsWithPistol.members, "Items") == 1;
  }

  const CreatedSlotNote := "Created new Hands attachment slot"
  const AddedPistolNote := "Added FNX45 pistol to Hands slot"
  const AddedMagsNote := "Added 2x Mag_FNX45_15Rnd to InventoryCargo"

  /** `has_fnx45`: a scan of the slots, then of the Set's cargo. */
  function HasFnx45(s: Value): bool {
    AnyAttached(Attachments(s), Fnx45) || AnyNamed(Cargo(s), Fnx45)
  }

  /** The test holds exactly when an FNX45 sits in some slot or in the Set's
      cargo. */
  lemma HasFnx45Means(s: Value)
    ensures HasFnx45(s) <==> (exists a, i :: AttachedItemNamed(s, a, i, Fnx45)) || (exists i :: CargoItemNamed(s, i, Fnx45))
  {
    AttachedIff(s, Fnx45);
    CargoIff(s, Fnx45);
  }

  /** The Sets the per-Set loop edits. */
  predicate Eligible(s: Value) {
    HasM79AndAmmo(s) && !HasFnx45(s)
  }

  /** The first step of `add_fnx45_to_set`: the pistol goes at the end of the
      first `Hands` slot's `Items`; without a `Hands` slot, a new one holding
      just the pistol goes at the end of `InventoryAttachments`. */
  function WithPistol(s: Value): (r: Result<Value>)
    requires s.Object?
    ensures r.Ok? ==> r.value.Object?
  {
    var atts := Attachments(s);
    var h := FirstInSlot(atts, Hands);
    if h < |atts| then
      match Field(atts[h], "Items")
      case None => Err(MissingKey("Items"))
      case Some(Array(items)) =>
        var slot := SetField(atts[h], "Items", Array(items + [Fnx45Weapon]));
        Ok(WithList(s, "InventoryAttachments", atts[h := slot]))
      case Some(_) => Err(NotAList("Items"))
    else
      var slot := HandsWithPistol;
      ExtendList(s, "InventoryAttachments", [slot])
  }

  /** The pistol lands in the first `Hands` slot, or in a new one at the end;
      the other slots, the slot's other fields and the Set's other fields are
      unchanged. A `Hands` slot without an `Items` list, or a non-list
      `InventoryAttachments`, makes the edit fail. */
  lemma WithPistolMeans(s: Value)
    requires s.Object?
    ensures WithPistol(s).Ok? ==> WithPistol(s).value.Object? && Cargo(WithPistol(s).value) == Cargo(s)
    ensures WithPistol(s).Ok? ==> forall k :: k != "InventoryAttachments" ==> Field(WithPistol(s).value, k) == Field(s, k)
    ensures var atts := Attachments(s); var h := FirstInSlot(atts, Hands);
      h < |atts| ==>
        (WithPistol(s).Ok? <==> Field(atts[h], "Items").Some? && Field(atts[h], "Items").value.Array?) &&
        (WithPistol(s).Ok? ==>
          |Attachments(WithPistol(s).value)| == |atts| &&
          (forall j :: 0 <= j < |atts| && j != h ==> Attachments(WithPistol(s).value)[j] == atts[j]) &&
          Items(Attachments(WithPistol(s).value)[h]) == Items(atts[h]) + [Fnx45Weapon] &&
          (forall k :: k != "Items" ==> Field(Attachments(WithPistol(s).value)[h], k) == Field(atts[h], k)))
    ensures var atts := Attachments(s);
      FirstInSlot(atts, Hands) == |atts| ==>
        (WithPistol(s).Ok? <==> Field(s, "InventoryAttachments").None? || Field(s, "InventoryAttachments").value.Array?) &&
        (WithPistol(s).Ok? ==> Attachments(WithPistol(s).value) == atts + [HandsWithPistol])
  {
    WithPistolKeeps(s);
    if WithPistol(s).Ok? {
      assert Field(WithPistol(s).value, "InventoryCargo") == Field(s, "InventoryCargo");
    }
    var atts := Attachments(s);
    var h := FirstInSlot(atts, Hands);
    if h < |atts| {
      var items := Field(atts[h], "Items");
      if items.Some? && items.value.Array? {
        PistolInSlot(s, atts, h, items.value.items);
      } else {
        assert WithPistol(s).Err?;
      }
    } else {
      var e := ExtendList(s, "InventoryAttachments", [HandsWithPistol]);
      assert WithPistol(s) == e;
      if e.Ok? {
        assert ListField(e.value, "InventoryAttachments") == atts + [HandsWithPistol];
        assert Field(e.value, "InventoryCargo") == Field(s, "InventoryCargo");
      }
    }
  }

  /** The case of an existing `Hands` slot with an `Items` list. */
  lemma PistolInSlot(s: Value, atts: seq<Value>, h: nat, items: seq<Value>)
    requires s.Object? && atts == Attachments(s) && h == FirstInSlot(atts, Hands) && h < |atts|
    requires Field(atts[h], "Items") == Some(Array(items))
    ensures WithPistol(s).Ok? && WithPistol(s).value.Object?
    ensures Attachments(WithPistol(s).value) == atts[h := SetField(atts[h], "Items", Array(items + [Fnx45Weapon]))]
    ensures forall k :: k != "InventoryAttachments" ==> Field(WithPistol(s).value, k) == Field(s, k)
  {
    var slot := SetField(atts[h], "Items", Array(items + [Fnx45Weapon]));
    var r := WithList(s, "InventoryAttachments", atts[h := slot]);
    assert WithPistol(s) == Ok(r);
    assert Field(s, "InventoryAttachments") == Some(Array(atts));
  }

  /** `add_fnx45_to_set` on the Set as a value: the pistol, then two magazines
      at the end of `InventoryCargo`, which is created when absent. */
  function WithFnx45(s: Value): (r: Result<Value>)
    requires s.Object?
    ensures r.Ok? ==> r.value.Object?
  {
    var s1 :- WithPistol(s);
    ExtendList(s1, "InventoryCargo", [Fnx45Magazine, Fnx45Magazine])
  }

  /** Two magazines land at the end of the Set's cargo, which is created when
      absent; a non-list cargo makes the edit fail. */
  lemma WithFnx45Means(s: Value)
    requires s.Object?
    ensures WithFnx45(s).Ok? <==> WithPistol(s).Ok? && (Field(s, "InventoryCargo").None? || Field(s, "InventoryCargo").value.Array?)
    ensures WithFnx45(s).Ok? ==> Cargo(WithFnx45(s).value) == Cargo(s) + [Fnx45Magazine, Fnx45Magazine]
    ensures WithFnx45(s).Ok? ==> Attachments(WithFnx45(s).value) == Attachments(WithPistol(s).value)
    ensures WithFnx45(s).Ok? ==> forall k :: k != "InventoryAttachments" && k != "InventoryCargo" ==> Field(WithFnx45(s).value, k) == Field(s, k)
  {
    if WithPistol(s).Ok? {
      var s1 := WithPistol(s).value;
      WithPistolKeeps(s);
      var e := ExtendList(s1, "InventoryCargo", [Fnx45Magazine, Fnx45Magazine]);
      assert WithFnx45(s) == e;
      assert Field(s1, "InventoryCargo") == Field(s, "InventoryCargo");
      if e.Ok? {
        assert Field(e.value, "InventoryAttachments") == Field(s1, "InventoryAttachments");
      }
    } else {
      assert WithFnx45(s).Err?;
    }
  }

  /** The pistol step touches `InventoryAttachments` only. */
  lemma WithPistolKeeps(s: Value)
    requires s.Object?
    ensures WithPistol(s).Ok? ==> forall k :: k != "InventoryAttachments" ==> Field(WithPistol(s).value, k) == Field(s, k)
  {
    var atts := Attachments(s);
    var h := FirstInSlot(atts, Hands);
    if h < |atts| {
      var items := Field(atts[h], "Items");
      if items.Some? && items.value.Array? {
        PistolInSlot(s, atts, h, items.value.items);
      }
    }
  }

  /** After the edit the Set holds an FNX45 in its attachments, so it is no
      longer eligible. */
  lemma WithFnx45HasPistol(s: Value)
    requires s.Object? && WithFnx45(s).Ok?
    ensures exists a, i :: AttachedItemNamed(WithFnx45(s).value, a, i, Fnx45)
    ensures HasFnx45(WithFnx45(s).value) && !Eligible(WithFnx45(s).value)
  {
    var r := WithFnx45(s).value;
    WithPistolMeans(s);
    WithFnx45Means(s);
    var atts := Attachments(s);
    var h := FirstInSlot(atts, Hands);
    if h < |atts| {
      var n := |Items(atts[h])|;
      assert Items(Attachments(r)[h])[n] == Fnx45Weapon;
      assert AttachedItemNamed(r, h, n, Fnx45);
    } else {
      assert Attachments(r) == atts + [HandsWithPistol];
      HandsWithPistolFilled();
      assert Items(Attachments(r)[|atts|])[0] == Fnx45Weapon;
      assert AttachedItemNamed(r, |atts|, 0, Fnx45);
    }
    HasFnx45Means(r);
  }

  /** Creating the empty `Hands` slot and then appending the pistol to its
      `Items` gives the Set the one-step edit builds. */
  lemma CreatedSlotFilled(s: Value, created: Value, withSlot: Value)
    requires s.Object? && FirstInSlot(Attachments(s), Hands) == |Attachments(s)|
    requires ExtendList(s, "InventoryAttachments", [NewHandsSlot]) == Ok(created)
    requires var slots := Attachments(created);
      |slots| > 0 &&
      withSlot == WithList(created, "InventoryAttachments",
        slots[|slots| - 1 := SetField(slots[|slots| - 1], "Items", Array(Items(slots[|slots| - 1]) + [Fnx45Weapon]))])
    ensures WithPistol(s) == Ok(withSlot)
  {
    var atts := Attachments(s);
    var slots := Attachments(created);
    assert slots == atts + [NewHandsSlot];
    HandsWithPistolFilled();
    assert Items(slots[|slots| - 1]) + [Fnx45Weapon] == [Fnx45Weapon];
    var slot := SetField(slots[|slots| - 1], "Items", Array(Items(slots[|slots| - 1]) + [Fnx45Weapon]));
    assert slot == HandsWithPistol;
    assert slots[|slots| - 1 := slot] == atts + [HandsWithPistol];
    PutPut(s.members, "InventoryAttachments", Array(atts + [NewHandsSlot]), Array(atts + [HandsWithPistol]));
  }

  /** The magazines follow the pistol step. */
  lemma WithFnx45After(s: Value, withSlot: Value)
    requires s.Object? && WithPistol(s) == Ok(withSlot)
    ensures WithFnx45(s) == ExtendList(withSlot, "InventoryCargo", [Fnx45Magazine, Fnx45Magazine])
  {
  }

  /** The two notes logged one after the other form the closing pair of the
      log; kept as a lemma so the method's proof sees only this fact. */
  lemma LoggedInOrder(opening: seq<string>)
    ensures opening + [AddedPistolNote] + [AddedMagsNote] == opening + [AddedPistolNote, AddedMagsNote]
  {
  }

  /** The scan for the first `Hands` slot; `|atts|` when there is none. */
  method FindHands(atts: seq<Value>) returns (h: nat)
    ensures h == FirstInSlot(atts, Hands)
  {
    h := 0;
    while h < |atts| && !InSlot(atts[h], Hands)
      invariant h <= |atts|
      invariant forall j :: 0 <= j < h ==> !InSlot(atts[j], Hands)
    {
      h := h + 1;
    }
  }

  /** `add_fnx45_to_set`, editing the Set: finds the first `Hands` slot, adds
      the pistol and the magazines, and returns the notes it logs. */
  method AddFnx45ToSet(s: Value) returns (r: Result<Value>, notes: seq<string>)
    requires s.Object?
    ensures r == WithFnx45(s)
    ensures r.Ok? ==>
      notes == (if FirstInSlot(Attachments(s), Hands) < |Attachments(s)| then [] else [CreatedSlotNote]) + [AddedPistolNote, AddedMagsNote]
  {
    notes := [];
    var atts := Attachments(s);
    var h := FindHands(atts);
    var withSlot: Value;
    if h < |atts| {
      var items := Field(atts[h], "Items");
      if items.None? {
        assert WithPistol(s) == Err(MissingKey("Items"));
        return Err(MissingKey("Items")), notes;
      }
      if !items.value.Array? {
        assert WithPistol(s) == Err(NotAList("Items"));
        return Err(NotAList("Items")), notes;
      }
      var slot := SetField(atts[h], "Items", Array(items.value.items + [Fnx45Weapon]));
      withSlot := WithList(s, "InventoryAttachments", atts[h := slot]);
      PistolInSlot(s, atts, h, items.value.items);
      assert WithPistol(s) == Ok(withSlot);
    } else {
      var created := ExtendList(s, "InventoryAttachments", [NewHandsSlot]);
      if created.Err? {
        assert WithPistol(s) == ExtendList(s, "InventoryAttachments", [HandsWithPistol]);
        return Err(created.error), notes;
      }
      notes := notes + [CreatedSlotNote];
      var slots := Attachments(created.value);
      assert |slots| == |atts| + 1;
      var slot := SetField(slots[|slots| - 1], "Items", Array(Items(slots[|slots| - 1]) + [Fnx45Weapon]));
      withSlot := WithList(created.value, "InventoryAttachments", slots[|slots| - 1 := slot]);
      CreatedSlotFilled(s, created.value, withSlot);
    }
    var opening := notes;
    assert opening == if h < |atts| then [] else [CreatedSlotNote];
    notes := notes + [AddedPistolNote];
    r := ExtendList(withSlot, "InventoryCargo", [Fnx45Magazine, Fnx45Magazine]);
    WithFnx45After(s, withSlot);
    notes := notes + [AddedMagsNote];
    LoggedInOrder(opening);
  }

  /** One Set after a real run: edited when eligible, otherwise left alone. */
  function StepSet(s: Value): Result<Value> {
    if Eligible(s) then WithFnx45(s) else Ok(s)
  }

  /** The Sets after a real run of the per-Set loop. */
  function AddedSets(sets: seq<Value>): Result<seq<Value>> {
    MapSets(StepSet, sets)
  }

  /** A real run edits each eligible Set and leaves every other Set as it is. */
  lemma AddedSetsMeans(sets: seq<Value>)
    requires AddedSets(sets).Ok?
    ensures |AddedSets(sets).value| == |sets|
    ensures forall j :: 0 <= j < |sets| && Eligible(sets[j]) ==> WithFnx45(sets[j]) == Ok(AddedSets(sets).value[j])
    ensures forall j :: 0 <= j < |sets| && !Eligible(sets[j]) ==> AddedSets(sets).value[j] == sets[j]
  {
    MapSetsMeans(StepSet, sets);
  }

  /** `sets_modified`: the number of eligible Sets, the same in a dry run and a
      real one. */
  function EligibleCount(sets: seq<Value>): nat {
    CountSets(Eligible, sets)
  }

  /** The loadout after a real run. */
  function AfterRun(data: Value): Result<Value> {
    var sets :- AddedSets(Sets(data));
    Ok(WithList(data, "Sets", sets))
  }

  /** Idempotence: after a real run no Set is eligible any more, so running
      again modifies no Set. */
  lemma SecondRunModifiesNothing(data: Value)
    requires AfterRun(data).Ok?
    ensures EligibleCount(Sets(AfterRun(data).value)) == 0
  {
    var sets := AddedSets(Sets(data)).value;
    assert Sets(AfterRun(data).value) == sets;
    AddedSetsMeans(Sets(data));
    CountSetsZero(Eligible, sets);
    forall j | 0 <= j < |sets| ensures !Eligible(sets[j]) {
      if Eligible(Sets(data)[j]) {
        WithFnx45HasPistol(Sets(data)[j]);
      }
    }
  }

  /** One pass of the per-Set loop: Sets without an M79 and its ammo, or with
      an FNX45 already, are skipped; the others are counted, and edited unless
      this is a dry run. */
  method VisitSet(s: Value, dryRun: bool) returns (r: Result<Value>, counted: bool)
    ensures counted == Eligible(s)
    ensures dryRun ==> r == Ok(s)
    ensures !dryRun ==> r == StepSet(s)
  {
    if HasM79AndAmmo(s) {
      if HasFnx45(s) {
        return Ok(s), false;
      }
      if !dryRun {
        var notes;
        r, notes := AddFnx45ToSet(s);
      } else {
        r := Ok(s);
      }
      counted := true;
    } else {
      r, counted := Ok(s), false;
    }
  }

  /** The per-Set loop of `process_loadout_file`: the Sets after it and
      `sets_modified`. */
  method RunSets(sets: seq<Value>, dryRun: bool) returns (r: Result<seq<Value>>, setsModified: nat)
    ensures dryRun ==> r == Ok(sets)
    ensures !dryRun ==> r == AddedSets(sets)
    ensures r.Ok? ==> setsModified == EligibleCount(sets)
  {
    var out: seq<Value> := [];
    setsModified := 0;
    var i := 0;
    while i < |sets|
      invariant 0 <= i <= |sets|
      invariant dryRun ==> out == sets[..i]
      invariant !dryRun ==> AddedSets(sets[..i]) == Ok(out)
      invariant setsModified == EligibleCount(sets[..i])
    {
      var edited, counted := VisitSet(sets[i], dryRun);
      CountSetsSnoc(Eligible, sets, i);
      if edited.Err? {
        MapSetsFails(StepSet, sets, i);
        return Err(edited.error), setsModified;
      }
      if !dryRun {
        MapSetsSnoc(StepSet, sets, i, out, edited.value);
      } else {
        assert sets[..i + 1] == sets[..i] + [sets[i]];
      }
      out := out + [edited.value];
      if counted {
        setsModified := setsModified + 1;
      }
      i := i + 1;
    }
    assert sets[..i] == sets;
    r := Ok(out);
  }

  /** `process_loadout_file` after loading: the edited tree is written back
      only in a real run that modified some Set; a dry run counts the same
      Sets and changes nothing; the function returns whether any Set counted.
      An exception raised while editing a Set ends the run. */
  method ProcessLoadoutFile(data: Value, dryRun: bool) returns (r: Result<FileRun>)
    ensures dryRun ==> r == Ok(FileRun(data, EligibleCount(Sets(data)), false, EligibleCount(Sets(data)) > 0))
    ensures !dryRun ==> (r.Ok? <==> AfterRun(data).Ok?)
    ensures !dryRun && r.Ok? ==>
      r.value == FileRun(AfterRun(data).value, EligibleCount(Sets(data)), EligibleCount(Sets(data)) > 0, EligibleCount(Sets(data)) > 0)
  {
    var sets, setsModified := RunSets(Sets(data), dryRun);
    if sets.Err? {
      return Err(sets.error);
    }
    if dryRun {
      WithListSame(data, "Sets");
    }
    var result := WithList(data, "Sets", sets.value);
    r := Ok(FileRun(result, setsModified, !dryRun && setsModified > 0, setsModified > 0));
  }
}
