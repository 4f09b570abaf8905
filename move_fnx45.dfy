/** Moves the FNX45 pistol of an M79 Set out of the `Hands` slot, where the
    bot drops it when it equips the M79, into the Set's cargo, and drops the
    `Hands` slots left empty. */
module MoveFnx45 {
  import opened Json
  import opened Strings
  import opened Loadout

  /** Position of the last item named `name`, or -1 when there is none. */
  function LastIndexNamed(xs: seq<Value>, name: string): (i: int)
    ensures -1 <= i < |xs|
    ensures i >= 0 ==> NamedAs(xs[i], name)
    ensures forall j :: i < j < |xs| ==> !NamedAs(xs[j], name)
  {
    if |xs| == 0 then -1
    else if NamedAs(xs[|xs| - 1], name) then |xs| - 1
    else LastIndexNamed(xs[..|xs| - 1], name)
  }

  /** The last item named `name`: the scan overwrites its find at every
      match. */
  function LastNamed(xs: seq<Value>, name: string): Option<Value> {
    var i := LastIndexNamed(xs, name);
    if i < 0 then None else Some(xs[i])
  }

  /** `find_and_remove_fnx45_from_hands` on the Set as a value: the first
      `Hands` slot gets `Items` set to its items other than the FNX45s (the
      key is written even when nothing was removed), and the last FNX45 found
      is returned. */
  function RemovedFromHands(s: Value): (Value, Option<Value>)
    requires s.Object?
  {
    var atts := Attachments(s);
    var h := FirstInSlot(atts, Hands);
    if h < |atts| then
      var items := Items(atts[h]);
      (WithList(s, "InventoryAttachments", atts[h := SetField(atts[h], "Items", Array(Unnamed(items, Fnx45)))]),
       LastNamed(items, Fnx45))
    else (s, None)
  }

  /** Only the first `Hands` slot changes: it keeps its other items, in order,
      and no FNX45; the pistol returned is the last FNX45 it held, if any. */
  lemma RemovedFromHandsMeans(s: Value)
    requires s.Object?
    ensures var (r, found) := RemovedFromHands(s); var atts := Attachments(s); var h := FirstInSlot(atts, Hands);
      r.Object? &&
      (forall k :: k != "InventoryAttachments" ==> Field(r, k) == Field(s, k)) &&
      |Attachments(r)| == |atts| &&
      (forall j :: 0 <= j < |atts| && j != h ==> Attachments(r)[j] == atts[j]) &&
      (h < |atts| ==>
        Items(Attachments(r)[h]) == Unnamed(Items(atts[h]), Fnx45) &&
        !AnyNamed(Items(Attachments(r)[h]), Fnx45) &&
        (forall k :: k != "Items" ==> Field(Attachments(r)[h], k) == Field(atts[h], k)) &&
        found == LastNamed(Items(atts[h]), Fnx45)) &&
      (h == |atts| ==> r == s && found.None?)
  {
    var atts := Attachments(s);
    var h := FirstInSlot(atts, Hands);
    if h < |atts| {
      UnnamedNoneNamed(Items(atts[h]), Fnx45);
    }
  }

  lemma LastNamedSnoc(xs: seq<Value>, x: Value, name: string)
    ensures LastNamed(xs + [x], name) == if NamedAs(x, name) then Some(x) else LastNamed(xs, name)
  {
    assert (xs + [x])[..|xs|] == xs;
  }

  lemma UnnamedSnoc(xs: seq<Value>, x: Value, name: string)
    ensures Unnamed(xs + [x], name) == Unnamed(xs, name) + if NamedAs(x, name) then [] else [x]
  {
    UnnamedAppend(xs, [x], name);
    assert [x][1..] == [];
  }

  /** The scan of the `Hands` slot's items: the items to keep, in order, and
      the last FNX45 seen. */
  method SplitHandsItems(items: seq<Value>) returns (kept: seq<Value>, found: Option<Value>)
    ensures kept == Unnamed(items, Fnx45)
    ensures found == LastNamed(items, Fnx45)
  {
    kept, found := [], None;
    var k := 0;
    while k < |items|
      invariant k <= |items|
      invariant kept == Unnamed(items[..k], Fnx45)
      invariant found == LastNamed(items[..k], Fnx45)
    {
      assert items[..k + 1] == items[..k] + [items[k]];
      LastNamedSnoc(items[..k], items[k], Fnx45);
      UnnamedSnoc(items[..k], items[k], Fnx45);
      if NamedAs(items[k], Fnx45) {
        found := Some(items[k]);
      } else {
        kept := kept + [items[k]];
      }
      k := k + 1;
    }
    assert items[..k] == items;
  }

  /** `find_and_remove_fnx45_from_hands`, editing the Set. */
  method FindAndRemoveFnx45FromHands(s: Value) returns (r: Value, found: Option<Value>)
    requires s.Object?
    ensures (r, found) == RemovedFromHands(s)
  {
    r, found := s, None;
    var atts := Attachments(s);
    var h := 0;
    while h < |atts|
      invariant h <= |atts|
      invariant forall j :: 0 <= j < h ==> !InSlot(atts[j], Hands)
    {
      if InSlot(atts[h], Hands) {
        var kept;
        kept, found := SplitHandsItems(Items(atts[h]));
        r := WithList(s, "InventoryAttachments", atts[h := SetField(atts[h], "Items", Array(kept))]);
        FirstInSlotIs(atts, Hands, h);
        return;
      }
      h := h + 1;
    }
    FirstInSlotIs(atts, Hands, h);
  }

  /** `add_fnx45_to_cargo`: the pistol goes at the end of `InventoryCargo`,
      which is created when absent. */
  function AddFnx45ToCargo(s: Value, pistol: Value): (r: Result<Value>)
    requires s.Object?
    ensures r.Ok? <==> Field(s, "InventoryCargo").None? || Field(s, "InventoryCargo").value.Array?
    ensures r.Ok? ==> r.value.Object? && Cargo(r.value) == Cargo(s) + [pistol]
    ensures r.Ok? ==> forall k :: k != "InventoryCargo" ==> Field(r.value, k) == Field(s, k)
  {
    ExtendList(s, "InventoryCargo", [pistol])
  }

  /** A `Hands` slot whose `Items` is missing or empty. */
  predicate EmptyHands(att: Value) {
    InSlot(att, Hands) && !(Field(att, "Items").Some? && Truthy(Field(att, "Items").value))
  }

  /** The slots `clean_empty_hands_slots` keeps. */
  function KeptSlots(atts: seq<Value>): (r: seq<Value>)
    ensures |r| <= |atts|
    ensures forall x :: x in r ==> x in atts && !EmptyHands(x)
    ensures forall x :: x in atts && !EmptyHands(x) ==> x in r
  {
    if |atts| == 0 then []
    else
      var init := atts[..|atts| - 1];
      var a := atts[|atts| - 1];
      assert atts == init + [a];
      KeptSlots(init) + if EmptyHands(a) then [] else [a]
  }

  /** Cleaning works slot by slot: the slots kept from a concatenation are
      those kept from each part, in the same order. */
  lemma {:induction false} KeptSlotsAppend(xs: seq<Value>, ys: seq<Value>)
    ensures KeptSlots(xs + ys) == KeptSlots(xs) + KeptSlots(ys)
    decreases |ys|
  {
    if |ys| == 0 {
      assert xs + ys == xs;
    } else {
      assert (xs + ys)[..|xs + ys| - 1] == xs + ys[..|ys| - 1];
      KeptSlotsAppend(xs, ys[..|ys| - 1]);
    }
  }

  /** A single slot is kept exactly when it is not an empty `Hands` slot. */
  lemma KeptSlotsOne(a: Value)
    ensures KeptSlots([a]) == if EmptyHands(a) then [] else [a]
  {
  }

  /** The slots other than `slot`, in order. */
  function OtherSlots(atts: seq<Value>, slot: string): seq<Value> {
    if |atts| == 0 then []
    else OtherSlots(atts[..|atts| - 1], slot) + if InSlot(atts[|atts| - 1], slot) then [] else [atts[|atts| - 1]]
  }

  /** Cleaning drops only `Hands` slots: every other slot stays, in order. */
  lemma {:induction false} KeptSlotsKeepsOthers(atts: seq<Value>)
    ensures OtherSlots(KeptSlots(atts), Hands) == OtherSlots(atts, Hands)
  {
    if |atts| > 0 {
      var init := atts[..|atts| - 1];
      var a := atts[|atts| - 1];
      KeptSlotsKeepsOthers(init);
      var tail := if EmptyHands(a) then [] else [a];
      OtherSlotsAppend(KeptSlots(init), tail, Hands);
      if !EmptyHands(a) {
        assert OtherSlots([a], Hands) == if InSlot(a, Hands) then [] else [a] by {
          assert [a][..0] == [];
        }
      }
    }
  }

  lemma {:induction false} OtherSlotsAppend(xs: seq<Value>, ys: seq<Value>, slot: string)
    ensures OtherSlots(xs + ys, slot) == OtherSlots(xs, slot) + OtherSlots(ys, slot)
    decreases |ys|
  {
    if |ys| == 0 {
      assert xs + ys == xs;
    } else {
      assert (xs + ys)[..|xs + ys| - 1] == xs + ys[..|ys| - 1];
      OtherSlotsAppend(xs, ys[..|ys| - 1], slot);
    }
  }

  /** `clean_empty_hands_slots` on the Set as a value: without the key nothing
      happens; otherwise the kept slots are written back. */
  function Cleaned(s: Value): Value {
    if Field(s, "InventoryAttachments").None? then s
    else WithList(s, "InventoryAttachments", KeptSlots(Attachments(s)))
  }

  /** `clean_empty_hands_slots`, editing the Set. */
  method CleanEmptyHandsSlots(s: Value) returns (r: Value)
    ensures r == Cleaned(s)
  {
    if Field(s, "InventoryAttachments").None? {
      return s;
    }
    var atts := Attachments(s);
    var kept: seq<Value> := [];
    var i := 0;
    while i < |atts|
      invariant i <= |atts|
      invariant kept == KeptSlots(atts[..i])
    {
      assert atts[..i + 1][..i] == atts[..i];
      if InSlot(atts[i], Hands) {
        if Field(atts[i], "Items").Some? && Truthy(Field(atts[i], "Items").value) {
          kept := kept + [atts[i]];
        }
      } else {
        kept := kept + [atts[i]];
      }
      i := i + 1;
    }
    assert atts[..i] == atts;
    r := WithList(s, "InventoryAttachments", kept);
  }

  /** The Sets the loop counts: an M79 and its ammo, and an FNX45 in the first
      `Hands` slot. */
  predicate Moves(s: Value) {
    HasM79AndAmmo(s) && RemovedFromHands(s).1.Some?
  }

  /** One Set after a real run. */
  function MoveStep(s: Value): Result<Value> {
    if !HasM79AndAmmo(s) then Ok(s)
    else
      var (s1, found) := RemovedFromHands(s);
      if found.None? then Ok(s1)
      else
        var s2 :- AddFnx45ToCargo(s1, found.value);
        Ok(Cleaned(s2))
  }

  /** One Set after a dry run: the removal from `Hands` still happens in
      memory. */
  function DryMoveStep(s: Value): Result<Value> {
    if HasM79AndAmmo(s) then Ok(RemovedFromHands(s).0) else Ok(s)
  }

  /** A moved Set holds the pistol at the end of its cargo and keeps every
      slot other than `Hands`, in order. */
  lemma MoveStepMeans(s: Value)
    requires Moves(s) && MoveStep(s).Ok?
    ensures var atts := Attachments(s); var h := FirstInSlot(atts, Hands);
      h < |atts| &&
      Cargo(MoveStep(s).value) == Cargo(s) + [LastNamed(Items(atts[h]), Fnx45).value] &&
      OtherSlots(Attachments(MoveStep(s).value), Hands) == OtherSlots(atts, Hands)
  {
    var atts := Attachments(s);
    var h := FirstInSlot(atts, Hands);
    var (s1, found) := RemovedFromHands(s);
    assert h < |atts| && found == LastNamed(Items(atts[h]), Fnx45);
    RemovedKeeps(s, s1, atts, h);
    var s2 := AddFnx45ToCargo(s1, found.value).value;
    AddedKeeps(s1, found.value, s2);
    assert MoveStep(s) == Ok(Cleaned(s2));
    CleanedKeeps(s2);
  }

  /** Taking the pistols out of the first `Hands` slot keeps the cargo and
      every other slot. */
  lemma RemovedKeeps(s: Value, s1: Value, atts: seq<Value>, h: nat)
    requires s.Object? && atts == Attachments(s) && h == FirstInSlot(atts, Hands) && h < |atts|
    requires s1 == RemovedFromHands(s).0
    ensures s1.Object? && Cargo(s1) == Cargo(s)
    ensures OtherSlots(Attachments(s1), Hands) == OtherSlots(atts, Hands)
  {
    RemovedSlots(s);
    OtherSlotsPointwise(Attachments(s1), atts, h);
  }

  /** The slot facts `RemovedKeeps` rests on. */
  lemma RemovedSlots(s: Value)
    requires s.Object? && FirstInSlot(Attachments(s), Hands) < |Attachments(s)|
    ensures var s1, atts, h := RemovedFromHands(s).0, Attachments(s), FirstInSlot(Attachments(s), Hands);
      s1.Object? && Field(s1, "InventoryCargo") == Field(s, "InventoryCargo") &&
      |Attachments(s1)| == |atts| && InSlot(Attachments(s1)[h], Hands) &&
      forall j :: 0 <= j < |atts| && j != h ==> Attachments(s1)[j] == atts[j]
  {
  }

  /** Adding the pistol to the cargo leaves the slots alone. */
  lemma AddedKeeps(s1: Value, pistol: Value, s2: Value)
    requires s1.Object? && AddFnx45ToCargo(s1, pistol) == Ok(s2)
    ensures s2.Object? && Cargo(s2) == Cargo(s1) + [pistol] && Attachments(s2) == Attachments(s1)
  {
    assert Field(s2, "InventoryAttachments") == Field(s1, "InventoryAttachments");
  }

  /** Cleaning keeps the cargo and every slot other than `Hands`. */
  lemma CleanedKeeps(v: Value)
    requires v.Object?
    ensures Cargo(Cleaned(v)) == Cargo(v)
    ensures OtherSlots(Attachments(Cleaned(v)), Hands) == OtherSlots(Attachments(v), Hands)
  {
    if Field(v, "InventoryAttachments").Some? {
      KeptSlotsKeepsOthers(Attachments(v));
    }
  }

  /** Replacing a `Hands` slot by another `Hands` slot leaves the other slots
      as they are. */
  lemma {:induction false} OtherSlotsPointwise(xs: seq<Value>, ys: seq<Value>, h: nat)
    requires |xs| == |ys|
    requires forall j :: 0 <= j < |xs| && j != h ==> xs[j] == ys[j]
    requires h < |xs| ==> InSlot(xs[h], Hands) && InSlot(ys[h], Hands)
    ensures OtherSlots(xs, Hands) == OtherSlots(ys, Hands)
    decreases |xs|
  {
    if |xs| > 0 {
      OtherSlotsPointwise(xs[..|xs| - 1], ys[..|ys| - 1], h);
    }
  }

  /** The per-Set loop of `process_loadout_file`: each M79 Set loses the
      FNX45s of its first `Hands` slot; in a real run the pistol goes to
      cargo and empty `Hands` slots are dropped. Returns the Set and whether
      the loop counts it. */
  method VisitSet(s: Value, dryRun: bool) returns (r: Result<Value>, counted: bool)
    ensures counted == Moves(s)
    ensures dryRun ==> r == DryMoveStep(s)
    ensures !dryRun ==> r == MoveStep(s)
  {
    if !HasM79AndAmmo(s) {
      return Ok(s), false;
    }
    var s1, found := FindAndRemoveFnx45FromHands(s);
    if found.None? {
      return Ok(s1), false;
    }
    if !dryRun {
      var s2 := AddFnx45ToCargo(s1, found.value);
      if s2.Err? {
        return s2, true;
      }
      var s3 := CleanEmptyHandsSlots(s2.value);
      r := Ok(s3);
    } else {
      r := Ok(s1);
    }
    counted := true;
  }

  method RunSets(sets: seq<Value>, dryRun: bool) returns (r: Result<seq<Value>>, setsModified: nat)
    ensures r == MapSets(if dryRun then DryMoveStep else MoveStep, sets)
    ensures r.Ok? ==> setsModified == CountSets(Moves, sets)
  {
    var step := if dryRun then DryMoveStep else MoveStep;
    var out: seq<Value> := [];
    setsModified := 0;
    var i := 0;
    while i < |sets|
      invariant 0 <= i <= |sets|
      invariant MapSets(step, sets[..i]) == Ok(out)
      invariant setsModified == CountSets(Moves, sets[..i])
    {
      var edited, counted := VisitSet(sets[i], dryRun);
      CountSetsSnoc(Moves, sets, i);
      if edited.Err? {
        MapSetsFails(step, sets, i);
        return Err(edited.error), setsModified;
      }
      MapSetsSnoc(step, sets, i, out, edited.value);
      out := out + [edited.value];
      if counted {
        setsModified := setsModified + 1;
      }
      i := i + 1;
    }
    assert sets[..i] == sets;
    r := Ok(out);
  }

  /** `process_loadout_file` after loading: the tree in memory carries the
      edits of the chosen mode (a dry run still removes the pistols from
      `Hands`); it is written back only in a real run that moved some pistol,
      and the function returns whether any Set had a pistol to move. */
  method ProcessLoadoutFile(data: Value, dryRun: bool) returns (r: Result<FileRun>)
    ensures var sets := MapSets(if dryRun then DryMoveStep else MoveStep, Sets(data));
      (r.Ok? <==> sets.Ok?) &&
      (r.Ok? ==> r.value == FileRun(WithList(data, "Sets", sets.value), CountSets(Moves, Sets(data)),
                                    !dryRun && CountSets(Moves, Sets(data)) > 0, CountSets(Moves, Sets(data)) > 0))
  {
    var sets, setsModified := RunSets(Sets(data), dryRun);
    if sets.Err? {
      return Err(sets.error);
    }
    r := Ok(FileRun(WithList(data, "Sets", sets.value), setsModified, !dryRun && setsModified > 0, setsModified > 0));
  }

  /** The returned flag is set exactly when some M79 Set had an FNX45 in its
      first `Hands` slot. */
  lemma ReturnedMeansMoved(sets: seq<Value>)
    ensures CountSets(Moves, sets) > 0 <==>
      exists j :: 0 <= j < |sets| && HasM79AndAmmo(sets[j]) &&
        var atts := Attachments(sets[j]); var h := FirstInSlot(atts, Hands);
        h < |atts| && AnyNamed(Items(atts[h]), Fnx45)
  {
    CountSetsZero(Moves, sets);
  }

  /** Sets without an M79 and its ammo are never touched, in either mode. */
  lemma OtherSetsUntouched(sets: seq<Value>, dryRun: bool)
    requires MapSets(if dryRun then DryMoveStep else MoveStep, sets).Ok?
    ensures forall j :: 0 <= j < |sets| && !HasM79AndAmmo(sets[j]) ==>
      MapSets(if dryRun then DryMoveStep else MoveStep, sets).value[j] == sets[j]
  {
    if dryRun {
      MapSetsMeans(DryMoveStep, sets);
    } else {
      MapSetsMeans(MoveStep, sets);
    }
  }
}
