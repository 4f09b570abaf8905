/** Queries on the loadout files of the Expansion AI: a loadout holds a list of
    `Sets`; each Set lists `InventoryAttachments` (slots, each with a
    `SlotName` and `Items`) and `InventoryCargo`; every item names its class in
    `ClassName`. Reads go through `.get(key, [])`, so a missing list reads as
    empty. */
module Loadout {
  import opened Json
  import opened Strings

  const M79 := "M79"
  const Ammo40 := "Ammo_40mm_Explosive"
  const Fnx45 := "FNX45"
  const Hands := "Hands"

  function Sets(data: Value): seq<Value> { ListField(data, "Sets") }
  function Attachments(s: Value): seq<Value> { ListField(s, "InventoryAttachments") }
  function Cargo(v: Value): seq<Value> { ListField(v, "InventoryCargo") }
  function Items(att: Value): seq<Value> { ListField(att, "Items") }

  /** `item.get("ClassName") == name` */
  predicate NamedAs(item: Value, name: string) { FieldIs(item, "ClassName", name) }

  /** `attachment.get("SlotName") == slot` */
  predicate InSlot(att: Value, slot: string) { FieldIs(att, "SlotName", slot) }

  /** Item `i` of attachment `a` of Set `s` is named `name`. */
  predicate AttachedItemNamed(s: Value, a: int, i: int, name: string) {
    0 <= a < |Attachments(s)| && 0 <= i < |Items(Attachments(s)[a])| && NamedAs(Items(Attachments(s)[a])[i], name)
  }

  /** Cargo item `i` of `s` is named `name`. */
  predicate CargoItemNamed(s: Value, i: int, name: string) {
    0 <= i < |Cargo(s)| && NamedAs(Cargo(s)[i], name)
  }

  /** A scan of a list for an item named `name`. */
  function AnyNamed(xs: seq<Value>, name: string): (r: bool)
    ensures r <==> exists i :: 0 <= i < |xs| && NamedAs(xs[i], name)
  {
    |xs| > 0 && (NamedAs(xs[|xs| - 1], name) || AnyNamed(xs[..|xs| - 1], name))
  }

  /** A scan of every slot's `Items` for an item named `name`. */
  function AnyAttached(atts: seq<Value>, name: string): (r: bool)
    ensures r <==> exists a, i :: 0 <= a < |atts| && 0 <= i < |Items(atts[a])| && NamedAs(Items(atts[a])[i], name)
  {
    if |atts| == 0 then false
    else
      var init := atts[..|atts| - 1];
      assert forall a :: 0 <= a < |init| ==> init[a] == atts[a];
      AnyNamed(Items(atts[|atts| - 1]), name) || AnyAttached(init, name)
  }

  lemma AttachedIff(s: Value, name: string)
    ensures AnyAttached(Attachments(s), name) <==> exists a, i :: AttachedItemNamed(s, a, i, name)
  {
    var atts := Attachments(s);
    if exists a, i :: AttachedItemNamed(s, a, i, name) {
      var a, i :| AttachedItemNamed(s, a, i, name);
      assert NamedAs(Items(atts[a])[i], name);
    }
    if AnyAttached(atts, name) {
      var a, i :| 0 <= a < |atts| && 0 <= i < |Items(atts[a])| && NamedAs(Items(atts[a])[i], name);
      assert AttachedItemNamed(s, a, i, name);
    }
  }

  lemma CargoIff(s: Value, name: string)
    ensures AnyNamed(Cargo(s), name) <==> exists i :: CargoItemNamed(s, i, name)
  {
    if AnyNamed(Cargo(s), name) {
      var i :| 0 <= i < |Cargo(s)| && NamedAs(Cargo(s)[i], name);
      assert CargoItemNamed(s, i, name);
    }
  }

  /** `has_m79_and_ammo`: both scans of the Set. */
  function HasM79AndAmmo(s: Value): (r: bool)
    ensures r ==> s.Object? && |Attachments(s)| > 0 && |Cargo(s)| > 0
  {
    AnyAttached(Attachments(s), M79) && AnyNamed(Cargo(s), Ammo40)
  }

  /** The test holds exactly when an M79 sits in some slot and 40mm grenades
      in the Set's cargo. */
  lemma HasM79AndAmmoMeans(s: Value)
    ensures HasM79AndAmmo(s) <==> (exists a, i :: AttachedItemNamed(s, a, i, M79)) && (exists i :: CargoItemNamed(s, i, Ammo40))
  {
    AttachedIff(s, M79);
    CargoIff(s, Ammo40);
  }

  /** Position of the first slot named `slot`, or `|atts|` when there is none. */
  function FirstInSlot(atts: seq<Value>, slot: string): (h: nat)
    ensures h <= |atts|
    ensures h < |atts| ==> InSlot(atts[h], slot) && atts[h].Object?
    ensures forall j :: 0 <= j < h ==> !InSlot(atts[j], slot)
  {
    if |atts| == 0 then 0 else if InSlot(atts[0], slot) then 0 else 1 + FirstInSlot(atts[1..], slot)
  }

  /** A scan that stops at the first slot named `slot` has found `FirstInSlot`. */
  lemma FirstInSlotIs(atts: seq<Value>, slot: string, h: nat)
    requires h <= |atts| && (h < |atts| ==> InSlot(atts[h], slot))
    requires forall j :: 0 <= j < h ==> !InSlot(atts[j], slot)
    ensures FirstInSlot(atts, slot) == h
  {
  }

  /** The items not named `name`, in their order. */
  function Unnamed(xs: seq<Value>, name: string): (r: seq<Value>)
    ensures |r| <= |xs|
  {
    if |xs| == 0 then [] else (if NamedAs(xs[0], name) then [] else [xs[0]]) + Unnamed(xs[1..], name)
  }

  /** The items named `name`, in their order. */
  function NamedOnly(xs: seq<Value>, name: string): (r: seq<Value>)
    ensures |r| <= |xs|
  {
    if |xs| == 0 then [] else (if NamedAs(xs[0], name) then [xs[0]] else []) + NamedOnly(xs[1..], name)
  }

  /** The filter keeps exactly the items not named `name`. */
  lemma {:induction false} UnnamedMembers(xs: seq<Value>, name: string)
    ensures forall x :: x in Unnamed(xs, name) <==> x in xs && !NamedAs(x, name)
  {
    if |xs| == 0 {
      assert Unnamed(xs, name) == [];
    } else {
      var head, tail := xs[0], xs[1..];
      UnnamedMembers(tail, name);
      assert xs == [head] + tail;
      assert Unnamed(xs, name) == (if NamedAs(head, name) then [] else [head]) + Unnamed(tail, name);
    }
  }

  /** After the filter no item is named `name`. */
  lemma UnnamedNoneNamed(xs: seq<Value>, name: string)
    ensures !AnyNamed(Unnamed(xs, name), name)
  {
    var u := Unnamed(xs, name);
    UnnamedMembers(xs, name);
    forall i | 0 <= i < |u| ensures !NamedAs(u[i], name) {
      assert u[i] in u;
    }
  }

  /** The filter keeps exactly the items named `name`. */
  lemma {:induction false} NamedOnlyMembers(xs: seq<Value>, name: string)
    ensures forall x :: x in NamedOnly(xs, name) <==> x in xs && NamedAs(x, name)
  {
    if |xs| == 0 {
      assert NamedOnly(xs, name) == [];
    } else {
      var head, tail := xs[0], xs[1..];
      NamedOnlyMembers(tail, name);
      assert xs == [head] + tail;
      assert NamedOnly(xs, name) == (if NamedAs(head, name) then [head] else []) + NamedOnly(tail, name);
    }
  }

  /** Splitting by name loses and invents nothing. */
  lemma {:induction false} SplitByName(xs: seq<Value>, name: string)
    ensures multiset(Unnamed(xs, name)) + multiset(NamedOnly(xs, name)) == multiset(xs)
  {
    if |xs| == 0 {
      assert Unnamed(xs, name) == [] && NamedOnly(xs, name) == [];
    } else {
      var head, tail := xs[0], xs[1..];
      SplitByName(tail, name);
      assert xs == [head] + tail;
      assert multiset(xs) == multiset{head} + multiset(tail);
      if NamedAs(head, name) {
        assert Unnamed(xs, name) == Unnamed(tail, name);
        assert NamedOnly(xs, name) == [head] + NamedOnly(tail, name);
      } else {
        assert Unnamed(xs, name) == [head] + Unnamed(tail, name);
        assert NamedOnly(xs, name) == NamedOnly(tail, name);
      }
    }
  }

  lemma {:induction false} UnnamedAppend(xs: seq<Value>, ys: seq<Value>, name: string)
    ensures Unnamed(xs + ys, name) == Unnamed(xs, name) + Unnamed(ys, name)
  {
    if |xs| == 0 {
      assert xs + ys == ys;
      assert Unnamed(xs, name) == [];
    } else {
      var head, tail := xs[0], xs[1..];
      assert (xs + ys)[0] == head && (xs + ys)[1..] == tail + ys;
      UnnamedAppend(tail, ys, name);
      assert Unnamed(xs + ys, name) == (if NamedAs(head, name) then [] else [head]) + Unnamed(tail + ys, name);
      assert Unnamed(xs, name) == (if NamedAs(head, name) then [] else [head]) + Unnamed(tail, name);
    }
  }

  lemma {:induction false} NamedOnlyAppend(xs: seq<Value>, ys: seq<Value>, name: string)
    ensures NamedOnly(xs + ys, name) == NamedOnly(xs, name) + NamedOnly(ys, name)
  {
    if |xs| == 0 {
      assert xs + ys == ys;
      assert NamedOnly(xs, name) == [];
    } else {
      var head, tail := xs[0], xs[1..];
      assert (xs + ys)[0] == head && (xs + ys)[1..] == tail + ys;
      NamedOnlyAppend(tail, ys, name);
      assert NamedOnly(xs + ys, name) == (if NamedAs(head, name) then [head] else []) + NamedOnly(tail + ys, name);
      assert NamedOnly(xs, name) == (if NamedAs(head, name) then [head] else []) + NamedOnly(tail, name);
    }
  }

  /** Number of items named `name`. */
  function CountNamed(xs: seq<Value>, name: string): nat {
    |NamedOnly(xs, name)|
  }

  /** A list without items named `name` counts none of them, and filtering them
      out changes nothing. */
  lemma {:induction false} NoneNamed(xs: seq<Value>, name: string)
    requires !AnyNamed(xs, name)
    ensures NamedOnly(xs, name) == [] && Unnamed(xs, name) == xs
  {
    if |xs| > 0 {
      assert !NamedAs(xs[0], name);
      assert forall i :: 0 <= i < |xs[1..]| ==> xs[1..][i] == xs[i + 1];
      NoneNamed(xs[1..], name);
      assert xs == [xs[0]] + xs[1..];
    }
  }

  /** `xs` backwards. */
  function Reverse(xs: seq<Value>): (r: seq<Value>)
    ensures |r| == |xs|
    ensures forall i :: 0 <= i < |xs| ==> r[i] == xs[|xs| - 1 - i]
  {
    if |xs| == 0 then [] else Reverse(xs[1..]) + [xs[0]]
  }

  /** A per-Set edit applied to each Set in turn, as the loops over `Sets`
      do; the first exception ends the run. */
  function MapSets(step: Value -> Result<Value>, sets: seq<Value>): (r: Result<seq<Value>>)
    ensures r.Ok? ==> |r.value| == |sets|
  {
    if |sets| == 0 then Ok([])
    else
      var init :- MapSets(step, sets[..|sets| - 1]);
      var s' :- step(sets[|sets| - 1]);
      Ok(init + [s'])
  }

  /** Each Set of a run that raised nothing is the edit of the Set at its
      position. */
  lemma {:induction false} MapSetsMeans(step: Value -> Result<Value>, sets: seq<Value>)
    requires MapSets(step, sets).Ok?
    ensures forall j :: 0 <= j < |sets| ==> step(sets[j]) == Ok(MapSets(step, sets).value[j])
  {
    if |sets| > 0 {
      var init := sets[..|sets| - 1];
      MapSetsMeans(step, init);
      assert forall j :: 0 <= j < |init| ==> init[j] == sets[j];
    }
  }

  /** One more Set of a run that raised nothing so far. */
  lemma MapSetsSnoc(step: Value -> Result<Value>, sets: seq<Value>, i: nat, done: seq<Value>, next: Value)
    requires i < |sets| && MapSets(step, sets[..i]) == Ok(done) && step(sets[i]) == Ok(next)
    ensures MapSets(step, sets[..i + 1]) == Ok(done + [next])
  {
    assert sets[..i + 1][..i] == sets[..i];
  }

  /** A Set whose edit raises makes the whole run raise. */
  lemma MapSetsFails(step: Value -> Result<Value>, sets: seq<Value>, i: nat)
    requires i < |sets| && MapSets(step, sets[..i]).Ok? && step(sets[i]).Err?
    ensures MapSets(step, sets) == Err(step(sets[i]).error)
  {
    assert sets[..i + 1][..i] == sets[..i];
    MapSetsStops(step, sets, i + 1);
  }

  /** A run over a prefix that raised makes the whole run raise. */
  lemma {:induction false} MapSetsStops(step: Value -> Result<Value>, sets: seq<Value>, i: nat)
    requires i <= |sets| && MapSets(step, sets[..i]).Err?
    ensures MapSets(step, sets) == MapSets(step, sets[..i])
    decreases |sets| - i
  {
    if i < |sets| {
      assert sets[..i + 1][..i] == sets[..i];
      MapSetsStops(step, sets, i + 1);
    } else {
      assert sets[..i] == sets;
    }
  }

  /** The number of Sets satisfying `p`, as the `sets_modified` counters
      count them. */
  function CountSets(p: Value -> bool, sets: seq<Value>): (n: nat)
    ensures n <= |sets|
  {
    if |sets| == 0 then 0
    else CountSets(p, sets[..|sets| - 1]) + if p(sets[|sets| - 1]) then 1 else 0
  }

  lemma CountSetsSnoc(p: Value -> bool, sets: seq<Value>, i: nat)
    requires i < |sets|
    ensures CountSets(p, sets[..i + 1]) == CountSets(p, sets[..i]) + if p(sets[i]) then 1 else 0
  {
    assert sets[..i + 1][..i] == sets[..i];
  }

  /** The count is zero exactly when no Set satisfies `p`. */
  lemma {:induction false} CountSetsZero(p: Value -> bool, sets: seq<Value>)
    ensures CountSets(p, sets) == 0 <==> forall j :: 0 <= j < |sets| ==> !p(sets[j])
  {
    if |sets| > 0 {
      var init := sets[..|sets| - 1];
      CountSetsZero(p, init);
      assert forall j :: 0 <= j < |init| ==> init[j] == sets[j];
    }
  }

  /** What `process_loadout_file` leaves behind: the tree in memory, the
      number of Sets it counted, whether it wrote the tree back, and the flag
      it returns. */
  datatype FileRun = FileRun(data: Value, setsModified: nat, written: bool, returned: bool)
}
