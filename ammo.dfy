/** `update_ammo_amts.py`: a depth-first walk over a loaded loadout tree that
    overwrites `Chance`, `Quantity.Min` and `Quantity.Max` on every object whose
    `ClassName` starts with `Ammo_`, and the directory loop that applies it to
    every eligible `.json` file. */
module AmmoUpdate {
  import opened Json
  import opened Strings

  /** The values written into every ammo entry, as number literals. */
  datatype Settings = Settings(chance: string, minQuantity: string, maxQuantity: string)

  /** The values the script is run with. */
  const ScriptSettings := Settings("0.2", "0.2", "0.4")

  /** Loadouts the directory loop never touches. */
  const IgnoreFiles: seq<string> := [
    "FireFighterLoadout.json",
    "PlayerFemaleSuitLoadout.json",
    "PlayerMaleSuitLoadout.json",
    "PlayerSurvivorLoadout.json"
  ]

  /** `item.get("ClassName", "")`; it must be a string, because the walk calls
      `.startswith` on it. */
  function ClassNameOf(ms: Members): Result<string> {
    match Get(ms, "ClassName")
    case None => Ok("")
    case Some(Str(s)) => Ok(s)
    case Some(_) => Err(NotAString("ClassName"))
  }

  predicate IsAmmoName(name: string) {
    StartsWith(name, "Ammo_")
  }

  /** An object node that the walk matches. */
  predicate IsAmmoNode(v: Value) {
    v.Object? && ClassNameOf(v.members).Ok? && IsAmmoName(ClassNameOf(v.members).value)
  }

  /** A member list that already holds the configured values. */
  predicate Patched(ms: Members, cfg: Settings) {
    && Get(ms, "Chance") == Some(Num(cfg.chance))
    && Get(ms, "Quantity").Some?
    && Get(ms, "Quantity").value.Object?
    && Get(Get(ms, "Quantity").value.members, "Min") == Some(Num(cfg.minQuantity))
    && Get(Get(ms, "Quantity").value.members, "Max") == Some(Num(cfg.maxQuantity))
  }

  /** The three assignments made on a matched node. `item["Quantity"]` must be a
      dict: a missing key raises KeyError, any other value a TypeError. */
  function Patch(ms: Members, cfg: Settings): (r: Result<Members>)
    ensures r.Ok? <==> Get(ms, "Quantity").Some? && Get(ms, "Quantity").value.Object?
  {
    var ms1 := Put(ms, "Chance", Num(cfg.chance));
    match Get(ms1, "Quantity")
    case Some(Object(q)) =>
      var q' := Put(Put(q, "Min", Num(cfg.minQuantity)), "Max", Num(cfg.maxQuantity));
      Ok(Put(ms1, "Quantity", Object(q')))
    case None => Err(MissingKey("Quantity"))
    case Some(_) => Err(NotAnObject("Quantity"))
  }

  /** A successful patch holds the configured values, leaves every other key
      of the node and of its Quantity as it was, and deepens nothing. */
  lemma PatchMeans(ms: Members, cfg: Settings)
    requires Patch(ms, cfg).Ok?
    ensures Patched(Patch(ms, cfg).value, cfg)
    ensures forall k :: k != "Chance" && k != "Quantity" ==> Get(Patch(ms, cfg).value, k) == Get(ms, k)
    ensures forall k :: k != "Min" && k != "Max" ==>
      Get(Get(Patch(ms, cfg).value, "Quantity").value.members, k) == Get(Get(ms, "Quantity").value.members, k)
    ensures MembersDepth(Patch(ms, cfg).value) <= MembersDepth(ms)
  {
    PatchDepth(ms, cfg);
  }

  lemma PatchDepth(ms: Members, cfg: Settings)
    requires Get(ms, "Quantity").Some? && Get(ms, "Quantity").value.Object?
    ensures
      var ms1 := Put(ms, "Chance", Num(cfg.chance));
      var q := Get(ms, "Quantity").value.members;
      var q' := Put(Put(q, "Min", Num(cfg.minQuantity)), "Max", Num(cfg.maxQuantity));
      MembersDepth(Put(ms1, "Quantity", Object(q'))) <= MembersDepth(ms)
  {
    var ms1 := Put(ms, "Chance", Num(cfg.chance));
    PutDepth(ms, "Chance", Num(cfg.chance));
    var q := Get(ms, "Quantity").value.members;
    var q1 := Put(q, "Min", Num(cfg.minQuantity));
    var q' := Put(q1, "Max", Num(cfg.maxQuantity));
    PutDepth(q, "Min", Num(cfg.minQuantity));
    PutDepth(q1, "Max", Num(cfg.maxQuantity));
    MemberDepthBelow(ms1, KeyIndex(ms1, "Quantity"));
    assert Depth(Object(q')) <= Depth(Object(q));
    PutDepth(ms1, "Quantity", Object(q'));
  }

  /** The walk of `update_ammo_recursive`: a matched object is patched first,
      then every member of the patched object is walked; arrays are walked
      element by element and never matched; scalars end the recursion. The
      first exception aborts the whole walk. */
  function Walk(v: Value, cfg: Settings): Result<Value>
    decreases Depth(v), 0, 0
  {
    match v
    case Object(ms) =>
      var name :- ClassNameOf(ms);
      if IsAmmoName(name) then
        var ms' :- Patch(ms, cfg);
        PatchMeans(ms, cfg);
        var ws :- WalkMembers(ms', cfg);
        Ok(Object(ws))
      else
        var ws :- WalkMembers(ms, cfg);
        Ok(Object(ws))
    case Array(xs) =>
      var ys :- WalkItems(xs, cfg);
      Ok(Array(ys))
    case _ => Ok(v)
  }

  /** The members walked in order, keys kept. */
  function WalkMembers(ms: Members, cfg: Settings): Result<Members>
    decreases MembersDepth(ms), 1, |ms|
  {
    if |ms| == 0 then Ok([])
    else
      MembersDepthPrefix(ms, |ms| - 1);
      MemberDepthBelow(ms, |ms| - 1);
      var init :- WalkMembers(ms[..|ms| - 1], cfg);
      var w :- Walk(ms[|ms| - 1].1, cfg);
      Ok(init + [(ms[|ms| - 1].0, w)])
  }

  /** The elements walked in order. */
  function WalkItems(xs: seq<Value>, cfg: Settings): Result<seq<Value>>
    decreases ItemsDepth(xs), 1, |xs|
  {
    if |xs| == 0 then Ok([])
    else
      ItemsDepthPrefix(xs, |xs| - 1);
      ItemDepthBelow(xs, |xs| - 1);
      var init :- WalkItems(xs[..|xs| - 1], cfg);
      var w :- Walk(xs[|xs| - 1], cfg);
      Ok(init + [w])
  }

  /** Some object node, at any depth, is an ammo node. */
  predicate AnyAmmo(v: Value) {
    match v
    case Object(ms) => IsAmmoNode(v) || exists j :: 0 <= j < |ms| && AnyAmmo(ms[j].1)
    case Array(xs) => exists j :: 0 <= j < |xs| && AnyAmmo(xs[j])
    case _ => false
  }

  /** The state the walk leaves behind: every ClassName is a string and every
      ammo node, at any depth, holds the configured values. */
  predicate Done(v: Value, cfg: Settings) {
    match v
    case Object(ms) =>
      && ClassNameOf(ms).Ok?
      && (IsAmmoName(ClassNameOf(ms).value) ==> Patched(ms, cfg))
      && forall j :: 0 <= j < |ms| ==> Done(ms[j].1, cfg)
    case Array(xs) => forall j :: 0 <= j < |xs| ==> Done(xs[j], cfg)
    case _ => true
  }

  // ---------------------------------------------------------------------------
  // The walk as the script runs it: recursion plus loops over members/elements.

  /** `update_ammo_recursive` on one node, with the `changes_made` flag it sets. */
  method UpdateAmmoRecursive(item: Value, cfg: Settings) returns (r: Result<Value>, changed: bool)
    ensures r == Walk(item, cfg)
    ensures r.Ok? ==> (changed <==> AnyAmmo(item))
    decreases Depth(item), 0
  {
    match item {
      case Object(ms) =>
        var name := ClassNameOf(ms);
        if name.Err? {
          return Err(name.error), false;
        }
        var matched := IsAmmoName(name.value);
        var todo := ms;
        if matched {
          var p := Patch(ms, cfg);
          if p.Err? {
            return Err(p.error), true;
          }
          PatchMeans(ms, cfg);
          todo := p.value;
        }
        var rs, cs := UpdateMembers(todo, cfg);
        changed := matched || cs;
        r := if rs.Ok? then Ok(Object(rs.value)) else Err(rs.error);
      case Array(xs) =>
        var rs, cs := UpdateItems(xs, cfg);
        changed := cs;
        r := if rs.Ok? then Ok(Array(rs.value)) else Err(rs.error);
      case _ =>
        r, changed := Ok(item), false;
    }
  }

  /** The loop over `item.items()`: only dict and list values are visited. */
  method UpdateMembers(ms: Members, cfg: Settings) returns (r: Result<Members>, changed: bool)
    ensures r == WalkMembers(ms, cfg)
    ensures r.Ok? ==> (changed <==> exists j :: 0 <= j < |ms| && AnyAmmo(ms[j].1))
    decreases MembersDepth(ms), 1
  {
    var out: Members := [];
    changed := false;
    var i := 0;
    while i < |ms|
      invariant 0 <= i <= |ms|
      invariant WalkMembers(ms[..i], cfg) == Ok(out)
      invariant changed <==> exists j :: 0 <= j < i && AnyAmmo(ms[j].1)
    {
      var (k, child) := ms[i];
      var w := child;
      if child.Object? || child.Array? {
        MemberDepthBelow(ms, i);
        var rc, cc := UpdateAmmoRecursive(child, cfg);
        if rc.Err? {
          WalkMembersStops(ms, i, cfg);
          return Err(rc.error), changed;
        }
        w := rc.value;
        changed := changed || cc;
      }
      assert ms[..i + 1][..i] == ms[..i];
      out := out + [(k, w)];
      i := i + 1;
    }
    assert ms[..i] == ms;
    r := Ok(out);
  }

  /** The loop over the elements of a list. */
  method UpdateItems(xs: seq<Value>, cfg: Settings) returns (r: Result<seq<Value>>, changed: bool)
    ensures r == WalkItems(xs, cfg)
    ensures r.Ok? ==> (changed <==> exists j :: 0 <= j < |xs| && AnyAmmo(xs[j]))
    decreases ItemsDepth(xs), 1
  {
    var out: seq<Value> := [];
    changed := false;
    var i := 0;
    while i < |xs|
      invariant 0 <= i <= |xs|
      invariant WalkItems(xs[..i], cfg) == Ok(out)
      invariant changed <==> exists j :: 0 <= j < i && AnyAmmo(xs[j])
    {
      var w := xs[i];
      if xs[i].Object? || xs[i].Array? {
        ItemDepthBelow(xs, i);
        var rc, cc := UpdateAmmoRecursive(xs[i], cfg);
        if rc.Err? {
          WalkItemsStops(xs, i, cfg);
          return Err(rc.error), changed;
        }
        w := rc.value;
        changed := changed || cc;
      }
      WalkItemsSnoc(xs, i, cfg);
      out := out + [w];
      i := i + 1;
    }
    assert xs[..i] == xs;
    r := Ok(out);
  }

  /** An exception in one member ends the walk of the members with it. */
  lemma {:induction false} WalkMembersStops(ms: Members, i: nat, cfg: Settings)
    requires i < |ms|
    requires WalkMembers(ms[..i], cfg).Ok?
    requires Walk(ms[i].1, cfg).Err?
    ensures WalkMembers(ms, cfg) == Err(Walk(ms[i].1, cfg).error)
    decreases |ms|
  {
    if i < |ms| - 1 {
      assert ms[..|ms| - 1][..i] == ms[..i];
      WalkMembersStops(ms[..|ms| - 1], i, cfg);
    } else {
      assert ms[..|ms| - 1] == ms[..i];
    }
  }

  /** One more element walked extends the walked prefix by its result. */
  lemma WalkItemsSnoc(xs: seq<Value>, i: nat, cfg: Settings)
    requires i < |xs|
    requires WalkItems(xs[..i], cfg).Ok? && Walk(xs[i], cfg).Ok?
    ensures WalkItems(xs[..i + 1], cfg) == Ok(WalkItems(xs[..i], cfg).value + [Walk(xs[i], cfg).value])
  {
    assert xs[..i + 1][..i] == xs[..i];
  }

  lemma {:induction false} WalkItemsStops(xs: seq<Value>, i: nat, cfg: Settings)
    requires i < |xs|
    requires WalkItems(xs[..i], cfg).Ok?
    requires Walk(xs[i], cfg).Err?
    ensures WalkItems(xs, cfg) == Err(Walk(xs[i], cfg).error)
    decreases |xs|
  {
    if i < |xs| - 1 {
      assert xs[..|xs| - 1][..i] == xs[..i];
      WalkItemsStops(xs[..|xs| - 1], i, cfg);
    } else {
      assert xs[..|xs| - 1] == xs[..i];
    }
  }

  // ---------------------------------------------------------------------------
  // What the walk guarantees.

  /** The walked members keep their keys, in order, and hold the walked values. */
  lemma {:induction false} WalkMembersShape(ms: Members, cfg: Settings)
    requires WalkMembers(ms, cfg).Ok?
    ensures var ws := WalkMembers(ms, cfg).value;
      |ws| == |ms| && forall j :: 0 <= j < |ms| ==> ws[j].0 == ms[j].0 && Walk(ms[j].1, cfg) == Ok(ws[j].1)
    decreases |ms|
  {
    if |ms| > 0 {
      MembersDepthPrefix(ms, |ms| - 1);
      WalkMembersShape(ms[..|ms| - 1], cfg);
    }
  }

  /** Arrays are never matched themselves: the walked array holds the walked
      elements. */
  lemma {:induction false} WalkItemsShape(xs: seq<Value>, cfg: Settings)
    requires WalkItems(xs, cfg).Ok?
    ensures var ys := WalkItems(xs, cfg).value;
      |ys| == |xs| && forall j :: 0 <= j < |xs| ==> Walk(xs[j], cfg) == Ok(ys[j])
    decreases |xs|
  {
    if |xs| > 0 {
      ItemsDepthPrefix(xs, |xs| - 1);
      WalkItemsShape(xs[..|xs| - 1], cfg);
    }
  }

  /** Looking a key up in walked members finds the walked value. */
  lemma WalkedGet(ms: Members, ws: Members, k: string, cfg: Settings)
    requires |ws| == |ms|
    requires forall j :: 0 <= j < |ms| ==> ws[j].0 == ms[j].0 && Walk(ms[j].1, cfg) == Ok(ws[j].1)
    ensures Get(ms, k).None? <==> Get(ws, k).None?
    ensures Get(ms, k).Some? ==> Walk(Get(ms, k).value, cfg) == Ok(Get(ws, k).value)
  {
    SameKeysSameIndex(ms, ws, k);
  }

  /** A number held under a key the walk never writes survives the walk of its
      object. */
  lemma WalkKeepsNumber(q: Members, k: string, t: string, cfg: Settings)
    requires Walk(Object(q), cfg).Ok?
    requires Get(q, k) == Some(Num(t)) && k != "Chance" && k != "Quantity"
    ensures Walk(Object(q), cfg).value.Object?
    ensures Get(Walk(Object(q), cfg).value.members, k) == Some(Num(t))
  {
    var q'' := if IsAmmoName(ClassNameOf(q).value) then Patch(q, cfg).value else q;
    if IsAmmoName(ClassNameOf(q).value) {
      PatchMeans(q, cfg);
    }
    WalkMembersShape(q'', cfg);
    WalkedGet(q'', WalkMembers(q'', cfg).value, k, cfg);
  }

  /** After a walk that raised nothing, every ammo node at any depth holds the
      configured Chance, Quantity.Min and Quantity.Max. */
  lemma {:induction false} WalkEstablishesDone(v: Value, cfg: Settings)
    requires Walk(v, cfg).Ok?
    ensures Done(Walk(v, cfg).value, cfg)
    decreases Depth(v)
  {
    match v
    case Object(ms) =>
      var name := ClassNameOf(ms).value;
      var ms' := if IsAmmoName(name) then Patch(ms, cfg).value else ms;
      if IsAmmoName(name) {
        PatchMeans(ms, cfg);
      }
      var ws := WalkMembers(ms', cfg).value;
      assert Walk(v, cfg).value == Object(ws);
      WalkedHead(ms, cfg);
      WalkMembersShape(ms', cfg);
      forall j | 0 <= j < |ws| ensures Done(ws[j].1, cfg) {
        MemberDepthBelow(ms', j);
        WalkEstablishesDone(ms'[j].1, cfg);
      }
    case Array(xs) =>
      var ys := WalkItems(xs, cfg).value;
      WalkItemsShape(xs, cfg);
      forall j | 0 <= j < |ys| ensures Done(ys[j], cfg) {
        ItemDepthBelow(xs, j);
        WalkEstablishesDone(xs[j], cfg);
      }
    case _ =>
  }

  /** The walked object keeps its ClassName and, when it is an ammo node,
      holds the configured values. */
  lemma WalkedHead(ms: Members, cfg: Settings)
    requires Walk(Object(ms), cfg).Ok?
    ensures Walk(Object(ms), cfg).value.Object?
    ensures ClassNameOf(Walk(Object(ms), cfg).value.members) == ClassNameOf(ms)
    ensures IsAmmoName(ClassNameOf(ms).value) ==> Patched(Walk(Object(ms), cfg).value.members, cfg)
  {
    var name := ClassNameOf(ms).value;
    var ms' := if IsAmmoName(name) then Patch(ms, cfg).value else ms;
    if IsAmmoName(name) {
      PatchMeans(ms, cfg);
    }
    var ws := WalkMembers(ms', cfg).value;
    assert Walk(Object(ms), cfg).value == Object(ws);
    WalkMembersShape(ms', cfg);
    WalkedGet(ms', ws, "ClassName", cfg);
    assert Get(ms', "ClassName") == Get(ms, "ClassName");
    if IsAmmoName(name) {
      WalkedGet(ms', ws, "Chance", cfg);
      WalkedGet(ms', ws, "Quantity", cfg);
      var q' := Get(ms', "Quantity").value.members;
      WalkKeepsNumber(q', "Min", cfg.minQuantity, cfg);
      WalkKeepsNumber(q', "Max", cfg.maxQuantity, cfg);
    }
  }

  /** Members whose every value walks without an exception walk without one. */
  lemma {:induction false} WalkMembersOk(ms: Members, cfg: Settings)
    requires forall j :: 0 <= j < |ms| ==> Walk(ms[j].1, cfg).Ok?
    ensures WalkMembers(ms, cfg).Ok?
    decreases |ms|
  {
    if |ms| > 0 {
      var init := ms[..|ms| - 1];
      forall j | 0 <= j < |init| ensures Walk(init[j].1, cfg).Ok? {
        assert init[j] == ms[j];
      }
      MembersDepthPrefix(ms, |ms| - 1);
      WalkMembersOk(init, cfg);
    }
  }

  lemma {:induction false} WalkItemsOk(xs: seq<Value>, cfg: Settings)
    requires forall j :: 0 <= j < |xs| ==> Walk(xs[j], cfg).Ok?
    ensures WalkItems(xs, cfg).Ok?
    decreases |xs|
  {
    if |xs| > 0 {
      var init := xs[..|xs| - 1];
      forall j | 0 <= j < |init| ensures Walk(init[j], cfg).Ok? {
        assert init[j] == xs[j];
      }
      ItemsDepthPrefix(xs, |xs| - 1);
      WalkItemsOk(init, cfg);
    }
  }

  /** Members whose every value the walk leaves as it is are left as they are. */
  lemma WalkMembersIdentity(ms: Members, cfg: Settings)
    requires forall j :: 0 <= j < |ms| ==> Walk(ms[j].1, cfg) == Ok(ms[j].1)
    ensures WalkMembers(ms, cfg) == Ok(ms)
  {
    WalkMembersOk(ms, cfg);
    WalkMembersShape(ms, cfg);
    var ws := WalkMembers(ms, cfg).value;
    assert forall j :: 0 <= j < |ms| ==> ws[j] == ms[j];
    assert ws == ms;
  }

  lemma WalkItemsIdentity(xs: seq<Value>, cfg: Settings)
    requires forall j :: 0 <= j < |xs| ==> Walk(xs[j], cfg) == Ok(xs[j])
    ensures WalkItems(xs, cfg) == Ok(xs)
  {
    WalkItemsOk(xs, cfg);
    WalkItemsShape(xs, cfg);
    var ys := WalkItems(xs, cfg).value;
    assert forall j :: 0 <= j < |xs| ==> ys[j] == xs[j];
    assert ys == xs;
  }

  /** A tree in which every ammo node already holds the configured values is
      left exactly as it is. */
  lemma {:induction false} DoneIsFixpoint(v: Value, cfg: Settings)
    requires Done(v, cfg)
    ensures Walk(v, cfg) == Ok(v)
    decreases v
  {
    match v
    case Object(ms) =>
      forall j | 0 <= j < |ms| ensures Walk(ms[j].1, cfg) == Ok(ms[j].1) {
        DoneIsFixpoint(ms[j].1, cfg);
      }
      WalkMembersIdentity(ms, cfg);
      if IsAmmoName(ClassNameOf(ms).value) {
        var ms1 := Put(ms, "Chance", Num(cfg.chance));
        PutExisting(ms, "Chance");
        assert ms1 == ms;
        var q := Get(ms, "Quantity").value.members;
        PutExisting(q, "Min");
        var q1 := Put(q, "Min", Num(cfg.minQuantity));
        assert q1 == q;
        PutExisting(q, "Max");
        PutExisting(ms, "Quantity");
        assert Patch(ms, cfg) == Ok(ms);
      }
    case Array(xs) =>
      forall j | 0 <= j < |xs| ensures Walk(xs[j], cfg) == Ok(xs[j]) {
        DoneIsFixpoint(xs[j], cfg);
      }
      WalkItemsIdentity(xs, cfg);
    case _ =>
  }

  /** Applying the update twice equals applying it once. */
  lemma WalkIdempotent(v: Value, cfg: Settings)
    requires Walk(v, cfg).Ok?
    ensures Walk(Walk(v, cfg).value, cfg) == Walk(v, cfg)
  {
    WalkEstablishesDone(v, cfg);
    DoneIsFixpoint(Walk(v, cfg).value, cfg);
  }

  /** A tree without ammo nodes comes back unchanged. */
  lemma {:induction false} NoAmmoUnchanged(v: Value, cfg: Settings)
    requires Walk(v, cfg).Ok? && !AnyAmmo(v)
    ensures Walk(v, cfg) == Ok(v)
    decreases Depth(v)
  {
    match v
    case Object(ms) =>
      var ws := WalkMembers(ms, cfg).value;
      WalkMembersShape(ms, cfg);
      forall j | 0 <= j < |ms| ensures ws[j] == ms[j] {
        MemberDepthBelow(ms, j);
        NoAmmoUnchanged(ms[j].1, cfg);
      }
      assert ws == ms;
    case Array(xs) =>
      var ys := WalkItems(xs, cfg).value;
      WalkItemsShape(xs, cfg);
      forall j | 0 <= j < |xs| ensures ys[j] == xs[j] {
        ItemDepthBelow(xs, j);
        NoAmmoUnchanged(xs[j], cfg);
      }
      assert ys == xs;
    case _ =>
  }

  // ---------------------------------------------------------------------------
  // Files.

  /** The file-name filter of the directory loop. */
  predicate ShouldProcess(fileName: string) {
    fileName !in IgnoreFiles && EndsWith(fileName, ".json")
  }

  /** What `update_ammo_properties` does with one loaded file: write it back,
      leave it (no ammo entry found), or fail with an exception that the
      directory loop catches. */
  datatype FileOutcome = Written(content: Value) | NoAmmo | Failed(error: Error)

  method UpdateAmmoProperties(data: Value, cfg: Settings) returns (outcome: FileOutcome)
    ensures outcome.Failed? <==> Walk(data, cfg).Err?
    ensures outcome.Written? <==> Walk(data, cfg).Ok? && AnyAmmo(data)
    ensures outcome.Written? ==> outcome.content == Walk(data, cfg).value && Done(outcome.content, cfg)
    ensures outcome.NoAmmo? ==> Walk(data, cfg) == Ok(data)
  {
    var r, changed := UpdateAmmoRecursive(data, cfg);
    if r.Err? {
      return Failed(r.error);
    }
    if changed {
      WalkEstablishesDone(data, cfg);
      outcome := Written(r.value);
    } else {
      NoAmmoUnchanged(data, cfg);
      outcome := NoAmmo;
    }
  }

  /** The files the directory loop writes, in the order it meets them, with
      their new content. */
  function UpdatedFiles(files: seq<(string, Value)>, cfg: Settings): (w: seq<(string, Value)>)
    ensures |w| <= |files|
  {
    if |files| == 0 then []
    else
      var init := UpdatedFiles(files[..|files| - 1], cfg);
      var f := files[|files| - 1];
      if ShouldProcess(f.0) && AnyAmmo(f.1) && Walk(f.1, cfg).Ok? then init + [(f.0, Walk(f.1, cfg).value)]
      else init
  }

  /** Exactly the eligible files with an ammo entry whose walk raises nothing
      are written, each with its walked tree, in which every ammo node holds
      the configured values. */
  lemma {:induction false} UpdatedFilesMeans(files: seq<(string, Value)>, cfg: Settings)
    ensures forall p :: p in UpdatedFiles(files, cfg) ==> ShouldProcess(p.0) && Done(p.1, cfg)
    ensures forall p :: p in UpdatedFiles(files, cfg) ==>
      exists f :: f in files && f.0 == p.0 && AnyAmmo(f.1) && Walk(f.1, cfg) == Ok(p.1)
    ensures forall f :: f in files && ShouldProcess(f.0) && AnyAmmo(f.1) && Walk(f.1, cfg).Ok? ==>
      (f.0, Walk(f.1, cfg).value) in UpdatedFiles(files, cfg)
  {
    if |files| > 0 {
      var init := files[..|files| - 1];
      var f := files[|files| - 1];
      UpdatedFilesMeans(init, cfg);
      assert forall g :: g in files <==> g in init || g == f;
      if ShouldProcess(f.0) && AnyAmmo(f.1) && Walk(f.1, cfg).Ok? {
        WalkEstablishesDone(f.1, cfg);
        assert UpdatedFiles(files, cfg) == UpdatedFiles(init, cfg) + [(f.0, Walk(f.1, cfg).value)];
      } else {
        assert UpdatedFiles(files, cfg) == UpdatedFiles(init, cfg);
      }
    }
  }

  /** `process_directory_for_ammo_updates` over the files the directory walk
      finds, each given as (file name, loaded tree). A file whose update raises
      is skipped and the loop goes on. */
  method ProcessDirectory(files: seq<(string, Value)>, cfg: Settings) returns (written: seq<(string, Value)>, filesUpdated: nat)
    ensures written == UpdatedFiles(files, cfg)
    ensures filesUpdated == |written|
  {
    written, filesUpdated := [], 0;
    var i := 0;
    while i < |files|
      invariant 0 <= i <= |files|
      invariant written == UpdatedFiles(files[..i], cfg)
      invariant filesUpdated == |written|
    {
      var (name, data) := files[i];
      assert files[..i + 1][..i] == files[..i];
      if name !in IgnoreFiles && EndsWith(name, ".json") {
        var outcome := UpdateAmmoProperties(data, cfg);
        if outcome.Written? {
          written := written + [(name, outcome.content)];
          filesUpdated := filesUpdated + 1;
        }
      }
      i := i + 1;
    }
    assert files[..i] == files;
  }
}
