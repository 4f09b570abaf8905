/** The JSON documents the scripts load with `json.load`: one tagged value type.
    An object keeps its members in insertion order, as a Python dict does; a
    number is kept as its literal text, because the scripts only copy numbers and
    never compute with them. */
module Json {
  import opened Strings

  datatype Value =
    | Object(members: seq<(string, Value)>)
    | Array(items: seq<Value>)
    | Str(s: string)
    | Num(text: string)
    | Bool(b: bool)
    | Null

  type Members = seq<(string, Value)>

  /** The exceptions the scripts can raise while they edit a tree. */
  datatype Error =
    | MissingKey(key: string)       // KeyError on `d[key]`
    | NotAnObject(key: string)      // item assignment into a non-dict
    | NotAList(key: string)         // `.append` / `.extend` on a non-list
    | NotAString(key: string)       // `.startswith` on a non-str
    | NotHashable(key: string)      // a dict or list put into a set
    | BadFloat(text: string)        // ValueError from `float(text)`

  datatype Result<+T> = Ok(value: T) | Err(error: Error) {
    predicate IsFailure() { Err? }
    function PropagateFailure<U>(): Result<U> requires Err? { Err(error) }
    function Extract(): T requires Ok? { value }
  }

  /** A non-empty list is its front and its last item. */
  lemma InitLast<T>(s: seq<T>)
    requires |s| > 0
    ensures s[..|s| - 1] + [s[|s| - 1]] == s
  {
  }

  /** Position of the first member with key `k`, or `|ms|` when there is none. */
  function KeyIndex(ms: Members, k: string): (i: nat)
    ensures i <= |ms|
    ensures i < |ms| ==> ms[i].0 == k
    ensures forall j :: 0 <= j < i ==> ms[j].0 != k
  {
    if |ms| == 0 then 0 else if ms[0].0 == k then 0 else 1 + KeyIndex(ms[1..], k)
  }

  /** `d.get(k)`, with `None` for a missing key. */
  function Get(ms: Members, k: string): Option<Value> {
    var i := KeyIndex(ms, k);
    if i < |ms| then Some(ms[i].1) else None
  }

  /** Two member lists with the same keys in the same positions find every key
      at the same position. */
  lemma SameKeysSameIndex(ms: Members, ns: Members, k: string)
    requires |ms| == |ns|
    requires forall j :: 0 <= j < |ms| ==> ms[j].0 == ns[j].0
    ensures KeyIndex(ms, k) == KeyIndex(ns, k)
  {
  }

  /** `d[k] = v`: an existing key keeps its position, a new key goes last. */
  function Put(ms: Members, k: string, v: Value): (r: Members)
    ensures Get(r, k) == Some(v)
    ensures forall k' :: k' != k ==> Get(r, k') == Get(ms, k')
    ensures Get(ms, k).Some? ==> KeyIndex(ms, k) < |ms| && r == ms[KeyIndex(ms, k) := (k, v)]
    ensures Get(ms, k).None? ==> r == ms + [(k, v)]
  {
    var i := KeyIndex(ms, k);
    if i < |ms| then
      var r := ms[i := (k, v)];
      assert forall k' :: KeyIndex(r, k') == KeyIndex(ms, k') by {
        forall k' ensures KeyIndex(r, k') == KeyIndex(ms, k') { SameKeysSameIndex(r, ms, k'); }
      }
      r
    else
      var r := ms + [(k, v)];
      assert forall j :: 0 <= j < |ms| ==> r[j] == ms[j];
      assert r[|ms|].0 == k;
      assert KeyIndex(r, k) == |ms|;
      assert forall k' :: k' != k ==> KeyIndex(r, k') == KeyIndex(ms, k') || KeyIndex(r, k') == |r|;
      r
  }

  /** Writing back the value a key already holds changes nothing. */
  lemma PutExisting(ms: Members, k: string)
    requires Get(ms, k).Some?
    ensures Put(ms, k, Get(ms, k).value) == ms
  {
  }

  /** Writing a key twice keeps only the second value. */
  lemma PutPut(ms: Members, k: string, v: Value, w: Value)
    ensures Put(Put(ms, k, v), k, w) == Put(ms, k, w)
  {
    var i := KeyIndex(ms, k);
    var r := Put(ms, k, v);
    if i < |ms| {
      assert r == ms[i := (k, v)];
      SameKeysSameIndex(r, ms, k);
      assert Put(r, k, w) == r[i := (k, w)];
      assert r[i := (k, w)] == ms[i := (k, w)];
    } else {
      assert r == ms + [(k, v)];
      assert forall j :: 0 <= j < |ms| ==> r[j] == ms[j];
      assert r[|ms|].0 == k;
      assert KeyIndex(r, k) == |ms|;
      assert r[|ms| := (k, w)] == ms + [(k, w)];
    }
  }

  /** `v.get(k)` on a node: a non-object has no fields. */
  function Field(v: Value, k: string): Option<Value> {
    if v.Object? then Get(v.members, k) else None
  }

  /** `v.get(k, [])` read as a list; a value of another type reads as empty. */
  function ListField(v: Value, k: string): seq<Value> {
    match Field(v, k)
    case Some(Array(xs)) => xs
    case _ => []
  }

  /** `v.get(k) == s` for a string `s`. */
  predicate FieldIs(v: Value, k: string, s: string) {
    Field(v, k) == Some(Str(s))
  }

  /** `v[k] = x` on an object. */
  function SetField(v: Value, k: string, x: Value): (r: Value)
    requires v.Object?
    ensures r.Object? && Field(r, k) == Some(x)
    ensures forall k' :: k' != k ==> Field(r, k') == Field(v, k')
  {
    Object(Put(v.members, k, x))
  }

  /** The list held at `k` replaced by `xs`, when `k` holds a list; any other
      value is left as it is. This is how an in-place edit of an existing list
      (a `pop`, a reassignment of the same key) shows in the tree. */
  function WithList(v: Value, k: string, xs: seq<Value>): (r: Value)
    ensures ListField(r, k) == if Field(v, k).Some? && Field(v, k).value.Array? then xs else ListField(v, k)
    ensures forall k' :: k' != k ==> Field(r, k') == Field(v, k')
    ensures r.Object? <==> v.Object?
  {
    match Field(v, k)
    case Some(Array(_)) => SetField(v, k, Array(xs))
    case _ => v
  }

  /** A list written back unchanged leaves the node unchanged. */
  lemma WithListSame(v: Value, k: string)
    ensures WithList(v, k, ListField(v, k)) == v
  {
    if Field(v, k).Some? && Field(v, k).value.Array? {
      PutExisting(v.members, k);
    }
  }

  /** `v.setdefault(k, []).extend(extra)` (equivalently `if k not in v:
      v[k] = []` followed by appends): fails when `k` holds something other than
      a list. */
  function ExtendList(v: Value, k: string, extra: seq<Value>): (r: Result<Value>)
    requires v.Object?
    ensures r.Ok? <==> Field(v, k).None? || Field(v, k).value.Array?
    ensures r.Ok? ==> r.value.Object?
    ensures r.Ok? ==> Field(r.value, k) == Some(Array(ListField(v, k) + extra))
    ensures r.Ok? ==> forall k' :: k' != k ==> Field(r.value, k') == Field(v, k')
  {
    match Field(v, k)
    case None => assert ListField(v, k) + extra == extra; Ok(SetField(v, k, Array(extra)))
    case Some(Array(xs)) => Ok(SetField(v, k, Array(xs + extra)))
    case Some(_) => Err(NotAList(k))
  }

  /** Python truthiness of a value: empty containers and strings, `false`,
      `null` and a number equal to zero are false; `NaN` and the infinities,
      which `json.load` also reads as numbers, are true. */
  predicate Truthy(v: Value) {
    match v
    case Object(ms) => |ms| > 0
    case Array(xs) => |xs| > 0
    case Str(s) => |s| > 0
    case Num(t) => !ZeroNumber(t)
    case Bool(b) => b
    case Null => false
  }

  /** A number literal whose value is zero: it has a digit (`NaN`, `Infinity`
      and `-Infinity` have none) and no digit other than `0` before the
      exponent. */
  predicate ZeroNumber(t: string) {
    (exists k :: 0 <= k < |t| && IsDigit(t[k])) && ZeroNumeral(t)
  }

  predicate IsDigit(c: char) { '0' <= c <= '9' }

  /** A number is falsy exactly when its literal has a digit and every
      non-zero digit in it comes after an exponent marker; `NaN`, `Infinity`
      and `-Infinity`, with no digit at all, are true. */
  lemma NumberFalsyMeans(t: string)
    ensures !Truthy(Num(t)) <==>
              (exists k :: 0 <= k < |t| && IsDigit(t[k])) &&
              forall k :: 0 <= k < |t| && '1' <= t[k] <= '9' ==> exists j :: 0 <= j < k && IsExponent(t[j])
  {
    ZeroNumeralMeans(t);
  }

  /** A literal with no digit other than `0` before its exponent: `0`, `-0`,
      `0.00`, `0e7`, but also the digitless `NaN`. */
  predicate ZeroNumeral(t: string) {
    |t| == 0 || IsExponent(t[0]) || (!('1' <= t[0] <= '9') && ZeroNumeral(t[1..]))
  }

  /** A literal is zero exactly when every non-zero digit in it comes after an
      exponent marker. */
  lemma {:induction false} ZeroNumeralMeans(t: string)
    ensures ZeroNumeral(t) <==>
              forall k :: 0 <= k < |t| && '1' <= t[k] <= '9' ==> exists j :: 0 <= j < k && IsExponent(t[j])
  {
    if |t| > 0 && !IsExponent(t[0]) && !('1' <= t[0] <= '9') {
      var u := t[1..];
      ZeroNumeralMeans(u);
      if ZeroNumeral(t) {
        forall k | 0 <= k < |t| && '1' <= t[k] <= '9'
          ensures exists j :: 0 <= j < k && IsExponent(t[j])
        {
          assert u[k - 1] == t[k];
          var j :| 0 <= j < k - 1 && IsExponent(u[j]);
          assert t[j + 1] == u[j];
        }
      } else {
        var k :| 0 <= k < |u| && '1' <= u[k] <= '9' && forall j :: 0 <= j < k ==> !IsExponent(u[j]);
        assert t[k + 1] == u[k];
        forall j | 0 <= j < k + 1
          ensures !IsExponent(t[j])
        {
          if j > 0 { assert t[j] == u[j - 1]; }
        }
      }
    }
  }

  predicate IsExponent(c: char) { c == 'e' || c == 'E' }

  /** `str(v)` of a scalar, as an f-string prints it. A container shows as the
      empty string here (Python would print its repr). */
  function Shown(v: Value): string {
    match v
    case Str(s) => s
    case Num(t) => t
    case Bool(b) => if b then "True" else "False"
    case Null => "None"
    case _ => ""
  }

  function Max(a: nat, b: nat): nat {
    if a < b then b else a
  }

  /** Nesting depth of containers; scalars have depth 0. */
  function Depth(v: Value): nat
    decreases v
  {
    match v
    case Object(ms) => 1 + MembersDepth(ms)
    case Array(xs) => 1 + ItemsDepth(xs)
    case _ => 0
  }

  /** The greatest depth of the values of a member list. */
  function MembersDepth(ms: Members): nat
    decreases ms
  {
    if |ms| == 0 then 0 else Max(MembersDepth(ms[..|ms| - 1]), MemberDepth(ms[|ms| - 1]))
  }

  function MemberDepth(m: (string, Value)): nat
    decreases m
  {
    Depth(m.1)
  }

  /** The greatest depth of the elements of a list. */
  function ItemsDepth(xs: seq<Value>): nat
    decreases xs
  {
    if |xs| == 0 then 0 else Max(ItemsDepth(xs[..|xs| - 1]), Depth(xs[|xs| - 1]))
  }

  lemma {:induction false} MemberDepthBelow(ms: Members, i: nat)
    requires i < |ms|
    ensures Depth(ms[i].1) <= MembersDepth(ms)
    decreases |ms|
  {
    if i < |ms| - 1 {
      MemberDepthBelow(ms[..|ms| - 1], i);
    }
  }

  lemma {:induction false} ItemDepthBelow(xs: seq<Value>, i: nat)
    requires i < |xs|
    ensures Depth(xs[i]) <= ItemsDepth(xs)
    decreases |xs|
  {
    if i < |xs| - 1 {
      ItemDepthBelow(xs[..|xs| - 1], i);
    }
  }

  lemma {:induction false} MembersDepthPrefix(ms: Members, n: nat)
    requires n <= |ms|
    ensures MembersDepth(ms[..n]) <= MembersDepth(ms)
    decreases |ms|
  {
    if n < |ms| {
      MembersDepthPrefix(ms[..|ms| - 1], n);
      assert ms[..|ms| - 1][..n] == ms[..n];
    } else {
      assert ms[..n] == ms;
    }
  }

  lemma {:induction false} ItemsDepthPrefix(xs: seq<Value>, n: nat)
    requires n <= |xs|
    ensures ItemsDepth(xs[..n]) <= ItemsDepth(xs)
    decreases |xs|
  {
    if n < |xs| {
      ItemsDepthPrefix(xs[..|xs| - 1], n);
      assert xs[..|xs| - 1][..n] == xs[..n];
    } else {
      assert xs[..n] == xs;
    }
  }

  /** A member list whose every value is at most `d` deep has members depth at
      most `d`. */
  lemma {:induction false} MembersDepthAtMost(ms: Members, d: nat)
    requires forall i :: 0 <= i < |ms| ==> Depth(ms[i].1) <= d
    ensures MembersDepth(ms) <= d
    decreases |ms|
  {
    if |ms| > 0 {
      var init := ms[..|ms| - 1];
      forall i | 0 <= i < |init| ensures Depth(init[i].1) <= d {
        assert init[i] == ms[i];
      }
      MembersDepthAtMost(init, d);
    }
  }

  /** Writing a value no deeper than the members already are does not deepen
      an object. */
  lemma PutDepth(ms: Members, k: string, v: Value)
    requires Depth(v) <= MembersDepth(ms)
    ensures MembersDepth(Put(ms, k, v)) <= MembersDepth(ms)
  {
    var r := Put(ms, k, v);
    forall i | 0 <= i < |r| ensures Depth(r[i].1) <= MembersDepth(ms) {
      if i < |ms| && r[i] == ms[i] { MemberDepthBelow(ms, i); }
    }
    MembersDepthAtMost(r, MembersDepth(ms));
  }
}
