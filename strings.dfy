/** String helpers shared by the scripts: prefix and substring tests as Python's
    `str.startswith`, `str.endswith` and `in` perform them, and the whitespace
    stripping of `str.strip()` / `str.rstrip()`. */
module Strings {

  /** An optional value. */
  datatype Option<+T> = None | Some(value: T)

  predicate StartsWith(s: string, prefix: string) {
    |prefix| <= |s| && s[..|prefix|] == prefix
  }

  predicate EndsWith(s: string, suffix: string) {
    |suffix| <= |s| && s[|s| - |suffix|..] == suffix
  }

  lemma EndsWithAppend(a: string, b: string, suffix: string)
    requires EndsWith(b, suffix)
    ensures EndsWith(a + b, suffix)
  {
    assert (a + b)[|a + b| - |suffix|..] == b[|b| - |suffix|..];
  }

  /** `sub` occurs in `s` starting at index `i`. */
  predicate OccursAt(s: string, sub: string, i: nat) {
    i + |sub| <= |s| && s[i..i + |sub|] == sub
  }

  /** Python's `sub in s`, scanning from the left. */
  function Contains(s: string, sub: string): bool {
    if |sub| > |s| then false
    else if s[..|sub|] == sub then true
    else Contains(s[1..], sub)
  }

  /** `sub in s` holds exactly when `sub` occurs somewhere in `s`. */
  lemma {:induction false} ContainsIff(s: string, sub: string)
    ensures Contains(s, sub) <==> exists i: nat :: OccursAt(s, sub, i)
  {
    if |sub| > |s| {
      assert forall i: nat :: !OccursAt(s, sub, i);
    } else if s[..|sub|] == sub {
      assert OccursAt(s, sub, 0);
    } else {
      ContainsIff(s[1..], sub);
      assert !OccursAt(s, sub, 0);
      assert forall i: nat :: OccursAt(s[1..], sub, i) <==> OccursAt(s, sub, i + 1) by {
        forall i: nat ensures OccursAt(s[1..], sub, i) <==> OccursAt(s, sub, i + 1) {
          if i + |sub| <= |s[1..]| {
            DropSlice(s, i, |sub|);
          }
        }
      }
      if Contains(s[1..], sub) {
        var i: nat :| OccursAt(s[1..], sub, i);
        assert OccursAt(s, sub, i + 1);
      }
      if exists i: nat :: OccursAt(s, sub, i) {
        var i: nat :| OccursAt(s, sub, i);
        assert i != 0;
        assert OccursAt(s[1..], sub, i - 1);
      }
    }
  }

  /** A slice of `s[1..]` is the slice of `s` one position further on. */
  lemma DropSlice(s: string, i: nat, m: nat)
    requires 0 < |s| && i + m <= |s| - 1
    ensures s[1..][i..i + m] == s[i + 1..i + 1 + m]
  {
  }

  /** The characters for which Python's `str.isspace()` holds. */
  predicate IsSpace(c: char) {
    c == ' ' || '\t' <= c <= '\r' || '\U{1C}' <= c <= '\U{1F}' || c == '\U{85}' || c == '\U{A0}' ||
    c == '\U{1680}' || '\U{2000}' <= c <= '\U{200A}' || c == '\U{2028}' || c == '\U{2029}' ||
    c == '\U{202F}' || c == '\U{205F}' || c == '\U{3000}'
  }

  /** The one character `rstrip('\n')` removes. */
  predicate IsNewline(c: char) { c == '\n' }

  /** Python's `s.rstrip(chars)`: the longest prefix of `s` that does not end in
      a character `drop` holds for. */
  function RStrip(s: string, drop: char -> bool): (r: string)
    ensures r <= s
    ensures |r| > 0 ==> !drop(r[|r| - 1])
    ensures forall k :: |r| <= k < |s| ==> drop(s[k])
  {
    if |s| > 0 && drop(s[|s| - 1]) then RStrip(s[..|s| - 1], drop) else s
  }

  /** Python's `s.strip()`: `s` without leading and trailing whitespace. */
  function Strip(s: string): (r: string)
    ensures |r| <= |s|
    ensures |r| > 0 ==> !IsSpace(r[0]) && !IsSpace(r[|r| - 1])
    ensures r == [] <==> forall k :: 0 <= k < |s| ==> IsSpace(s[k])
  {
    if |s| > 0 && IsSpace(s[0]) then Strip(s[1..]) else RStrip(s, IsSpace)
  }

  /** What `strip()` cuts: the result is a slice of `s` with only whitespace
      before it and only whitespace after it. */
  lemma StripMeans(s: string)
    ensures exists a, b ::
              0 <= a <= b <= |s| && Strip(s) == s[a..b] &&
              (forall k :: 0 <= k < a ==> IsSpace(s[k])) &&
              (forall k :: b <= k < |s| ==> IsSpace(s[k]))
  {
    var a, b := StripCut(s);
  }

  /** The two cut points of `strip()`. */
  lemma {:induction false} StripCut(s: string) returns (a: nat, b: nat)
    ensures a <= b <= |s| && Strip(s) == s[a..b]
    ensures forall k :: 0 <= k < a ==> IsSpace(s[k])
    ensures forall k :: b <= k < |s| ==> IsSpace(s[k])
  {
    if |s| > 0 && IsSpace(s[0]) {
      var t := s[1..];
      var a', b' := StripCut(t);
      a, b := a' + 1, b' + 1;
      DropSlice(s, a', b' - a');
      assert forall k :: 0 < k < |s| ==> s[k] == t[k - 1];
    } else {
      var r := RStrip(s, IsSpace);
      a, b := 0, |r|;
      assert r == s[a..b];
    }
  }

  /** Decimal digits of `n`, as Python's `str(n)` writes a non-negative int. */
  function NatToString(n: nat): (r: string)
    ensures |r| > 0
    ensures forall k :: 0 <= k < |r| ==> '0' <= r[k] <= '9'
  {
    var d := ['0' + (n % 10) as char];
    if n < 10 then d else NatToString(n / 10) + d
  }

  /** Position of the first occurrence of `sub` in `s` at or after `from`, as
      `str.find` or a regex search for a fixed text returns it. */
  function Find(s: string, sub: string, from: nat): (r: int)
    ensures r == -1 || from <= r
    ensures r >= 0 ==> OccursAt(s, sub, r)
    ensures forall k: nat :: from <= k && (r == -1 || k < r) ==> !OccursAt(s, sub, k)
    decreases |s| - from
  {
    if from + |sub| > |s| then -1
    else if OccursAt(s, sub, from) then from
    else Find(s, sub, from + 1)
  }

  /** The text before the first occurrence of `sep`: `s.split(sep)[0]`. */
  function Before(s: string, sep: string): (r: string)
    requires |sep| > 0
    ensures r <= s
    ensures forall k: nat :: k < |r| ==> !OccursAt(s, sep, k)
    ensures r == s || OccursAt(s, sep, |r|)
  {
    var i := Find(s, sep, 0);
    if i == -1 then s else s[..i]
  }
}
