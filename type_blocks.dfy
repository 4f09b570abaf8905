/** The `<type name="…">…</type>` blocks of the SNAFU economy files, found by
    a direct scanner in place of the regular expressions
    `<type name="([^"]+)">(.*?)</type>` (with DOTALL) and its tab-anchored
    variant, and the keep list both filter scripts read. `lead` is the text
    in front of both tags: "" for the types file, a tab for the spawnable
    types file. */
module TypeBlocks {
  import opened Strings

  function OpenTag(lead: string): string { lead + "<type name=\"" }
  function CloseTag(lead: string): string { lead + "</type>" }

  /** The end of the run of non-quote characters from `q`: the greedy
      `[^"]+`, which can stop only at a quote or at the end. */
  function NameEnd(s: string, q: nat): (n: nat)
    requires q <= |s|
    ensures q <= n <= |s|
    ensures forall k :: q <= k < n ==> s[k] != '"'
    ensures n < |s| ==> s[n] == '"'
    decreases |s| - q
  {
    if q == |s| || s[q] == '"' then q else NameEnd(s, q + 1)
  }

  /** The block as the scripts rebuild it from its two groups. */
  function Entry(lead: string, name: string, body: string): string {
    OpenTag(lead) + name + "\">" + body + CloseTag(lead)
  }

  /** One match: the two groups and where the whole match lies. */
  datatype Block = Block(name: string, body: string, start: nat, end: nat)

  /** Where the name of an opening tag at `p` ends, when an opening tag with a
      non-empty name starts there. */
  function OpenAt(s: string, p: nat, lead: string): (r: int)
    ensures r == -1 || (p + |OpenTag(lead)| < r && r + 2 <= |s|)
    ensures r != -1 ==> OccursAt(s, OpenTag(lead), p) && r == NameEnd(s, p + |OpenTag(lead)|) && OccursAt(s, "\">", r)
  {
    var open := OpenTag(lead);
    if !OccursAt(s, open, p) then -1
    else
      var q := p + |open|;
      var n := NameEnd(s, q);
      if n > q && OccursAt(s, "\">", n) then n else -1
  }

  /** The match starting at `p`, if any: the opening tag, then the body up to
      the first closing tag after it. */
  function BlockAt(s: string, p: nat, lead: string): (r: Option<Block>)
    ensures r.Some? ==> r.value.start == p && p < r.value.end <= |s|
  {
    var n := OpenAt(s, p, lead);
    if n == -1 then None
    else
      var e := Find(s, CloseTag(lead), n + 2);
      if e == -1 then None
      else Some(Block(s[p + |OpenTag(lead)|..n], s[n + 2..e], p, e + |CloseTag(lead)|))
  }

  /** `re.findall` from position `p`: a match is taken where one starts and
      the scan resumes after it; elsewhere the scan moves on by one. */
  function Blocks(s: string, p: nat, lead: string): (r: seq<Block>)
    ensures forall i :: 0 <= i < |r| ==> p <= r[i].start < r[i].end <= |s|
    decreases |s| - p
  {
    if p >= |s| then []
    else match BlockAt(s, p, lead)
      case Some(b) => [b] + Blocks(s, b.end, lead)
      case None => Blocks(s, p + 1, lead)
  }

  /** A slice of `s` split at three points. */
  lemma SliceSplit(s: string, a: nat, b: nat, c: nat)
    requires a <= b <= c <= |s|
    ensures s[a..c] == s[a..b] + s[b..c]
  {
  }

  /** What one match is, position by position: the opening tag, the name,
      `">`, the body and the closing tag follow one another in `s`; the name
      is a non-empty run without quotes, and the body holds no closing tag. */
  predicate WellMatched(s: string, lead: string, b: Block) {
    var q := b.start + |OpenTag(lead)|;
    var n := q + |b.name|;
    var e := n + 2 + |b.body|;
    b.end == e + |CloseTag(lead)| && b.end <= |s| &&
    OccursAt(s, OpenTag(lead), b.start) && s[q..n] == b.name &&
    OccursAt(s, "\">", n) && s[n + 2..e] == b.body && OccursAt(s, CloseTag(lead), e) &&
    |b.name| > 0 && (forall k :: 0 <= k < |b.name| ==> b.name[k] != '"') &&
    !Contains(b.body, CloseTag(lead))
  }

  /** What the scanner finds at a position is a well-formed match. */
  lemma BlockAtMeans(s: string, p: nat, lead: string)
    requires BlockAt(s, p, lead).Some?
    ensures WellMatched(s, lead, BlockAt(s, p, lead).value)
  {
    BlockAtShape(s, p, lead);
    BlockAtParts(s, p, lead);
  }

  /** Where the parts of the match found at `p` lie. */
  lemma BlockAtShape(s: string, p: nat, lead: string)
    requires BlockAt(s, p, lead).Some?
    ensures var b := BlockAt(s, p, lead).value;
      var q := p + |OpenTag(lead)|;
      var n := q + |b.name|;
      var e := n + 2 + |b.body|;
      b.start == p && b.end == e + |CloseTag(lead)| && b.end <= |s| &&
      OccursAt(s, OpenTag(lead), p) && s[q..n] == b.name && OccursAt(s, "\">", n) &&
      s[n + 2..e] == b.body && OccursAt(s, CloseTag(lead), e)
  {
    var n := OpenAt(s, p, lead);
    var e := Find(s, CloseTag(lead), n + 2);
    BlockAtFrom(s, p, lead, n, e);
  }

  /** The name of the match found at `p` is a non-empty run without quotes,
      and its body holds no closing tag. */
  lemma BlockAtParts(s: string, p: nat, lead: string)
    requires BlockAt(s, p, lead).Some?
    ensures var b := BlockAt(s, p, lead).value;
      |b.name| > 0 && (forall k :: 0 <= k < |b.name| ==> b.name[k] != '"') &&
      !Contains(b.body, CloseTag(lead))
  {
    BlockAtName(s, p, lead);
    BlockAtBody(s, p, lead);
  }

  lemma BlockAtName(s: string, p: nat, lead: string)
    requires BlockAt(s, p, lead).Some?
    ensures var b := BlockAt(s, p, lead).value;
      |b.name| > 0 && forall k :: 0 <= k < |b.name| ==> b.name[k] != '"'
  {
    var q := p + |OpenTag(lead)|;
    var n := OpenAt(s, p, lead);
    assert BlockAt(s, p, lead).value.name == s[q..n];
    NameRun(s, q, n);
  }

  lemma BlockAtBody(s: string, p: nat, lead: string)
    requires BlockAt(s, p, lead).Some?
    ensures !Contains(BlockAt(s, p, lead).value.body, CloseTag(lead))
  {
    var n := OpenAt(s, p, lead);
    var e := Find(s, CloseTag(lead), n + 2);
    assert BlockAt(s, p, lead).value.body == s[n + 2..e];
    NoCloseBefore(s, CloseTag(lead), n + 2, e);
  }

  /** The matched text is the entry the scripts rebuild from the two groups. */
  lemma MatchedText(s: string, lead: string, b: Block)
    requires WellMatched(s, lead, b)
    ensures s[b.start..b.end] == Entry(lead, b.name, b.body)
  {
    var q := b.start + |OpenTag(lead)|;
    var n := q + |b.name|;
    var e := n + 2 + |b.body|;
    assert OccursAt(s, OpenTag(lead), b.start) && OccursAt(s, "\">", n) && OccursAt(s, CloseTag(lead), e);
    assert s[q..n] == b.name && s[n + 2..e] == b.body;
    EntryText(s, lead, b.start, n, e);
  }

  /** The name the scanner takes holds no quote. */
  lemma NameRun(s: string, q: nat, n: nat)
    requires q <= n <= |s| && forall k :: q <= k < n ==> s[k] != '"'
    ensures forall k :: 0 <= k < |s[q..n]| ==> s[q..n][k] != '"'
  {
    forall k | 0 <= k < |s[q..n]|
      ensures s[q..n][k] != '"'
    {
      assert s[q..n][k] == s[q + k];
    }
  }

  /** The text from an opening tag to the end of a closing tag is the entry
      rebuilt from the name and the body between them. */
  lemma EntryText(s: string, lead: string, p: nat, n: nat, e: nat)
    requires OccursAt(s, OpenTag(lead), p) && p + |OpenTag(lead)| <= n
    requires OccursAt(s, "\">", n) && n + 2 <= e && OccursAt(s, CloseTag(lead), e)
    ensures s[p..e + |CloseTag(lead)|] == Entry(lead, s[p + |OpenTag(lead)|..n], s[n + 2..e])
  {
    var open, close := OpenTag(lead), CloseTag(lead);
    var q := p + |open|;
    SliceSplit(s, p, q, n);
    SliceSplit(s, p, n, n + 2);
    SliceSplit(s, p, n + 2, e);
    SliceSplit(s, p, e, e + |close|);
  }

  /** A body that ends at the first closing tag holds none. */
  lemma NoCloseBefore(s: string, close: string, from: nat, e: nat)
    requires from <= e <= |s| && |close| > 0
    requires forall k: nat :: from <= k < e ==> !OccursAt(s, close, k)
    ensures !Contains(s[from..e], close)
  {
    ContainsIff(s[from..e], close);
    forall k: nat | OccursAt(s[from..e], close, k)
      ensures false
    {
      OccursInSlice(s, close, from, e, k);
    }
  }

  /** An occurrence inside a slice is one in the whole text. */
  lemma OccursInSlice(s: string, sub: string, from: nat, e: nat, k: nat)
    requires from <= e <= |s| && OccursAt(s[from..e], sub, k)
    ensures OccursAt(s, sub, from + k) && from + k + |sub| <= e
  {
    var t := s[from..e];
    assert k + |sub| <= |t|;
    var u, v := t[k..k + |sub|], s[from + k..from + k + |sub|];
    forall j | 0 <= j < |sub|
      ensures u[j] == v[j]
    {
      assert u[j] == t[k + j] == s[from + k + j];
    }
    assert u == v;
  }

  /** The run of non-quote characters from `q` ends at the first quote. */
  lemma {:induction false} NameEndAt(s: string, q: nat, m: nat)
    requires q <= m < |s| && s[m] == '"'
    requires forall k :: q <= k < m ==> s[k] != '"'
    ensures NameEnd(s, q) == m
    decreases m - q
  {
    if q < m {
      NameEndAt(s, q + 1, m);
    }
  }

  /** A well-formed match starts with an opening tag the scanner recognises,
      whose name ends where the match's name ends. */
  lemma OpenAtMatched(s: string, lead: string, b: Block)
    requires WellMatched(s, lead, b)
    ensures OpenAt(s, b.start, lead) == b.start + |OpenTag(lead)| + |b.name|
  {
    var q := b.start + |OpenTag(lead)|;
    var n := q + |b.name|;
    forall k | q <= k < n
      ensures s[k] != '"'
    {
      assert s[k] == s[q..n][k - q] == b.name[k - q];
    }
    OpenAtFrom(s, lead, b.start, n);
  }

  /** An opening tag at `p` followed by a non-empty run of non-quote
      characters and `">` is recognised, with the name ending at `n`. */
  lemma OpenAtFrom(s: string, lead: string, p: nat, n: nat)
    requires OccursAt(s, OpenTag(lead), p) && p + |OpenTag(lead)| < n
    requires OccursAt(s, "\">", n)
    requires forall k :: p + |OpenTag(lead)| <= k < n ==> s[k] != '"'
    ensures OpenAt(s, p, lead) == n
  {
    assert s[n..n + 2][0] == s[n];
    NameEndAt(s, p + |OpenTag(lead)|, n);
  }

  /** Every match is well formed. */
  lemma BlocksMeans(s: string, p: nat, lead: string)
    ensures forall i :: 0 <= i < |Blocks(s, p, lead)| ==> WellMatched(s, lead, Blocks(s, p, lead)[i])
  {
    forall i | 0 <= i < |Blocks(s, p, lead)|
      ensures WellMatched(s, lead, Blocks(s, p, lead)[i])
    {
      var b := Blocks(s, p, lead)[i];
      BlockFound(s, p, lead, i);
      BlockAtMeans(s, b.start, lead);
    }
  }

  /** The `i`-th match from `p` on is the match found at its own start. */
  lemma {:induction false} BlockFound(s: string, p: nat, lead: string, i: nat)
    requires i < |Blocks(s, p, lead)|
    ensures BlockAt(s, Blocks(s, p, lead)[i].start, lead) == Some(Blocks(s, p, lead)[i])
    decreases |s| - p
  {
    var all := Blocks(s, p, lead);
    match BlockAt(s, p, lead)
    case Some(b) =>
      var rest := Blocks(s, b.end, lead);
      assert all == [b] + rest;
      if i > 0 {
        BlockFound(s, b.end, lead, i - 1);
        assert all[i] == rest[i - 1];
      }
    case None =>
      assert all == Blocks(s, p + 1, lead);
      BlockFound(s, p + 1, lead, i);
  }

  /** The matches come in text order and do not overlap. */
  lemma {:induction false} BlocksOrdered(s: string, p: nat, lead: string)
    ensures forall i, j :: 0 <= i < j < |Blocks(s, p, lead)| ==>
      Blocks(s, p, lead)[i].end <= Blocks(s, p, lead)[j].start
    decreases |s| - p, 1
  {
    if p < |s| {
      if BlockAt(s, p, lead).Some? {
        OrderedTaken(s, p, lead);
      } else {
        assert Blocks(s, p, lead) == Blocks(s, p + 1, lead);
        BlocksOrdered(s, p + 1, lead);
      }
    }
  }

  /** The case of `BlocksOrdered` where the scan takes a match at `p`. */
  lemma {:induction false} OrderedTaken(s: string, p: nat, lead: string)
    requires p < |s| && BlockAt(s, p, lead).Some?
    ensures forall i, j :: 0 <= i < j < |Blocks(s, p, lead)| ==>
      Blocks(s, p, lead)[i].end <= Blocks(s, p, lead)[j].start
    decreases |s| - p, 0
  {
    var b := BlockAt(s, p, lead).value;
    var r, rest := Blocks(s, p, lead), Blocks(s, b.end, lead);
    assert r == [b] + rest;
    BlocksOrdered(s, b.end, lead);
    forall i, j | 0 <= i < j < |r|
      ensures r[i].end <= r[j].start
    {
      assert r[j] == rest[j - 1];
      if i > 0 {
        assert r[i] == rest[i - 1];
      }
    }
  }

  /** The scanner finds every well-formed match at its start: for the two
      leads the scripts use, the closing tag cannot overlap itself, so the
      first closing tag after `">` is the one that ends the match. */
  lemma BlockAtComplete(s: string, lead: string, b: Block)
    requires lead == "" || lead == "\t"
    requires WellMatched(s, lead, b)
    ensures BlockAt(s, b.start, lead) == Some(b)
  {
    var q := b.start + |OpenTag(lead)|;
    var n := q + |b.name|;
    var e := n + 2 + |b.body|;
    assert s[q..n] == b.name && s[n + 2..e] == b.body && b.end == e + |CloseTag(lead)|;
    OpenAtMatched(s, lead, b);
    CloseFound(s, lead, b);
    BlockAtFrom(s, b.start, lead, n, e);
  }

  /** The first closing tag after the name of a match is the one that ends it. */
  lemma CloseFound(s: string, lead: string, b: Block)
    requires lead == "" || lead == "\t"
    requires WellMatched(s, lead, b)
    ensures var n := b.start + |OpenTag(lead)| + |b.name|;
      Find(s, CloseTag(lead), n + 2) == n + 2 + |b.body|
  {
    var n := b.start + |OpenTag(lead)| + |b.name|;
    BodyHasNoClose(s, lead, b);
    FindAt(s, CloseTag(lead), n + 2, n + 2 + |b.body|);
  }

  /** The match at `p` once its name end and closing tag are known. */
  lemma BlockAtFrom(s: string, p: nat, lead: string, n: int, e: int)
    requires OpenAt(s, p, lead) == n != -1 && Find(s, CloseTag(lead), n + 2) == e != -1
    ensures BlockAt(s, p, lead) == Some(Block(s[p + |OpenTag(lead)|..n], s[n + 2..e], p, e + |CloseTag(lead)|))
  {
  }

  /** No closing tag starts inside the body of a match. */
  lemma BodyHasNoClose(s: string, lead: string, b: Block)
    requires lead == "" || lead == "\t"
    requires WellMatched(s, lead, b)
    ensures var n := b.start + |OpenTag(lead)| + |b.name|;
      forall k: nat :: n + 2 <= k < n + 2 + |b.body| ==> !OccursAt(s, CloseTag(lead), k)
  {
    var n := b.start + |OpenTag(lead)| + |b.name|;
    var e := n + 2 + |b.body|;
    assert s[n + 2..e] == b.body && OccursAt(s, CloseTag(lead), e);
    CloseTagAlone(lead);
    NoOccurrenceBefore(s, CloseTag(lead), n + 2, e);
  }

  /** A text whose first character occurs in it only once, and which does
      not occur in `s[from..e]` but does at `e`, starts nowhere in between. */
  lemma NoOccurrenceBefore(s: string, sub: string, from: nat, e: nat)
    requires from <= e && OccursAt(s, sub, e) && !Contains(s[from..e], sub)
    requires forall d :: 0 < d < |sub| ==> sub[d] != sub[0]
    ensures forall k: nat :: from <= k < e ==> !OccursAt(s, sub, k)
  {
    ContainsIff(s[from..e], sub);
    forall k: nat | from <= k < e
      ensures !OccursAt(s, sub, k)
    {
      if k + |sub| <= e {
        OccursInSliceIf(s, sub, from, e, k);
      } else {
        OccursChar(s, sub, e, e);
        OccursChar(s, sub, k, e);
      }
    }
  }

  /** `Find` returns an occurrence with none before it. */
  lemma FindAt(s: string, sub: string, from: nat, e: nat)
    requires from <= e && OccursAt(s, sub, e)
    requires forall k: nat :: from <= k < e ==> !OccursAt(s, sub, k)
    ensures Find(s, sub, from) == e
  {
  }

  /** An occurrence that lies inside a slice is one in the slice. */
  lemma OccursInSliceIf(s: string, sub: string, from: nat, e: nat, k: nat)
    requires from <= k && k + |sub| <= e <= |s|
    ensures OccursAt(s, sub, k) ==> OccursAt(s[from..e], sub, k - from)
  {
    var t := s[from..e];
    var u, v := t[k - from..k - from + |sub|], s[k..k + |sub|];
    forall j | 0 <= j < |sub|
      ensures u[j] == v[j]
    {
      assert u[j] == t[k - from + j] == s[k + j];
    }
    assert u == v;
  }

  /** The character an occurrence puts at position `j`. */
  lemma OccursChar(s: string, sub: string, k: nat, j: nat)
    requires k <= j < k + |sub|
    ensures OccursAt(s, sub, k) ==> j < |s| && s[j] == sub[j - k]
  {
    if OccursAt(s, sub, k) {
      assert s[k..k + |sub|][j - k] == s[j];
    }
  }

  /** The first character of either closing tag occurs in it only once, so
      two closing tags never overlap. */
  lemma CloseTagAlone(lead: string)
    requires lead == "" || lead == "\t"
    ensures forall d :: 0 < d < |CloseTag(lead)| ==> CloseTag(lead)[d] != CloseTag(lead)[0]
  {
  }

  /** Some block of `bs` spans position `k`. */
  predicate Covered(bs: seq<Block>, k: nat) {
    exists i :: 0 <= i < |bs| && bs[i].start <= k < bs[i].end
  }

  /** The scan passes over no match: a match at any position from `p` on lies
      within one of the blocks returned, the way `re.findall` skips only the
      positions inside a match it has taken. */
  lemma {:induction false} BlocksCover(s: string, p: nat, lead: string, k: nat)
    requires p <= k < |s| && BlockAt(s, k, lead).Some?
    ensures Covered(Blocks(s, p, lead), k)
    decreases |s| - p, 1
  {
    if BlockAt(s, p, lead).Some? {
      CoverTaken(s, p, lead, k);
    } else {
      assert Blocks(s, p, lead) == Blocks(s, p + 1, lead);
      BlocksCover(s, p + 1, lead, k);
    }
  }

  /** The case of `BlocksCover` where the scan takes a match at `p`. */
  lemma {:induction false} CoverTaken(s: string, p: nat, lead: string, k: nat)
    requires p <= k < |s| && BlockAt(s, k, lead).Some? && BlockAt(s, p, lead).Some?
    ensures Covered(Blocks(s, p, lead), k)
    decreases |s| - p, 0
  {
    var b := BlockAt(s, p, lead).value;
    var all, rest := Blocks(s, p, lead), Blocks(s, b.end, lead);
    assert all == [b] + rest;
    if b.end <= k {
      BlocksCover(s, b.end, lead, k);
      var i :| 0 <= i < |rest| && rest[i].start <= k < rest[i].end;
      CoveredAt(all, i + 1, k);
    } else {
      CoveredAt(all, 0, k);
    }
  }

  lemma CoveredAt(bs: seq<Block>, i: nat, k: nat)
    requires i < |bs| && bs[i].start <= k < bs[i].end
    ensures Covered(bs, k)
  {
  }

  /** Every well-formed match from `p` on is taken by the scan or starts
      inside a block taken before it. */
  lemma BlocksComplete(s: string, p: nat, lead: string, b: Block)
    requires lead == "" || lead == "\t"
    requires WellMatched(s, lead, b) && p <= b.start
    ensures Covered(Blocks(s, p, lead), b.start)
  {
    BlockAtComplete(s, lead, b);
    BlocksCover(s, p, lead, b.start);
  }

  // ---------------------------------------------------------------------------
  // The keep list.

  /** The keep set: the stripped lines of the keep file that are not empty. */
  predicate Kept(lines: seq<string>, name: string) {
    name != "" && exists i :: 0 <= i < |lines| && Strip(lines[i]) == name
  }

  /** The keep set built line by line. */
  function KeepSet(lines: seq<string>): set<string> {
    if |lines| == 0 then {}
    else
      var line := Strip(lines[|lines| - 1]);
      KeepSet(lines[..|lines| - 1]) + if line != "" then {line} else {}
  }

  /** A name is in the keep set exactly when it is a non-empty stripped line. */
  lemma {:induction false} KeepSetMeans(lines: seq<string>, name: string)
    ensures name in KeepSet(lines) <==> Kept(lines, name)
  {
    if |lines| > 0 {
      var init := lines[..|lines| - 1];
      KeepSetMeans(init, name);
      KeptSnoc(lines, name);
    }
  }

  /** One more line is kept exactly when it strips to the name. */
  lemma KeptSnoc(lines: seq<string>, name: string)
    requires |lines| > 0
    ensures Kept(lines, name) <==> Kept(lines[..|lines| - 1], name) || (name != "" && Strip(lines[|lines| - 1]) == name)
  {
    var init := lines[..|lines| - 1];
    if Kept(lines, name) {
      var i :| 0 <= i < |lines| && Strip(lines[i]) == name;
      if i < |init| {
        assert init[i] == lines[i];
      }
    }
    if Kept(init, name) {
      var i :| 0 <= i < |init| && Strip(init[i]) == name;
      assert init[i] == lines[i];
      assert Kept(lines, name);
    }
    var last := |lines| - 1;
    if name != "" && Strip(lines[last]) == name {
      assert Kept(lines, name);
    }
  }

  lemma KeepSetSnoc(lines: seq<string>, i: nat)
    requires i < |lines|
    ensures KeepSet(lines[..i + 1]) == KeepSet(lines[..i]) + if Strip(lines[i]) != "" then {Strip(lines[i])} else {}
  {
    assert lines[..i + 1][..i] == lines[..i];
  }

  /** The keep-list loop: each line stripped, non-empty ones added. */
  method ReadKeepList(lines: seq<string>) returns (keep: set<string>)
    ensures keep == KeepSet(lines)
  {
    keep := {};
    var i := 0;
    while i < |lines|
      invariant i <= |lines|
      invariant keep == KeepSet(lines[..i])
    {
      var line := Strip(lines[i]);
      KeepSetSnoc(lines, i);
      if line != "" {
        keep := keep + {line};
      }
      i := i + 1;
    }
    assert lines[..i] == lines;
  }

  // ---------------------------------------------------------------------------
  // Filtering.

  /** The rebuilt entries of the blocks whose names are kept, in order. */
  function KeptEntries(blocks: seq<Block>, keep: set<string>, lead: string): seq<string> {
    if |blocks| == 0 then []
    else
      var b := blocks[|blocks| - 1];
      KeptEntries(blocks[..|blocks| - 1], keep, lead) + if b.name in keep then [Entry(lead, b.name, b.body)] else []
  }

  function KeptCount(blocks: seq<Block>, keep: set<string>): nat {
    if |blocks| == 0 then 0
    else KeptCount(blocks[..|blocks| - 1], keep) + if blocks[|blocks| - 1].name in keep then 1 else 0
  }

  /** An entry is kept exactly when it is the entry of a block whose name is
      in the keep set; one entry per kept block. */
  lemma {:induction false} KeptEntriesMeans(blocks: seq<Block>, keep: set<string>, lead: string)
    ensures |KeptEntries(blocks, keep, lead)| == KeptCount(blocks, keep) <= |blocks|
    ensures forall e :: e in KeptEntries(blocks, keep, lead) <==>
      exists i :: 0 <= i < |blocks| && blocks[i].name in keep && e == Entry(lead, blocks[i].name, blocks[i].body)
  {
    if |blocks| > 0 {
      var init := blocks[..|blocks| - 1];
      KeptEntriesMeans(init, keep, lead);
      assert forall i :: 0 <= i < |init| ==> init[i] == blocks[i];
    }
  }

  /** Filtering a text split in two filters each part: kept entries keep
      the order of their blocks. */
  lemma {:induction false} KeptEntriesAppend(xs: seq<Block>, ys: seq<Block>, keep: set<string>, lead: string)
    ensures KeptEntries(xs + ys, keep, lead) == KeptEntries(xs, keep, lead) + KeptEntries(ys, keep, lead)
    decreases |ys|
  {
    if |ys| == 0 {
      assert xs + ys == xs;
    } else {
      var init := ys[..|ys| - 1];
      assert (xs + ys)[..|xs + ys| - 1] == xs + init;
      KeptEntriesAppend(xs, init, keep, lead);
    }
  }

  /** What a filter run keeps of a text: exactly the matched blocks whose
      names the keep file lists, each as the very text it was matched from. */
  lemma KeptVerbatim(keepLines: seq<string>, s: string, lead: string)
    ensures var bs := Blocks(s, 0, lead);
      forall e :: e in KeptEntries(bs, KeepSet(keepLines), lead) <==>
        exists i :: 0 <= i < |bs| && Kept(keepLines, bs[i].name) && e == s[bs[i].start..bs[i].end]
  {
    var bs := Blocks(s, 0, lead);
    var keep := KeepSet(keepLines);
    BlocksMeans(s, 0, lead);
    KeptEntriesMeans(bs, keep, lead);
    forall i | 0 <= i < |bs|
      ensures (bs[i].name in keep <==> Kept(keepLines, bs[i].name))
      ensures Entry(lead, bs[i].name, bs[i].body) == s[bs[i].start..bs[i].end]
    {
      KeepSetMeans(keepLines, bs[i].name);
      MatchedText(s, lead, bs[i]);
    }
  }

  /** Every rebuilt entry ends with the `>` of its closing tag. */
  lemma KeptEntriesEnd(blocks: seq<Block>, keep: set<string>, lead: string)
    requires |KeptEntries(blocks, keep, lead)| > 0
    ensures var es := KeptEntries(blocks, keep, lead); EndsWith(es[|es| - 1], ">")
  {
    var es := KeptEntries(blocks, keep, lead);
    KeptEntriesMeans(blocks, keep, lead);
    assert es[|es| - 1] in es;
    var i :| 0 <= i < |blocks| && blocks[i].name in keep && es[|es| - 1] == Entry(lead, blocks[i].name, blocks[i].body);
    EntryEnds(lead, blocks[i].name, blocks[i].body);
  }

  /** The filter loop: kept entries and the two counters. */
  method FilterBlocks(blocks: seq<Block>, keep: set<string>, lead: string)
    returns (entries: seq<string>, kept: nat, removed: nat)
    ensures entries == KeptEntries(blocks, keep, lead)
    ensures kept == KeptCount(blocks, keep) && kept + removed == |blocks|
  {
    entries, kept, removed := [], 0, 0;
    var i := 0;
    while i < |blocks|
      invariant i <= |blocks|
      invariant entries == KeptEntries(blocks[..i], keep, lead)
      invariant kept == KeptCount(blocks[..i], keep) && kept + removed == i
    {
      assert blocks[..i + 1][..i] == blocks[..i];
      var b := blocks[i];
      if b.name in keep {
        entries := entries + [Entry(lead, b.name, b.body)];
        kept := kept + 1;
      } else {
        removed := removed + 1;
      }
      i := i + 1;
    }
    assert blocks[..i] == blocks;
  }

  // ---------------------------------------------------------------------------
  // Rebuilding.

  /** Every entry followed by `sep`, as the `+=` loops build them. */
  function Joined(entries: seq<string>, sep: string): string {
    if |entries| == 0 then "" else Joined(entries[..|entries| - 1], sep) + entries[|entries| - 1] + sep
  }

  /** The entries with `sep` between them only. */
  function Interleaved(entries: seq<string>, sep: string): string
    requires |entries| > 0
  {
    if |entries| == 1 then entries[0] else Interleaved(entries[..|entries| - 1], sep) + sep + entries[|entries| - 1]
  }

  lemma {:induction false} JoinedInterleaved(entries: seq<string>, sep: string)
    requires |entries| > 0
    ensures Joined(entries, sep) == Interleaved(entries, sep) + sep
  {
    if |entries| > 1 {
      JoinedInterleaved(entries[..|entries| - 1], sep);
    } else {
      assert Joined(entries[..0], sep) == "";
    }
  }

  /** The rebuilt text ends with the last entry. */
  lemma InterleavedLast(entries: seq<string>, sep: string)
    requires |entries| > 0
    ensures EndsWith(Interleaved(entries, sep), entries[|entries| - 1])
  {
    var last := entries[|entries| - 1];
    var t := Interleaved(entries, sep);
    if |entries| > 1 {
      assert t == Interleaved(entries[..|entries| - 1], sep) + sep + last;
    }
    assert t[|t| - |last|..] == last;
  }

  /** Stripping characters that `drop` all holds for off a text whose last
      character it does not hold for leaves that text. */
  lemma {:induction false} RStripSuffix(x: string, sep: string, drop: char -> bool)
    requires |x| > 0 && !drop(x[|x| - 1])
    requires forall k :: 0 <= k < |sep| ==> drop(sep[k])
    ensures RStrip(x + sep, drop) == x
    decreases |sep|
  {
    if |sep| > 0 {
      var t := x + sep;
      assert t[|t| - 1] == sep[|sep| - 1];
      assert t[..|t| - 1] == x + sep[..|sep| - 1];
      RStripSuffix(x, sep[..|sep| - 1], drop);
    } else {
      assert x + sep == x;
    }
  }

  lemma EntryEnds(lead: string, name: string, body: string)
    ensures |Entry(lead, name, body)| > 0 && Entry(lead, name, body)[|Entry(lead, name, body)| - 1] == '>'
  {
  }

  /** The last character of a rebuilt text with at least one entry is the end
      of its last entry. */
  lemma InterleavedEnds(entries: seq<string>, sep: string)
    requires |entries| > 0 && |entries[|entries| - 1]| > 0
    ensures var t := Interleaved(entries, sep); |t| > 0 && t[|t| - 1] == entries[|entries| - 1][|entries[|entries| - 1]| - 1]
  {
  }
}
