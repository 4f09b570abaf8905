/** `add_roaming_patrols.py`: reads a text file of patrol locations (a name
    line followed by a `<x, y, z>` line) and appends to the `Patrols` list of
    the AI patrol settings one copy of the first ROAMING patrol per location,
    renamed `Roaming-<name>` and sent to that single waypoint. Locations whose
    patrol name already exists are skipped. */
module RoamingPatrols {
  import opened Json
  import opened Strings

  // ---------------------------------------------------------------------------
  // The coordinate line: `re.match(r'<([\d.]+),\s*([\d.]+),\s*([\d.]+)>', line)`.

  /** The characters of `[\d.]`. */
  predicate IsNumeralChar(c: char) { '0' <= c <= '9' || c == '.' }

  /** A non-empty run of `[\d.]`: one group of the coordinate pattern. */
  predicate Numeral(t: string) {
    |t| > 0 && forall k :: 0 <= k < |t| ==> IsNumeralChar(t[k])
  }

  /** A run of `\s`. */
  predicate Blank(w: string) {
    forall k :: 0 <= k < |w| ==> IsSpace(w[k])
  }

  /** The two character classes the pattern repeats: `[\d.]` and `\s`. */
  datatype CharClass = NumeralChars | SpaceChars

  predicate InClass(cls: CharClass, ch: char) {
    match cls
    case NumeralChars => IsNumeralChar(ch)
    case SpaceChars => IsSpace(ch)
  }

  /** Every character of `s[p..e]` is in class `cls`. */
  predicate AllIn(s: string, p: nat, e: nat, cls: CharClass)
    requires p <= e <= |s|
  {
    forall k :: p <= k < e ==> InClass(cls, s[k])
  }

  /** The end of the longest run of characters in class `cls` from `p`: a
      greedy `[\d.]+` or `\s*`. */
  function RunEnd(s: string, p: nat, cls: CharClass): (e: nat)
    requires p <= |s|
    ensures p <= e <= |s|
    ensures e < |s| ==> !InClass(cls, s[e])
    decreases |s| - p
  {
    if p == |s| || !InClass(cls, s[p]) then p else RunEnd(s, p + 1, cls)
  }

  /** Every character the run passes over is in the class. */
  lemma {:induction false} RunEndIn(s: string, p: nat, cls: CharClass)
    requires p <= |s|
    ensures AllIn(s, p, RunEnd(s, p, cls), cls)
    decreases |s| - p
  {
    if p < |s| && InClass(cls, s[p]) {
      RunEndIn(s, p + 1, cls);
    }
  }

  /** The three groups of a coordinate line. */
  datatype Coords = Coords(x: string, y: string, z: string)

  /** A group of the pattern starting at `p`: the greedy `[\d.]+` run, which
      must be non-empty and followed by `stop`; the end of the run, or
      nothing. */
  function Group(s: string, p: nat, stop: char): (r: Option<nat>)
    requires p <= |s|
    ensures r.Some? ==> p < r.value < |s| && s[r.value] == stop && r.value == RunEnd(s, p, NumeralChars)
  {
    var e := RunEnd(s, p, NumeralChars);
    if e == p || e == |s| || s[e] != stop then None else Some(e)
  }

  /** The scanner for the coordinate pattern, anchored at the start of the
      line and ignoring what follows the `>`. A class run followed by a
      character outside it needs no backtracking, so the longest runs give the
      only match. */
  function CoordsOf(s: string): Option<Coords> {
    if |s| == 0 || s[0] != '<' then None
    else
      match Group(s, 1, ',')
      case None => None
      case Some(a) =>
        var b0 := RunEnd(s, a + 1, SpaceChars);
        match Group(s, b0, ',')
        case None => None
        case Some(b) =>
          var c0 := RunEnd(s, b + 1, SpaceChars);
          match Group(s, c0, '>')
          case None => None
          case Some(e) => Some(Coords(s[1..a], s[b0..b], s[c0..e]))
  }

  /** A group `t` of the pattern at `p`, followed by `stop`. */
  predicate GroupIn(s: string, p: nat, t: string, stop: char) {
    p + |t| < |s| && s[p..p + |t|] == t && Numeral(t) && s[p + |t|] == stop
  }

  /** A whitespace run `w` of the pattern at `p`. */
  predicate BlankIn(s: string, p: nat, w: string) {
    p + |w| <= |s| && s[p..p + |w|] == w && Blank(w)
  }

  /** `s` opens with a match of the pattern whose groups are `c`, with the
      whitespace runs `w1` and `w2` after the two commas: `<`, the first
      group, `,`, `w1`, the second group, `,`, `w2`, the third group and `>`
      follow one another from position 0. */
  predicate CoordMatch(s: string, c: Coords, w1: string, w2: string) {
    var a := 1 + |c.x|;
    var b0 := a + 1 + |w1|;
    var b := b0 + |c.y|;
    var c0 := b + 1 + |w2|;
    0 < |s| && s[0] == '<' && GroupIn(s, 1, c.x, ',') && BlankIn(s, a + 1, w1) &&
    GroupIn(s, b0, c.y, ',') && BlankIn(s, b + 1, w2) && GroupIn(s, c0, c.z, '>')
  }

  /** What the scanner finds is a match of the pattern at the start of the
      line. */
  lemma CoordsOfSound(s: string)
    requires CoordsOf(s).Some?
    ensures exists w1, w2 :: CoordMatch(s, CoordsOf(s).value, w1, w2)
  {
    var a := Group(s, 1, ',').value;
    var b0 := RunEnd(s, a + 1, SpaceChars);
    var b := Group(s, b0, ',').value;
    var c0 := RunEnd(s, b + 1, SpaceChars);
    var e := Group(s, c0, '>').value;
    ScanOfGroups(s, a, b0, b, c0, e);
    MatchOfGroups(s, a, b0, b, c0, e);
  }

  /** The groups and runs the scanner finds make a match of the pattern. */
  lemma MatchOfGroups(s: string, a: nat, b0: nat, b: nat, c0: nat, e: nat)
    requires 0 < |s| && s[0] == '<'
    requires Group(s, 1, ',') == Some(a) && a + 1 <= |s| && RunEnd(s, a + 1, SpaceChars) == b0
    requires Group(s, b0, ',') == Some(b) && b + 1 <= |s| && RunEnd(s, b + 1, SpaceChars) == c0
    requires Group(s, c0, '>') == Some(e)
    ensures CoordMatch(s, Coords(s[1..a], s[b0..b], s[c0..e]), s[a + 1..b0], s[b + 1..c0])
  {
    GroupOfRun(s, 1, ',', a);
    BlankOfRun(s, a + 1, b0);
    GroupOfRun(s, b0, ',', b);
    BlankOfRun(s, b + 1, c0);
    GroupOfRun(s, c0, '>', e);
    CoordMatchIntro(s, s[1..a], s[b0..b], s[c0..e], s[a + 1..b0], s[b + 1..c0], a, b0, b, c0);
  }

  lemma CoordMatchIntro(s: string, x: string, y: string, z: string, w1: string, w2: string,
                        a: nat, b0: nat, b: nat, c0: nat)
    requires a == 1 + |x| && b0 == a + 1 + |w1| && b == b0 + |y| && c0 == b + 1 + |w2|
    requires 0 < |s| && s[0] == '<' && GroupIn(s, 1, x, ',') && BlankIn(s, a + 1, w1)
    requires GroupIn(s, b0, y, ',') && BlankIn(s, b + 1, w2) && GroupIn(s, c0, z, '>')
    ensures CoordMatch(s, Coords(x, y, z), w1, w2)
  {
  }

  /** A group the scanner finds is a group of the pattern. */
  lemma GroupOfRun(s: string, p: nat, stop: char, e: nat)
    requires p <= |s| && Group(s, p, stop) == Some(e)
    ensures e == p + |s[p..e]| && GroupIn(s, p, s[p..e], stop)
  {
    RunEndIn(s, p, NumeralChars);
    forall k | 0 <= k < e - p ensures IsNumeralChar(s[p..e][k]) {
      assert s[p..e][k] == s[p + k];
    }
  }

  /** A whitespace run the scanner skips is a whitespace run of the pattern. */
  lemma BlankOfRun(s: string, p: nat, e: nat)
    requires p <= |s| && RunEnd(s, p, SpaceChars) == e
    ensures e == p + |s[p..e]| && BlankIn(s, p, s[p..e])
  {
    RunEndIn(s, p, SpaceChars);
    forall k | 0 <= k < e - p ensures IsSpace(s[p..e][k]) {
      assert s[p..e][k] == s[p + k];
    }
  }

  /** Every line that opens with a match of the pattern is recognised, with
      the groups of that match. */
  lemma CoordsOfComplete(s: string, c: Coords, w1: string, w2: string)
    requires CoordMatch(s, c, w1, w2)
    ensures CoordsOf(s) == Some(c)
  {
    var a := 1 + |c.x|;
    var b0 := a + 1 + |w1|;
    var b := b0 + |c.y|;
    var c0 := b + 1 + |w2|;
    var e := c0 + |c.z|;
    CoordMatchParts(s, c, w1, w2, a, b0, b, c0);
    ScanOfParts(s, c, w1, w2, a, b0, b, c0, e);
  }

  /** The scanner's steps over the parts of a match. */
  lemma ScanOfParts(s: string, c: Coords, w1: string, w2: string, a: nat, b0: nat, b: nat, c0: nat, e: nat)
    requires a == 1 + |c.x| && b0 == a + 1 + |w1| && b == b0 + |c.y| && c0 == b + 1 + |w2| && e == c0 + |c.z|
    requires 0 < |s| && s[0] == '<'
    requires GroupIn(s, 1, c.x, ',') && BlankIn(s, a + 1, w1)
    requires GroupIn(s, b0, c.y, ',') && BlankIn(s, b + 1, w2) && GroupIn(s, c0, c.z, '>')
    ensures CoordsOf(s) == Some(c)
  {
    GroupAt(s, 1, c.x, ',');
    StageAt(s, a + 1, w1, b0, c.y, ',');
    StageAt(s, b + 1, w2, c0, c.z, '>');
    ScanOfGroups(s, a, b0, b, c0, e);
    CoordsAt(s, c, a, b0, b, c0, e);
  }

  /** The parts of a match, at the positions it puts them. */
  lemma CoordMatchParts(s: string, c: Coords, w1: string, w2: string, a: nat, b0: nat, b: nat, c0: nat)
    requires CoordMatch(s, c, w1, w2)
    requires a == 1 + |c.x| && b0 == a + 1 + |w1| && b == b0 + |c.y| && c0 == b + 1 + |w2|
    ensures 0 < |s| && s[0] == '<'
    ensures GroupIn(s, 1, c.x, ',') && BlankIn(s, a + 1, w1)
    ensures GroupIn(s, b0, c.y, ',') && BlankIn(s, b + 1, w2) && GroupIn(s, c0, c.z, '>')
  {
  }

  /** The three slices at a match's group positions are its groups. */
  lemma CoordsAt(s: string, c: Coords, a: nat, b0: nat, b: nat, c0: nat, e: nat)
    requires a == 1 + |c.x| && b == b0 + |c.y| && e == c0 + |c.z|
    requires GroupIn(s, 1, c.x, ',') && GroupIn(s, b0, c.y, ',') && GroupIn(s, c0, c.z, '>')
    ensures Coords(s[1..a], s[b0..b], s[c0..e]) == c
  {
  }

  /** A whitespace run and the group after it: where the scanner's two runs
      end. */
  lemma StageAt(s: string, p: nat, w: string, q: nat, t: string, stop: char)
    requires q == p + |w|
    requires BlankIn(s, p, w) && GroupIn(s, q, t, stop) && !IsNumeralChar(stop)
    ensures RunEnd(s, p, SpaceChars) == q
    ensures Group(s, q, stop) == Some(q + |t|)
  {
    GroupAt(s, q, t, stop);
    BlankEnd(s, p, w);
  }

  /** Once the three groups and the two blanks are known, the scanner
      returns the three groups. */
  lemma ScanOfGroups(s: string, a: nat, b0: nat, b: nat, c0: nat, e: nat)
    requires 0 < |s| && s[0] == '<'
    requires Group(s, 1, ',') == Some(a) && a + 1 <= |s| && RunEnd(s, a + 1, SpaceChars) == b0
    requires Group(s, b0, ',') == Some(b) && b + 1 <= |s| && RunEnd(s, b + 1, SpaceChars) == c0
    requires Group(s, c0, '>') == Some(e)
    ensures CoordsOf(s) == Some(Coords(s[1..a], s[b0..b], s[c0..e]))
  {
  }

  /** A run of class characters that stops at a character outside the class
      is the longest run. */
  lemma {:induction false} RunEndAt(s: string, p: nat, m: nat, cls: CharClass)
    requires p <= m < |s| && !InClass(cls, s[m]) && AllIn(s, p, m, cls)
    ensures RunEnd(s, p, cls) == m
    decreases m - p
  {
    if p < m {
      RunEndAt(s, p + 1, m, cls);
    }
  }

  /** No character of `[\d.]` is whitespace. */
  lemma NumeralNotSpace(ch: char)
    requires IsNumeralChar(ch)
    ensures !IsSpace(ch)
  {
  }

  /** A group of the pattern followed by its stop character is what `Group`
      finds; it starts with a character that is not whitespace. */
  lemma GroupAt(s: string, p: nat, t: string, stop: char)
    requires GroupIn(s, p, t, stop) && !IsNumeralChar(stop)
    ensures Group(s, p, stop) == Some(p + |t|)
    ensures !IsSpace(s[p])
  {
    forall k | p <= k < p + |t| ensures IsNumeralChar(s[k]) {
      assert s[k] == t[k - p];
    }
    RunEndAt(s, p, p + |t|, NumeralChars);
    assert s[p] == t[0];
    NumeralNotSpace(t[0]);
  }

  /** A whitespace run of the pattern followed by a non-space character is
      where `\s*` stops. */
  lemma BlankEnd(s: string, p: nat, w: string)
    requires BlankIn(s, p, w) && p + |w| < |s| && !IsSpace(s[p + |w|])
    ensures RunEnd(s, p, SpaceChars) == p + |w|
  {
    forall k | p <= k < p + |w| ensures IsSpace(s[k]) {
      assert s[k] == w[k - p];
    }
    RunEndAt(s, p, p + |w|, SpaceChars);
  }

  /** `float(text)` succeeds on a run of `[\d.]` exactly when it has a digit
      and at most one dot. */
  predicate FloatText(t: string) {
    (exists k :: 0 <= k < |t| && '0' <= t[k] <= '9') &&
    forall j, k :: 0 <= j < k < |t| ==> !(t[j] == '.' && t[k] == '.')
  }

  // ---------------------------------------------------------------------------
  // `parse_roamers_file`.

  /** One parsed location: the stripped name line and the three coordinates,
      kept as the matched text. */
  datatype Roamer = Roamer(name: string, coords: Coords)

  /** The coordinates of a matched line converted by `float()`, which raises
      on a run such as `1.2.3`. */
  function Converted(c: Coords): Result<Coords> {
    if !FloatText(c.x) then Err(BadFloat(c.x))
    else if !FloatText(c.y) then Err(BadFloat(c.y))
    else if !FloatText(c.z) then Err(BadFloat(c.z))
    else Ok(c)
  }

  /** A line of the locations file as the scan sees it: stripped, and with
      the groups of the coordinate pattern when the stripped text opens with
      a match. */
  datatype Line = Line(text: string, coords: Option<Coords>)

  function Classified(lines: seq<string>): (ls: seq<Line>)
    ensures |ls| == |lines|
    ensures forall k :: 0 <= k < |lines| ==> ls[k] == Line(Strip(lines[k]), CoordsOf(Strip(lines[k])))
  {
    seq(|lines|, k requires 0 <= k < |lines| => Line(Strip(lines[k]), CoordsOf(Strip(lines[k]))))
  }

  /** Line `i` is a name line followed by a coordinate line. */
  predicate PairAt(ls: seq<Line>, i: int) {
    0 <= i && i + 1 < |ls| && ls[i].text != "" && ls[i + 1].coords.Some?
  }

  /** The location a pair of lines describes. */
  function RoamerAt(ls: seq<Line>, i: int): Roamer
    requires PairAt(ls, i)
  {
    Roamer(ls[i].text, ls[i + 1].coords.value)
  }

  /** The scan from line `i` on: blank lines are skipped, a pair is taken and
      both its lines skipped, any other line is passed over. */
  function ParseFrom(ls: seq<Line>, i: nat): Result<seq<Roamer>>
    decreases |ls| - i
  {
    if i >= |ls| then Ok([])
    else if PairAt(ls, i) then
      var c :- Converted(ls[i + 1].coords.value);
      var rest :- ParseFrom(ls, i + 2);
      Ok([Roamer(ls[i].text, c)] + rest)
    else ParseFrom(ls, i + 1)
  }

  /** The scan of a whole file. */
  function ParseRoamers(lines: seq<string>): Result<seq<Roamer>> {
    ParseFrom(Classified(lines), 0)
  }

  /** A pair at `i` is taken with the coordinates as matched, and the scan
      goes on after both lines. */
  lemma ParseFromPair(ls: seq<Line>, i: nat)
    requires PairAt(ls, i) && ParseFrom(ls, i).Ok?
    ensures ParseFrom(ls, i + 2).Ok?
    ensures ParseFrom(ls, i).value == [RoamerAt(ls, i)] + ParseFrom(ls, i + 2).value
  {
  }

  /** The lines where the scan from `i` takes a pair. */
  function PairLines(ls: seq<Line>, i: nat): (at: seq<int>)
    ensures forall k :: 0 <= k < |at| ==> i <= at[k] && PairAt(ls, at[k])
    ensures forall k :: 0 <= k < |at| - 1 ==> at[k] + 2 <= at[k + 1]
    decreases |ls| - i
  {
    if i >= |ls| then []
    else if PairAt(ls, i) then [i as int] + PairLines(ls, i + 2)
    else PairLines(ls, i + 1)
  }

  /** The scan returns the locations of the pairs it takes, in order. */
  lemma {:induction false} ParseFromPairLines(ls: seq<Line>, i: nat)
    requires ParseFrom(ls, i).Ok?
    ensures var rs, at := ParseFrom(ls, i).value, PairLines(ls, i);
      |at| == |rs| && forall k :: 0 <= k < |rs| ==> rs[k] == RoamerAt(ls, at[k])
    decreases |ls| - i
  {
    if i < |ls| {
      if PairAt(ls, i) {
        ParseFromPair(ls, i);
        ParseFromPairLines(ls, i + 2);
      } else {
        ParseFromPairLines(ls, i + 1);
      }
    }
  }

  /** Soundness: every location the scan returns comes from a pair of ls,
      in file order; the `k`-th comes from an earlier pair than the `k+1`-th,
      and the two pairs do not share a line. */
  lemma ParseFromSound(ls: seq<Line>, i: nat)
    requires ParseFrom(ls, i).Ok?
    ensures var rs := ParseFrom(ls, i).value;
      exists at: seq<int> :: |at| == |rs| &&
        (forall k :: 0 <= k < |rs| ==> i <= at[k] && PairAt(ls, at[k]) && rs[k] == RoamerAt(ls, at[k])) &&
        (forall k :: 0 <= k < |rs| - 1 ==> at[k] + 2 <= at[k + 1])
  {
    ParseFromPairLines(ls, i);
    var at := PairLines(ls, i);
    assert |at| == |ParseFrom(ls, i).value|;
  }

  /** A coordinate line is never taken as the name line of a pair, so the scan
      reaches every line that is not one. */
  predicate NameLine(ls: seq<Line>, j: int) {
    0 <= j < |ls| && ls[j].coords.None?
  }

  /** Completeness: every non-blank line that is not itself a coordinate line
      and is followed by one yields its location. */
  lemma {:induction false} ParseFromComplete(ls: seq<Line>, i: nat, j: nat)
    requires ParseFrom(ls, i).Ok?
    requires i <= j && PairAt(ls, j) && NameLine(ls, j)
    ensures RoamerAt(ls, j) in ParseFrom(ls, i).value
    decreases |ls| - i
  {
    if PairAt(ls, i) {
      ParseFromPair(ls, i);
      if i < j {
        PairNotName(ls, i, j);
        ParseFromComplete(ls, i + 2, j);
      }
    } else {
      ParseFromSkip(ls, i, j);
      ParseFromComplete(ls, i + 1, j);
    }
  }

  /** The coordinate line of a pair is not a name line. */
  lemma PairNotName(ls: seq<Line>, i: nat, j: nat)
    requires PairAt(ls, i) && NameLine(ls, j)
    ensures i + 1 != j
  {
  }

  /** A line that does not open a pair is passed over. */
  lemma ParseFromSkip(ls: seq<Line>, i: nat, j: nat)
    requires !PairAt(ls, i) && i <= j && PairAt(ls, j)
    ensures i < j && ParseFrom(ls, i) == ParseFrom(ls, i + 1)
  {
  }

  /** Completeness on the file itself: a non-blank line that does not match
      the coordinate pattern, followed by one that does, yields the location
      named by the first and placed by the second. */
  lemma ParseRoamersComplete(lines: seq<string>, j: nat)
    requires ParseRoamers(lines).Ok?
    requires j + 1 < |lines| && Strip(lines[j]) != ""
    requires CoordsOf(Strip(lines[j])).None? && CoordsOf(Strip(lines[j + 1])).Some?
    ensures Roamer(Strip(lines[j]), CoordsOf(Strip(lines[j + 1])).value) in ParseRoamers(lines).value
  {
    var ls := Classified(lines);
    assert ls[j] == Line(Strip(lines[j]), CoordsOf(Strip(lines[j])));
    assert ls[j + 1] == Line(Strip(lines[j + 1]), CoordsOf(Strip(lines[j + 1])));
    ParseFromComplete(ls, 0, j);
  }

  /** With every coordinate run convertible the scan succeeds. */
  lemma {:induction false} ParseFromOk(ls: seq<Line>, i: nat)
    requires forall j :: i <= j && PairAt(ls, j) ==> Converted(ls[j + 1].coords.value).Ok?
    ensures ParseFrom(ls, i).Ok?
    decreases |ls| - i
  {
    if i < |ls| {
      if PairAt(ls, i) {
        ParseFromOk(ls, i + 2);
      } else {
        ParseFromOk(ls, i + 1);
      }
    }
  }

  /** The scan fails only on a pair it takes whose coordinates `float()`
      rejects. */
  lemma ParseFromFails(ls: seq<Line>, i: nat)
    requires ParseFrom(ls, i).Err?
    ensures exists k :: 0 <= k < |PairLines(ls, i)| && Converted(ls[PairLines(ls, i)[k] + 1].coords.value).Err?
  {
    var k := RejectedPair(ls, i);
  }

  /** Which of the pairs the scan takes is the one `float()` rejects. */
  lemma {:induction false} RejectedPair(ls: seq<Line>, i: nat) returns (k: nat)
    requires ParseFrom(ls, i).Err?
    ensures k < |PairLines(ls, i)| && Converted(ls[PairLines(ls, i)[k] + 1].coords.value).Err?
    decreases |ls| - i
  {
    if PairAt(ls, i) {
      PairLinesPair(ls, i);
      if Converted(ls[i + 1].coords.value).Err? {
        k := 0;
      } else {
        ParseFromStep(ls, i);
        var k' := RejectedPair(ls, i + 2);
        k := k' + 1;
        assert PairLines(ls, i)[k] == PairLines(ls, i + 2)[k'];
      }
    } else {
      PairLinesSkip(ls, i);
      k := RejectedPair(ls, i + 1);
    }
  }

  /** A pair at `i` is the first pair taken, followed by those after it. */
  lemma PairLinesPair(ls: seq<Line>, i: nat)
    requires PairAt(ls, i)
    ensures PairLines(ls, i) == [i as int] + PairLines(ls, i + 2)
  {
  }

  /** A line that opens no pair is passed over. */
  lemma PairLinesSkip(ls: seq<Line>, i: nat)
    requires i < |ls| && !PairAt(ls, i)
    ensures PairLines(ls, i) == PairLines(ls, i + 1) && ParseFrom(ls, i) == ParseFrom(ls, i + 1)
  {
  }

  /** A pair at `i` parses when its coordinates convert and the rest parses. */
  lemma ParseFromStep(ls: seq<Line>, i: nat)
    requires PairAt(ls, i)
    ensures ParseFrom(ls, i).Ok? <==> Converted(ls[i + 1].coords.value).Ok? && ParseFrom(ls, i + 2).Ok?
  {
  }

  /** The scan's result joined to what the loop has already collected. */
  function Collected(found: seq<Roamer>, rest: Result<seq<Roamer>>): Result<seq<Roamer>> {
    match rest
    case Ok(rs) => Ok(found + rs)
    case Err(e) => Err(e)
  }

  /** Collecting nothing, collecting in two steps, and collecting before an
      empty rest. */
  lemma CollectedJoin(found: seq<Roamer>, more: seq<Roamer>, rest: Result<seq<Roamer>>)
    ensures Collected([], rest) == rest
    ensures Collected(found, Collected(more, rest)) == Collected(found + more, rest)
    ensures Collected(found, Ok([])) == Ok(found)
  {
    if rest.Ok? {
      assert [] + rest.value == rest.value;
      assert found + (more + rest.value) == (found + more) + rest.value;
    }
    assert found + [] == found;
  }

  /** The `while` loop of `parse_roamers_file` over the file's lines. */
  method ParseRoamersFile(lines: seq<string>) returns (r: Result<seq<Roamer>>)
    ensures r == ParseRoamers(lines)
  {
    ghost var ls := Classified(lines);
    var patrols: seq<Roamer> := [];
    var i := 0;
    CollectedJoin([], [], ParseFrom(ls, 0));
    while i < |lines|
      invariant i <= |lines|
      invariant Collected(patrols, ParseFrom(ls, i)) == ParseFrom(ls, 0)
    {
      var line := Strip(lines[i]);
      assert ls[i].text == line;
      if line == "" {
        i := i + 1;
        continue;
      }
      if i + 1 < |lines| {
        var next := Strip(lines[i + 1]);
        var m := CoordsOf(next);
        assert ls[i + 1].coords == m;
        if m.Some? {
          var c := Converted(m.value);
          if c.Err? {
            return Err(c.error);
          }
          assert ParseFrom(ls, i) == Collected([Roamer(line, c.value)], ParseFrom(ls, i + 2));
          CollectedJoin(patrols, [Roamer(line, c.value)], ParseFrom(ls, i + 2));
          patrols := patrols + [Roamer(line, c.value)];
          i := i + 2;
          continue;
        }
      }
      i := i + 1;
    }
    CollectedJoin(patrols, [], ParseFrom(ls, i));
    r := Ok(patrols);
  }

  // ---------------------------------------------------------------------------
  // `create_roaming_patrol_template`.

  function PatrolName(name: string): string { "Roaming-" + name }

  /** The coordinates as the one waypoint of a patrol: `[coords]`. */
  function Waypoint(c: Coords): Value {
    Array([Array([Num(c.x), Num(c.y), Num(c.z)])])
  }

  /** A copy of the template renamed after the location and sent to its
      single waypoint; the template, a value, is not changed. */
  function Instantiate(r: Roamer, template: Value): (p: Value)
    requires template.Object?
    ensures p.Object?
    ensures Field(p, "Name") == Some(Str(PatrolName(r.name)))
    ensures Field(p, "Waypoints") == Some(Waypoint(r.coords))
    ensures forall k :: k != "Name" && k != "Waypoints" ==> Field(p, k) == Field(template, k)
  {
    SetField(SetField(template, "Name", Str(PatrolName(r.name))), "Waypoints", Waypoint(r.coords))
  }

  // ---------------------------------------------------------------------------
  // `add_roaming_patrols`.

  function Patrols(data: Value): seq<Value> { ListField(data, "Patrols") }

  predicate Roaming(p: Value) { FieldIs(p, "Behaviour", "ROAMING") }

  /** Position of the first ROAMING patrol, or `|ps|` when there is none. */
  function FirstRoaming(ps: seq<Value>): (t: nat)
    ensures t <= |ps|
    ensures t < |ps| ==> Roaming(ps[t]) && ps[t].Object?
    ensures forall j :: 0 <= j < t ==> !Roaming(ps[j])
  {
    if |ps| == 0 then 0 else if Roaming(ps[0]) then 0 else 1 + FirstRoaming(ps[1..])
  }

  /** Appending patrols after a ROAMING one does not change which is first. */
  lemma {:induction false} FirstRoamingAppend(ps: seq<Value>, more: seq<Value>)
    requires FirstRoaming(ps) < |ps|
    ensures FirstRoaming(ps + more) == FirstRoaming(ps)
  {
    if !Roaming(ps[0]) {
      assert (ps + more)[1..] == ps[1..] + more;
      FirstRoamingAppend(ps[1..], more);
    }
  }

  /** `{p['Name'] for p in patrols}`, as far as a string can equal a member:
      a patrol without `Name` raises `KeyError`, a container name is not
      hashable; a name that is not a string can never equal a patrol name and
      is left out. */
  function ExistingNames(ps: seq<Value>): Result<set<string>> {
    if |ps| == 0 then Ok({})
    else
      var names :- ExistingNames(ps[..|ps| - 1]);
      var own :- NameOf(ps[|ps| - 1]);
      Ok(names + own)
  }

  /** What one patrol adds to the existing names. */
  function NameOf(p: Value): (r: Result<set<string>>)
    ensures r.Ok? <==> Field(p, "Name").Some? && !Field(p, "Name").value.Object? && !Field(p, "Name").value.Array?
    ensures r.Ok? ==> r.value == if Field(p, "Name").value.Str? then {Field(p, "Name").value.s} else {}
  {
    match Field(p, "Name")
    case None => Err(MissingKey("Name"))
    case Some(Object(_)) => Err(NotHashable("Name"))
    case Some(Array(_)) => Err(NotHashable("Name"))
    case Some(Str(s)) => Ok({s})
    case Some(_) => Ok({})
  }

  /** `p['Name']` can be read and hashed: the key is there and its value is
      not a list or a dict. */
  predicate HashableName(p: Value) {
    Field(p, "Name").Some? && !Field(p, "Name").value.Object? && !Field(p, "Name").value.Array?
  }

  /** Collecting the names succeeds exactly when every patrol has a hashable
      `Name`. */
  lemma {:induction false} ExistingNamesOk(ps: seq<Value>)
    ensures ExistingNames(ps).Ok? <==> forall j :: 0 <= j < |ps| ==> HashableName(ps[j])
  {
    if |ps| > 0 {
      var init := ps[..|ps| - 1];
      ExistingNamesOk(init);
      assert forall j :: 0 <= j < |init| ==> init[j] == ps[j];
    }
  }

  /** When collecting the names fails, it fails on the first patrol whose
      `Name` is missing (`KeyError`) or a list or dict (`TypeError`), as the
      set comprehension raises there. */
  lemma {:induction false} ExistingNamesFirstError(ps: seq<Value>, i: nat)
    requires i < |ps| && !HashableName(ps[i])
    requires forall j :: 0 <= j < i ==> HashableName(ps[j])
    ensures ExistingNames(ps) == Err(if Field(ps[i], "Name").None? then MissingKey("Name") else NotHashable("Name"))
  {
    var init := ps[..|ps| - 1];
    assert forall j :: 0 <= j < |init| ==> init[j] == ps[j];
    if i < |init| {
      ExistingNamesFirstError(init, i);
    } else {
      ExistingNamesOk(init);
    }
  }

  /** A string is an existing name exactly when some patrol carries it. */
  lemma {:induction false} ExistingNamesMeans(ps: seq<Value>, n: string)
    requires ExistingNames(ps).Ok?
    ensures n in ExistingNames(ps).value <==> exists j :: 0 <= j < |ps| && FieldIs(ps[j], "Name", n)
  {
    if |ps| > 0 {
      var init := ps[..|ps| - 1];
      ExistingNamesMeans(init, n);
      assert forall j :: 0 <= j < |init| ==> init[j] == ps[j];
    }
  }

  /** The names of two lists of patrols together. */
  lemma {:induction false} ExistingNamesAppend(ps: seq<Value>, qs: seq<Value>)
    requires ExistingNames(ps).Ok? && ExistingNames(qs).Ok?
    ensures ExistingNames(ps + qs) == Ok(ExistingNames(ps).value + ExistingNames(qs).value)
    decreases |qs|
  {
    if |qs| == 0 {
      assert ps + qs == ps;
      assert ExistingNames(ps).value + ExistingNames(qs).value == ExistingNames(ps).value;
    } else {
      var init, last := qs[..|qs| - 1], qs[|qs| - 1];
      assert qs == init + [last] && ps + qs == (ps + init) + [last];
      ExistingNamesStep(init, last);
      ExistingNamesAppend(ps, init);
      ExistingNamesStep(ps + init, last);
      var own := NameOf(last).value;
      assert ExistingNames(ps + init).value + own == ExistingNames(ps).value + (ExistingNames(init).value + own);
    }
  }

  /** One more patrol adds its own name, or fails the run. */
  lemma ExistingNamesStep(ps: seq<Value>, p: Value)
    ensures ExistingNames(ps + [p]) ==
      (var names :- ExistingNames(ps); var own :- NameOf(p); Ok(names + own))
  {
    assert (ps + [p])[..|ps|] == ps;
  }

  /** The locations whose patrol name is not among the names found before the
      run, in file order; names are not added to that set as patrols are
      created, so a location listed twice is added twice. */
  function Fresh(rs: seq<Roamer>, existing: set<string>): seq<Roamer> {
    if |rs| == 0 then []
    else Fresh(rs[..|rs| - 1], existing) + if PatrolName(rs[|rs| - 1].name) in existing then [] else [rs[|rs| - 1]]
  }

  /** The fresh locations of a concatenation are those of each part, in file
      order; nothing is dropped for appearing twice. */
  lemma {:induction false} FreshAppend(xs: seq<Roamer>, ys: seq<Roamer>, existing: set<string>)
    ensures Fresh(xs + ys, existing) == Fresh(xs, existing) + Fresh(ys, existing)
    decreases |ys|
  {
    if |ys| == 0 {
      assert xs + ys == xs;
    } else {
      assert (xs + ys)[..|xs + ys| - 1] == xs + ys[..|ys| - 1];
      FreshAppend(xs, ys[..|ys| - 1], existing);
    }
  }

  /** One location is fresh exactly when its patrol name was not there before
      the run. */
  lemma FreshOne(r: Roamer, existing: set<string>)
    ensures Fresh([r], existing) == if PatrolName(r.name) in existing then [] else [r]
  {
  }

  /** A location listed twice with a new name is created twice. */
  lemma FreshKeepsRepeats(r: Roamer, existing: set<string>)
    requires PatrolName(r.name) !in existing
    ensures Fresh([r, r], existing) == [r, r]
  {
    FreshAppend([r], [r], existing);
    FreshOne(r, existing);
    assert [r] + [r] == [r, r];
  }

  /** A location is created exactly when it is parsed and its patrol name was
      not there before the run. */
  lemma {:induction false} FreshMeans(rs: seq<Roamer>, existing: set<string>)
    ensures |Fresh(rs, existing)| <= |rs|
    ensures forall r :: r in Fresh(rs, existing) <==> r in rs && PatrolName(r.name) !in existing
  {
    if |rs| > 0 {
      var init := rs[..|rs| - 1];
      FreshMeans(init, existing);
      assert rs == init + [rs[|rs| - 1]];
    }
  }

  /** The patrols a run creates, one per new location. */
  function Created(rs: seq<Roamer>, template: Value): (ps: seq<Value>)
    requires template.Object?
    ensures |ps| == |rs|
  {
    if |rs| == 0 then [] else Created(rs[..|rs| - 1], template) + [Instantiate(rs[|rs| - 1], template)]
  }

  /** The `k`-th created patrol is the template instantiated for the `k`-th
      new location. */
  lemma {:induction false} CreatedAt(rs: seq<Roamer>, template: Value)
    requires template.Object?
    ensures forall k :: 0 <= k < |rs| ==> Created(rs, template)[k] == Instantiate(rs[k], template)
  {
    if |rs| > 0 {
      var init := rs[..|rs| - 1];
      var before := Created(init, template);
      var last := Instantiate(rs[|rs| - 1], template);
      assert Created(rs, template) == before + [last];
      CreatedAt(init, template);
      forall k | 0 <= k < |rs| ensures Created(rs, template)[k] == Instantiate(rs[k], template) {
        if k < |init| {
          assert rs[k] == init[k];
        } else {
          assert k == |init| && (before + [last])[k] == last;
        }
      }
    }
  }

  /** The patrol names of some locations. */
  function PatrolNames(rs: seq<Roamer>): (names: set<string>)
    ensures forall r :: r in rs ==> PatrolName(r.name) in names
  {
    if |rs| == 0 then {}
    else
      var init := rs[..|rs| - 1];
      assert forall r :: r in rs ==> r in init || r == rs[|rs| - 1];
      PatrolNames(init) + {PatrolName(rs[|rs| - 1].name)}
  }

  /** One more patrol with a string name adds that name. */
  lemma ExistingNamesSnoc(ps: seq<Value>, p: Value, n: string)
    requires ExistingNames(ps).Ok? && Field(p, "Name") == Some(Str(n))
    ensures ExistingNames(ps + [p]) == Ok(ExistingNames(ps).value + {n})
  {
    assert (ps + [p])[..|ps|] == ps;
  }

  /** Created patrols carry string names: the patrol names of their
      locations. */
  lemma {:induction false} CreatedNames(rs: seq<Roamer>, template: Value)
    requires template.Object?
    ensures ExistingNames(Created(rs, template)) == Ok(PatrolNames(rs))
  {
    if |rs| > 0 {
      var init, last := rs[..|rs| - 1], rs[|rs| - 1];
      CreatedNames(init, template);
      var p := Instantiate(last, template);
      assert Created(rs, template) == Created(init, template) + [p];
      ExistingNamesSnoc(Created(init, template), p, PatrolName(last.name));
    }
  }

  /** What `add_roaming_patrols` leaves behind: the settings in memory, the
      two counters, whether it wrote the file and what it returned. */
  datatype PatrolRun = PatrolRun(data: Value, added: nat, skipped: nat, written: bool, returned: bool)

  /** The whole run on loaded settings and the lines of the locations file. */
  function AddPatrols(data: Value, lines: seq<string>, dryRun: bool): Result<PatrolRun> {
    var ps := Patrols(data);
    var t := FirstRoaming(ps);
    if t == |ps| then Ok(PatrolRun(data, 0, 0, false, false))
    else if Field(ps[t], "Name").None? then Err(MissingKey("Name"))
    else
      var rs :- ParseRoamers(lines);
      var existing :- ExistingNames(ps);
      var novel := Fresh(rs, existing);
      FreshMeans(rs, existing);
      var after := if dryRun then data else WithList(data, "Patrols", ps + Created(novel, ps[t]));
      Ok(PatrolRun(after, |novel|, |rs| - |novel|, !dryRun && |novel| > 0, true))
  }

  /** A settings file with patrols holds them in a list at `Patrols`. */
  lemma PatrolsHeld(data: Value)
    requires |Patrols(data)| > 0
    ensures data.Object? && Field(data, "Patrols") == Some(Array(Patrols(data)))
  {
  }

  /** What a run changes: without a ROAMING patrol nothing, and it returns
      false; otherwise the created patrols are appended at the end of
      `Patrols` in file order (unless this is a dry run), every other field
      of the settings is kept, added + skipped is the number of locations
      parsed, and the file is written exactly when a real run added some. */
  lemma AddPatrolsMeans(data: Value, lines: seq<string>, dryRun: bool)
    requires AddPatrols(data, lines, dryRun).Ok?
    ensures var run := AddPatrols(data, lines, dryRun).value;
      var ps := Patrols(data);
      FirstRoaming(ps) == |ps| ==> run == PatrolRun(data, 0, 0, false, false)
    ensures var run := AddPatrols(data, lines, dryRun).value;
      var ps := Patrols(data);
      var t := FirstRoaming(ps);
      t < |ps| ==>
        ParseRoamers(lines).Ok? && ExistingNames(ps).Ok? &&
        run.returned && run.added + run.skipped == |ParseRoamers(lines).value| &&
        run.added == |Fresh(ParseRoamers(lines).value, ExistingNames(ps).value)| &&
        run.written == (!dryRun && run.added > 0) &&
        (dryRun ==> run.data == data) &&
        (!dryRun ==>
          run.data.Object? &&
          Patrols(run.data) == ps + Created(Fresh(ParseRoamers(lines).value, ExistingNames(ps).value), ps[t]) &&
          forall k :: k != "Patrols" ==> Field(run.data, k) == Field(data, k))
  {
    var ps := Patrols(data);
    if FirstRoaming(ps) < |ps| {
      PatrolsHeld(data);
    }
  }

  /** A dry run reports the same counts as a real run and changes nothing. */
  lemma DryRunSameCounts(data: Value, lines: seq<string>)
    ensures AddPatrols(data, lines, true).Ok? <==> AddPatrols(data, lines, false).Ok?
    ensures AddPatrols(data, lines, true).Ok? ==>
      var preview, applied := AddPatrols(data, lines, true).value, AddPatrols(data, lines, false).value;
      preview.data == data && !preview.written &&
      preview.added == applied.added && preview.skipped == applied.skipped && preview.returned == applied.returned
  {
    if AddPatrols(data, lines, true).Ok? && AddPatrols(data, lines, false).Ok? {
      AddPatrolsMeans(data, lines, true);
      AddPatrolsMeans(data, lines, false);
    }
  }

  /** Idempotence: a second real run on the result of a real run adds no
      patrol and changes nothing. */
  lemma SecondRunAddsNothing(data: Value, lines: seq<string>)
    requires AddPatrols(data, lines, false).Ok?
    ensures var once := AddPatrols(data, lines, false).value.data;
      AddPatrols(once, lines, false).Ok? &&
      AddPatrols(once, lines, false).value.added == 0 &&
      AddPatrols(once, lines, false).value.data == once
  {
    var ps := Patrols(data);
    var t := FirstRoaming(ps);
    var once := AddPatrols(data, lines, false).value.data;
    if t < |ps| {
      AddPatrolsMeans(data, lines, false);
      var rs := ParseRoamers(lines).value;
      var existing := ExistingNames(ps).value;
      var made := Created(Fresh(rs, existing), ps[t]);
      var ps2 := ps + made;
      assert Patrols(once) == ps2;
      FirstRoamingAppend(ps, made);
      assert ps2[t] == ps[t];
      var names := NamesAfterRun(ps, rs, existing, ps[t]);
      assert ExistingNames(ps2) == Ok(names);
      FreshMeans(rs, names);
      NoneNovel(rs, names);
      assert ps2 + Created([], ps[t]) == ps2;
      WithListSame(once, "Patrols");
    }
  }

  /** Once the patrols of a run are appended, every parsed location's patrol
      name is taken. */
  lemma NamesAfterRun(ps: seq<Value>, rs: seq<Roamer>, existing: set<string>, template: Value) returns (names: set<string>)
    requires template.Object? && ExistingNames(ps) == Ok(existing)
    ensures ExistingNames(ps + Created(Fresh(rs, existing), template)) == Ok(names)
    ensures forall r :: r in rs ==> PatrolName(r.name) in names
  {
    var novel := Fresh(rs, existing);
    var made := Created(novel, template);
    CreatedNames(novel, template);
    ExistingNamesAppend(ps, made);
    names := existing + PatrolNames(novel);
    FreshMeans(rs, existing);
    forall r | r in rs ensures PatrolName(r.name) in names {
      if PatrolName(r.name) !in existing {
        assert r in novel;
      }
    }
  }

  /** With every patrol name taken, no location is new. */
  lemma NoneNovel(rs: seq<Roamer>, names: set<string>)
    requires forall r :: r in rs ==> PatrolName(r.name) in names
    ensures Fresh(rs, names) == []
  {
    FreshMeans(rs, names);
  }

  /** The main run: the first ROAMING patrol is the template, the locations
      file is parsed and the names are collected before the loop; a missing
      template stops the run, which then returns false. */
  method AddRoamingPatrols(data: Value, lines: seq<string>, dryRun: bool) returns (r: Result<PatrolRun>)
    ensures r == AddPatrols(data, lines, dryRun)
  {
    var ps := Patrols(data);
    var t := 0;
    while t < |ps| && !Roaming(ps[t])
      invariant t <= |ps|
      invariant forall j :: 0 <= j < t ==> !Roaming(ps[j])
    {
      t := t + 1;
    }
    assert t == FirstRoaming(ps);
    if t == |ps| {
      return Ok(PatrolRun(data, 0, 0, false, false));
    }
    var template := ps[t];
    if Field(template, "Name").None? {
      return Err(MissingKey("Name"));
    }
    var parsed := ParseRoamersFile(lines);
    if parsed.Err? {
      return Err(parsed.error);
    }
    var rs := parsed.value;
    var names := ExistingNames(ps);
    if names.Err? {
      return Err(names.error);
    }
    PatrolsHeld(data);
    var patrols, added, skipped := AppendPatrols(ps, rs, names.value, template, dryRun);
    var current := if dryRun then data else WithList(data, "Patrols", patrols);
    r := Ok(PatrolRun(current, added, skipped, !dryRun && added > 0, true));
  }

  /** The de-duplicating loop: each parsed location is skipped when its
      patrol name existed before the run, otherwise instantiated and, unless
      this is a dry run, appended to the patrols list `ps`, the list object
      the settings hold at `Patrols`. */
  method AppendPatrols(ps: seq<Value>, rs: seq<Roamer>, existing: set<string>, template: Value, dryRun: bool)
    returns (patrols: seq<Value>, added: nat, skipped: nat)
    requires template.Object?
    ensures added == |Fresh(rs, existing)| && added + skipped == |rs|
    ensures patrols == if dryRun then ps else ps + Created(Fresh(rs, existing), template)
  {
    patrols := ps;
    added, skipped := 0, 0;
    ghost var novel: seq<Roamer> := [];
    var i := 0;
    while i < |rs|
      invariant i <= |rs|
      invariant novel == Fresh(rs[..i], existing)
      invariant added == |novel| && added + skipped == i
      invariant patrols == if dryRun then ps else ps + Created(novel, template)
    {
      FreshSnoc(rs, i, existing);
      var name := PatrolName(rs[i].name);
      if name in existing {
        skipped := skipped + 1;
      } else {
        if !dryRun {
          CreatedSnoc(ps, novel, rs[i], template);
          patrols := patrols + [Instantiate(rs[i], template)];
        }
        novel := novel + [rs[i]];
        added := added + 1;
      }
      i := i + 1;
    }
    assert rs[..i] == rs;
  }

  lemma FreshSnoc(rs: seq<Roamer>, i: nat, existing: set<string>)
    requires i < |rs|
    ensures Fresh(rs[..i + 1], existing) == Fresh(rs[..i], existing) + if PatrolName(rs[i].name) in existing then [] else [rs[i]]
  {
    assert rs[..i + 1][..i] == rs[..i];
  }

  lemma CreatedSnoc(ps: seq<Value>, rs: seq<Roamer>, r: Roamer, template: Value)
    requires template.Object?
    ensures ps + Created(rs + [r], template) == ps + Created(rs, template) + [Instantiate(r, template)]
  {
    assert (rs + [r])[..|rs|] == rs;
  }
}
