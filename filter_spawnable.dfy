/** `filter_snafu_spawnable.py`: keep only the tab-indented
    `<type name="…">…</type>` blocks of the SNAFU spawnable types file whose
    names are listed in the keep file, and rebuild the file as the text before
    the first tab-indented opening tag followed by the kept blocks. */
module FilterSpawnable {
  import opened Strings
  import opened TypeBlocks

  /** What stands before both tags of a spawnable block. */
  const Tab := "\t"
  /** What follows every kept entry before the final `rstrip('\n')`. */
  const Separator := "\n"

  /** The first position at or after `p` where a tab-indented opening tag
      with a non-empty name starts: `re.search(r'\t<type name="[^"]+">', …)`. */
  function FirstOpen(s: string, p: nat): (r: int)
    ensures r == -1 || (p <= r && OpenAt(s, r, Tab) != -1)
    ensures forall k: nat :: p <= k && (r == -1 || k < r) ==> OpenAt(s, k, Tab) == -1
    decreases |s| - p
  {
    if p >= |s| then -1
    else if OpenAt(s, p, Tab) != -1 then p
    else FirstOpen(s, p + 1)
  }

  /** The text before the first opening tag, or nothing when there is none. */
  function Header(content: string): string {
    var first := FirstOpen(content, 0);
    if first == -1 then "" else content[..first]
  }

  /** The matches of `\t<type name="([^"]+)">(.*?)\t</type>` in the file. */
  function TypeBlocksOf(content: string): seq<Block> {
    Blocks(content, 0, Tab)
  }

  /** The new file text: the header and each entry followed by a newline,
      with the trailing newlines stripped. */
  function Rebuilt(header: string, entries: seq<string>): (r: string)
    ensures r <= header + Joined(entries, Separator)
    ensures !EndsWith(r, "\n")
  {
    RStrip(header + Joined(entries, Separator), IsNewline)
  }

  /** The rebuild loop: `new_content += entry + '\n'`, then the strip. */
  method RebuildSpawnable(header: string, entries: seq<string>) returns (out: string)
    ensures out == Rebuilt(header, entries)
  {
    var text := header;
    var i := 0;
    while i < |entries|
      invariant i <= |entries|
      invariant text == header + Joined(entries[..i], Separator)
    {
      assert entries[..i + 1][..i] == entries[..i];
      text := text + entries[i] + Separator;
      i := i + 1;
    }
    assert entries[..i] == entries;
    out := RStrip(text, IsNewline);
  }

  /** With at least one entry, the strip removes exactly the last newline:
      the file is the header and the entries one newline apart, and it ends
      with the last kept entry. */
  lemma RebuiltKept(header: string, entries: seq<string>)
    requires |entries| > 0 && EndsWith(entries[|entries| - 1], ">")
    ensures Rebuilt(header, entries) == header + Interleaved(entries, Separator)
    ensures EndsWith(Rebuilt(header, entries), entries[|entries| - 1])
  {
    var last := entries[|entries| - 1];
    assert last[|last| - 1..] == ">";
    assert last[|last| - 1] == '>';
    var inter := Interleaved(entries, Separator);
    InterleavedEnds(entries, Separator);
    var body := header + inter;
    assert body[|body| - 1] == inter[|inter| - 1] == '>';
    JoinedInterleaved(entries, Separator);
    assert header + Joined(entries, Separator) == body + Separator;
    assert forall k :: 0 <= k < |Separator| ==> IsNewline(Separator[k]);
    RStripSuffix(body, Separator, IsNewline);
    assert Rebuilt(header, entries) == body;
    InterleavedLast(entries, Separator);
    EndsWithAppend(header, inter, last);
  }

  /** The header lies before every match, and a file without an opening tag
      has no match at all. */
  lemma HeaderBeforeBlocks(content: string)
    ensures forall i :: 0 <= i < |TypeBlocksOf(content)| ==> |Header(content)| <= TypeBlocksOf(content)[i].start
    ensures FirstOpen(content, 0) == -1 ==> |TypeBlocksOf(content)| == 0
  {
    var bs := TypeBlocksOf(content);
    BlocksMeans(content, 0, Tab);
    forall i | 0 <= i < |bs|
      ensures FirstOpen(content, 0) != -1 && FirstOpen(content, 0) <= bs[i].start
    {
      OpenAtMatched(content, Tab, bs[i]);
    }
    if |bs| > 0 {
      assert FirstOpen(content, 0) <= bs[0].start;
    }
  }

  /** What the run writes: the header and the kept blocks verbatim and in
      their order, and nothing after the last of them; with nothing kept,
      the header without its trailing newlines. */
  lemma FilteredFileMeans(keepLines: seq<string>, content: string)
    ensures var entries := KeptEntries(TypeBlocksOf(content), KeepSet(keepLines), Tab);
      |entries| > 0 ==>
        Rebuilt(Header(content), entries) == Header(content) + Interleaved(entries, Separator) &&
        EndsWith(Rebuilt(Header(content), entries), entries[|entries| - 1])
    ensures var entries := KeptEntries(TypeBlocksOf(content), KeepSet(keepLines), Tab);
      |entries| == 0 ==> Rebuilt(Header(content), entries) == RStrip(Header(content), IsNewline)
  {
    var entries := KeptEntries(TypeBlocksOf(content), KeepSet(keepLines), Tab);
    if |entries| > 0 {
      KeptEntriesEnd(TypeBlocksOf(content), KeepSet(keepLines), Tab);
      RebuiltKept(Header(content), entries);
    } else {
      assert Header(content) + Joined(entries, Separator) == Header(content);
    }
  }

  /** The whole run: the backup copy, the new file text and the two counters. */
  method FilterSpawnableFile(keepLines: seq<string>, content: string)
    returns (backup: string, output: string, kept: nat, removed: nat)
    ensures backup == content
    ensures output == Rebuilt(Header(content), KeptEntries(TypeBlocksOf(content), KeepSet(keepLines), Tab))
    ensures kept == KeptCount(TypeBlocksOf(content), KeepSet(keepLines))
    ensures kept + removed == |TypeBlocksOf(content)|
  {
    var keep := ReadKeepList(keepLines);
    backup := content;
    var blocks := Blocks(content, 0, Tab);
    var first := FirstOpen(content, 0);
    var header := if first == -1 then "" else content[..first];
    var entries;
    entries, kept, removed := FilterBlocks(blocks, keep, Tab);
    output := RebuildSpawnable(header, entries);
  }
}
