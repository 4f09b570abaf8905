/** `filter_snafu_types.py`: keep only the `<type name="…">…</type>` blocks of
    the SNAFU types file whose names are listed in the keep file, and rebuild
    the file as the text before the first type, the kept blocks and the
    closing `</types>` tag. */
module FilterTypes {
  import opened Strings
  import opened TypeBlocks

  /** The text the header is cut at: `content.split('<type name=')[0]`. */
  const TypeMarker := "<type name="
  const Footer := "</types>"
  /** What follows every kept entry before the final `rstrip()`. */
  const Separator := "\n    "

  /** Everything before the first `<type name=`. */
  function Header(content: string): string {
    Before(content, TypeMarker)
  }

  /** The matches of `<type name="([^"]+)">(.*?)</type>` in the file. */
  function TypeBlocksOf(content: string): seq<Block> {
    Blocks(content, 0, "")
  }

  /** The new file text: the header and each entry followed by the separator,
      right-stripped, then a newline and the footer. */
  function Rebuilt(header: string, entries: seq<string>): (r: string)
    ensures EndsWith(r, "\n" + Footer)
  {
    var r := RStrip(header + Joined(entries, Separator), IsSpace) + "\n" + Footer;
    assert r[|r| - |"\n" + Footer|..] == "\n" + Footer;
    r
  }

  /** The rebuild loop: `new_content += entry + '\n    '`, then the strip and
      the footer. */
  method RebuildTypes(header: string, entries: seq<string>) returns (out: string)
    ensures out == Rebuilt(header, entries)
  {
    var text := header;
    var i := 0;
    while i < |entries|
      invariant i <= |entries|
      invariant text == header + Joined(entries[..i], Separator)
    {
      assert entries[..i + 1][..i] == entries[..i];
      text := text + entries[i] + Separator;
      i := i + 1;
    }
    assert entries[..i] == entries;
    out := RStrip(text, IsSpace) + "\n" + Footer;
  }

  /** With at least one entry, the strip removes exactly the last separator:
      the file is the header, the entries one separator apart, and the
      footer on its own line. */
  lemma RebuiltKept(header: string, entries: seq<string>)
    requires |entries| > 0 && EndsWith(entries[|entries| - 1], ">")
    ensures Rebuilt(header, entries) == header + Interleaved(entries, Separator) + "\n" + Footer
  {
    var last := entries[|entries| - 1];
    assert last[|last| - 1..] == ">";
    assert last[|last| - 1] == '>';
    var inter := Interleaved(entries, Separator);
    InterleavedEnds(entries, Separator);
    var body := header + inter;
    assert body[|body| - 1] == inter[|inter| - 1] == '>';
    JoinedInterleaved(entries, Separator);
    assert header + Joined(entries, Separator) == body + Separator;
    SeparatorBlank();
    RStripSuffix(body, Separator, IsSpace);
    assert RStrip(header + Joined(entries, Separator), IsSpace) == body;
  }

  lemma SeparatorBlank()
    ensures forall k :: 0 <= k < |Separator| ==> IsSpace(Separator[k])
  {
  }

  /** The header lies before every match: a match opens with
      `<type name=`, and the header holds none. */
  lemma HeaderBeforeBlocks(content: string)
    ensures forall i :: 0 <= i < |TypeBlocksOf(content)| ==> |Header(content)| <= TypeBlocksOf(content)[i].start
  {
    var bs := TypeBlocksOf(content);
    forall i | 0 <= i < |bs|
      ensures |Header(content)| <= bs[i].start
    {
      BlocksMeans(content, 0, "");
      HeaderBeforeMatch(content, bs[i]);
    }
  }

  /** One match lies after the header. */
  lemma HeaderBeforeMatch(content: string, b: Block)
    requires WellMatched(content, "", b)
    ensures |Header(content)| <= b.start
  {
    assert OccursAt(content, OpenTag(""), b.start);
    var t := content[b.start..b.start + |OpenTag("")|];
    assert content[b.start..b.start + |TypeMarker|] == t[..|TypeMarker|];
    assert OccursAt(content, TypeMarker, b.start);
  }

  /** What the run writes: the kept blocks verbatim and in their order, after
      the header, and the footer; with nothing kept, the stripped header and
      the footer. */
  lemma FilteredFileMeans(keepLines: seq<string>, content: string)
    ensures var entries := KeptEntries(TypeBlocksOf(content), KeepSet(keepLines), "");
      |entries| > 0 ==>
        Rebuilt(Header(content), entries) == Header(content) + Interleaved(entries, Separator) + "\n" + Footer
    ensures var entries := KeptEntries(TypeBlocksOf(content), KeepSet(keepLines), "");
      |entries| == 0 ==> Rebuilt(Header(content), entries) == RStrip(Header(content), IsSpace) + "\n" + Footer
  {
    var entries := KeptEntries(TypeBlocksOf(content), KeepSet(keepLines), "");
    if |entries| > 0 {
      KeptEntriesEnd(TypeBlocksOf(content), KeepSet(keepLines), "");
      RebuiltKept(Header(content), entries);
    } else {
      assert Header(content) + Joined(entries, Separator) == Header(content);
    }
  }

  /** The whole run: the backup copy, the new file text and the two counters. */
  method FilterTypesFile(keepLines: seq<string>, content: string)
    returns (backup: string, output: string, kept: nat, removed: nat)
    ensures backup == content
    ensures output == Rebuilt(Header(content), KeptEntries(TypeBlocksOf(content), KeepSet(keepLines), ""))
    ensures kept == KeptCount(TypeBlocksOf(content), KeepSet(keepLines))
    ensures kept + removed == |TypeBlocksOf(content)|
  {
    var keep := ReadKeepList(keepLines);
    backup := content;
    var blocks := Blocks(content, 0, "");
    var header := Before(content, TypeMarker);
    var entries;
    entries, kept, removed := FilterBlocks(blocks, keep, "");
    output := RebuildTypes(header, entries);
  }
}
