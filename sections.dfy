/**
 * `_split_by_headers` of src/chunker.py: cleaned markdown is cut into sections at every H1, H2 or H3
 * header line. The lines of the text form blocks, each opened by a header line (the first block by the
 * start of the text, with the empty header); a block whose joined lines are not blank becomes a section.
 */
module Sections {
  import opened Text

  datatype Section = Section(header: string, body: string)

  /** The header line that opens a block (its title), and the non-header lines under it. */
  datatype Block = Block(title: string, lines: seq<string>)

  /** The number of `#` characters a line starts with. */
  function LeadingHashes(line: string): (n: nat)
    ensures n <= |line|
    ensures forall i :: 0 <= i < n ==> line[i] == '#'
    ensures n < |line| ==> line[n] != '#'
  {
    if line == [] || line[0] != '#' then 0 else 1 + LeadingHashes(line[1..])
  }

  /**
   * `^(#{1,3})\s+(.+)$` matches a line: one to three `#` (a fourth `#` would have to match `\s`), at least
   * one white-space character, and at least one more character.
   */
  predicate IsHeaderLine(line: string) {
    var h := LeadingHashes(line);
    1 <= h <= 3 && h + 2 <= |line| && IsSpace(line[h])
  }

  /**
   * The header pattern on sample lines: one to three `#`, white space, and at least one more character
   * (which may itself be white space, giving an empty title); four `#`, no space, or nothing after the
   * space is no header.
   */
  lemma HeaderLineSamples()
    ensures IsHeaderLine("# A") && IsHeaderLine("### A") && IsHeaderLine("#  ")
    ensures !IsHeaderLine("#### A") && !IsHeaderLine("#A") && !IsHeaderLine("# ") && !IsHeaderLine("")
  {
    HashCount("# A", 1);
    HashCount("### A", 3);
    HashCount("#  ", 1);
    HashCount("#### A", 4);
    HashCount("#A", 1);
    HashCount("# ", 1);
  }

  /** A line whose first `h` characters are `#` and whose next one is not starts with exactly `h` of them. */
  lemma HashCount(line: string, h: nat)
    requires h < |line| && line[h] != '#' && forall i :: 0 <= i < h ==> line[i] == '#'
    ensures LeadingHashes(line) == h
  {
  }

  /**
   * `m.group(2).strip()`: the greedy `\s+` gives back at most one white-space character to `.+`, and
   * stripping removes it again, so the title is what follows the hashes, stripped.
   */
  function HeaderTitle(line: string): (r: string)
    requires IsHeaderLine(line)
    ensures IsStripped(r) && |r| < |line|
  {
    Strip(line[LeadingHashes(line)..])
  }

  /** The blocks of `lines`, scanning them in order. */
  function Blocks(lines: seq<string>): (r: seq<Block>)
    ensures |r| >= 1 && r[0].title == ""
    decreases |lines|
  {
    if lines == [] then [Block("", [])]
    else
      var prev := Blocks(lines[..|lines| - 1]);
      var line := lines[|lines| - 1];
      if IsHeaderLine(line) then prev + [Block(HeaderTitle(line), [])]
      else
        var last := prev[|prev| - 1];
        prev[..|prev| - 1] + [Block(last.title, last.lines + [line])]
  }

  /** `"\n".join(lines).strip()`. */
  function BlockBody(lines: seq<string>): (r: string)
    ensures IsStripped(r)
  {
    Strip(Join(lines, "\n"))
  }

  /** The section a block contributes: none when its body is blank. */
  function BlockSection(b: Block): (r: seq<Section>)
    ensures |r| <= 1
    ensures r == [] <==> BlockBody(b.lines) == []
    ensures forall k :: 0 <= k < |r| ==> r[k] == Section(b.title, BlockBody(b.lines))
  {
    var body := BlockBody(b.lines);
    if body == [] then [] else [Section(b.title, body)]
  }

  /** The sections the blocks contribute, in order; every one has a non-blank, stripped body. */
  function Emit(blocks: seq<Block>): (r: seq<Section>)
    ensures |r| <= |blocks|
    ensures forall k :: 0 <= k < |r| ==> r[k].body != [] && IsStripped(r[k].body)
    decreases |blocks|
  {
    if blocks == [] then []
    else Emit(blocks[..|blocks| - 1]) + BlockSection(blocks[|blocks| - 1])
  }

  /** The whole text as one section, used when no block has a body. */
  function Fallback(text: string): seq<Section> {
    [Section("", Strip(text))]
  }

  /** `_split_by_headers(text)`. */
  function SplitSections(text: string): (r: seq<Section>)
    ensures |r| >= 1
    ensures forall k :: 0 <= k < |r| ==> IsStripped(r[k].body)
    ensures r == Fallback(text) || forall k :: 0 <= k < |r| ==> r[k].body != []
  {
    var emitted := Emit(Blocks(SplitLines(text)));
    if emitted == [] then Fallback(text) else emitted
  }

  /** The loop of `_split_by_headers`: a section is emitted whenever a header line closes a block. */
  method SplitByHeaders(text: string) returns (sections: seq<Section>)
    ensures sections == SplitSections(text)
  {
    var lines := SplitLines(text);
    sections := [];
    var currentHeader := "";
    var currentLines: seq<string> := [];
    var i := 0;
    assert lines[..0] == [];
    while i < |lines|
      invariant 0 <= i <= |lines|
      invariant Scanned(lines, i, sections, currentHeader, currentLines)
    {
      var line := lines[i];
      if IsHeaderLine(line) {
        ghost var before := sections;
        var body := BlockBody(currentLines);
        if body != [] {
          sections := sections + [Section(currentHeader, body)];
        }
        ScanHeader(lines, i, before, currentHeader, currentLines, sections);
        currentHeader := HeaderTitle(line);
        currentLines := [];
      } else {
        ScanLine(lines, i, sections, currentHeader, currentLines);
        currentLines := currentLines + [line];
      }
      i := i + 1;
    }
    ghost var before := sections;
    var body := BlockBody(currentLines);
    if body != [] {
      sections := sections + [Section(currentHeader, body)];
    }
    ScanEnd(lines, before, currentHeader, currentLines, sections);
    if sections == [] {
      sections := [Section("", Strip(text))];
    }
  }

  /**
   * After the first `i` lines, `sections` holds what the closed blocks emitted, and the block still
   * open has title `header` and lines `open`.
   */
  ghost predicate Scanned(lines: seq<string>, i: nat, sections: seq<Section>, header: string, open: seq<string>)
    requires i <= |lines|
  {
    var bs := Blocks(lines[..i]);
    sections == Emit(bs[..|bs| - 1]) && bs[|bs| - 1] == Block(header, open)
  }

  /** The sections after closing the block titled `header` with lines `open`. */
  function Closed(sections: seq<Section>, header: string, open: seq<string>): seq<Section> {
    if BlockBody(open) != [] then sections + [Section(header, BlockBody(open))] else sections
  }

  /** A header line closes the open block and opens an empty one under its title. */
  lemma ScanHeader(lines: seq<string>, i: nat, sections: seq<Section>, header: string, open: seq<string>, next: seq<Section>)
    requires i < |lines| && IsHeaderLine(lines[i]) && Scanned(lines, i, sections, header, open)
    requires next == Closed(sections, header, open)
    ensures Scanned(lines, i + 1, next, HeaderTitle(lines[i]), [])
  {
    BlocksStep(lines, i);
    var bs := Blocks(lines[..i]);
    EmitSnoc(bs);
    assert (bs + [Block(HeaderTitle(lines[i]), [])])[..|bs|] == bs;
  }

  /** Any other line joins the open block. */
  lemma ScanLine(lines: seq<string>, i: nat, sections: seq<Section>, header: string, open: seq<string>)
    requires i < |lines| && !IsHeaderLine(lines[i]) && Scanned(lines, i, sections, header, open)
    ensures Scanned(lines, i + 1, sections, header, open + [lines[i]])
  {
    BlocksStep(lines, i);
  }

  /** Closing the last block gives what all blocks emit. */
  lemma ScanEnd(lines: seq<string>, sections: seq<Section>, header: string, open: seq<string>, next: seq<Section>)
    requires Scanned(lines, |lines|, sections, header, open)
    requires next == Closed(sections, header, open)
    ensures next == Emit(Blocks(lines))
  {
    assert lines[..|lines|] == lines;
    EmitSnoc(Blocks(lines));
  }

  /** One more line either opens a block or joins the last one. */
  lemma BlocksStep(lines: seq<string>, i: nat)
    requires i < |lines|
    ensures var prev := Blocks(lines[..i]); var line := lines[i];
      Blocks(lines[..i + 1]) ==
        if IsHeaderLine(line) then prev + [Block(HeaderTitle(line), [])]
        else prev[..|prev| - 1] + [Block(prev[|prev| - 1].title, prev[|prev| - 1].lines + [line])]
  {
    assert lines[..i + 1][..i] == lines[..i];
  }

  lemma EmitSnoc(bs: seq<Block>)
    requires |bs| >= 1
    ensures Emit(bs) == Emit(bs[..|bs| - 1]) + BlockSection(bs[|bs| - 1])
  {
  }

  // ---------------------------------------------------------------------------
  // What the blocks hold
  // ---------------------------------------------------------------------------

  /** The titles of the header lines, in order. */
  function HeaderTitles(lines: seq<string>): seq<string>
    decreases |lines|
  {
    if lines == [] then []
    else
      var line := lines[|lines| - 1];
      HeaderTitles(lines[..|lines| - 1]) + (if IsHeaderLine(line) then [HeaderTitle(line)] else [])
  }

  /** The lines that are not header lines, in order. */
  function BodyLines(lines: seq<string>): seq<string>
    decreases |lines|
  {
    if lines == [] then []
    else
      var line := lines[|lines| - 1];
      BodyLines(lines[..|lines| - 1]) + (if IsHeaderLine(line) then [] else [line])
  }

  function Titles(blocks: seq<Block>): (r: seq<string>)
    ensures |r| == |blocks|
    ensures forall k :: 0 <= k < |r| ==> r[k] == blocks[k].title
  {
    seq(|blocks|, k requires 0 <= k < |blocks| => blocks[k].title)
  }

  function Flatten(blocks: seq<Block>): seq<string>
    decreases |blocks|
  {
    if blocks == [] then [] else Flatten(blocks[..|blocks| - 1]) + blocks[|blocks| - 1].lines
  }

  lemma TitlesSnoc(bs: seq<Block>, b: Block)
    ensures Titles(bs + [b]) == Titles(bs) + [b.title]
  {
  }

  /** One block per header line after the untitled first one, titled in order. */
  lemma {:induction false} BlocksTitles(lines: seq<string>)
    ensures Titles(Blocks(lines)) == [""] + HeaderTitles(lines)
    decreases |lines|
  {
    if lines != [] {
      var init := lines[..|lines| - 1];
      var line := lines[|lines| - 1];
      var prev := Blocks(init);
      BlocksTitles(init);
      var r := Blocks(lines);
      if IsHeaderLine(line) {
        assert r == prev + [Block(HeaderTitle(line), [])];
        TitlesSnoc(prev, Block(HeaderTitle(line), []));
      } else {
        var last := prev[|prev| - 1];
        var front := prev[..|prev| - 1];
        assert r == front + [Block(last.title, last.lines + [line])];
        TitlesSnoc(front, Block(last.title, last.lines + [line]));
        assert front + [last] == prev;
        TitlesSnoc(front, last);
      }
    }
  }

  /** Together the blocks hold every line that is not a header line, in order. */
  lemma {:induction false} BlocksKeepBodyLines(lines: seq<string>)
    ensures Flatten(Blocks(lines)) == BodyLines(lines)
    decreases |lines|
  {
    if lines != [] {
      var init := lines[..|lines| - 1];
      var line := lines[|lines| - 1];
      var prev := Blocks(init);
      BlocksKeepBodyLines(init);
      var r := Blocks(lines);
      if IsHeaderLine(line) {
        assert r == prev + [Block(HeaderTitle(line), [])];
        assert r[..|r| - 1] == prev;
      } else {
        var last := prev[|prev| - 1];
        var front := prev[..|prev| - 1];
        assert r == front + [Block(last.title, last.lines + [line])];
        assert r[..|r| - 1] == front;
        assert Flatten(prev) == Flatten(front) + last.lines;
      }
    }
  }

  /** Text without header lines is one untitled block holding all its lines. */
  lemma {:induction false} NoHeadersOneBlock(lines: seq<string>)
    requires forall k :: 0 <= k < |lines| ==> !IsHeaderLine(lines[k])
    ensures Blocks(lines) == [Block("", lines)]
    decreases |lines|
  {
    if lines != [] {
      var init := lines[..|lines| - 1];
      var line := lines[|lines| - 1];
      NoHeadersOneBlock(init);
      assert !IsHeaderLine(line);
      assert init + [line] == lines;
      assert Blocks(lines) == [Block("", init + [line])];
    }
  }

  /** A header line opens a new block holding exactly the non-header lines that follow it. */
  lemma {:induction false} BlocksAfterHeader(a: seq<string>, h: string, b: seq<string>)
    requires IsHeaderLine(h)
    requires forall k :: 0 <= k < |b| ==> !IsHeaderLine(b[k])
    ensures Blocks(a + [h] + b) == Blocks(a) + [Block(HeaderTitle(h), b)]
    decreases |b|
  {
    if b == [] {
      HeaderOpensBlock(a, h);
    } else {
      var open, line := b[..|b| - 1], b[|b| - 1];
      assert b == open + [line];
      BlocksAfterHeader(a, h, open);
      LineAfterHeaderBlock(a, h, open, line, b);
    }
  }

  lemma HeaderOpensBlock(a: seq<string>, h: string)
    requires IsHeaderLine(h)
    ensures Blocks(a + [h] + []) == Blocks(a) + [Block(HeaderTitle(h), [])]
  {
    BlocksSnocHeader(a, h);
    assert a + [h] + [] == a + [h];
  }

  /** A header line opens a new, empty block. */
  lemma BlocksSnocHeader(lines: seq<string>, h: string)
    requires IsHeaderLine(h)
    ensures Blocks(lines + [h]) == Blocks(lines) + [Block(HeaderTitle(h), [])]
  {
    assert (lines + [h])[..|lines|] == lines;
  }

  lemma LineAfterHeaderBlock(a: seq<string>, h: string, open: seq<string>, line: string, b: seq<string>)
    requires IsHeaderLine(h) && !IsHeaderLine(line) && b == open + [line]
    requires Blocks(a + [h] + open) == Blocks(a) + [Block(HeaderTitle(h), open)]
    ensures Blocks(a + [h] + b) == Blocks(a) + [Block(HeaderTitle(h), b)]
  {
    SnocShape(a, h, open, line, b);
    BlocksSnocLine(a + [h] + open, line, Blocks(a), HeaderTitle(h), open);
  }

  lemma SnocShape(a: seq<string>, h: string, open: seq<string>, line: string, b: seq<string>)
    requires b == open + [line]
    ensures a + [h] + b == (a + [h] + open) + [line]
  {
  }

  /** A non-header line joins the last block. */
  lemma BlocksSnocLine(lines: seq<string>, line: string, before: seq<Block>, title: string, open: seq<string>)
    requires !IsHeaderLine(line) && Blocks(lines) == before + [Block(title, open)]
    ensures Blocks(lines + [line]) == before + [Block(title, open + [line])]
  {
    assert (lines + [line])[..|lines|] == lines;
    LineJoinsLastBlock(Blocks(lines), before, title, open, line);
  }

  lemma LineJoinsLastBlock(prev: seq<Block>, before: seq<Block>, title: string, open: seq<string>, line: string)
    requires prev == before + [Block(title, open)]
    ensures prev[..|prev| - 1] + [Block(prev[|prev| - 1].title, prev[|prev| - 1].lines + [line])]
      == before + [Block(title, open + [line])]
  {
    assert prev[..|prev| - 1] == before;
  }

  /** Without header lines the page is one untitled section: its lines joined and stripped. */
  lemma NoHeadersOneSection(text: string)
    requires forall k :: 0 <= k < |SplitLines(text)| ==> !IsHeaderLine(SplitLines(text)[k])
    requires BlockBody(SplitLines(text)) != []
    ensures SplitSections(text) == [Section("", BlockBody(SplitLines(text)))]
  {
    var lines := SplitLines(text);
    NoHeadersOneBlock(lines);
    var b := Block("", lines);
    assert Emit([b]) == [Section("", BlockBody(lines))] by {
      EmitSnoc([b]);
      assert [b][..0] == [];
    }
  }

  /** An empty text falls back to one untitled, empty section. */
  lemma EmptyTextOneSection()
    ensures SplitSections("") == [Section("", "")]
  {
    assert SplitLines("") == [];
    assert Emit([Block("", [])]) == [] by {
      assert BlockBody([]) == [];
      EmitSnoc([Block("", [])]);
    }
  }

  /** Blocks that hold no lines contribute no section. */
  lemma {:induction false} EmitOfEmptyBlocks(blocks: seq<Block>)
    requires forall k :: 0 <= k < |blocks| ==> blocks[k].lines == []
    ensures Emit(blocks) == []
    decreases |blocks|
  {
    if blocks != [] {
      EmitOfEmptyBlocks(blocks[..|blocks| - 1]);
      assert BlockBody([]) == [];
    }
  }

  /** When every line is a header line, every block is empty. */
  lemma {:induction false} AllHeadersEmptyBlocks(lines: seq<string>)
    requires forall k :: 0 <= k < |lines| ==> IsHeaderLine(lines[k])
    ensures forall k :: 0 <= k < |Blocks(lines)| ==> Blocks(lines)[k].lines == []
    decreases |lines|
  {
    if lines != [] {
      AllHeadersEmptyBlocks(lines[..|lines| - 1]);
    }
  }

  /**
   * A page made only of header lines has no section with a body, so it falls back to one untitled
   * section holding the header text itself (for instance `# Title` gives `("", "# Title")`).
   */
  lemma HeadersOnlyFallback(text: string)
    requires forall k :: 0 <= k < |SplitLines(text)| ==> IsHeaderLine(SplitLines(text)[k])
    ensures SplitSections(text) == Fallback(text)
  {
    AllHeadersEmptyBlocks(SplitLines(text));
    EmitOfEmptyBlocks(Blocks(SplitLines(text)));
  }
}
