/**
 * `chunk_page` of src/chunker.py: the page content is cleaned (HTML through an extractor, markdown
 * through the markdown pipeline), cut into sections, and every section is cut into word windows whose
 * chunk indices continue across sections.
 */
module Chunker {
  import opened Text
  import opened Windows
  import opened Cleaning
  import opened Sections

  /** `content_type.lower() == "html"`; no non-ASCII character lower-cases to an ASCII letter of "html". */
  predicate IsHtml(contentType: string) {
    Lower(contentType) == "html"
  }

  /**
   * The sections of a page. `stripHtml` is `_strip_html`, whose HTML parsing is not part of this model:
   * HTML becomes one untitled section of the extracted text with its white-space runs collapsed.
   */
  function PageSections(content: string, contentType: string, stripHtml: string -> string): (r: seq<Section>)
    ensures |r| >= 1
    ensures forall k :: 0 <= k < |r| ==> IsStripped(r[k].header) && IsStripped(r[k].body)
  {
    if IsHtml(contentType) then [Section("", CleanExtractedHtml(stripHtml(content)))]
    else
      var sections := SplitSections(CleanMarkdown(content));
      SectionHeadersStripped(CleanMarkdown(content));
      sections
  }

  /** Every section header is a stripped header title, or empty. */
  lemma SectionHeadersStripped(text: string)
    ensures forall k :: 0 <= k < |SplitSections(text)| ==> IsStripped(SplitSections(text)[k].header)
  {
    if Emit(Blocks(SplitLines(text))) == [] {
      FallbackHeader(text);
      assert Fallback(text)[0].header == "";
    } else {
      EmittedHeaders(text);
    }
  }

  lemma FallbackHeader(text: string)
    requires Emit(Blocks(SplitLines(text))) == []
    ensures SplitSections(text) == Fallback(text)
  {
  }

  lemma EmittedHeaders(text: string)
    requires Emit(Blocks(SplitLines(text))) != []
    ensures forall k :: 0 <= k < |SplitSections(text)| ==> IsStripped(SplitSections(text)[k].header)
  {
    var bs := Blocks(SplitLines(text));
    BlocksTitlesStripped(SplitLines(text));
    EmitHeaders(bs);
    assert SplitSections(text) == Emit(bs);
  }

  lemma {:induction false} BlocksTitlesStripped(lines: seq<string>)
    ensures forall k :: 0 <= k < |Blocks(lines)| ==> IsStripped(Blocks(lines)[k].title)
    decreases |lines|
  {
    if lines != [] {
      BlocksTitlesStripped(lines[..|lines| - 1]);
    }
  }

  lemma {:induction false} EmitHeaders(bs: seq<Block>)
    requires forall k :: 0 <= k < |bs| ==> IsStripped(bs[k].title)
    ensures forall k :: 0 <= k < |Emit(bs)| ==> IsStripped(Emit(bs)[k].header)
    decreases |bs|
  {
    if bs != [] {
      EmitHeaders(bs[..|bs| - 1]);
    }
  }

  /** The chunks of all sections in order, each section numbered on from the chunks before it. */
  function ChunkSections(sections: seq<Section>, size: nat, overlap: nat): seq<Chunk>
    requires overlap < size
    decreases |sections|
  {
    if sections == [] then []
    else
      var before := ChunkSections(sections[..|sections| - 1], size, overlap);
      var s := sections[|sections| - 1];
      before + SectionChunks(s.header, s.body, size, overlap, |before|)
  }

  /** `chunk_page(content, content_type, chunk_size, chunk_overlap)`. */
  function PageChunks(content: string, contentType: string, size: nat, overlap: nat, stripHtml: string -> string)
    : seq<Chunk>
    requires overlap < size
  {
    ChunkSections(PageSections(content, contentType, stripHtml), size, overlap)
  }

  /** The loop of `chunk_page`: each section's windows are appended, starting at the number of chunks so far. */
  method ChunkPage(content: string, contentType: string, chunkSize: nat, chunkOverlap: nat, stripHtml: string -> string)
    returns (allChunks: seq<Chunk>)
    requires chunkOverlap < chunkSize
    ensures allChunks == PageChunks(content, contentType, chunkSize, chunkOverlap, stripHtml)
  {
    var sections := PageSections(content, contentType, stripHtml);
    allChunks := [];
    var i := 0;
    while i < |sections|
      invariant 0 <= i <= |sections|
      invariant allChunks == ChunkSections(sections[..i], chunkSize, chunkOverlap)
    {
      var s := sections[i];
      var newChunks := WindowChunks(s.header, s.body, chunkSize, chunkOverlap, |allChunks|);
      ChunkSectionsStep(sections, i, chunkSize, chunkOverlap, allChunks, newChunks);
      allChunks := allChunks + newChunks;
      i := i + 1;
    }
    assert sections[..i] == sections;
  }

  /** One turn of the `chunk_page` loop appends the next section's chunks. */
  lemma ChunkSectionsStep(sections: seq<Section>, i: nat, size: nat, overlap: nat, before: seq<Chunk>, next: seq<Chunk>)
    requires overlap < size && i < |sections|
    requires before == ChunkSections(sections[..i], size, overlap)
    requires next == SectionChunks(sections[i].header, sections[i].body, size, overlap, |before|)
    ensures before + next == ChunkSections(sections[..i + 1], size, overlap)
  {
    assert sections[..i + 1][..i] == sections[..i];
    assert sections[..i + 1][i] == sections[i];
  }

  // ---------------------------------------------------------------------------
  // Properties of the chunks of a page
  // ---------------------------------------------------------------------------

  /** Chunk indices run 0, 1, 2, ... across the whole page. */
  lemma {:induction false} ChunkIndicesContiguous(sections: seq<Section>, size: nat, overlap: nat)
    requires overlap < size
    ensures forall k :: 0 <= k < |ChunkSections(sections, size, overlap)| ==>
      ChunkSections(sections, size, overlap)[k].chunkIndex == k
    decreases |sections|
  {
    if sections != [] {
      ChunkIndicesContiguous(sections[..|sections| - 1], size, overlap);
    }
  }

  /** Every chunk belongs to one of the sections and carries its header. */
  lemma {:induction false} ChunkSectionsFromSections(sections: seq<Section>, size: nat, overlap: nat, k: nat)
    requires overlap < size && k < |ChunkSections(sections, size, overlap)|
    ensures exists j :: 0 <= j < |sections| && ChunkSections(sections, size, overlap)[k].section == sections[j].header
    decreases |sections|
  {
    var init := sections[..|sections| - 1];
    var before := ChunkSections(init, size, overlap);
    if k < |before| {
      ChunkSectionsFromSections(init, size, overlap, k);
      var j :| 0 <= j < |init| && before[k].section == init[j].header;
      assert sections[j] == init[j];
    } else {
      assert ChunkSections(sections, size, overlap)[k].section == sections[|sections| - 1].header;
    }
  }

  /** No chunk text is empty: every window holds at least one word. */
  lemma ChunkTextsNonEmpty(sections: seq<Section>, size: nat, overlap: nat, k: nat)
    requires overlap < size && k < |ChunkSections(sections, size, overlap)|
    requires forall j :: 0 <= j < |sections| ==> IsStripped(sections[j].header)
    ensures ChunkSections(sections, size, overlap)[k].text != ""
  {
    ChunkTextsNonEmptyRec(sections, size, overlap, k);
  }

  lemma {:induction false} ChunkTextsNonEmptyRec(sections: seq<Section>, size: nat, overlap: nat, k: nat)
    requires overlap < size && k < |ChunkSections(sections, size, overlap)|
    requires forall j :: 0 <= j < |sections| ==> IsStripped(sections[j].header)
    ensures ChunkSections(sections, size, overlap)[k].text != ""
    decreases |sections|
  {
    var init := sections[..|sections| - 1];
    var before := ChunkSections(init, size, overlap);
    if k < |before| {
      ChunkTextsNonEmptyRec(init, size, overlap, k);
    } else {
      var s := sections[|sections| - 1];
      var words := Words(s.body);
      var w := k - |before|;
      WindowShape(words, size, overlap, w);
      WindowWords(words, size, overlap, w);
      ChunkTextShape(s.header, Windows.Windows(words, size, overlap)[w]);
    }
  }

  /** Sections whose bodies are blank give no chunks at all. */
  lemma {:induction false} BlankSectionsNoChunks(sections: seq<Section>, size: nat, overlap: nat)
    requires overlap < size
    requires forall j :: 0 <= j < |sections| ==> AllSpace(sections[j].body)
    ensures ChunkSections(sections, size, overlap) == []
    decreases |sections|
  {
    if sections != [] {
      var s := sections[|sections| - 1];
      BlankSectionsNoChunks(sections[..|sections| - 1], size, overlap);
      BlankBodyNoChunks(s.header, s.body, size, overlap, 0);
    }
  }

  /** An HTML page is never split at headers: all its chunks are untitled and carry no header prefix. */
  lemma HtmlChunksUntitled(content: string, contentType: string, size: nat, overlap: nat, stripHtml: string -> string, k: nat)
    requires overlap < size && IsHtml(contentType)
    requires k < |PageChunks(content, contentType, size, overlap, stripHtml)|
    ensures PageChunks(content, contentType, size, overlap, stripHtml)[k].section == ""
  {
    var sections := PageSections(content, contentType, stripHtml);
    assert sections[..0] == [];
    assert ChunkSections(sections, size, overlap) == SectionChunks("", sections[0].body, size, overlap, 0);
  }

  lemma OneEmptySectionNoChunks(size: nat, overlap: nat)
    requires overlap < size
    ensures ChunkSections([Section("", "")], size, overlap) == []
  {
    BlankSectionsNoChunks([Section("", "")], size, overlap);
  }

  /** A page whose cleaned text is empty gives no chunks. */
  lemma EmptyPageNoChunks(content: string, contentType: string, size: nat, overlap: nat, stripHtml: string -> string)
    requires overlap < size
    requires if IsHtml(contentType) then CleanExtractedHtml(stripHtml(content)) == "" else CleanMarkdown(content) == ""
    ensures PageChunks(content, contentType, size, overlap, stripHtml) == []
  {
    if !IsHtml(contentType) {
      EmptyTextOneSection();
    }
    OneEmptySectionNoChunks(size, overlap);
  }
}
