/**
 * The chunkers of core/langchain_rag.py (`chunk_law_text_advanced`, `chunk_precedent_text_advanced`):
 * the same cleaning and segmenting as core/legal_rag.py, then every segment longer than the
 * splitter's `chunk_size` (800 for statutes, 1200 for case law) is handed to LangChain's
 * `RecursiveCharacterTextSplitter`, which is not modelled: its `split_text` is the parameter `split`.
 */
module AdvancedChunker {
  import opened Records
  import opened HtmlCleaner
  import opened Segmenter

  /** A LangChain `Document(page_content, metadata)`. */
  datatype Document = Document(pageContent: string, metadata: Metadata)

  /** The chunks the loop `for segment in segments` emits: a long segment split, a short one as it is. */
  function Pieces(segments: seq<string>, limit: nat, split: string -> seq<string>): seq<string> {
    if segments == [] then []
    else (if |segments[0]| > limit then split(segments[0]) else [segments[0]]) + Pieces(segments[1..], limit, split)
  }

  /** The chunks of two runs of segments are the chunks of each, in order. */
  lemma {:induction false} PiecesAppend(a: seq<string>, b: seq<string>, limit: nat, split: string -> seq<string>)
    ensures Pieces(a + b, limit, split) == Pieces(a, limit, split) + Pieces(b, limit, split)
  {
    if a == [] {
      assert a + b == b;
    } else {
      assert (a + b)[1..] == a[1..] + b;
      PiecesAppend(a[1..], b, limit, split);
    }
  }

  /** A segment no longer than the splitter's size becomes exactly one chunk, unchanged, in its place. */
  lemma ShortSegmentKept(segments: seq<string>, k: nat, limit: nat, split: string -> seq<string>)
    requires k < |segments| && |segments[k]| <= limit
    ensures Pieces(segments, limit, split)
      == Pieces(segments[..k], limit, split) + [segments[k]] + Pieces(segments[k + 1..], limit, split)
  {
    assert segments == segments[..k] + ([segments[k]] + segments[k + 1..]);
    PiecesAppend(segments[..k], [segments[k]] + segments[k + 1..], limit, split);
    assert ([segments[k]] + segments[k + 1..])[1..] == segments[k + 1..];
  }

  /** When no segment is too long the splitter is never called and the chunks are the segments. */
  lemma {:induction false} AllShortKept(segments: seq<string>, limit: nat, split: string -> seq<string>)
    requires forall s | s in segments :: |s| <= limit
    ensures Pieces(segments, limit, split) == segments
  {
    if segments != [] {
      AllShortKept(segments[1..], limit, split);
    }
  }

  function Contents(docs: seq<Document>): (r: seq<string>)
    ensures |r| == |docs|
    ensures forall i | 0 <= i < |docs| :: r[i] == docs[i].pageContent
  {
    seq(|docs|, i requires 0 <= i < |docs| => docs[i].pageContent)
  }

  /** `{**metadata, "chunk_index": i, "source_type": sourceType}`. */
  function ChunkMetadata(metadata: Metadata, i: int, sourceType: string): (m: Metadata)
    ensures "chunk_index" in m && "source_type" in m && m["chunk_index"] == Int(i) && m["source_type"] == Str(sourceType)
    ensures forall k | k in metadata && k != "chunk_index" && k != "source_type" :: k in m && m[k] == metadata[k]
    ensures m.Keys == metadata.Keys + {"chunk_index", "source_type"}
  {
    metadata["chunk_index" := Int(i)]["source_type" := Str(sourceType)]
  }

  /** Document `i` carries `chunk_index == i` and the given `source_type`, on top of the parent metadata. */
  ghost predicate Numbered(docs: seq<Document>, metadata: Metadata, sourceType: string) {
    forall i | 0 <= i < |docs| :: docs[i].metadata == ChunkMetadata(metadata, i, sourceType)
  }

  /** The inner loop `for chunk in chunks: documents.append(Document(chunk, {..., "chunk_index": len(documents), ...}))`. */
  method AppendDocuments(docs: seq<Document>, chunks: seq<string>, metadata: Metadata, sourceType: string)
    returns (r: seq<Document>)
    requires Numbered(docs, metadata, sourceType)
    ensures Contents(r) == Contents(docs) + chunks
    ensures Numbered(r, metadata, sourceType)
  {
    r := docs;
    var i := 0;
    while i < |chunks|
      invariant i <= |chunks|
      invariant Contents(r) == Contents(docs) + chunks[..i]
      invariant Numbered(r, metadata, sourceType)
    {
      r := r + [Document(chunks[i], ChunkMetadata(metadata, |r|, sourceType))];
      assert chunks[..i + 1] == chunks[..i] + [chunks[i]];
      i := i + 1;
    }
    assert chunks[..i] == chunks;
  }

  /** The outer loop over the segments. */
  method EmitSegments(segments: seq<string>, limit: nat, split: string -> seq<string>, metadata: Metadata, sourceType: string)
    returns (docs: seq<Document>)
    ensures Contents(docs) == Pieces(segments, limit, split)
    ensures Numbered(docs, metadata, sourceType)
  {
    docs := [];
    var k := 0;
    while k < |segments|
      invariant k <= |segments|
      invariant Contents(docs) == Pieces(segments[..k], limit, split)
      invariant Numbered(docs, metadata, sourceType)
    {
      var segment := segments[k];
      var chunks := if |segment| > limit then split(segment) else [segment];
      PiecesAppend(segments[..k], [segment], limit, split);
      assert segments[..k + 1] == segments[..k] + [segment];
      assert Pieces([segment], limit, split) == chunks + [];
      docs := AppendDocuments(docs, chunks, metadata, sourceType);
      k := k + 1;
    }
    assert segments[..k] == segments;
  }

  /**
   * `chunk_law_text_advanced`: `[]` for a text that cleans to nothing; otherwise the statute
   * segments, each longer than 800 characters split by `split`, numbered 0..n-1 with
   * `source_type` set to "law".
   */
  method ChunkLawTextAdvanced(text: string, metadata: Metadata, split: string -> seq<string>) returns (docs: seq<Document>)
    ensures CleanHtml(text) == [] ==> docs == []
    ensures CleanHtml(text) != [] ==> Contents(docs) == Pieces(LawSegments(CleanHtml(text)), 800, split)
    ensures Numbered(docs, metadata, "law")
  {
    var cleaned := CleanHtml(text);
    if cleaned == [] {
      return [];
    }
    docs := EmitSegments(LawSegments(cleaned), 800, split, metadata, "law");
  }

  /**
   * `chunk_precedent_text_advanced`: the same over the case-law segments as written (the
   * header/content merge, which repeats each header), with 1200 as the splitter's size and
   * `source_type` set to "precedent".
   */
  method ChunkPrecedentTextAdvanced(text: string, metadata: Metadata, split: string -> seq<string>) returns (docs: seq<Document>)
    ensures CleanHtml(text) == [] ==> docs == []
    ensures CleanHtml(text) != [] ==> Contents(docs) == Pieces(MergedSegments(CleanHtml(text)), 1200, split)
    ensures Numbered(docs, metadata, "precedent")
  {
    var cleaned := CleanHtml(text);
    if cleaned == [] {
      return [];
    }
    docs := EmitSegments(MergedSegments(cleaned), 1200, split, metadata, "precedent");
  }

  /**
   * `chunk_precedent_text_advanced` over the corrected case-law segments, each section once with
   * its own `[header]`.
   */
  method ChunkPrecedentTextAdvancedCorrected(text: string, metadata: Metadata, split: string -> seq<string>) returns (docs: seq<Document>)
    ensures CleanHtml(text) == [] ==> docs == []
    ensures CleanHtml(text) != [] ==> Contents(docs) == Pieces(PrecedentSegments(CleanHtml(text)), 1200, split)
    ensures Numbered(docs, metadata, "precedent")
  {
    var cleaned := CleanHtml(text);
    if cleaned == [] {
      return [];
    }
    docs := EmitSegments(PrecedentSegments(cleaned), 1200, split, metadata, "precedent");
  }
}
