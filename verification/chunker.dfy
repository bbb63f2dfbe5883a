/**
 * The chunkers of core/legal_rag.py: `chunk_law_text` and `chunk_precedent_text` clean the text,
 * cut it into segments, greedily pack the segments into a buffer of at most `chunk_size`
 * characters, cut any segment too long on its own into windows of `chunk_size` characters that
 * start `chunk_size - overlap` apart, and number the chunks with `_append_chunk`.
 */
module Chunker {
  import opened PyText
  import opened Wrappers
  import opened Records
  import opened HtmlCleaner
  import opened Segmenter

  /**
   * `_generate_chunk_id`: the id of chunk `chunkIndex` of the document `sourceId`. The digest is
   * modelled by the pair it is computed from, so distinct pairs give distinct ids.
   */
  function GenerateChunkId(sourceId: MetaValue, chunkIndex: int): (id: ChunkId)
    ensures id.source == sourceId && id.index == chunkIndex
  {
    ChunkId(sourceId, chunkIndex)
  }

  /** Chunks of different documents, or at different positions, never share an id. */
  lemma ChunkIdsDistinct(a: MetaValue, i: int, b: MetaValue, j: int)
    requires a != b || i != j
    ensures GenerateChunkId(a, i) != GenerateChunkId(b, j)
  {
    var x := GenerateChunkId(a, i);
    var y := GenerateChunkId(b, j);
    assert x.source == a && x.index == i && y.source == b && y.index == j;
  }

  /** `metadata.get("source_id", "unknown")`. */
  function SourceId(metadata: Metadata): MetaValue {
    Get(metadata, "source_id", Str("unknown"))
  }

  /** The texts of a chunk list, in order. */
  function Texts(chunks: seq<Chunk>): (r: seq<string>)
    ensures |r| == |chunks|
    ensures forall i | 0 <= i < |chunks| :: r[i] == chunks[i].text
  {
    seq(|chunks|, i requires 0 <= i < |chunks| => chunks[i].text)
  }

  /**
   * Chunk `i` of the list has the id `gen(sourceId, i)` and the parent metadata with
   * `chunk_index` set to `i`, and nothing else changed.
   */
  ghost predicate WellIndexed(chunks: seq<Chunk>, metadata: Metadata, sourceId: MetaValue) {
    forall i | 0 <= i < |chunks| ::
      chunks[i].id == GenerateChunkId(sourceId, i) && chunks[i].metadata == metadata["chunk_index" := Int(i)]
  }

  /** `_append_chunk`: the new chunk takes the next index, so a well-indexed list stays well indexed. */
  function AppendChunk(chunks: seq<Chunk>, text: string, metadata: Metadata, sourceId: MetaValue): (r: seq<Chunk>)
    ensures Texts(r) == Texts(chunks) + [text]
    ensures r[..|chunks|] == chunks
    ensures WellIndexed(chunks, metadata, sourceId) ==> WellIndexed(r, metadata, sourceId)
  {
    var idx := |chunks|;
    var r := chunks + [Chunk(GenerateChunkId(sourceId, idx), text, metadata["chunk_index" := Int(idx)])];
    assert Texts(r) == Texts(chunks) + [text];
    r
  }

  function Min(a: int, b: int): int { if a <= b then a else b }

  /**
   * The windows `segment[i : i + size].strip()` for `i` in `range(start, len(segment), step)`,
   * keeping the non-empty ones, for a positive step.
   */
  function WindowsFrom(seg: string, size: nat, step: nat, start: nat): seq<string>
    requires step > 0
    decreases |seg| - start
  {
    if start >= |seg| then []
    else
      var sub := Strip(seg[start..Min(start + size, |seg|)]);
      (if sub != [] then [sub] else []) + WindowsFrom(seg, size, step, start + step)
  }

  /** One turn of the window loop. */
  lemma WindowsStep(seg: string, size: nat, step: nat, start: nat)
    requires step > 0 && start < |seg|
    ensures var sub := Strip(seg[start..Min(start + size, |seg|)]);
      WindowsFrom(seg, size, step, start) == (if sub != [] then [sub] else []) + WindowsFrom(seg, size, step, start + step)
  {
  }

  /** The window loop keeps `texts + WindowsFrom(.., i)` fixed. */
  lemma WindowLoopStep(before: seq<string>, after: seq<string>, total: seq<string>, seg: string, size: nat, step: nat, start: nat)
    requires step > 0 && start < |seg|
    requires before + WindowsFrom(seg, size, step, start) == total
    requires var sub := Strip(seg[start..Min(start + size, |seg|)]);
      after == before + (if sub != [] then [sub] else [])
    ensures after + WindowsFrom(seg, size, step, start + step) == total
  {
    WindowsStep(seg, size, step, start);
    var sub := Strip(seg[start..Min(start + size, |seg|)]);
    var head := if sub != [] then [sub] else [];
    var rest := WindowsFrom(seg, size, step, start + step);
    assert (before + head) + rest == before + (head + rest);
  }

  /** Once the start is past the end, the window loop has appended every window. */
  lemma WindowsDone(texts: seq<string>, total: seq<string>, seg: string, size: nat, step: nat, start: nat)
    requires step > 0 && start >= |seg|
    requires texts + WindowsFrom(seg, size, step, start) == total
    ensures texts == total
  {
    assert texts + [] == texts;
  }

  /** The windows of an oversized segment; a negative step makes `range` empty. */
  function Windows(seg: string, size: nat, step: int): seq<string>
    requires step != 0
  {
    if step < 0 then [] else WindowsFrom(seg, size, step, 0)
  }

  /** Every text of the list is non-empty, stripped and at most `size` long. */
  ghost predicate AllBounded(ts: seq<string>, size: nat) {
    forall i | 0 <= i < |ts| :: Trimmed(ts[i]) && |ts[i]| <= size
  }

  lemma BoundedConcat(a: seq<string>, b: seq<string>, size: nat)
    ensures AllBounded(a, size) && AllBounded(b, size) ==> AllBounded(a + b, size)
  {
    if AllBounded(a, size) && AllBounded(b, size) {
      forall i | 0 <= i < |a + b| ensures Trimmed((a + b)[i]) && |(a + b)[i]| <= size {
        if i < |a| {
          assert (a + b)[i] == a[i];
        } else {
          assert (a + b)[i] == b[i - |a|];
        }
      }
    }
  }

  /** The window starting at `start`, once stripped, is at most `size` long. */
  lemma WindowHeadBounded(seg: string, size: nat, step: nat, start: nat) returns (head: seq<string>)
    requires step > 0 && start < |seg|
    ensures WindowsFrom(seg, size, step, start) == head + WindowsFrom(seg, size, step, start + step)
    ensures AllBounded(head, size)
  {
    var sub := Strip(seg[start..Min(start + size, |seg|)]);
    head := if sub != [] then [sub] else [];
  }

  /** Every window is non-empty, stripped and at most `size` long. */
  lemma {:induction false} WindowsFromBounded(seg: string, size: nat, step: nat, start: nat)
    requires step > 0
    ensures AllBounded(WindowsFrom(seg, size, step, start), size)
    decreases |seg| - start
  {
    if start < |seg| {
      var head := WindowHeadBounded(seg, size, step, start);
      var rest := WindowsFrom(seg, size, step, start + step);
      WindowsFromBounded(seg, size, step, start + step);
      BoundedConcat(head, rest, size);
      assert AllBounded(head + rest, size);
    } else {
      assert WindowsFrom(seg, size, step, start) == [];
    }
  }

  /** The windows of an oversized segment are non-empty, stripped and at most `size` long; a negative step gives none. */
  lemma WindowsBounded(seg: string, size: nat, step: int)
    requires step != 0
    ensures step < 0 ==> Windows(seg, size, step) == []
    ensures forall t | t in Windows(seg, size, step) :: Trimmed(t) && |t| <= size
  {
    if step > 0 {
      var ws := WindowsFrom(seg, size, step, 0);
      WindowsFromBounded(seg, size, step, 0);
      forall t | t in ws ensures Trimmed(t) && |t| <= size {
        var i :| 0 <= i < |ws| && ws[i] == t;
      }
    }
  }

  /** `current += (" " if current else "") + segment`. */
  function Extend(current: string, seg: string): string {
    current + (if current != [] then " " else "") + seg
  }

  /**
   * The texts the packing loop of both chunkers appends, given the chunk texts `done` so far and the
   * buffer `current`; `None` when `range` raises `ValueError` on a zero step.
   */
  function Pack(segs: seq<string>, size: nat, overlap: int, done: seq<string>, current: string): Option<seq<string>>
    decreases |segs|
  {
    if segs == [] then
      Some(if Strip(current) != [] then done + [Strip(current)] else done)
    else
      var seg := segs[0];
      if |current| + |seg| + 1 <= size then
        Pack(segs[1..], size, overlap, done, Extend(current, seg))
      else
        var flushed := if current != [] then done + [current] else done;
        if |seg| > size then
          if size - overlap == 0 then None
          else Pack(segs[1..], size, overlap, flushed + Windows(seg, size, size - overlap), "")
        else Pack(segs[1..], size, overlap, flushed, seg)
  }

  /** Every text packing produces is non-empty and at most `size` characters long. */
  lemma {:induction false} PackBounded(segs: seq<string>, size: nat, overlap: int, done: seq<string>, current: string)
    requires forall t | t in done :: 0 < |t| <= size
    requires |current| <= size
    ensures Pack(segs, size, overlap, done, current).Some? ==>
      forall t | t in Pack(segs, size, overlap, done, current).value :: 0 < |t| <= size
    decreases |segs|
  {
    if segs != [] {
      var seg := segs[0];
      if |current| + |seg| + 1 <= size {
        PackBounded(segs[1..], size, overlap, done, Extend(current, seg));
      } else {
        var flushed := if current != [] then done + [current] else done;
        if |seg| > size {
          if size - overlap != 0 {
            WindowsBounded(seg, size, size - overlap);
            PackBounded(segs[1..], size, overlap, flushed + Windows(seg, size, size - overlap), "");
          }
        } else {
          PackBounded(segs[1..], size, overlap, flushed, seg);
        }
      }
    }
  }

  /** Packing raises exactly when `overlap == size` and some segment is longer than `size`. */
  lemma {:induction false} PackFailsIff(segs: seq<string>, size: nat, overlap: int, done: seq<string>, current: string)
    ensures Pack(segs, size, overlap, done, current).None? <==>
      overlap == size && exists k | 0 <= k < |segs| :: |segs[k]| > size
    decreases |segs|
  {
    if segs != [] {
      var seg := segs[0];
      if |current| + |seg| + 1 <= size {
        PackFailsIff(segs[1..], size, overlap, done, Extend(current, seg));
      } else {
        var flushed := if current != [] then done + [current] else done;
        if |seg| > size {
          if size - overlap != 0 {
            PackFailsIff(segs[1..], size, overlap, flushed + Windows(seg, size, size - overlap), "");
          }
        } else {
          PackFailsIff(segs[1..], size, overlap, flushed, seg);
        }
      }
      if overlap == size && (exists k | 0 <= k < |segs| :: |segs[k]| > size) && |seg| <= size {
        var k :| 0 <= k < |segs| && |segs[k]| > size;
        assert segs[1..][k - 1] == segs[k];
      }
      if exists k | 0 <= k < |segs[1..]| :: |segs[1..][k]| > size {
        var k :| 0 <= k < |segs[1..]| && |segs[1..][k]| > size;
        assert segs[k + 1] == segs[1..][k];
      }
    }
  }

  /** Joining two neighbours with a space before joining the list changes nothing. */
  lemma JoinSpaceGlue(done: seq<string>, a: string, b: string, rest: seq<string>)
    ensures JoinSpace(done + [a + " " + b] + rest) == JoinSpace(done + [a, b] + rest)
  {
    var x := [a + " " + b] + rest;
    var y := [a, b] + rest;
    assert JoinSpace(x) == JoinSpace(y) by {
      if rest != [] {
        JoinSpaceAppend([a + " " + b], rest);
        JoinSpaceAppend([a, b], rest);
      }
    }
    if done != [] {
      JoinSpaceAppend(done, x);
      JoinSpaceAppend(done, y);
    }
    assert done + [a + " " + b] + rest == done + x;
    assert done + [a, b] + rest == done + y;
  }

  /** The buffer as a list: nothing when empty. */
  function Buffered(current: string): seq<string> {
    if current == [] then [] else [current]
  }

  /** Packing with no segments left flushes the stripped buffer. */
  lemma {:induction false} PackEnd(size: nat, overlap: int, done: seq<string>, current: string)
    requires current == [] || Trimmed(current)
    ensures Pack([], size, overlap, done, current) == Some(done + Buffered(current))
  {
    if current != [] {
      StripTrimmed(current);
    } else {
      assert done + [] == done;
    }
  }

  /** A segment that fits is added to the buffer. */
  lemma {:induction false} PackFits(segs: seq<string>, size: nat, overlap: int, done: seq<string>, current: string)
    requires segs != [] && |current| + |segs[0]| + 1 <= size
    ensures Pack(segs, size, overlap, done, current) == Pack(segs[1..], size, overlap, done, Extend(current, segs[0]))
  {
  }

  /** A segment that does not fit but is not too long flushes the buffer and becomes the new buffer. */
  lemma {:induction false} PackFlushes(segs: seq<string>, size: nat, overlap: int, done: seq<string>, current: string)
    requires segs != [] && |current| + |segs[0]| + 1 > size && |segs[0]| <= size
    ensures Pack(segs, size, overlap, done, current) == Pack(segs[1..], size, overlap, done + Buffered(current), segs[0])
  {
    assert current == [] ==> done + Buffered(current) == done;
  }

  /** A segment too long on its own with a zero step raises. */
  lemma {:induction false} PackRaises(segs: seq<string>, size: nat, overlap: int, done: seq<string>, current: string)
    requires segs != [] && |segs[0]| > size && size - overlap == 0
    ensures Pack(segs, size, overlap, done, current) == None
  {
  }

  /** A segment too long on its own flushes the buffer and is cut into windows. */
  lemma {:induction false} PackCutsWindows(segs: seq<string>, size: nat, overlap: int, done: seq<string>, current: string)
    requires segs != [] && |segs[0]| > size && size - overlap != 0
    ensures Pack(segs, size, overlap, done, current) ==
      Pack(segs[1..], size, overlap, done + Buffered(current) + Windows(segs[0], size, size - overlap), "")
  {
    assert current == [] ==> done + Buffered(current) == done;
  }

  /** With no segments left, the stripped buffer is flushed if non-empty. */
  lemma {:induction false} PackEndRaw(size: nat, overlap: int, done: seq<string>, current: string)
    ensures Pack([], size, overlap, done, current) == Some(done + (if Strip(current) != [] then [Strip(current)] else []))
  {
    assert Strip(current) == [] ==> done + [] == done;
  }

  /**
   * When no segment is longer than `size`, packing loses, repeats and reorders nothing: the chunk
   * texts joined by spaces are the segments joined by spaces.
   */
  lemma {:induction false} PackLossless(segs: seq<string>, size: nat, overlap: int, done: seq<string>, current: string)
    requires forall t | t in segs :: Trimmed(t) && |t| <= size
    requires current == [] || Trimmed(current)
    ensures Pack(segs, size, overlap, done, current).Some?
    ensures JoinSpace(Pack(segs, size, overlap, done, current).value) == JoinSpace(done + Buffered(current) + segs)
    decreases |segs|
  {
    if segs == [] {
      PackEnd(size, overlap, done, current);
      assert done + Buffered(current) + segs == done + Buffered(current);
    } else {
      var seg := segs[0];
      var rest := segs[1..];
      assert segs[0] in segs;
      assert forall t | t in rest :: t in segs;
      assert [seg] + rest == segs;
      if |current| + |seg| + 1 <= size {
        PackFits(segs, size, overlap, done, current);
        ExtendTrimmed(current, seg);
        PackLossless(rest, size, overlap, done, Extend(current, seg));
        ExtendKeepsJoin(done, current, seg, rest);
      } else {
        PackFlushes(segs, size, overlap, done, current);
        PackLossless(rest, size, overlap, done + Buffered(current), seg);
        assert done + Buffered(current) + Buffered(seg) + rest == done + Buffered(current) + segs;
      }
    }
  }

  /** Extending a trimmed buffer with a trimmed segment gives a trimmed buffer. */
  lemma ExtendTrimmed(current: string, seg: string)
    requires Trimmed(seg)
    requires current == [] || Trimmed(current)
    ensures Trimmed(Extend(current, seg))
  {
    var ext := Extend(current, seg);
    if current != [] {
      assert ext == current + " " + seg;
      assert ext[0] == current[0];
    } else {
      assert ext == seg;
    }
    assert ext[|ext| - 1] == seg[|seg| - 1];
  }

  /** Extending the buffer with the next segment keeps the joined text. */
  lemma ExtendKeepsJoin(done: seq<string>, current: string, seg: string, rest: seq<string>)
    requires seg != []
    requires current == [] || Trimmed(current)
    ensures JoinSpace(done + Buffered(Extend(current, seg)) + rest) == JoinSpace(done + Buffered(current) + ([seg] + rest))
  {
    var ext := Extend(current, seg);
    if current != [] {
      assert ext == current + " " + seg;
      JoinSpaceGlue(done, current, seg, rest);
      assert done + Buffered(current) + ([seg] + rest) == done + [current, seg] + rest;
      assert done + Buffered(ext) + rest == done + [current + " " + seg] + rest;
    } else {
      assert ext == seg;
      assert done + Buffered(current) + ([seg] + rest) == done + Buffered(ext) + rest;
    }
  }

  /**
   * The packing loop of `chunk_law_text` and `chunk_precedent_text`, with `_append_chunk` numbering
   * the chunks; `Failure` stands for the `ValueError` that `range` raises on a zero step.
   */
  method PackSegments(segments: seq<string>, metadata: Metadata, sourceId: MetaValue, chunkSize: nat, overlap: int)
    returns (r: Result<seq<Chunk>, string>)
    ensures r.Failure? <==> Pack(segments, chunkSize, overlap, [], "").None?
    ensures r.Success? ==> Some(Texts(r.value)) == Pack(segments, chunkSize, overlap, [], "")
    ensures r.Success? ==> WellIndexed(r.value, metadata, sourceId)
  {
    var chunks: seq<Chunk> := [];
    var current := "";
    var k := 0;
    while k < |segments|
      invariant 0 <= k <= |segments|
      invariant WellIndexed(chunks, metadata, sourceId)
      invariant Pack(segments[k..], chunkSize, overlap, Texts(chunks), current) == Pack(segments, chunkSize, overlap, [], "")
    {
      var ok;
      assert segments[k..][1..] == segments[k + 1..];
      chunks, current, ok := PackOne(segments[k..], chunks, current, metadata, sourceId, chunkSize, overlap);
      if !ok {
        return Failure("range() arg 3 must not be zero");
      }
      k := k + 1;
    }
    PackEndRaw(chunkSize, overlap, Texts(chunks), current);
    if Strip(current) != [] {
      chunks := AppendChunk(chunks, Strip(current), metadata, sourceId);
    }
    return Success(chunks);
  }

  /**
   * One turn of the packing loop on the first of the segments `rest`: either the segment joins the
   * buffer, or the buffer is flushed and the segment becomes the buffer or is cut into windows;
   * `ok` is false when the window step is zero.
   */
  method PackOne(rest: seq<string>, chunks: seq<Chunk>, current: string, metadata: Metadata, sourceId: MetaValue, chunkSize: nat, overlap: int)
    returns (chunks': seq<Chunk>, current': string, ok: bool)
    requires rest != []
    requires WellIndexed(chunks, metadata, sourceId)
    ensures WellIndexed(chunks', metadata, sourceId)
    ensures ok ==> Pack(rest[1..], chunkSize, overlap, Texts(chunks'), current') == Pack(rest, chunkSize, overlap, Texts(chunks), current)
    ensures !ok ==> Pack(rest, chunkSize, overlap, Texts(chunks), current).None?
  {
    var segment := rest[0];
    chunks', current', ok := chunks, current, true;
    if |current| + |segment| + 1 <= chunkSize {
      PackFits(rest, chunkSize, overlap, Texts(chunks), current);
      current' := current + (if current != [] then " " else "") + segment;
      return;
    }
    ghost var done := Texts(chunks);
    if current != [] {
      chunks' := AppendChunk(chunks, current, metadata, sourceId);
    }
    assert Texts(chunks') == done + Buffered(current);
    if |segment| > chunkSize {
      var step := chunkSize - overlap;
      if step == 0 {
        PackRaises(rest, chunkSize, overlap, done, current);
        ok := false;
        return;
      }
      PackCutsWindows(rest, chunkSize, overlap, done, current);
      if step > 0 {
        chunks' := AppendWindows(chunks', segment, chunkSize, step, metadata, sourceId);
      } else {
        assert Texts(chunks') == done + Buffered(current) + [];
      }
      assert Texts(chunks') == done + Buffered(current) + Windows(segment, chunkSize, step);
      current' := "";
    } else {
      PackFlushes(rest, chunkSize, overlap, done, current);
      current' := segment;
    }
  }

  /**
   * The window loop `for i in range(0, len(segment), step)` of both chunkers, for a positive step:
   * appends the non-empty stripped windows in order.
   */
  method AppendWindows(chunks: seq<Chunk>, segment: string, chunkSize: nat, step: nat, metadata: Metadata, sourceId: MetaValue)
    returns (r: seq<Chunk>)
    requires step > 0
    requires WellIndexed(chunks, metadata, sourceId)
    ensures Texts(r) == Texts(chunks) + WindowsFrom(segment, chunkSize, step, 0)
    ensures WellIndexed(r, metadata, sourceId)
  {
    r := chunks;
    var i: nat := 0;
    ghost var total := Texts(chunks) + WindowsFrom(segment, chunkSize, step, 0);
    while i < |segment|
      invariant WellIndexed(r, metadata, sourceId)
      invariant Texts(r) + WindowsFrom(segment, chunkSize, step, i) == total
      decreases |segment| - i
    {
      var sub := Strip(segment[i..Min(i + chunkSize, |segment|)]);
      ghost var before := Texts(r);
      r := AppendIfNonEmpty(r, sub, metadata, sourceId);
      WindowLoopStep(before, Texts(r), total, segment, chunkSize, step, i);
      i := i + step;
    }
    WindowsDone(Texts(r), total, segment, chunkSize, step, i);
  }

  /** `if sub: _append_chunk(chunks, sub, metadata, source_id)`. */
  method AppendIfNonEmpty(chunks: seq<Chunk>, sub: string, metadata: Metadata, sourceId: MetaValue) returns (r: seq<Chunk>)
    requires WellIndexed(chunks, metadata, sourceId)
    ensures Texts(r) == Texts(chunks) + (if sub != [] then [sub] else [])
    ensures WellIndexed(r, metadata, sourceId)
  {
    r := chunks;
    if sub != [] {
      r := AppendChunk(chunks, sub, metadata, sourceId);
    } else {
      assert Texts(chunks) + [] == Texts(chunks);
    }
  }

  /**
   * `chunk_law_text`: `[]` for a text that cleans to nothing; otherwise the statute segments packed
   * and numbered. It fails exactly when `overlap == chunk_size` and some article is too long; every
   * chunk is non-empty and at most `chunk_size` long; and when no article is too long the chunks
   * joined by spaces are the articles joined by spaces.
   */
  method ChunkLawText(text: string, metadata: Metadata, chunkSize: nat, overlap: int)
    returns (r: Result<seq<Chunk>, string>)
    ensures CleanHtml(text) == [] ==> r == Success([])
    ensures r.Failure? <==> (CleanHtml(text) != [] && overlap == chunkSize &&
      exists k | 0 <= k < |LawSegments(CleanHtml(text))| :: |LawSegments(CleanHtml(text))[k]| > chunkSize)
    ensures r.Success? ==> WellIndexed(r.value, metadata, SourceId(metadata))
    ensures r.Success? ==> forall c | c in r.value :: 0 < |c.text| <= chunkSize
    ensures CleanHtml(text) != [] && (forall t | t in LawSegments(CleanHtml(text)) :: |t| <= chunkSize) ==>
      r.Success? && JoinSpace(Texts(r.value)) == JoinSpace(LawSegments(CleanHtml(text)))
  {
    var cleaned := CleanHtml(text);
    if cleaned == [] {
      return Success([]);
    }
    CleanHtmlShape(text);
    var segments := LawSegments(cleaned);
    r := PackSegments(segments, metadata, SourceId(metadata), chunkSize, overlap);
    PackOutcome(segments, chunkSize, overlap, r);
  }

  /**
   * `chunk_precedent_text` as written: the case-law segments are the header/content merge of the
   * section split, which repeats each header (`Segmenter.MergedSegmentsRepeatHeader`), packed and
   * numbered as in `chunk_law_text`.
   */
  method ChunkPrecedentText(text: string, metadata: Metadata, chunkSize: nat, overlap: int)
    returns (r: Result<seq<Chunk>, string>)
    ensures CleanHtml(text) == [] ==> r == Success([])
    ensures r.Failure? <==> (CleanHtml(text) != [] && overlap == chunkSize &&
      exists k | 0 <= k < |MergedSegments(CleanHtml(text))| :: |MergedSegments(CleanHtml(text))[k]| > chunkSize)
    ensures r.Success? ==> WellIndexed(r.value, metadata, SourceId(metadata))
    ensures r.Success? ==> forall c | c in r.value :: 0 < |c.text| <= chunkSize
    ensures CleanHtml(text) != [] && (forall t | t in MergedSegments(CleanHtml(text)) :: |t| <= chunkSize) ==>
      r.Success? && JoinSpace(Texts(r.value)) == JoinSpace(MergedSegments(CleanHtml(text)))
  {
    var cleaned := CleanHtml(text);
    if cleaned == [] {
      return Success([]);
    }
    CleanHtmlShape(text);
    var segments := MergedSegments(cleaned);
    r := PackSegments(segments, metadata, SourceId(metadata), chunkSize, overlap);
    PackOutcome(segments, chunkSize, overlap, r);
  }

  /**
   * `chunk_precedent_text` with the section segments the merge evidently intends: each section
   * once, starting with its own `[header]` (`Segmenter.SectionPiecesAligned`).
   */
  method ChunkPrecedentTextCorrected(text: string, metadata: Metadata, chunkSize: nat, overlap: int)
    returns (r: Result<seq<Chunk>, string>)
    ensures CleanHtml(text) == [] ==> r == Success([])
    ensures r.Failure? <==> (CleanHtml(text) != [] && overlap == chunkSize &&
      exists k | 0 <= k < |PrecedentSegments(CleanHtml(text))| :: |PrecedentSegments(CleanHtml(text))[k]| > chunkSize)
    ensures r.Success? ==> WellIndexed(r.value, metadata, SourceId(metadata))
    ensures r.Success? ==> forall c | c in r.value :: 0 < |c.text| <= chunkSize
    ensures CleanHtml(text) != [] && (forall t | t in PrecedentSegments(CleanHtml(text)) :: |t| <= chunkSize) ==>
      r.Success? && JoinSpace(Texts(r.value)) == JoinSpace(PrecedentSegments(CleanHtml(text)))
  {
    var cleaned := CleanHtml(text);
    if cleaned == [] {
      return Success([]);
    }
    CleanHtmlShape(text);
    var segments := PrecedentSegments(cleaned);
    r := PackSegments(segments, metadata, SourceId(metadata), chunkSize, overlap);
    PackOutcome(segments, chunkSize, overlap, r);
  }

  /** What the packing lemmas say about the outcome of `PackSegments` on trimmed segments. */
  lemma PackOutcome(segments: seq<string>, chunkSize: nat, overlap: int, r: Result<seq<Chunk>, string>)
    requires forall t | t in segments :: Trimmed(t)
    requires r.Failure? <==> Pack(segments, chunkSize, overlap, [], "").None?
    requires r.Success? ==> Some(Texts(r.value)) == Pack(segments, chunkSize, overlap, [], "")
    ensures r.Failure? <==> overlap == chunkSize && exists k | 0 <= k < |segments| :: |segments[k]| > chunkSize
    ensures r.Success? ==> forall c | c in r.value :: 0 < |c.text| <= chunkSize
    ensures (forall t | t in segments :: |t| <= chunkSize) ==>
      r.Success? && JoinSpace(Texts(r.value)) == JoinSpace(segments)
  {
    PackFailsIff(segments, chunkSize, overlap, [], "");
    PackBounded(segments, chunkSize, overlap, [], "");
    if r.Success? {
      forall c | c in r.value ensures 0 < |c.text| <= chunkSize {
        var i :| 0 <= i < |r.value| && r.value[i] == c;
        assert Texts(r.value)[i] in Texts(r.value);
      }
    }
    if forall t | t in segments :: |t| <= chunkSize {
      PackLossless(segments, chunkSize, overlap, [], "");
      assert [] + Buffered("") + segments == segments;
    }
  }
}
