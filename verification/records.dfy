/** The records the retrieval core passes around. */
module Records {

  /** A metadata value: the source stores strings (names, dates, types) and integers (`chunk_index`). */
  datatype MetaValue = Str(s: string) | Int(i: int)

  /** A metadata dict. */
  type Metadata = map<string, MetaValue>

  /** `d.get(key, default)`. */
  function Get(d: Metadata, key: string, default: MetaValue): MetaValue {
    if key in d then d[key] else default
  }

  /**
   * A chunk id. The source hashes `f"{source_id}_chunk_{chunk_index}"` with MD5; the text after
   * the last `_chunk_` is the integer, so the pair is recoverable and the id is modelled as the
   * pair itself (an injective stand-in for the digest).
   */
  datatype ChunkId = ChunkId(source: MetaValue, index: int)

  /** `{"id", "text", "metadata"}` as produced by the chunkers of core/legal_rag.py. */
  datatype Chunk = Chunk(id: ChunkId, text: string, metadata: Metadata)

  /** A query hit `{"text", "metadata", "score"}`. */
  datatype Hit = Hit(text: string, metadata: Metadata, score: real)

  function HitScore(h: Hit): real { h.score }
}
