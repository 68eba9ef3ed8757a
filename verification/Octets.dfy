/** Bytes, and pieces of bytes put together. */
module Octets {

  newtype byte = i: int | 0 <= i < 256
  type Bytes = seq<byte>

  /** The pieces in order: `b"".join(chunks)`, `chunks.flat()`. */
  function Join(chunks: seq<Bytes>): Bytes {
    if chunks == [] then [] else Join(chunks[..|chunks| - 1]) + chunks[|chunks| - 1]
  }

  lemma JoinAppend(chunks: seq<Bytes>, chunk: Bytes)
    ensures Join(chunks + [chunk]) == Join(chunks) + chunk
  {
    assert (chunks + [chunk])[..|chunks|] == chunks;
  }

  lemma {:induction false} JoinFirst(chunk: Bytes, chunks: seq<Bytes>)
    ensures Join([chunk] + chunks) == chunk + Join(chunks)
  {
    if chunks == [] {
      JoinAppend([], chunk);
      assert [chunk] + [] == [] + [chunk];
    } else {
      var n := |chunks| - 1;
      JoinFirst(chunk, chunks[..n]);
      assert ([chunk] + chunks)[..n + 1] == [chunk] + chunks[..n];
    }
  }
}
