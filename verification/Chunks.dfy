/** Emitted chunks, and the chunk list with its running index that the splitters append to. */
module Chunks {
  import opened Utf8
  import opened Cuts

  type Estimator = bytes -> int

  datatype Chunk = Chunk(Text: bytes, Index: int, StartByte: int, EndByte: int, TokenCount: int)

  /** The text of a span; empty when the span does not lie in the text. */
  function Slice(text: bytes, a: int, b: int): bytes {
    if 0 <= a <= b <= |text| then text[a..b] else []
  }

  function MakeChunk(text: bytes, c: Cut, idx: int): Chunk {
    Chunk(Slice(text, c.start, c.end), idx, c.start, c.end, c.tok)
  }

  /** Numbers the cuts consecutively from `first` and gives each its text. */
  function MakeChunks(text: bytes, cuts: seq<Cut>, first: int): seq<Chunk> {
    if cuts == [] then []
    else MakeChunks(text, cuts[..|cuts| - 1], first) + [MakeChunk(text, cuts[|cuts| - 1], first + |cuts| - 1)]
  }

  lemma {:induction false} MakeChunksAt(text: bytes, cuts: seq<Cut>, first: int)
    ensures |MakeChunks(text, cuts, first)| == |cuts|
    ensures forall k :: 0 <= k < |cuts| ==> MakeChunks(text, cuts, first)[k] == MakeChunk(text, cuts[k], first + k)
  {
    if cuts != [] {
      MakeChunksAt(text, cuts[..|cuts| - 1], first);
    }
  }

  lemma {:induction false} MakeChunksConcat(text: bytes, a: seq<Cut>, b: seq<Cut>, first: int)
    ensures MakeChunks(text, a + b, first) == MakeChunks(text, a, first) + MakeChunks(text, b, first + |a|)
  {
    if b == [] {
      assert a + b == a;
    } else {
      var b' := b[..|b| - 1];
      assert (a + b)[..|a + b| - 1] == a + b';
      MakeChunksConcat(text, a, b', first);
    }
  }

  /** The chunk list and index that Split hands to every splitter by pointer. */
  class Sink {
    var chunks: seq<Chunk>
    var idx: int

    constructor ()
      ensures chunks == [] && idx == 0
    {
      chunks, idx := [], 0;
    }

    /** appendChunk: one chunk over text[start..end] with the given token count. */
    method Append(text: bytes, start: int, end: int, tok: int)
      requires 0 <= start <= end <= |text|
      modifies this
      ensures chunks == old(chunks) + MakeChunks(text, [Cut(start, end, tok)], old(idx))
      ensures idx == old(idx) + 1
    {
      chunks := chunks + [Chunk(text[start..end], idx, start, end, tok)];
      idx := idx + 1;
    }
  }

  /** The state of a sink that has received `cuts` since it held `before` and stood at `first`. */
  ghost predicate Received(sink: Sink, text: bytes, before: seq<Chunk>, first: int, cuts: seq<Cut>)
    reads sink
  {
    sink.chunks == before + MakeChunks(text, cuts, first) && sink.idx == first + |cuts|
  }

  /** Appends one more cut to a sink that has received `done`. */
  method AppendCut(sink: Sink, text: bytes, start: int, end: int, tok: int,
                   ghost before: seq<Chunk>, ghost first: int, ghost done: seq<Cut>)
    requires 0 <= start <= end <= |text|
    requires Received(sink, text, before, first, done)
    modifies sink
    ensures Received(sink, text, before, first, done + [Cut(start, end, tok)])
  {
    MakeChunksConcat(text, done, [Cut(start, end, tok)], first);
    sink.Append(text, start, end, tok);
  }

  /** A sink that received `a` and then `b` has received both in a row. */
  lemma ReceivedBoth(sink: Sink, text: bytes, before: seq<Chunk>, first: int, mid: seq<Chunk>, midIdx: int,
                     a: seq<Cut>, b: seq<Cut>)
    requires mid == before + MakeChunks(text, a, first) && midIdx == first + |a|
    requires Received(sink, text, mid, midIdx, b)
    ensures Received(sink, text, before, first, a + b)
  {
    MakeChunksConcat(text, a, b, first);
  }
}
