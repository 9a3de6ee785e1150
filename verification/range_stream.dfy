/** The body of a ranged GET: the handler seeks to the first byte and then
    echoes `fread` chunks of at most 8192 bytes until the last requested
    byte has been sent or the file is exhausted. */
module RangeStream {

  /** The chunk size of the streaming loop. */
  const ChunkSize: nat := 8192

  /** The bytes sent, chunk after chunk. */
  function Flatten(chunks: seq<string>): (r: string)
    decreases |chunks|
  {
    if chunks == [] then "" else Flatten(chunks[..|chunks| - 1]) + chunks[|chunks| - 1]
  }

  lemma FlattenSnoc(chunks: seq<string>, c: string)
    ensures Flatten(chunks + [c]) == Flatten(chunks) + c
  {
    assert (chunks + [c])[..|chunks|] == chunks;
  }

  function Min(a: int, b: int): int
  {
    if a <= b then a else b
  }

  /** What a range `first..last` of `data` delivers: the requested bytes
      that exist, nothing when the range starts past its end or past the
      file. Only a range that ends inside the file delivers the
      `last - first + 1` bytes the handler announces as `Content-Length`. */
  function RangeBytes(data: string, first: nat, last: int): (r: string)
    ensures last < |data| ==> |r| == if first <= last then last - first + 1 else 0
    ensures first <= last && |data| <= last ==> |r| < last - first + 1
    ensures first <= last < |data| ==> r == data[first..last + 1]
  {
    if first <= last && first < |data| then data[first..Min(last + 1, |data|)] else ""
  }

  /** One more chunk read at `p` extends what was sent from `first`. */
  lemma ChunkStep(data: string, first: nat, p: nat, q: nat, chunks: seq<string>)
    requires first <= p < q <= |data|
    requires chunks == [] ==> p == first
    requires chunks != [] ==> Flatten(chunks) == data[first..p]
    ensures Flatten(chunks + [data[p..q]]) == data[first..q]
  {
    FlattenSnoc(chunks, data[p..q]);
    assert data[first..p] + data[p..q] == data[first..q];
  }

  /** The loop of the ranged GET: `fseek($fp, $start)`, then, while not at
      end of file and `ftell` is at most `last`, read `last - p + 1` bytes
      when fewer than 8192 remain to the last byte, 8192 otherwise. A read
      that returns nothing sets the end-of-file flag. */
  method StreamRange(data: string, first: nat, last: int) returns (chunks: seq<string>)
    ensures forall i :: 0 <= i < |chunks| ==> 0 < |chunks[i]| <= ChunkSize
    ensures Flatten(chunks) == RangeBytes(data, first, last)
    ensures chunks == [] <==> last < first || |data| <= first
  {
    chunks := [];
    var p: nat := first;
    var eof := false;
    while !eof && p <= last
      invariant first <= p
      invariant chunks == [] ==> p == first
      invariant chunks != [] ==> first < p <= |data| && p <= last + 1 && Flatten(chunks) == data[first..p]
      invariant eof ==> |data| <= p
      invariant forall i :: 0 <= i < |chunks| ==> 0 < |chunks[i]| <= ChunkSize
      decreases (if eof then 0 else 1), |data| + 1 - p
    {
      var n := if p + ChunkSize > last then last - p + 1 else ChunkSize;
      var chunk := if p < |data| then data[p..Min(p + n, |data|)] else "";
      if chunk == "" {
        eof := true;
      } else {
        ghost var q := Min(p + n, |data|);
        ChunkStep(data, first, p, q, chunks);
        chunks := chunks + [chunk];
        p := p + |chunk|;
      }
    }
    if chunks != [] {
      assert Min(last + 1, |data|) == p;
    }
  }
}
