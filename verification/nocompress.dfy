/** The pass-through decoder of `-lh0-` and `-lz4-` entries
    (Library/NocompressDecoder.cs): the entry's bytes are its data, copied
    out as they are until `originalSize` of them were delivered. */
module NoCompress {
  import opened Outcome
  import opened BitStream

  /** The input, read from `pos` on, and the number of bytes still owed. */
  datatype Decoder = Decoder(data: seq<byte>, pos: nat, originalSize: int)

  /** `Read(b, off, len)`: nothing for `len <= 0`, -1 once nothing is
      owed, otherwise the next `min(len, originalSize)` input bytes,
      verbatim; running out of input raises the reader's end-of-stream
      error. The count owed drops by exactly the count returned. */
  method Read(d: Decoder, len: int) returns (res: Result<(int, seq<byte>, Decoder)>)
    ensures len <= 0 ==> res == Ok((0, [], d))
    ensures 0 < len && d.originalSize <= 0 ==> res == Ok((-1, [], d))
    ensures 0 < len && 0 < d.originalSize ==>
              var n := if len < d.originalSize then len else d.originalSize;
              && (res.Ok? <==> d.pos + n <= |d.data|)
              && (res.Ok? ==> var (k, out, d') := res.value;
                    && k == n == |out| && 0 < n
                    && out == d.data[d.pos..d.pos + n]
                    && d' == d.(pos := d.pos + n, originalSize := d.originalSize - n))
              && (res.Err? ==> res.error == EndOfStream)
  {
    if len <= 0 {
      return Ok((0, [], d));
    }
    if d.originalSize <= 0 {
      return Ok((-1, [], d));
    }
    var out := [];
    var pos, left, rem := d.pos, d.originalSize, len;
    while left > 0 && rem > 0
      invariant d.pos <= pos && pos - d.pos == len - rem == d.originalSize - left
      invariant 0 <= rem <= len && 0 <= left <= d.originalSize
      invariant pos > d.pos ==> pos <= |d.data|
      invariant |out| == pos - d.pos && forall i :: 0 <= i < |out| ==> out[i] == d.data[d.pos + i]
    {
      if pos >= |d.data| {
        return Err(EndOfStream);
      }
      out := out + [d.data[pos]];
      pos := pos + 1;
      left := left - 1;
      rem := rem - 1;
    }
    return Ok((len - rem, out, d.(pos := pos, originalSize := left)));
  }

  /** Two reads in a row deliver the input without gap or overlap, and
      never more than the bytes owed. */
  lemma {:induction false} ReadsFollowOn(d: Decoder, out1: seq<byte>, d1: Decoder, out2: seq<byte>, d2: Decoder)
    requires d1 == d.(pos := d.pos + |out1|, originalSize := d.originalSize - |out1|)
    requires d.pos + |out1| <= |d.data| && out1 == d.data[d.pos..d.pos + |out1|]
    requires d2 == d1.(pos := d1.pos + |out2|, originalSize := d1.originalSize - |out2|)
    requires d1.pos + |out2| <= |d1.data| && out2 == d1.data[d1.pos..d1.pos + |out2|]
    ensures out1 + out2 == d.data[d.pos..d.pos + |out1| + |out2|]
    ensures d2.originalSize == d.originalSize - |out1 + out2|
  {
    assert d.data[d.pos..d.pos + |out1| + |out2|] == d.data[d.pos..d.pos + |out1|] + d.data[d.pos + |out1|..d.pos + |out1| + |out2|];
  }
}
