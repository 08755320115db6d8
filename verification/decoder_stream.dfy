/** The decoding stream over one archive entry
    (Library/LhaDecoderInputStream.cs): the method signature picks the
    decoder; reads count the delivered bytes down from the entry's original
    size and feed them to the checksum. The checksum is represented by the
    bytes fed to it, in order. */
module DecoderStream {
  import opened Outcome
  import opened BitStream
  import opened Window
  import opened Entry
  import NoCompress
  import SlidingDic
  import Lh4
  import Lzs
  import Lz5

  const SIZE_SKIP_BUFFER := 512
  const INT32_MAX := 0x7FFF_FFFF

  /** The decoders the factory can return: the directory decoder
      (`LhdDecoder`), the pass-through decoder, and the sliding-dictionary
      decoders. */
  datatype Engine =
    | Directory
    | Stored(nc: NoCompress.Decoder)
    | Sliding(sd: SlidingDic.Decoder)

  predicate EngineOk(e: Engine)
  {
    e.Sliding? ==> SlidingDic.Valid(e.sd)
  }

  /** A sliding-dictionary decoder as its constructor leaves it. */
  ghost predicate NewSliding(e: Engine, data: seq<byte>, originalSize: int, dictionaryBit: nat, positionAdjust: int,
                             codec: SlidingDic.Codec)
  {
    && e.Sliding? && e.sd.data == data && e.sd.originalSize == originalSize && e.sd.decodeCount == 0
    && e.sd.needInitialRead && |e.sd.ring.buf| == Pow2(dictionaryBit) && Window.Wf(e.sd.ring) && Pending(e.sd.ring) == 0
    && e.sd.positionAdjust == positionAdjust && e.sd.codec == codec
  }

  /** A sliding-dictionary decoder wrapped as an engine. */
  function NewSlidingEngine(data: seq<byte>, originalSize: int, dictionaryBit: nat, positionAdjust: int,
                            codec: SlidingDic.Codec): (e: Engine)
    requires 11 <= dictionaryBit <= 17 && SlidingDic.OFFSET <= positionAdjust <= 256 - 2
    requires SlidingDic.CodecOk(codec, Pow2(dictionaryBit))
    ensures EngineOk(e) && NewSliding(e, data, originalSize, dictionaryBit, positionAdjust, codec)
  {
    Sliding(SlidingDic.NewDecoder(data, originalSize, dictionaryBit, positionAdjust, codec))
  }

  /** `CreateDecoder`: the decoder for a method signature. LH4 to LH7 share
      one decoder with the dictionary size, position alphabet and position
      length width of the method; LH2 and LH3 are not offered, and any other
      signature is unknown. */
  function CreateDecoder(data: seq<byte>, originalSize: int, sig: string): (res: Result<Engine>)
    ensures res.Ok? ==> EngineOk(res.value)
    ensures sig == METHOD_LHD ==> res == Ok(Directory)
    ensures sig == METHOD_LH0 || sig == METHOD_LZ4 ==> res == Ok(Stored(NoCompress.Decoder(data, 0, originalSize)))
    ensures sig == METHOD_LH1 ==> res.Ok? && NewSliding(res.value, data, originalSize, 12, SlidingDic.OFFSET, SlidingDic.Lh1Start)
    ensures sig == METHOD_LH4 ==> res.Ok? && NewSliding(res.value, data, originalSize, 12, SlidingDic.OFFSET, SlidingDic.Lh4Run(Lh4.Initial(14, 4)))
    ensures sig == METHOD_LH5 ==> res.Ok? && NewSliding(res.value, data, originalSize, 13, SlidingDic.OFFSET, SlidingDic.Lh4Run(Lh4.Initial(14, 4)))
    ensures sig == METHOD_LH6 ==> res.Ok? && NewSliding(res.value, data, originalSize, 15, SlidingDic.OFFSET, SlidingDic.Lh4Run(Lh4.Initial(16, 5)))
    ensures sig == METHOD_LH7 ==> res.Ok? && NewSliding(res.value, data, originalSize, 16, SlidingDic.OFFSET, SlidingDic.Lh4Run(Lh4.Initial(17, 5)))
    ensures sig == METHOD_LZS ==> res.Ok? && NewSliding(res.value, data, originalSize, 11, 256 - 2, SlidingDic.LzsRun(Lzs.Initial))
    ensures sig == METHOD_LZ5 ==> res.Ok? && NewSliding(res.value, data, originalSize, 12, SlidingDic.OFFSET, SlidingDic.Lz5Run(Lz5.Initial))
    ensures sig == METHOD_LH2 || sig == METHOD_LH3 ==> res == Err(UnsupportedMethod(sig))
    ensures && sig != METHOD_LHD && sig != METHOD_LH0 && sig != METHOD_LH1 && sig != METHOD_LH2
            && sig != METHOD_LH3 && sig != METHOD_LH4 && sig != METHOD_LH5 && sig != METHOD_LH6
            && sig != METHOD_LH7 && sig != METHOD_LZS && sig != METHOD_LZ4 && sig != METHOD_LZ5
            ==> res == Err(UnknownMethod(sig))
  {
    Pow2Values();
    MethodsDistinct();
    if sig == METHOD_LHD then Ok(Directory)
    else if sig == METHOD_LH0 then Ok(Stored(NoCompress.Decoder(data, 0, originalSize)))
    else if sig == METHOD_LH1 then Ok(NewSlidingEngine(data, originalSize, 12, SlidingDic.OFFSET, SlidingDic.Lh1Start))
    else if sig == METHOD_LH2 then Err(UnsupportedMethod(sig))
    else if sig == METHOD_LH3 then Err(UnsupportedMethod(sig))
    else if sig == METHOD_LH4 then Ok(NewSlidingEngine(data, originalSize, 12, SlidingDic.OFFSET, SlidingDic.Lh4Run(Lh4.Initial(14, 4))))
    else if sig == METHOD_LH5 then Ok(NewSlidingEngine(data, originalSize, 13, SlidingDic.OFFSET, SlidingDic.Lh4Run(Lh4.Initial(14, 4))))
    else if sig == METHOD_LH6 then Ok(NewSlidingEngine(data, originalSize, 15, SlidingDic.OFFSET, SlidingDic.Lh4Run(Lh4.Initial(16, 5))))
    else if sig == METHOD_LH7 then Ok(NewSlidingEngine(data, originalSize, 16, SlidingDic.OFFSET, SlidingDic.Lh4Run(Lh4.Initial(17, 5))))
    else if sig == METHOD_LZS then Ok(NewSlidingEngine(data, originalSize, 11, 256 - 2, SlidingDic.LzsRun(Lzs.Initial)))
    else if sig == METHOD_LZ4 then Ok(Stored(NoCompress.Decoder(data, 0, originalSize)))
    else if sig == METHOD_LZ5 then Ok(NewSlidingEngine(data, originalSize, 12, SlidingDic.OFFSET, SlidingDic.Lz5Run(Lz5.Initial)))
    else Err(UnknownMethod(sig))
  }

  /** Every signature an entry may carry has a decoder, except LH2 and
      LH3; a signature the factory accepts is one an entry may carry. */
  lemma {:induction false} FactoryCoversMethods(data: seq<byte>, originalSize: int, sig: string)
    ensures CreateDecoder(data, originalSize, sig).Ok? <==> sig in Methods && sig != METHOD_LH2 && sig != METHOD_LH3
    ensures sig !in Methods ==> CreateDecoder(data, originalSize, sig) == Err(UnknownMethod(sig))
  {
    hide CreateDecoder, NewSliding;
    MethodsMembers(sig);
  }

  /** The stream: its decoder (`null` once closed), the bytes still
      expected, and the bytes fed to the checksum. */
  datatype Stream = Stream(decoder: Option<Engine>, entryCount: int, crcInput: seq<byte>)

  predicate StreamOk(s: Stream)
  {
    s.decoder.Some? ==> EngineOk(s.decoder.value)
  }

  /** The constructor: the decoder for the entry's method, with the whole
      original size expected and the checksum reset. */
  function Open(data: seq<byte>, originalSize: int, sig: string): (res: Result<Stream>)
    ensures res.Ok? <==> CreateDecoder(data, originalSize, sig).Ok?
    ensures res.Ok? ==>
              && StreamOk(res.value) && res.value.decoder == Some(CreateDecoder(data, originalSize, sig).value)
              && res.value.entryCount == originalSize && res.value.crcInput == []
  {
    var e :- CreateDecoder(data, originalSize, sig);
    Ok(Stream(Some(e), originalSize, []))
  }

  /** `Available`: 0 once closed or once nothing more is expected, 1
      otherwise. */
  function Available(s: Stream): (n: int)
    ensures n == 0 || n == 1
    ensures n == 1 <==> s.decoder.Some? && s.entryCount > 0
  {
    if s.decoder.None? then 0 else if s.entryCount > 0 then 1 else 0
  }

  /** `Close`: the decoder is dropped; the directory decoder's and the
      sliding decoders' own `Close` do nothing, the pass-through decoder's
      drops its input, which the stream no longer reaches either way. */
  function Close(s: Stream): (s': Stream)
    ensures s'.decoder.None? && Available(s') == 0
    ensures s'.entryCount == s.entryCount && s'.crcInput == s.crcInput
  {
    s.(decoder := None)
  }

  /** `LhaDecoder.Read` of whichever decoder: a count in `[0, len]` with
      that many bytes, or -1 with none; never 0 when bytes were asked for.
      The directory decoder has nothing to give. */
  method ReadEngine(e: Engine, len: int) returns (res: Result<(int, seq<byte>, Engine)>)
    requires EngineOk(e)
    ensures e.Directory? ==> res == Ok((-1, [], e))
    ensures res.Ok? ==> var (n, out, e') := res.value;
              && EngineOk(e') && (e'.Stored? <==> e.Stored?) && (e'.Sliding? <==> e.Sliding?)
              && ((n == -1 && out == []) || (0 <= n == |out| && n <= (if len < 0 then 0 else len)))
              && (0 < len ==> n != 0)
    ensures res.Ok? && e.Stored? ==> res.value.2.nc.originalSize == e.nc.originalSize - |res.value.1|
  {
    match e
    case Directory =>
      return Ok((-1, [], e));
    case Stored(nc) =>
      var got :- NoCompress.Read(nc, len);
      return Ok((got.0, got.1, Stored(got.2)));
    case Sliding(sd) =>
      if len < 0 {
        return Err(InvalidArgument);
      }
      var got, h0, ts, codes := SlidingDic.Read(sd, len, SlidingDic.Unrolled(sd.ring));
      if got.Err? {
        return Err(got.error);
      }
      return Ok((got.value.0, got.value.1, Sliding(got.value.2)));
  }

  /** `Read(b, off, len)`: -1 once closed; otherwise the decoder's count,
      and when it is positive the bytes go to the checksum and come off the
      expected count. */
  method Read(s: Stream, len: int) returns (res: Result<(int, seq<byte>, Stream)>)
    requires StreamOk(s)
    ensures s.decoder.None? ==> res == Ok((-1, [], s))
    ensures res.Ok? ==> var (n, out, s') := res.value;
              && StreamOk(s') && (s'.decoder.None? <==> s.decoder.None?)
              && ((n == -1 && out == []) || (0 <= n == |out| && n <= (if len < 0 then 0 else len)))
              && (0 < len ==> n != 0)
              && s'.entryCount == s.entryCount - |out|
              && s'.crcInput == s.crcInput + out
    ensures res.Ok? && s.decoder.Some? && s.decoder.value.Stored? ==>
              && res.value.2.decoder.value.Stored?
              && res.value.2.decoder.value.nc.originalSize == s.decoder.value.nc.originalSize - |res.value.1|
  {
    if s.decoder.None? {
      return Ok((-1, [], s));
    }
    var got :- ReadEngine(s.decoder.value, len);
    var (n, out, e') := got;
    if n > 0 {
      return Ok((n, out, Stream(Some(e'), s.entryCount - n, s.crcInput + out)));
    }
    return Ok((n, out, s.(decoder := Some(e'))));
  }

  /** `Read()`: the next byte, counted and fed to the checksum; -1 once
      closed. At the end of the entry the byte array the source reads into
      stays zero, so the result is 0 there, not -1. */
  method ReadByte(s: Stream) returns (res: Result<(int, Stream)>)
    requires StreamOk(s)
    ensures s.decoder.None? ==> res == Ok((-1, s))
    ensures res.Ok? && s.decoder.Some? ==> var (v, s') := res.value;
              && StreamOk(s') && s'.decoder.Some? && 0 <= v < 256
              && ((s'.entryCount == s.entryCount - 1 && s'.crcInput == s.crcInput + [v as byte])
                  || (s'.entryCount == s.entryCount && s'.crcInput == s.crcInput && v == 0))
  {
    if s.decoder.None? {
      return Ok((-1, s));
    }
    var got :- ReadEngine(s.decoder.value, 1);
    var (n, out, e') := got;
    if n > 0 {
      return Ok((out[0] as int, Stream(Some(e'), s.entryCount - 1, s.crcInput + [out[0]])));
    }
    return Ok((0, s.(decoder := Some(e'))));
  }

  /** `Skip(n)`: read and discard up to `n` bytes (at most `Int32.MaxValue`)
      in chunks of at most 512 until the decoder reports the end. Each
      chunk goes through `Read`, which already counts it and feeds it to the
      checksum; `Skip` then feeds it to the checksum again and takes the
      total off the expected count once more. */
  method Skip(s: Stream, n: int) returns (res: Result<(int, Stream)>)
    requires StreamOk(s)
    ensures n <= 0 || s.decoder.None? ==> res == Ok((0, s))
    ensures res.Ok? ==> var (total, s') := res.value;
              && StreamOk(s') && (s'.decoder.None? <==> s.decoder.None?)
              && 0 <= total && (0 < n ==> total <= n) && total <= INT32_MAX
              && s'.entryCount == s.entryCount - 2 * total
              && |s'.crcInput| == |s.crcInput| + 2 * total
              && (s.decoder.None? ==> total == 0)
    ensures res.Ok? && 0 < n && s.decoder.Some? && s.decoder.value.Stored? ==>
              && res.value.1.decoder.value.Stored?
              && res.value.1.decoder.value.nc.originalSize == s.decoder.value.nc.originalSize - res.value.0
  {
    if n <= 0 {
      return Ok((0, s));
    }
    var limit := if n > INT32_MAX then INT32_MAX else n;
    var total := 0;
    var cur := s;
    while total < limit
      invariant 0 <= total <= limit && StreamOk(cur) && (cur.decoder.None? <==> s.decoder.None?)
      invariant cur.entryCount == s.entryCount - total
      invariant |cur.crcInput| == |s.crcInput| + 2 * total
      invariant s.decoder.None? ==> total == 0 && cur == s
      invariant s.decoder.Some? && s.decoder.value.Stored? ==>
                  cur.decoder.value.Stored? && cur.decoder.value.nc.originalSize == s.decoder.value.nc.originalSize - total
      decreases limit - total
    {
      var len := limit - total;
      if len > SIZE_SKIP_BUFFER {
        len := SIZE_SKIP_BUFFER;
      }
      var got :- Read(cur, len);
      var (k, out, next) := got;
      if k == -1 {
        break;
      }
      cur := next.(crcInput := next.crcInput + out);
      total := total + k;
    }
    return Ok((total, cur.(entryCount := cur.entryCount - total)));
  }

  /** `CloseEntry`: skip what is left of the entry, then insist that the
      skip covered the expected count and that the checksum matches, and
      close. The count is compared after `Skip` has taken the skipped
      bytes off twice, so a skip of `t` bytes passes only when `3 t` bytes
      were expected. Once the stream is closed its entry is `null`, so the
      CRC test fails with a null reference. The CRC-16 itself is a
      parameter. */
  method CloseEntry(s: Stream, e: Entry, crc16: seq<byte> -> int) returns (res: Result<Stream>)
    requires StreamOk(s)
    ensures res.Ok? ==> s.decoder.Some? && res.value.decoder.None? && Available(res.value) == 0
    ensures res.Ok? ==> 3 * res.value.entryCount == s.entryCount
    ensures res.Ok? ==> |res.value.crcInput| == |s.crcInput| + 2 * res.value.entryCount
    ensures res.Ok? && e.hasCrc ==> crc16(res.value.crcInput) == e.crc
    ensures s.entryCount <= 0 && s.decoder.Some? ==>
              res == if s.entryCount == 0 && (!e.hasCrc || crc16(s.crcInput) == e.crc) then Ok(Close(s)) else Err(DataMismatch)
    ensures s.decoder.None? ==> res == if s.entryCount == 0 then Err(NullReference) else Err(DataMismatch)
  {
    var skipped :- Skip(s, s.entryCount);
    var (total, s') := skipped;
    if s'.entryCount != total {
      return Err(DataMismatch);
    }
    if s'.decoder.None? {
      return Err(NullReference);
    }
    if e.hasCrc && e.crc != crc16(s'.crcInput) {
      return Err(DataMismatch);
    }
    return Ok(Close(s'));
  }
}
