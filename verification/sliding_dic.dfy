/** The sliding-dictionary decoder every compressed method shares
    (Library/SlidingDicDecoder.cs): a ring buffer holding the last
    `2^dictionaryBit` output bytes, and `Read`, which first hands out the
    bytes still pending in the ring and then decodes literals and matches
    until the caller has enough or the entry's original size is reached.
    The method-specific parts (`InitRead`, `DecodeCode`, `DecodePosition`)
    are dispatched on a `Codec` holding the state of one decoder module. */
module SlidingDic {
  import opened Outcome
  import opened BitStream
  import opened BitReader
  import opened Window
  import Adaptive
  import Lh1
  import Lh2
  import Lh3
  import Lh4
  import Lzs
  import Lz5

  const OFFSET := 0x100 - 3
  const UNSIGNED_CHAR_MAX := 255

  /** One more than the largest code any method returns: LH2 and LH3 extend
      their escape symbol (285) by 8 bits. */
  const CODE_LIMIT := 541

  /** The method-specific decoder. LH1 and LH2 build their state in
      `InitRead`; before that they are only announced. */
  datatype Codec =
    | Lh1Start
    | Lh2Start
    | Lh1Run(s1: Lh1.State)
    | Lh2Run(s2: Lh2.State)
    | Lh3Run(s3: Lh3.State)
    | Lh4Run(s4: Lh4.State)
    | LzsRun(sz: Lzs.State)
    | Lz5Run(s5: Lz5.State)

  /** `InitRead` has run (the state of LH1 and LH2 exists). */
  predicate Started(c: Codec)
  {
    !c.Lh1Start? && !c.Lh2Start?
  }

  /** The method's state has the shape its decoding steps need; LZ5 works
      on a 4 KiB dictionary. */
  predicate CodecOk(c: Codec, size: nat)
  {
    match c
    case Lh1Start => true
    case Lh2Start => true
    case Lh1Run(s) => Lh1.Wf(s) && s.n1 >= Adaptive.TREESIZE / 2
    case Lh2Run(s) => Adaptive.Sized(s.arena) && s.n1 == Lh2.N_MAX - 1
    case Lh3Run(s) => Lh3.Wf(s)
    case Lh4Run(s) => Lh4.Wf(s)
    case LzsRun(_) => true
    case Lz5Run(_) => size == Lz5.DICTIONARY_SIZE
  }

  /** The decoder's fields: the compressed bytes and the bit reader over
      them, the entry's original size, the bytes decoded so far, the match
      length adjustment, the ring, and whether `InitRead` is still due. */
  datatype Decoder = Decoder(
    data: seq<byte>,
    r: Reader,
    originalSize: int,
    decodeCount: int,
    positionAdjust: int,
    ring: Ring,
    needInitialRead: bool,
    codec: Codec)

  /** What the constructors establish and `Read` keeps: the ring is at
      least 2 KiB, a match is at least two bytes long, and before the first
      `Read` both ring pointers are 0. */
  predicate Valid(d: Decoder)
  {
    && Window.Wf(d.ring) && 0x800 <= |d.ring.buf|
    && InRange(d.r)
    && OFFSET <= d.positionAdjust <= 256 - 2
    && CodecOk(d.codec, |d.ring.buf|)
    && (d.needInitialRead ==> d.ring.begin == 0 && d.ring.end == 0)
    && (!d.needInitialRead ==> Started(d.codec))
  }

  /** The constructor: a zeroed dictionary of `2^dictionaryBit` bytes and
      every pointer and counter at 0. */
  function NewDecoder(data: seq<byte>, originalSize: int, dictionaryBit: nat, positionAdjust: int, codec: Codec)
    : (d: Decoder)
    requires 11 <= dictionaryBit <= 17 && OFFSET <= positionAdjust <= 256 - 2
    requires CodecOk(codec, Pow2(dictionaryBit))
    ensures Valid(d) && d.needInitialRead && d.decodeCount == 0 && d.r == Fresh
    ensures |d.ring.buf| == Pow2(dictionaryBit) && Pending(d.ring) == 0
  {
    Pow2Values();
    assert Pow2(12) == 2 * Pow2(11);
    Pow2Monotone(11, dictionaryBit);
    Decoder(data, Fresh, originalSize, 0, positionAdjust, Empty(Pow2(dictionaryBit)), true, codec)
  }

  /** The zeroed dictionary stands for a history of zeros. */
  lemma NewDecoderHolds(n: nat)
    requires n > 0
    ensures Holds(Empty(n), seq(n, _ => 0 as byte))
  {
  }

  /** A match `offset` back: the copy starts at slot
      `(end - offset - 1) & dictionaryMask`, which is `offset + 1` places
      back (modulo the dictionary size). */
  lemma {:induction false} MatchDistance(w: Ring, offset: int)
    requires Window.Wf(w)
    ensures 0 <= (w.end - offset - 1) % |w.buf| < |w.buf|
    ensures Age(w, (w.end - offset - 1) % |w.buf|) == offset % |w.buf| + 1
  {
    var n := |w.buf|;
    var mp := (w.end - offset - 1) % n;
    AgeMod(w, mp);
    ModUnique(w.end, n, 0, w.end);
    ModDiff(w.end, w.end - offset - 1, -1, n);
  }

  // ---------------------------------------------------------------------------
  // Dispatch to the method's decoder

  /** `InitRead` of the method: prime the bit window (all but LZ5), build
      the LH1/LH2 state, or seed the LZ5 dictionary. */
  method InitCodec(data: seq<byte>, r: Reader, c: Codec, buf: seq<byte>)
    returns (res: Result<(Reader, Codec, seq<byte>)>)
    requires InRange(r) && CodecOk(c, |buf|)
    ensures c.Lz5Run? ==> res.Ok? && res.value.0 == r && res.value.1 == Lz5Run(c.s5.(flagCount := 0))
    ensures c.LzsRun? ==> res == Ok((Lzs.InitRead(data, r), c, buf))
    ensures !c.Lh2Start? && !c.Lh2Run? ==> res.Ok?
    ensures res.Ok? ==> var (r', c', buf') := res.value;
              && InRange(r') && Started(c') && CodecOk(c', |buf|) && |buf'| == |buf|
              && (c.Lz5Run? <==> c'.Lz5Run?)
              && (c.Lz5Run? ==> r' == r && forall j :: 0 <= j < |buf| ==> buf'[j] == Lz5.Seeded(buf, j))
              && (!c.Lz5Run? ==> buf' == buf && Consumed(r') == Consumed(r) + 2 * CHAR_BIT)
  {
    match c
    case Lh1Start =>
      var got := Lh1.InitRead(data, r);
      return Ok((got.value.0, Lh1Run(got.value.1), buf));
    case Lh2Start =>
      var got :- Lh2.InitRead(data, r);
      return Ok((got.0, Lh2Run(got.1), buf));
    case Lh1Run(s) =>
      var got := Lh1.InitRead(data, r);
      return Ok((got.value.0, Lh1Run(got.value.1), buf));
    case Lh2Run(s) =>
      var got :- Lh2.InitRead(data, r);
      return Ok((got.0, Lh2Run(got.1), buf));
    case Lh3Run(s) =>
      return Ok((Lh3.InitRead(data, r), c, buf));
    case Lh4Run(s) =>
      return Ok((Lh4.InitRead(data, r), c, buf));
    case LzsRun(s) =>
      return Ok((Lzs.InitRead(data, r), c, buf));
    case Lz5Run(s) =>
      var seeded := Lz5.Seed(buf);
      return Ok((r, Lz5Run(s.(flagCount := 0)), seeded));
  }

  /** `DecodeCode` of the method: a literal below 256, a match length plus
      `positionAdjust` above. LZ5 reads whole bytes at the reader's byte
      position. */
  method NextCode(data: seq<byte>, r: Reader, c: Codec, ghost size: nat) returns (res: Result<(int, Reader, Codec)>)
    requires InRange(r) && Started(c) && CodecOk(c, size)
    ensures c.LzsRun? ==> res.Ok?
    ensures res.Err? && c.Lz5Run? ==> res.error == EndOfStream
    ensures res.Ok? ==> var (code, r', c') := res.value;
              && 0 <= code < CODE_LIMIT && InRange(r') && Started(c') && CodecOk(c', size)
              && (c.Lz5Run? <==> c'.Lz5Run?)
    ensures c.LzsRun? || c.Lz5Run? ==> res == LzssCode(data, r, c)
  {
    if c.Lh1Run? || c.Lh2Run? {
      res := NextCodeAdaptive(data, r, c, size);
    } else if c.Lh3Run? || c.Lh4Run? {
      res := NextCodeStatic(data, r, c, size);
    } else {
      res := NextCodeByte(data, r, c, size);
    }
  }

  /** `NextCode` for the adaptive-Huffman methods LH1 and LH2. */
  method NextCodeAdaptive(data: seq<byte>, r: Reader, c: Codec, ghost size: nat) returns (res: Result<(int, Reader, Codec)>)
    requires InRange(r) && (c.Lh1Run? || c.Lh2Run?) && CodecOk(c, size)
    ensures res.Ok? ==> var (code, r', c') := res.value;
              && 0 <= code < CODE_LIMIT && InRange(r') && Started(c') && CodecOk(c', size) && !c'.Lz5Run?
  {
    if c.Lh1Run? {
      var got :- Lh1.DecodeCode(data, r, c.s1);
      return Ok((got.0, got.1, Lh1Run(got.2)));
    }
    var got :- Lh2.DecodeCode(data, r, c.s2);
    return Ok((got.0, got.1, Lh2Run(got.2)));
  }

  /** `NextCode` for the static-Huffman methods LH3 and LH4 to LH7. */
  method NextCodeStatic(data: seq<byte>, r: Reader, c: Codec, ghost size: nat) returns (res: Result<(int, Reader, Codec)>)
    requires InRange(r) && (c.Lh3Run? || c.Lh4Run?) && CodecOk(c, size)
    ensures res.Ok? ==> var (code, r', c') := res.value;
              && 0 <= code < CODE_LIMIT && InRange(r') && Started(c') && CodecOk(c', size) && !c'.Lz5Run?
  {
    if c.Lh3Run? {
      var got :- Lh3.DecodeCode(data, r, c.s3);
      return Ok((got.0, got.1, Lh3Run(got.2)));
    }
    var got :- Lh4.DecodeCode(data, r, c.s4);
    return Ok((got.0, got.1, Lh4Run(got.2)));
  }

  /** `DecodeCode` of LZS or LZ5 as a function: LZS reads bits, LZ5 whole
      bytes at the reader's byte position. */
  function LzssCode(data: seq<byte>, r: Reader, c: Codec): (res: Result<(int, Reader, Codec)>)
    requires InRange(r) && (c.LzsRun? || c.Lz5Run?)
    ensures c.LzsRun? ==> res.Ok? && res.value.2.LzsRun?
    ensures res.Err? ==> res.error == EndOfStream
    ensures res.Ok? ==> var (code, r', c') := res.value;
              && 0 <= code < 0x100 + 16 && InRange(r') && (c.Lz5Run? <==> c'.Lz5Run?)
              && (c.Lz5Run? ==> r' == r.(pos := r'.pos))
  {
    if c.LzsRun? then
      var got := Lzs.DecodeCode(data, r, c.sz);
      Ok((got.0, got.1, LzsRun(got.2)))
    else
      var got :- Lz5.DecodeCode(data, r.pos, c.s5);
      Ok((got.0, r.(pos := got.1), Lz5Run(got.2)))
  }

  /** `NextCode` for the LZSS methods LZS and LZ5. */
  method NextCodeByte(data: seq<byte>, r: Reader, c: Codec, ghost size: nat) returns (res: Result<(int, Reader, Codec)>)
    requires InRange(r) && (c.LzsRun? || c.Lz5Run?) && CodecOk(c, size)
    ensures c.LzsRun? ==> res.Ok?
    ensures res.Err? && c.Lz5Run? ==> res.error == EndOfStream
    ensures res.Ok? ==> var (code, r', c') := res.value;
              && 0 <= code < CODE_LIMIT && InRange(r') && Started(c') && CodecOk(c', size)
              && (c.Lz5Run? <==> c'.Lz5Run?)
    ensures res == LzssCode(data, r, c)
  {
    res := LzssCode(data, r, c);
  }

  /** `DecodePosition` of the method: how far back the match starts, less
      one. LZS and LZ5 derive it from the match slot and the ring's `end`;
      LH2 first grows its position alphabet up to `decodeCount`. */
  method NextPosition(data: seq<byte>, r: Reader, c: Codec, end: int, decodeCount: int, ghost size: nat)
    returns (res: Result<(int, Reader, Codec)>)
    requires InRange(r) && Started(c) && CodecOk(c, size)
    ensures c.LzsRun? || c.Lz5Run? ==> res.Ok? && res.value.1 == r && res.value.2 == c
    ensures c.LzsRun? ==> res.Ok? && res.value.0 == Lzs.DecodePosition(end, c.sz)
    ensures c.Lz5Run? ==> res.Ok? && res.value.0 == Lz5.DecodePosition(end, c.s5)
    ensures res.Ok? ==> var (offset, r', c') := res.value;
              && InRange(r') && Started(c') && CodecOk(c', size)
              && (c.Lz5Run? <==> c'.Lz5Run?)
  {
    match c
    case Lh1Run(s) =>
      var got :- Lh1.DecodePosition(data, r, s);
      return Ok((got.0, got.1, c));
    case Lh2Run(s) =>
      var got :- Lh2.DecodePosition(data, r, s, decodeCount);
      return Ok((got.0, got.1, Lh2Run(got.2)));
    case Lh3Run(s) =>
      var got :- Lh3.DecodePosition(data, r, s);
      return Ok((got.0, got.1, c));
    case Lh4Run(s) =>
      var got :- Lh4.DecodePosition(data, r, s);
      return Ok((got.0, got.1, c));
    case LzsRun(s) =>
      return Ok((Lzs.DecodePosition(end, s), r, c));
    case Lz5Run(s) =>
      return Ok((Lz5.DecodePosition(end, s), r, c));
  }

  // ---------------------------------------------------------------------------
  // Read

  /** The item a decoded code stands for: a literal below 256; above, a
      match of `code - positionAdjust` bytes starting `offset + 1` places
      back, modulo the dictionary size. */
  function TokenOf(code: int, offset: int, positionAdjust: int, size: nat): (t: Token)
    requires 0 <= code && 0 < size
    ensures Fits(t, size)
  {
    if code <= UNSIGNED_CHAR_MAX then Literal(code as byte) else Copy(code - positionAdjust, offset % size + 1)
  }

  /** How many bytes an item adds to the history. */
  function Grow(t: Token): int
  {
    if t.Literal? then 1 else t.length
  }

  /** An independent account of what LZS and LZ5 decode: the first `n`
      items read from reader `r` and state `c` while the ring's write
      position starts at `end`, each a code and, for a match, the offset
      from the write position at that moment; with the reader, state and
      write position after them. An error when the input ends first. */
  ghost function LzssRun(data: seq<byte>, r: Reader, c: Codec, end: int, n: nat, positionAdjust: int, size: nat)
    : (res: Result<(seq<Token>, Reader, Codec, int)>)
    requires InRange(r) && (c.LzsRun? || c.Lz5Run?) && 0 < size
    ensures res.Ok? ==> var (ts, r', c', end') := res.value;
              && |ts| == n && InRange(r') && (c.LzsRun? ==> c'.LzsRun?) && (c.Lz5Run? ==> c'.Lz5Run?)
    decreases n
  {
    if n == 0 then Ok(([], r, c, end))
    else
      var prev :- LzssRun(data, r, c, end, n - 1, positionAdjust, size);
      var (ts, r1, c1, end1) := prev;
      var got :- LzssCode(data, r1, c1);
      var (code, r2, c2) := got;
      var offset := if c2.LzsRun? then Lzs.DecodePosition(end1, c2.sz) else Lz5.DecodePosition(end1, c2.s5);
      var t := TokenOf(code, offset, positionAdjust, size);
      Ok((ts + [t], r2, c2, (end1 + Grow(t)) % size))
  }

  /** Where LZS or LZ5 decoding starts in `Read`: after `InitRead` on the
      first call (LZS primes the bit window, LZ5 clears its flag count),
      at the decoder's own reader and state otherwise. */
  function LzssStart(d: Decoder): (res: (Reader, Codec))
    requires InRange(d.r) && (d.codec.LzsRun? || d.codec.Lz5Run?)
    ensures InRange(res.0) && (res.1.LzsRun? || res.1.Lz5Run?)
  {
    if !d.needInitialRead then (d.r, d.codec)
    else if d.codec.LzsRun? then (Lzs.InitRead(d.data, d.r), d.codec)
    else (d.r, Lz5Run(d.codec.s5.(flagCount := 0)))
  }

  /** A dictionary written from slot 0 with both pointers at 0 stands for
      a history ending in the dictionary's contents. */
  lemma SeededHolds(h: seq<byte>, buf: seq<byte>)
    requires 0 < |buf| <= |h|
    ensures Holds(Ring(buf, 0, 0), h[..|h| - |buf|] + buf)
  {
  }

  /** The history a ring stands for when nothing more is known: its slots
      read from `end` round to `end`, oldest first. */
  ghost function Unrolled(w: Ring): (h: seq<byte>)
    requires Window.Wf(w)
    ensures Holds(w, h) && |h| == |w.buf|
  {
    w.buf[w.end..] + w.buf[..w.end]
  }

  /** What `Read` keeps about its items: each stands for a code the
      method decoded, and for LZS and LZ5 they are the items `LzssRun`
      decodes from where the loop started. */
  ghost predicate Tied(data: seq<byte>, r0: Reader, c0: Codec, e0: int, positionAdjust: int, size: nat,
                       ts: seq<Token>, codes: seq<(int, int)>, r: Reader, c: Codec, end: int)
  {
    && 0 < size && |codes| == |ts|
    && (forall k :: 0 <= k < |ts| ==>
          0 <= codes[k].0 < CODE_LIMIT && ts[k] == TokenOf(codes[k].0, codes[k].1, positionAdjust, size))
    && (InRange(r0) && (c0.LzsRun? || c0.Lz5Run?) ==>
          LzssRun(data, r0, c0, e0, |ts|, positionAdjust, size) == Ok((ts, r, c, end)))
  }

  /** LZS and LZ5 stay what they started as. */
  lemma TiedKind(data: seq<byte>, r0: Reader, c0: Codec, e0: int, positionAdjust: int, size: nat,
                 ts: seq<Token>, codes: seq<(int, int)>, r: Reader, c: Codec, end: int)
    requires Tied(data, r0, c0, e0, positionAdjust, size, ts, codes, r, c, end)
    ensures InRange(r0) && c0.LzsRun? ==> c.LzsRun?
    ensures InRange(r0) && c0.Lz5Run? ==> c.Lz5Run?
  {
  }

  /** One more decoded item keeps the bookkeeping: for LZS and LZ5 it is
      the next item of `LzssRun` when the code and offset are the ones
      their functions give. */
  lemma TiedStep(data: seq<byte>, r0: Reader, c0: Codec, e0: int, positionAdjust: int, size: nat,
                 ts: seq<Token>, codes: seq<(int, int)>, r: Reader, c: Codec, end: int,
                 code: int, offset: int, r2: Reader, c2: Codec)
    requires Tied(data, r0, c0, e0, positionAdjust, size, ts, codes, r, c, end)
    requires 0 <= code < CODE_LIMIT
    requires InRange(r0) && (c0.LzsRun? || c0.Lz5Run?) ==>
               && LzssCode(data, r, c) == Ok((code, r2, c2))
               && (code > UNSIGNED_CHAR_MAX ==>
                     offset == if c2.LzsRun? then Lzs.DecodePosition(end, c2.sz) else Lz5.DecodePosition(end, c2.s5))
    ensures var t := TokenOf(code, offset, positionAdjust, size);
            Tied(data, r0, c0, e0, positionAdjust, size, ts + [t], codes + [(code, offset)], r2, c2, (end + Grow(t)) % size)
  {
    hide LzssRun, LzssCode;
    var t := TokenOf(code, offset, positionAdjust, size);
    var ts', codes' := ts + [t], codes + [(code, offset)];
    assert forall k :: 0 <= k < |ts| ==> ts'[k] == ts[k] && codes'[k] == codes[k];
    if InRange(r0) && (c0.LzsRun? || c0.Lz5Run?) {
      LzssRunSnoc(data, r0, c0, e0, |ts|, positionAdjust, size, ts, r, c, end, code, offset, r2, c2);
    }
  }

  /** `LzssRun` one item further: the next code from where it stopped. */
  lemma LzssRunSnoc(data: seq<byte>, r0: Reader, c0: Codec, e0: int, n: nat, positionAdjust: int, size: nat,
                    ts: seq<Token>, r: Reader, c: Codec, end: int, code: int, offset: int, r2: Reader, c2: Codec)
    requires InRange(r0) && (c0.LzsRun? || c0.Lz5Run?) && 0 < size && 0 <= code
    requires LzssRun(data, r0, c0, e0, n, positionAdjust, size) == Ok((ts, r, c, end))
    requires LzssCode(data, r, c) == Ok((code, r2, c2))
    requires code > UNSIGNED_CHAR_MAX ==>
               offset == if c2.LzsRun? then Lzs.DecodePosition(end, c2.sz) else Lz5.DecodePosition(end, c2.s5)
    ensures var t := TokenOf(code, offset, positionAdjust, size);
            LzssRun(data, r0, c0, e0, n + 1, positionAdjust, size) == Ok((ts + [t], r2, c2, (end + Grow(t)) % size))
  {
    hide LzssCode;
  }

  /** The state of `Read`'s decoding loop: `ts` decoded so far on top of the
      history `h0`; the `len - rem` bytes delivered are the history's bytes
      from `p0` on; the rest of the history is pending in the ring; and
      `count` has grown by the history's growth. */
  ghost predicate Progress(h0: seq<byte>, p0: int, size: nat, ts: seq<Token>, len: int, count0: int,
                           w: Ring, out: seq<byte>, rem: int, count: int)
  {
    && size <= |h0| && Window.Wf(w) && |w.buf| == size
    && (forall i :: 0 <= i < |ts| ==> Fits(ts[i], size))
    && var hs := ApplyAll(h0, ts, size);
       && Holds(w, hs)
       && 0 <= rem <= len && |out| == len - rem
       && 0 <= p0 && p0 + |out| <= |hs| && out == hs[p0..p0 + |out|]
       && Pending(w) == |hs| - p0 - |out|
       && (rem > 0 ==> w.begin == w.end)
       && count - count0 == |hs| - |h0|
  }

  /** A literal while bytes are wanted: written to the ring and delivered. */
  lemma LiteralStep(h0: seq<byte>, p0: int, size: nat, ts: seq<Token>, len: int, count0: int,
                    w: Ring, out: seq<byte>, rem: int, count: int, b: byte)
    requires Progress(h0, p0, size, ts, len, count0, w, out, rem, count) && rem > 0
    ensures Progress(h0, p0, size, ts + [Literal(b)], len, count0, PutLiteral(w, b), out + [b], rem - 1, count + 1)
  {
    var hs := ApplyAll(h0, ts, size);
    ApplyAllSnoc(h0, ts, Literal(b), size);
    PutLiteralHolds(w, hs, b);
    assert (hs + [b])[p0..p0 + |out| + 1] == hs[p0..p0 + |out|] + [b];
  }

  /** A match of `length` bytes from slot `mp` while bytes are wanted: copied
      in the ring, delivered as far as wanted, the rest left pending. */
  method MatchStep(ghost h0: seq<byte>, ghost p0: int, size: nat, ghost ts: seq<Token>, len: int, count0: int,
                   w: Ring, out: seq<byte>, rem: int, count: int, mp: int, length: int)
    returns (w': Ring, out': seq<byte>, rem': int)
    requires Progress(h0, p0, size, ts, len, count0, w, out, rem, count) && rem > 0
    requires 0 <= mp < size && 0 < length <= size
    ensures 1 <= Age(w, mp) <= size && w'.end == (w.end + length) % size
    ensures Progress(h0, p0, size, ts + [Copy(length, Age(w, mp))], len, count0, w', out', rem', count + length)
  {
    hide ApplyAll, Pending, CopyOut;
    ghost var hs := ApplyAll(h0, ts, size);
    ghost var t := Copy(length, Age(w, mp));
    ApplyAllSnoc(h0, ts, t, size);
    var got;
    w', got, rem' := CopyMatch(w, mp, length, rem, hs);
    out' := out + got;
    ghost var hs' := CopyOut(hs, Age(w, mp), length);
    assert p0 + |out| == |hs|;
    DeliveredJoin(hs, hs', p0, out, got);
  }

  /** What was delivered up to the end of the history, followed by the
      first bytes past it, is one slice of the longer history. */
  lemma DeliveredJoin(hs: seq<byte>, hs': seq<byte>, p0: int, out: seq<byte>, got: seq<byte>)
    requires |hs| + |got| <= |hs'| && hs'[..|hs|] == hs && got == hs'[|hs|..|hs| + |got|]
    requires 0 <= p0 && p0 + |out| == |hs| && out == hs[p0..]
    ensures hs'[p0..p0 + |out| + |got|] == out + got
  {
    assert hs'[p0..|hs|] == hs'[..|hs|][p0..];
  }

  /** One pass of `Read`'s decoding loop: a literal, or a match length
      and its position. */
  method DecodeStep(data: seq<byte>, positionAdjust: int, ghost h0: seq<byte>, ghost p0: int, size: nat,
                    len: int, count0: int, ghost r0: Reader, ghost c0: Codec, ghost e0: int,
                    r: Reader, codec: Codec, w: Ring, out: seq<byte>, rem: int, count: int,
                    ghost ts: seq<Token>, ghost codes: seq<(int, int)>)
    returns (res: Result<(Reader, Codec, Ring, seq<byte>, int, int)>, ghost ts': seq<Token>, ghost codes': seq<(int, int)>)
    requires InRange(r) && Started(codec) && CodecOk(codec, size) && 0x800 <= size
    requires OFFSET <= positionAdjust <= 256 - 2
    requires Progress(h0, p0, size, ts, len, count0, w, out, rem, count) && rem > 0
    requires Tied(data, r0, c0, e0, positionAdjust, size, ts, codes, r, codec, w.end)
    ensures res.Ok? ==> var (r', codec', w', out', rem', count') := res.value;
              && InRange(r') && Started(codec') && CodecOk(codec', size)
              && Progress(h0, p0, size, ts', len, count0, w', out', rem', count')
              && Tied(data, r0, c0, e0, positionAdjust, size, ts', codes', r', codec', w'.end)
              && count < count'
  {
    hide LzssRun, LzssCode, Tied, ApplyAll, Pending, CopyOut, Holds;
    ts', codes' := ts, codes;
    TiedKind(data, r0, c0, e0, positionAdjust, size, ts, codes, r, codec, w.end);
    var got :- NextCode(data, r, codec, size);
    var c := got.0;
    var r1, c1 := got.1, got.2;
    if c <= UNSIGNED_CHAR_MAX {
      LiteralStep(h0, p0, size, ts, len, count0, w, out, rem, count, c as byte);
      TiedStep(data, r0, c0, e0, positionAdjust, size, ts, codes, r, codec, w.end, c, 0, r1, c1);
      ts', codes' := ts + [Literal(c as byte)], codes + [(c, 0)];
      return Ok((r1, c1, PutLiteral(w, c as byte), out + [c as byte], rem - 1, count + 1)), ts', codes';
    }
    var matchLength := c - positionAdjust;
    var pos :- NextPosition(data, r1, c1, w.end, count, size);
    var offset := pos.0;
    MatchDistance(w, offset);
    var mp := (w.end - offset - 1) % size;
    ghost var t := Copy(matchLength, Age(w, mp));
    assert t == TokenOf(c, offset, positionAdjust, size);
    TiedStep(data, r0, c0, e0, positionAdjust, size, ts, codes, r, codec, w.end, c, offset, pos.1, pos.2);
    var w', out', rem' := MatchStep(h0, p0, size, ts, len, count0, w, out, rem, count, mp, matchLength);
    ts', codes' := ts + [t], codes + [(c, offset)];
    return Ok((pos.1, pos.2, w', out', rem', count + matchLength)), ts', codes';
  }

  /** The decoding loop of `Read`: literals and matches until `rem` bytes
      more were delivered or `count` reached `originalSize`. */
  method DecodeLoop(data: seq<byte>, originalSize: int, positionAdjust: int, r: Reader, codec: Codec,
                    ghost h0: seq<byte>, ghost p0: int, size: nat, len: int, count0: int,
                    w: Ring, out: seq<byte>, rem: int)
    returns (res: Result<(Reader, Codec, Ring, seq<byte>, int, int)>, ghost ts: seq<Token>, ghost codes: seq<(int, int)>)
    requires InRange(r) && Started(codec) && CodecOk(codec, size) && 0x800 <= size
    requires OFFSET <= positionAdjust <= 256 - 2
    requires Progress(h0, p0, size, [], len, count0, w, out, rem, count0)
    ensures |codes| == |ts|
    ensures forall k :: 0 <= k < |ts| ==>
              0 <= codes[k].0 < CODE_LIMIT && ts[k] == TokenOf(codes[k].0, codes[k].1, positionAdjust, size)
    ensures res.Ok? ==> var (r', codec', w', out', rem', count') := res.value;
              && InRange(r') && Started(codec') && CodecOk(codec', size)
              && Progress(h0, p0, size, ts, len, count0, w', out', rem', count')
              && (rem' > 0 ==> originalSize <= count')
              && ((codec.LzsRun? || codec.Lz5Run?) ==>
                    LzssRun(data, r, codec, w.end, |ts|, positionAdjust, size) == Ok((ts, r', codec', w'.end)))
  {
    ts, codes := [], [];
    ghost var r0, c0, e0 := r, codec, w.end;
    var r, codec, w, out, rem, count := r, codec, w, out, rem, count0;
    while count < originalSize && rem > 0
      invariant InRange(r) && Started(codec) && CodecOk(codec, size)
      invariant Progress(h0, p0, size, ts, len, count0, w, out, rem, count)
      invariant Tied(data, r0, c0, e0, positionAdjust, size, ts, codes, r, codec, w.end)
      decreases originalSize - count
    {
      var step;
      ghost var ts', codes';
      step, ts', codes' := DecodeStep(data, positionAdjust, h0, p0, size, len, count0, r0, c0, e0,
                                      r, codec, w, out, rem, count, ts, codes);
      if step.Err? {
        return Err(step.error), ts, codes;
      }
      ts, codes := ts', codes';
      r, codec, w, out, rem, count := step.value.0, step.value.1, step.value.2, step.value.3, step.value.4, step.value.5;
    }
    return Ok((r, codec, w, out, rem, count)), ts, codes;
  }

  /** The start of `Read`: `InitRead` on the first call, then the pending
      bytes of the ring, up to `len`. */
  method Begin(d: Decoder, len: nat, ghost h: seq<byte>)
    returns (res: Result<(Reader, Codec, Ring, seq<byte>)>, ghost h0: seq<byte>)
    requires Valid(d) && Holds(d.ring, h)
    ensures |h0| == |h| && h0[..|h| - |d.ring.buf|] == h[..|h| - |d.ring.buf|]
    ensures !(d.needInitialRead && d.codec.Lz5Run?) ==> h0 == h
    ensures !d.needInitialRead ==> res.Ok?
    ensures res.Ok? ==> var (r', codec', w', out) := res.value;
              && InRange(r') && Started(codec') && CodecOk(codec', |d.ring.buf|)
              && (!d.needInitialRead ==> r' == d.r && codec' == d.codec)
              && (!d.needInitialRead && len == 0 ==> w' == d.ring && out == [])
              && Progress(h0, |h| - Pending(d.ring), |d.ring.buf|, [], len, d.decodeCount, w', out, len - |out|, d.decodeCount)
              && |out| <= len && (|out| < len ==> Pending(w') == 0)
              && w'.end == d.ring.end
              && ((d.codec.LzsRun? || d.codec.Lz5Run?) ==> (r', codec') == LzssStart(d))
  {
    hide Drain, CodecOk;
    var size := |d.ring.buf|;
    h0 := h;
    var r, codec, w := d.r, d.codec, d.ring;
    if d.needInitialRead {
      var got :- InitCodec(d.data, r, codec, w.buf);
      r, codec := got.0, got.1;
      if codec.Lz5Run? {
        w := w.(buf := got.2);
        h0 := h[..|h| - size] + got.2;
        SeededHolds(h, got.2);
      }
    }
    DrainReads(w, h0, len);
    var out, w1 := Drain(w, len).0, Drain(w, len).1;
    return Ok((r, codec, w1, out)), h0;
  }

  /** `Read(b, off, len)`. With `h` the output history the ring stands for
      (for LZ5's first call, the history with the seeded dictionary as its
      last bytes, `h0`), the bytes delivered are the next unread bytes of
      the history extended by the decoded items `ts`; whatever is decoded
      beyond `len` stays pending in the ring. Fewer than `len` bytes come
      back only at the end of the entry, and -1 only when nothing was left
      at all. The history grows by exactly as many bytes as `decodeCount`. */
  method Read(d: Decoder, len: int, ghost h: seq<byte>)
    returns (res: Result<(int, seq<byte>, Decoder)>, ghost h0: seq<byte>, ghost ts: seq<Token>,
             ghost codes: seq<(int, int)>)
    requires Valid(d) && Holds(d.ring, h)
    ensures len < 0 ==> res == Err(InvalidArgument)
    ensures |h0| == |h| && h0[..|h| - |d.ring.buf|] == h[..|h| - |d.ring.buf|]
    ensures !(d.needInitialRead && d.codec.Lz5Run?) ==> h0 == h
    ensures res.Ok? ==>
              var (n, out, d') := res.value;
              var size := |d.ring.buf|;
              var p0 := |h| - Pending(d.ring);
              && Valid(d') && !d'.needInitialRead && |d'.ring.buf| == size
              && d'.data == d.data && d'.originalSize == d.originalSize && d'.positionAdjust == d.positionAdjust
              && (forall i :: 0 <= i < |ts| ==> Fits(ts[i], size))
              && var hs := ApplyAll(h0, ts, size);
                 && Holds(d'.ring, hs)
                 && 0 <= |out| <= len && 0 <= p0 && p0 + |out| <= |hs|
                 && out == hs[p0..p0 + |out|]
                 && Pending(d'.ring) == |hs| - p0 - |out|
                 && d'.decodeCount - d.decodeCount == |hs| - |h0|
                 && (|out| < len ==> d.originalSize <= d'.decodeCount && Pending(d'.ring) == 0)
                 && (n == -1 <==> out == [] && 0 < len && d.originalSize <= d.decodeCount)
                 && (n != -1 ==> n == |out|)
    ensures |codes| == |ts|
    ensures forall k :: 0 <= k < |ts| ==>
              0 <= codes[k].0 < CODE_LIMIT && ts[k] == TokenOf(codes[k].0, codes[k].1, d.positionAdjust, |d.ring.buf|)
    ensures res.Ok? && (d.codec.LzsRun? || d.codec.Lz5Run?) ==>
              var d' := res.value.2;
              LzssRun(d.data, LzssStart(d).0, LzssStart(d).1, d.ring.end, |ts|, d.positionAdjust, |d.ring.buf|)
                == Ok((ts, d'.r, d'.codec, d'.ring.end))
    ensures res.Ok? && 0 < len ==> res.value.0 != 0
    ensures len == 0 && !d.needInitialRead ==> res == Ok((0, [], d))
  {
    hide ApplyAll, Holds, Pending, CodecOk;
    var size := |d.ring.buf|;
    ts, codes := [], [];
    h0 := h;
    if len < 0 {
      return Err(InvalidArgument), h0, ts, codes;
    }
    var start;
    start, h0 := Begin(d, len, h);
    if start.Err? {
      return Err(start.error), h0, ts, codes;
    }
    var (r, codec, w, out) := start.value;
    ghost var p0 := |h| - Pending(d.ring);
    var d1 := d.(r := r, ring := w, needInitialRead := false, codec := codec);
    if |out| == len {
      return Ok((len, out, d1)), h0, ts, codes;
    }
    if d.originalSize <= d.decodeCount {
      var n := if |out| > 0 then |out| else -1;
      return Ok((n, out, d1)), h0, ts, codes;
    }
    var loop;
    loop, ts, codes := DecodeLoop(d.data, d.originalSize, d.positionAdjust, r, codec, h0, p0, size, len, d.decodeCount,
                           w, out, len - |out|);
    if loop.Err? {
      return Err(loop.error), h0, ts, codes;
    }
    var (r', codec', w', out', rem', count') := loop.value;
    return Ok((len - rem', out', d.(r := r', ring := w', decodeCount := count', needInitialRead := false, codec := codec'))), h0, ts, codes;
  }
}
