/** The MSB-first bit reader shared by every sliding-dictionary decoder
    (`FillBitBuffer` and `GetBits`, Library/SlidingDicDecoder.cs).

    `bitBuffer` is a 16-bit look-ahead window; `subBitBuffer` holds the
    `bitCount` bits that follow it, left-aligned in a byte; `pos` counts the
    bytes taken from the input. The operations only need the registers to stay
    within their widths (`InRange`); what they mean is captured by `Valid`: the
    window holds the next 16 unconsumed bits of the stream `BitStream.Bits`
    describes, and the `...Reads` lemmas show every operation keeps it so. */
module BitReader {
  import opened BitStream

  const CHAR_BIT := 8

  datatype Reader = Reader(bitBuffer: int, subBitBuffer: int, bitCount: int, pos: nat)

  /** A freshly constructed decoder: every register zero, nothing read. */
  const Fresh := Reader(0, 0, 0, 0)

  /** Registers within the widths the source keeps them in. */
  predicate InRange(r: Reader)
  {
    0 <= r.bitBuffer < 0x10000 && 0 <= r.subBitBuffer < 0x100 && 0 <= r.bitCount <= 8
  }

  /** Bits consumed so far, counted in stream coordinates (the stream starts
      with the 16 zero bits the empty window stands for). */
  function Consumed(r: Reader): int
  {
    8 * r.pos - r.bitCount
  }

  /** The window holds the next 16 unconsumed stream bits and `subBitBuffer`
      holds the `bitCount` bits after them, left-aligned in a byte. */
  ghost predicate Valid(data: seq<byte>, r: Reader)
  {
    && InRange(r)
    && r.bitCount <= 8 * r.pos
    && r.bitBuffer == Bits(data, Consumed(r), 16)
    && r.subBitBuffer == Shl(Bits(data, Consumed(r) + 16, r.bitCount), 8 - r.bitCount)
  }

  /** `in.Read()` as the reader uses it: a result `<= 0` (a zero byte or the
      end of input) is taken as 0, and the position moves on regardless. */
  function NextByte(data: seq<byte>, pos: nat): (b: byte)
    ensures b == StreamByte(data, pos + 2)
    ensures pos >= |data| ==> b == 0
  {
    if pos < |data| then data[pos] else 0
  }

  /** The refill loop and the final shift of `FillBitBuffer`. `bb` may grow past
      16 bits inside the loop; the source's 32-bit `int` may wrap there, which
      leaves the low 16 bits that the final `& 0xFFFF` keeps unchanged. */
  function FillLoop(data: seq<byte>, bb: int, sub: int, count: nat, pos: nat, n: nat): (r: Reader)
    requires count <= 8
    ensures InRange(r) && r.pos >= pos
    ensures 8 * r.pos - r.bitCount == 8 * pos - count + n
    decreases n, 8 - count
  {
    hide Shl, Shr, LowBits, NextByte;
    if n > count then
      FillLoop(data, Shl(bb, count) + Shr(sub, CHAR_BIT - count), NextByte(data, pos), CHAR_BIT, pos + 1, n - count)
    else
      FinalBounds(bb, sub, count, n);
      Reader(LowBits(Shl(bb, n) + Shr(sub, CHAR_BIT - n), 16), LowBits(Shl(sub, n), 8), count - n, pos)
  }

  /** The window and the byte kept after the final shift fit their widths. */
  lemma FinalBounds(bb: int, sub: int, count: nat, n: nat)
    requires n <= count <= 8
    ensures 0 <= LowBits(Shl(bb, n) + Shr(sub, CHAR_BIT - n), 16) < 0x10000
    ensures 0 <= LowBits(Shl(sub, n), 8) < 0x100
  {
    hide Shl, Shr, LowBits;
    LowBitsBound(Shl(bb, n) + Shr(sub, CHAR_BIT - n), 16);
    LowBitsBound(Shl(sub, n), 8);
    Pow2Values();
  }

  /** `FillBitBuffer(n)`: consume `n` bits and refill the window. */
  function FillBitBuffer(data: seq<byte>, r: Reader, n: nat): (r': Reader)
    requires InRange(r)
    ensures InRange(r') && r'.pos >= r.pos
    ensures Consumed(r') == Consumed(r) + n
  {
    FillLoop(data, r.bitBuffer, r.subBitBuffer, r.bitCount, r.pos, n)
  }

  /** The top `n` bits of the window, `bitBuffer >>> (16 - n)`. */
  function Peek(r: Reader, n: nat): (x: int)
    requires InRange(r) && n <= 16
    ensures 0 <= x < Pow2(n)
  {
    Pow2Values();
    ShrRange(r.bitBuffer, 16 - n, n);
    Shr(r.bitBuffer, 16 - n)
  }

  /** `GetBits(n)`: the top `n` bits of the window, then `FillBitBuffer(n)`. */
  function GetBits(data: seq<byte>, r: Reader, n: nat): (res: (int, Reader))
    requires InRange(r) && n <= 16
    ensures 0 <= res.0 < Pow2(n)
    ensures InRange(res.1) && Consumed(res.1) == Consumed(r) + n
    ensures res.1.pos >= r.pos
  {
    (Peek(r, n), FillBitBuffer(data, r, n))
  }

  /** `(bitBuffer & (0x8000 >>> i)) != 0`: window bit `i`, counted from the
      top. A mask shifted out of the word tests nothing. */
  predicate WindowBit(r: Reader, i: nat)
  {
    i < 16 && Shr(r.bitBuffer, 15 - i) % 2 == 1
  }

  // ---------------------------------------------------------------------------
  // What the reader reads

  /** Arithmetic of the final shift's window: `x` is `high` (`n` bits) followed
      by `low` (`count - n` bits), stored left-aligned in a byte as `sub`. */
  lemma FinalWindowShift(bb: int, x: int, high: int, low: int, sub: int, count: nat, n: nat, pad: nat)
    requires n <= count && pad + count == 8
    requires x == Shl(high, count - n) + low && 0 <= low < Pow2(count - n)
    requires sub == Shl(x, pad)
    ensures Shl(bb, n) + Shr(sub, 8 - n) == Shl(bb, n) + high
  {
    hide Shl, Shr, Pow2;
    ShrShl(x, pad, count - n);
    ShrConcat(high, low, count - n);
  }

  /** Arithmetic of the final shift's byte: shifting `sub` left by `n` and
      keeping 8 bits leaves `low`, left-aligned. */
  lemma FinalByteShift(x: int, high: int, low: int, sub: int, count: nat, n: nat, pad: nat)
    requires n <= count && pad + count == 8
    requires x == Shl(high, count - n) + low && 0 <= low < Pow2(count - n)
    requires sub == Shl(x, pad)
    ensures LowBits(Shl(sub, n), 8) == Shl(low, pad + n)
    ensures 0 <= Shl(low, pad + n) < 0x100
  {
    var e := pad + n;
    ShlAdd(x, pad, n);
    assert Shl(sub, n) == Shl(x, e);
    ShlDistributes(Shl(high, count - n), low, e);
    ShlAdd(high, count - n, e);
    assert count - n + e == 8;
    assert Shl(sub, n) == Shl(high, 8) + Shl(low, e);
    ShlBound(low, count - n, e);
    Pow2Values();
    assert Shl(low, e) < Pow2(8);
    LowConcat(high, Shl(low, e), 8);
  }

  /** The final shift of `FillBitBuffer` leaves a valid reader. */
  lemma FinalShiftReads(data: seq<byte>, bb: int, sub: int, count: nat, pos: nat, n: nat, s: nat, w: nat)
    requires n <= count <= 8
    requires bb == Bits(data, s, w) && sub == Shl(Bits(data, s + w, count), 8 - count)
    requires s + w + count == 8 * pos + 16 && w + n >= 16
    ensures var r := Reader(LowBits(Shl(bb, n) + Shr(sub, CHAR_BIT - n), 16), LowBits(Shl(sub, n), 8), count - n, pos);
            Valid(data, r) && Consumed(r) == s + w + n - 16
  {
    hide Bits, Shl, Shr, LowBits, Pow2, StreamBit;
    var x := Bits(data, s + w, count);
    var high := Bits(data, s + w, n);
    var low := Bits(data, s + w + n, count - n);
    BitsConcat(data, s + w, n, count - n);
    BitsBound(data, s + w + n, count - n);
    FinalWindowShift(bb, x, high, low, sub, count, n, 8 - count);
    FinalByteShift(x, high, low, sub, count, n, 8 - count);
    BitsConcat(data, s, w, n);
    BitsSuffix(data, s, w + n, 16);
    BitsBound(data, s + w + n - 16, 16);
    Pow2Values();
  }

  /** The loop keeps `bb` equal to `w` stream bits from `s`, followed by the
      `count` bits held in `sub`; it ends with the window `n` bits further on. */
  lemma {:induction false} FillLoopReads(data: seq<byte>, bb: int, sub: int, count: nat, pos: nat, n: nat, s: nat, w: nat)
    requires count <= 8
    requires bb == Bits(data, s, w) && sub == Shl(Bits(data, s + w, count), 8 - count)
    requires s + w + count == 8 * pos + 16 && w + n >= 16
    ensures Valid(data, FillLoop(data, bb, sub, count, pos, n))
    decreases n, 8 - count
  {
    hide Bits, Shl, Shr, LowBits, Pow2, StreamBit;
    if n > count {
      var x := Bits(data, s + w, count);
      var bb' := Shl(bb, count) + Shr(sub, CHAR_BIT - count);
      var sub' := NextByte(data, pos);
      ShrShl(x, 8 - count, 0);
      ShiftByZero(x);
      ShiftByZero(Bits(data, s + w + count, 8));
      BitsConcat(data, s, w, count);
      BitsWholeByte(data, pos + 2);
      FillLoopReads(data, bb', sub', 8, pos + 1, n - count, s, w + count);
    } else {
      FinalShiftReads(data, bb, sub, count, pos, n, s, w);
    }
  }

  /** Refilling keeps the window on the stream. */
  lemma FillBitBufferReads(data: seq<byte>, r: Reader, n: nat)
    requires Valid(data, r)
    ensures Valid(data, FillBitBuffer(data, r, n))
  {
    FillLoopReads(data, r.bitBuffer, r.subBitBuffer, r.bitCount, r.pos, n, Consumed(r), 16);
  }

  /** `GetBits(n)` returns the next `n` stream bits and moves past them. */
  lemma GetBitsReads(data: seq<byte>, r: Reader, n: nat)
    requires Valid(data, r) && n <= 16
    ensures GetBits(data, r, n).0 == Bits(data, Consumed(r), n)
    ensures Valid(data, GetBits(data, r, n).1)
  {
    hide Bits, Shl, Shr, LowBits, Pow2, StreamBit, FillBitBuffer, FillLoop;
    BitsPrefix(data, Consumed(r), 16, n);
    FillBitBufferReads(data, r, n);
  }

  /** Window bit `i` is stream bit `i` past the consumed ones. */
  lemma WindowBitReads(data: seq<byte>, r: Reader, i: nat)
    requires Valid(data, r) && i < 16
    ensures WindowBit(r, i) <==> StreamBit(data, Consumed(r) + i) == 1
  {
    hide Bits, Shl, Shr, LowBits, Pow2, StreamBit;
    BitOfWindow(data, Consumed(r), 16, i);
  }

  /** The window of a fresh reader is the 16 zero bits before the data. */
  lemma FreshValid(data: seq<byte>)
    ensures Valid(data, Fresh) && Consumed(Fresh) == 0
  {
    BitsOfPrefix(data, 16);
    assert Bits(data, 16, 0) == 0;
    ShlZero(8);
  }

  /** Every decoder's first refill, `FillBitBuffer(2 * CHAR_BIT)`, leaves the
      window on the first 16 bits of the data. */
  lemma InitialFill(data: seq<byte>)
    ensures var r := FillBitBuffer(data, Fresh, 2 * CHAR_BIT);
            Valid(data, r) && Consumed(r) == 16 && r.bitBuffer == Bits(data, 16, 16)
  {
    FreshValid(data);
    FirstFillReads(data, Fresh);
  }

  lemma FirstFillReads(data: seq<byte>, r: Reader)
    requires Valid(data, r) && Consumed(r) == 0
    ensures var r' := FillBitBuffer(data, r, 2 * CHAR_BIT);
            Valid(data, r') && Consumed(r') == 16 && r'.bitBuffer == Bits(data, 16, 16)
  {
    FillBitBufferReads(data, r, 2 * CHAR_BIT);
  }
}
