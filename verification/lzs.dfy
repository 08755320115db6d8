/** The `-lzs-` decoder (Library/LzsDecoder.cs): a 2 KiB dictionary read
    through the bit reader. Each item starts with a flag bit: 1 for an
    8-bit literal, 0 for an 11-bit dictionary slot and a 4-bit length. */
module Lzs {
  import opened BitStream
  import opened BitReader

  const DICTIONARY_BIT := 11
  const POSITION_ADJUST := 256 - 2
  const MAGIC := 18

  datatype State = State(matchPosition: int)

  const Initial := State(0)

  /** `InitRead`: prime the 16-bit window, nothing else. */
  function InitRead(data: seq<byte>, r: Reader): (r': Reader)
    requires InRange(r)
    ensures InRange(r') && Consumed(r') == Consumed(r) + 2 * CHAR_BIT
  {
    FillBitBuffer(data, r, 2 * CHAR_BIT)
  }

  /** `DecodeCode`: a literal below 0x100, or 0x100 plus the 4-bit length
      field with the 11-bit slot kept for `DecodePosition`. */
  function DecodeCode(data: seq<byte>, r: Reader, s: State): (res: (int, Reader, State))
    requires InRange(r)
    ensures InRange(res.1) && 0 <= res.0 < 0x100 + 16
    ensures res.0 < 0x100 ==> Consumed(res.1) == Consumed(r) + 9 && res.2 == s
    ensures res.0 >= 0x100 ==> Consumed(res.1) == Consumed(r) + 16 && 0 <= res.2.matchPosition < 0x800
  {
    Pow2Values();
    assert Pow2(11) == 0x800 by { Pow2Add(8, 3); }
    var (b, r1) := GetBits(data, r, 1);
    if b != 0 then
      var (c, r2) := GetBits(data, r1, 8);
      (c, r2, s)
    else
      var (mp, r2) := GetBits(data, r1, 11);
      var (n, r3) := GetBits(data, r2, 4);
      (n + 0x100, r3, State(mp))
  }

  /** What `DecodeCode` reads, in stream terms: the flag bit, then the
      literal, or the slot and the length field. */
  lemma DecodeCodeReads(data: seq<byte>, r: Reader, s: State)
    requires Valid(data, r)
    ensures var (c, r', s') := DecodeCode(data, r, s);
            var at := Consumed(r);
            && Valid(data, r')
            && (c < 0x100 <==> Bits(data, at, 1) == 1)
            && (c < 0x100 ==> c == Bits(data, at + 1, 8))
            && (c >= 0x100 ==> s'.matchPosition == Bits(data, at + 1, 11) && c == 0x100 + Bits(data, at + 12, 4))
  {
    hide Bits, Shl, Shr, LowBits, Pow2, StreamBit;
    Pow2Values();
    var at := Consumed(r);
    GetBitsReads(data, r, 1);
    var (b, r1) := GetBits(data, r, 1);
    GetBitsReads(data, r1, 8);
    GetBitsReads(data, r1, 11);
    var (mp, r2) := GetBits(data, r1, 11);
    GetBitsReads(data, r2, 4);
  }

  /** `DecodePosition`: the offset back from `end` of the stored slot. */
  function DecodePosition(end: int, s: State): (offset: int)
    ensures 0 <= offset < 0x800
  {
    (end - s.matchPosition - MAGIC) % 0x800
  }

  /** The match copy starts at `(end - offset - 1) & mask`; with this
      offset that is always slot `matchPosition + 17`, wherever `end` is. */
  lemma CopySource(end: int, s: State)
    requires 0 <= end < 0x800
    ensures (end - DecodePosition(end, s) - 1) % 0x800 == (s.matchPosition + MAGIC - 1) % 0x800
  {
    ModUnique(end, 0x800, 0, end);
    ModDiff(end, end - s.matchPosition - MAGIC, -1, 0x800);
  }
}
