/** The `-lz5-` decoder (Library/Lz5Decoder.cs): a 4 KiB dictionary read a
    byte at a time. A flag byte announces the next eight items, least
    significant bit first: 1 for a literal byte, 0 for a two-byte match
    holding a 12-bit slot and a 4-bit length. The dictionary starts out
    seeded with runs, ramps and blanks. */
module Lz5 {
  import opened Outcome
  import opened BitStream

  const DICTIONARY_BIT := 12
  const DICTIONARY_SIZE := 0x1000
  const POSITION_ADJUST := 0x100 - 3
  const MAGIC := 19

  datatype State = State(flag: nat, flagCount: int, matchPosition: int)

  /** The state `InitRead` leaves: no flag bits left. */
  const Initial := State(0, 0, 0)

  /** `BinaryReader.ReadByte`: the next byte, or the end of the stream. */
  function ReadByte(data: seq<byte>, pos: nat): (r: Result<(byte, nat)>)
    ensures r.Ok? <==> pos < |data|
    ensures r.Ok? ==> r.value.1 == pos + 1
  {
    if pos < |data| then Ok((data[pos], pos + 1)) else Err(EndOfStream)
  }

  /** `DecodeCode`: fetch a flag byte when the last one is used up, then
      a literal (flag bit 1) or a match (flag bit 0) with `matchPosition`
      set from its two bytes. */
  function DecodeCode(data: seq<byte>, pos: nat, s: State): (r: Result<(int, nat, State)>)
    ensures r.Err? ==> r.error == EndOfStream && |data| < pos + 3
    ensures r.Ok? ==> var (c, pos', s') := r.value;
              && 0 <= c < 0x100 + 16 && pos < pos' <= |data|
              && s'.flagCount == (if s.flagCount == 0 then 7 else s.flagCount - 1)
              && var flag := if s.flagCount == 0 then data[pos] as nat else s.flag;
                 var at := if s.flagCount == 0 then pos + 1 else pos;
                 && s'.flag == flag / 2
                 && (c < 0x100 <==> flag % 2 == 1)
                 && (c < 0x100 ==> pos' == at + 1 && c == data[at] as int && s'.matchPosition == s.matchPosition)
                 && (c >= 0x100 ==> (&& pos' == at + 2 && c == 0x100 + data[at + 1] as int % 16
                                     && s'.matchPosition == data[at] as int + (data[at + 1] as int / 16) * 0x100))
  {
    var (flag, count, p) :-
      if s.flagCount == 0 then
        var (f, p1) :- ReadByte(data, pos);
        Ok((f as nat, 8, p1))
      else Ok((s.flag, s.flagCount, pos));
    var (c, p2) :- ReadByte(data, p);
    if flag % 2 == 0 then
      var (c2, p3) :- ReadByte(data, p2);
      Ok((0x100 + c2 as int % 16, p3, State(flag / 2, count - 1, c as int + (c2 as int / 16) * 0x100)))
    else
      Ok((c as int, p2, State(flag / 2, count - 1, s.matchPosition)))
  }

  /** The state `k` items after flag byte `f` was read. */
  ghost predicate FlagFrom(s: State, f: int, k: nat)
  {
    k <= 8 && s.flag == Shr(f, k) && s.flagCount == 8 - k
  }

  /** Item `k` after a flag byte is a literal exactly when bit `k` of the
      flag byte is set, and a new flag byte comes every eight items. */
  lemma FlagOrder(data: seq<byte>, pos: nat, s: State, f: byte, k: nat)
    requires FlagFrom(s, f as int, k) && k < 8
    requires DecodeCode(data, pos, s).Ok?
    ensures var (c, _, s') := DecodeCode(data, pos, s).value;
            && (c < 0x100 <==> ByteBit(f as int, k) == 1)
            && FlagFrom(s', f as int, k + 1)
  {
    ByteBitIsShr(f as int, k);
    ShrSucc(f as int, k);
  }

  /** After eight items the next call reads a fresh flag byte and starts over. */
  lemma FlagRefresh(data: seq<byte>, pos: nat, s: State, f: byte)
    requires FlagFrom(s, f as int, 8)
    requires DecodeCode(data, pos, s).Ok?
    ensures var (c, _, s') := DecodeCode(data, pos, s).value;
            && (c < 0x100 <==> ByteBit(data[pos] as int, 0) == 1)
            && FlagFrom(s', data[pos] as int, 1)
  {
    ByteBitIsShr(data[pos] as int, 0);
    ShiftByZero(data[pos] as int);
    ShrSucc(data[pos] as int, 0);
  }

  /** `DecodePosition`: the offset back from `end` of the stored slot. */
  function DecodePosition(end: int, s: State): (offset: int)
    ensures 0 <= offset < DICTIONARY_SIZE
  {
    (end - s.matchPosition - MAGIC) % DICTIONARY_SIZE
  }

  /** The match copy starts at slot `matchPosition + 18`, wherever `end` is. */
  lemma CopySource(end: int, s: State)
    requires 0 <= end < DICTIONARY_SIZE
    ensures (end - DecodePosition(end, s) - 1) % DICTIONARY_SIZE == (s.matchPosition + MAGIC - 1) % DICTIONARY_SIZE
  {
    ModUnique(end, DICTIONARY_SIZE, 0, end);
    ModDiff(end, end - s.matchPosition - MAGIC, -1, DICTIONARY_SIZE);
  }

  // ---------------------------------------------------------------------------
  // The seeded dictionary

  const RUNS := 13 * 256 + 18      // 3346: after 256 runs of 13 equal bytes
  const RAMP_UP := RUNS             // 0, 1, ..., 255
  const RAMP_DOWN := RUNS + 256     // 255, 254, ..., 0
  const ZERO_SLOT := RUNS + 512     // 3858
  const BLANK_SLOT := RUNS + 640    // 3986

  /** What slot `j` holds after `InitRead`, given what it held before:
      byte `i` thirteen times from slot 18 on, then a rising and a falling
      ramp, and the two single slots the last two loops write. */
  function Seeded(buf: seq<byte>, j: int): byte
    requires 0 <= j < |buf|
  {
    if 18 <= j < RUNS then ((j - 18) / 13) as byte
    else if RAMP_UP <= j < RAMP_DOWN then (j - RAMP_UP) as byte
    else if RAMP_DOWN <= j < ZERO_SLOT then (255 - (j - RAMP_DOWN)) as byte
    else if j == ZERO_SLOT then 0
    else if j == BLANK_SLOT then 0x20
    else buf[j]
  }

  /** The seeding loops of `InitRead`, slot by slot. */
  ghost predicate RowsDone(buf: seq<byte>, cur: seq<byte>, i: int, jj: int)
    requires |buf| == |cur| == DICTIONARY_SIZE
    requires 0 <= i <= 256 && 0 <= jj <= 13 && (i == 256 ==> jj == 0)
  {
    forall j :: 0 <= j < DICTIONARY_SIZE ==>
      cur[j] == if 18 <= j < 18 + 13 * i + jj then ((j - 18) / 13) as byte
                else if RAMP_UP <= j < RAMP_UP + i then (j - RAMP_UP) as byte
                else if RAMP_DOWN <= j < RAMP_DOWN + i then (255 - (j - RAMP_DOWN)) as byte
                else buf[j]
  }

  /** `InitRead`'s dictionary seeding. The last two loops write one fixed
      slot each, over and over. */
  method Seed(buf: seq<byte>) returns (buf': seq<byte>)
    requires |buf| == DICTIONARY_SIZE
    ensures |buf'| == DICTIONARY_SIZE
    ensures forall j :: 0 <= j < DICTIONARY_SIZE ==> buf'[j] == Seeded(buf, j)
  {
    buf' := buf;
    var i := 0;
    while i < 256
      invariant 0 <= i <= 256 && |buf'| == DICTIONARY_SIZE
      invariant RowsDone(buf, buf', i, 0)
    {
      var j := 0;
      while j < 13
        invariant 0 <= j <= 13 && |buf'| == DICTIONARY_SIZE
        invariant RowsDone(buf, buf', i, j)
      {
        buf' := buf'[i * 13 + 18 + j := i as byte];
        j := j + 1;
      }
      buf' := buf'[RAMP_UP + i := i as byte];
      buf' := buf'[RAMP_DOWN + i := (255 - i) as byte];
      i := i + 1;
    }
    ghost var rows := buf';
    i := 0;
    while i < 128
      invariant 0 <= i <= 128 && |buf'| == DICTIONARY_SIZE
      invariant forall j :: 0 <= j < DICTIONARY_SIZE && j != ZERO_SLOT ==> buf'[j] == rows[j]
      invariant i > 0 ==> buf'[ZERO_SLOT] == 0
    {
      buf' := buf'[ZERO_SLOT := 0];
      i := i + 1;
    }
    i := 0;
    while i < 128 - 18
      invariant 0 <= i <= 128 - 18 && |buf'| == DICTIONARY_SIZE
      invariant forall j :: 0 <= j < DICTIONARY_SIZE && j != ZERO_SLOT && j != BLANK_SLOT ==> buf'[j] == rows[j]
      invariant buf'[ZERO_SLOT] == 0
      invariant i > 0 ==> buf'[BLANK_SLOT] == 0x20
    {
      buf' := buf'[BLANK_SLOT := 0x20];
      i := i + 1;
    }
  }
}
