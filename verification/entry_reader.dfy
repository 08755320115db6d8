/** Header parsing (Library/LhaEntryReader.cs) over an in-memory byte
    sequence with a cursor.

    A short read, which the source reports as a broken header, is an error
    here as well. Text is kept byte for byte (one character per byte); the
    host's directory separator is a parameter, and so is the CRC-16 the
    level 1 and 2 headers are checked with, whose code is not part of this
    model. */
module EntryReader {
  import opened Outcome
  import opened BitStream
  import opened Entry
  import opened Checksum

  const HEADER_BASE := 21
  const OFF_LEVEL := 20
  const DELIM_MSDOS := '\\'
  const DELIM_UNIX := '/'
  const DELIM_MAC := ':'
  const DELIM_EXTRA := 0xFF

  const EXT_COMMON := 0x00
  const EXT_FILENAME := 0x01
  const EXT_DIRNAME := 0x02

  // ---------------------------------------------------------------------------
  // Little-endian integers

  /** `Get16`: an unsigned little-endian 16-bit value. */
  function Get16(b: seq<byte>, off: nat): (v: int)
    requires off + 2 <= |b|
    ensures 0 <= v < 0x1_0000
  {
    b[off] as int + b[off + 1] as int * 0x100
  }

  /** `Get32`: an unsigned little-endian 32-bit value. */
  function Get32(b: seq<byte>, off: nat): (v: int)
    requires off + 4 <= |b|
    ensures 0 <= v <= UINT32_MAX
  {
    Get16(b, off) + Get16(b, off + 2) * 0x1_0000
  }

  /** The encoder the two readers invert. */
  function Put16(v: int): (b: seq<byte>)
    requires 0 <= v < 0x1_0000
    ensures |b| == 2
  {
    [v % 0x100, v / 0x100]
  }

  function Put32(v: int): (b: seq<byte>)
    requires 0 <= v <= UINT32_MAX
    ensures |b| == 4
  {
    Put16(v % 0x1_0000) + Put16(v / 0x1_0000)
  }

  lemma Get16Put16(v: int)
    requires 0 <= v < 0x1_0000
    ensures Get16(Put16(v), 0) == v
  {
  }

  lemma Put16Get16(b: seq<byte>, off: nat)
    requires off + 2 <= |b|
    ensures Put16(Get16(b, off)) == b[off..off + 2]
  {
  }

  lemma Get32Put32(v: int)
    requires 0 <= v <= UINT32_MAX
    ensures Get32(Put32(v), 0) == v
  {
    var b := Put32(v);
    Get16Put16(v % 0x1_0000);
    Get16Put16(v / 0x1_0000);
    assert b[0..2] == Put16(v % 0x1_0000) && b[2..4] == Put16(v / 0x1_0000);
    assert Get16(b, 0) == Get16(Put16(v % 0x1_0000), 0);
    assert Get16(b, 2) == Get16(Put16(v / 0x1_0000), 0);
  }

  lemma Put32Get32(b: seq<byte>, off: nat)
    requires off + 4 <= |b|
    ensures Put32(Get32(b, off)) == b[off..off + 4]
  {
    var v := Get32(b, off);
    assert v % 0x1_0000 == Get16(b, off) && v / 0x1_0000 == Get16(b, off + 2);
    Put16Get16(b, off);
    Put16Get16(b, off + 2);
  }

  // ---------------------------------------------------------------------------
  // Paths

  /** `Encoding.GetString` with one character per byte. */
  function Text(b: seq<byte>): (s: string)
    ensures |s| == |b|
    ensures forall i :: 0 <= i < |b| ==> s[i] as int == b[i]
  {
    seq(|b|, i requires 0 <= i < |b| => b[i] as char)
  }

  /** The delimiter the archiving system used. */
  function Delimiter(os: int): char
  {
    if os == OS_GENERIC || os == OS_MSDOS || os == OS_WIN32 || os == OS_WINNT then DELIM_MSDOS
    else if os == OS_MAC then DELIM_MAC
    else DELIM_UNIX
  }

  function SwapChar(c: char, delim: char, sep: char): char
  {
    if c == delim then sep else if c == sep then delim else c
  }

  /** `ConvertFilePath`: the archive's delimiter and the host separator trade
      places; every other character stays. */
  function ConvertFilePath(s: string, os: int, sep: char): (t: string)
    ensures |t| == |s|
    ensures forall i :: 0 <= i < |s| && s[i] == Delimiter(os) ==> t[i] == sep
    ensures forall i :: 0 <= i < |s| && s[i] != Delimiter(os) && s[i] == sep ==> t[i] == Delimiter(os)
    ensures forall i :: 0 <= i < |s| && s[i] != Delimiter(os) && s[i] != sep ==> t[i] == s[i]
  {
    seq(|s|, i requires 0 <= i < |s| => SwapChar(s[i], Delimiter(os), sep))
  }

  /** Converting twice gives the path back. */
  lemma ConvertFilePathInvolution(s: string, os: int, sep: char)
    ensures ConvertFilePath(ConvertFilePath(s, os, sep), os, sep) == s
  {
  }

  /** The directory-name extended header: the bytes with every 0xFF
      replaced by the host separator, built segment by segment. */
  method DirName(b: seq<byte>, sep: char) returns (s: string)
    ensures |s| == |b|
    ensures forall i :: 0 <= i < |b| ==> s[i] == (if b[i] == DELIM_EXTRA then sep else b[i] as char)
  {
    s := "";
    var pi := 0;
    var i := 0;
    while i < |b|
      invariant 0 <= pi <= i <= |b|
      invariant |s| == pi
      invariant forall k :: 0 <= k < pi ==> s[k] == (if b[k] == DELIM_EXTRA then sep else b[k] as char)
      invariant forall k :: pi <= k < i ==> b[k] != DELIM_EXTRA
    {
      if b[i] == DELIM_EXTRA {
        s := s + Text(b[pi..i]) + [sep];
        pi := i + 1;
      }
      i := i + 1;
    }
    s := s + Text(b[pi..]);
  }

  // ---------------------------------------------------------------------------
  // The byte source

  datatype Src = Src(data: seq<byte>, pos: nat)

  /** `binaryReader.Read(buf, 0, n) == n`, or a broken header. */
  function Take(src: Src, n: nat): (r: Result<(seq<byte>, Src)>)
    ensures r.Ok? <==> src.pos + n <= |src.data|
    ensures r.Ok? ==> r.value.0 == src.data[src.pos..src.pos + n] && r.value.1 == src.(pos := src.pos + n)
  {
    if src.pos + n <= |src.data| then Ok((src.data[src.pos..src.pos + n], src.(pos := src.pos + n)))
    else Err(BrokenHeader)
  }

  /** What the reader accumulates besides the entry: the checksum and CRC
      inputs, the values to compare them with, and the names the extended
      headers deliver. */
  datatype Acc = Acc(
    flagSum: bool, srcSum: int, sumBytes: seq<int>,
    flagCrc: bool, srcCrc: int, crcBytes: seq<byte>,
    fileName: string, dirName: string)

  const EmptyAcc := Acc(false, 0, [], false, 0, [], "", "")

  /** `ReadExHeader(e, size)`: one extended header; returns the size of the
      next one, read from its last two bytes. */
  method ReadExHeader(src: Src, acc: Acc, size: nat, sep: char) returns (r: Result<(int, Src, Acc)>)
    requires size > 0
    ensures r.Ok? ==> r.value.1.data == src.data && r.value.1.pos == src.pos + size <= |src.data|
    ensures r.Ok? ==> 0 <= r.value.0 < 0x1_0000
    ensures r.Ok? ==> r.value.2.sumBytes == acc.sumBytes && r.value.2.flagSum == acc.flagSum && r.value.2.srcSum == acc.srcSum
    ensures r.Ok? ==> |r.value.2.crcBytes| == |acc.crcBytes| + size
    ensures r.Ok? ==>
              var buf := src.data[src.pos..src.pos + size];
              var (next, _, acc') := r.value;
              && size >= 2
              && (buf[0] == EXT_COMMON ==>
                    && size >= 3 && acc'.flagCrc && acc'.srcCrc == Get16(buf, 1)
                    && acc'.crcBytes == acc.crcBytes + buf[1 := 0][2 := 0]
                    && next == Get16(buf[1 := 0][2 := 0], size - 2))
              && (buf[0] != EXT_COMMON ==>
                    && acc'.flagCrc == acc.flagCrc && acc'.srcCrc == acc.srcCrc
                    && acc'.crcBytes == acc.crcBytes + buf
                    && next == Get16(buf, size - 2))
              && (buf[0] == EXT_FILENAME ==> size >= 3 && acc'.fileName == Text(buf[1..size - 2]))
              && (buf[0] != EXT_FILENAME ==> acc'.fileName == acc.fileName)
              && (buf[0] != EXT_DIRNAME ==> acc'.dirName == acc.dirName)
              && (buf[0] == EXT_DIRNAME ==>
                    && |acc'.dirName| == size - 3
                    && forall i :: 0 <= i < size - 3 ==>
                         acc'.dirName[i] == if buf[1 + i] == DELIM_EXTRA then sep else buf[1 + i] as char)
    ensures src.pos + size <= |src.data| && src.data[src.pos] == EXT_COMMON && size < 3 ==> r == Err(IndexOutOfRange)
    ensures src.pos + size <= |src.data| && size < 3 && (src.data[src.pos] == EXT_FILENAME || src.data[src.pos] == EXT_DIRNAME) ==>
              r == Err(InvalidArgument)
    ensures src.pos + size > |src.data| ==> r == Err(BrokenHeader)
  {
    var t := Take(src, size);
    if t.Err? {
      return Err(t.error);
    }
    var (buf, src') := t.value;
    var acc' := acc;
    if buf[0] == EXT_COMMON {
      if size < 3 {
        return Err(IndexOutOfRange);
      }
      acc' := acc'.(flagCrc := true, srcCrc := Get16(buf, 1));
      buf := buf[1 := 0][2 := 0];
    } else if buf[0] == EXT_FILENAME {
      if size < 3 {
        return Err(InvalidArgument);
      }
      acc' := acc'.(fileName := Text(buf[1..size - 2]));
    } else if buf[0] == EXT_DIRNAME {
      if size < 3 {
        return Err(InvalidArgument);
      }
      var d := DirName(buf[1..size - 2], sep);
      acc' := acc'.(dirName := d);
    }
    acc' := acc'.(crcBytes := acc'.crcBytes + buf);
    if size < 2 {
      return Err(IndexOutOfRange);
    }
    return Ok((Get16(buf, size - 2), src', acc'));
  }

  /** What the header CRC sees of an extended-header chain: whether a
      common header occurred, the CRC the last one stored, the bytes fed to
      the CRC (each common header with its CRC field zeroed) and where the
      chain ends. `None` for a chain that runs off the input or holds a
      header too short for its size and CRC fields. */
  datatype Chain = Chain(common: bool, crc: int, bytes: seq<byte>, end: nat)

  /** An extended header as the CRC sees it: a common header with its CRC
      field zeroed, any other as read. */
  function CrcFed(buf: seq<byte>): (fed: seq<byte>)
    ensures |fed| == |buf|
    ensures |buf| < 3 || buf[0] != EXT_COMMON ==> fed == buf
    ensures |buf| >= 3 && buf[0] == EXT_COMMON ==> fed[1] == 0 && fed[2] == 0 && fed[0] == buf[0] && fed[3..] == buf[3..]
  {
    if |buf| >= 3 && buf[0] == EXT_COMMON then buf[1 := 0][2 := 0] else buf
  }

  function CrcChain(data: seq<byte>, at: nat, size: int): (c: Option<Chain>)
    requires at <= |data|
    ensures c.Some? ==> at <= c.value.end <= |data| && |c.value.bytes| == c.value.end - at
    decreases |data| - at
  {
    if size <= 0 then Some(Chain(false, 0, [], at))
    else if at + size > |data| || size < 2 || (data[at] == EXT_COMMON && size < 3) then None
    else
      var buf := data[at..at + size];
      var fed := CrcFed(buf);
      match CrcChain(data, at + size, Get16(fed, size - 2))
      case None => None
      case Some(rest) =>
        var crc := if rest.common then rest.crc else if buf[0] == EXT_COMMON then Get16(buf, 1) else 0;
        Some(Chain(rest.common || buf[0] == EXT_COMMON, crc, fed + rest.bytes, rest.end))
  }

  /** The CRC state once the fixed part `fixed` of a level 1 or 2 header is
      read: no common header seen yet, and the bytes so far. */
  function HeaderAcc(fixed: seq<byte>): Acc
  {
    Acc(false, 0, [], false, 0, fixed, "", "")
  }

  /** The chain from `at` on, of first size `size`, took the reader's CRC
      state from `acc` to `acc'` and ended at `end`. */
  ghost predicate ChainFed(data: seq<byte>, at: nat, size: int, acc: Acc, acc': Acc, end: nat)
    requires at <= |data|
  {
    && CrcChain(data, at, size).Some?
    && var c := CrcChain(data, at, size).value;
       && end == c.end
       && acc'.flagCrc == (acc.flagCrc || c.common)
       && acc'.srcCrc == (if c.common then c.crc else acc.srcCrc)
       && acc'.crcBytes == acc.crcBytes + c.bytes
  }

  /** What one extended header of `size` bytes at `at` feeds the CRC:
      its bytes with a common header's CRC field zeroed, and a common
      header's CRC field as the value to check against. */
  ghost predicate LinkFed(data: seq<byte>, at: nat, size: int, acc: Acc, acc': Acc)
  {
    && 2 <= size && at + size <= |data| && (data[at] == EXT_COMMON ==> size >= 3)
    && var buf := data[at..at + size];
       && acc'.crcBytes == acc.crcBytes + CrcFed(buf)
       && acc'.flagCrc == (acc.flagCrc || buf[0] == EXT_COMMON)
       && acc'.srcCrc == (if buf[0] == EXT_COMMON then Get16(buf, 1) else acc.srcCrc)
  }

  /** The size of the next extended header, read from the last two bytes
      of the one at `at`. */
  function NextSize(data: seq<byte>, at: nat, size: int): (next: int)
    requires 2 <= size && at + size <= |data|
    ensures 0 <= next < 0x10000
  {
    Get16(CrcFed(data[at..at + size]), size - 2)
  }

  /** Once the chain after the fixed part `data[pos..fixedEnd]` has fed the
      CRC and the CRC check has passed, a common header's CRC field is the
      CRC of the fixed part and the chain, its own field zeroed. */
  lemma HeaderCrcChecked(data: seq<byte>, pos: nat, fixedEnd: nat, acc: Acc, end: nat, crc16: seq<byte> -> int)
    requires pos + 2 <= fixedEnd <= |data|
    requires ChainFed(data, fixedEnd, Get16(data, fixedEnd - 2), HeaderAcc(data[pos..fixedEnd]), acc, end)
    requires acc.flagCrc ==> acc.srcCrc == crc16(acc.crcBytes)
    ensures CrcChain(data, fixedEnd, Get16(data, fixedEnd - 2)).Some?
    ensures var c := CrcChain(data, fixedEnd, Get16(data, fixedEnd - 2)).value;
            && end == c.end
            && (c.common ==> c.crc == crc16(data[pos..fixedEnd] + c.bytes))
  {
    hide CrcChain, Get16, CrcFed;
  }

  /** What one header and the rest of the chain feed the CRC add up to
      what the whole chain feeds it. */
  lemma ChainAcc(data: seq<byte>, at: nat, size: int, acc: Acc, acc': Acc, acc'': Acc, end: nat)
    requires LinkFed(data, at, size, acc, acc')
    requires ChainFed(data, at + size, NextSize(data, at, size), acc', acc'', end)
    ensures ChainFed(data, at, size, acc, acc'', end)
  {
    hide CrcChain, CrcFed, Get16;
    var buf := data[at..at + size];
    var tail := CrcChain(data, at + size, Get16(CrcFed(buf), size - 2)).value;
    ChainStep(data, at, size, tail);
    assert buf[0] == data[at];
    assert acc.crcBytes + CrcFed(buf) + tail.bytes == acc.crcBytes + (CrcFed(buf) + tail.bytes);
  }

  /** `ReadExHeader` with only what the chain needs of it: where it ends,
      the checksum left alone, and what it feeds the CRC. */
  method ReadExLink(src: Src, acc: Acc, size: nat, sep: char) returns (r: Result<(int, Src, Acc)>)
    requires size > 0
    ensures r.Ok? ==> LinkRead(src, acc, size, r.value)
  {
    hide Text;
    r := ReadExHeader(src, acc, size, sep);
  }

  /** One extended header of `size` bytes read from `src` into `v`: the
      reader is past it, the checksum is left alone, it has fed the CRC,
      and `v.0` is the size of the next one. */
  ghost predicate LinkRead(src: Src, acc: Acc, size: int, v: (int, Src, Acc))
  {
    && v.1.data == src.data && src.pos <= v.1.pos == src.pos + size <= |src.data|
    && v.2.sumBytes == acc.sumBytes && v.2.flagSum == acc.flagSum && v.2.srcSum == acc.srcSum
    && LinkFed(src.data, src.pos, size, acc, v.2)
    && v.0 == NextSize(src.data, src.pos, size)
  }

  /** The chain of extended headers starting with one of `first` bytes read
      from `src` into `v`: the reader is `v.0` bytes further on, the
      checksum is left alone, and the chain has fed the CRC as `ChainFed`
      says. */
  ghost predicate ChainRead(src: Src, acc: Acc, first: int, v: (int, Src, Acc))
  {
    && v.1.data == src.data && src.pos <= v.1.pos <= |src.data|
    && 0 <= v.0 == v.1.pos - src.pos
    && v.2.sumBytes == acc.sumBytes && v.2.flagSum == acc.flagSum && v.2.srcSum == acc.srcSum
    && ChainFed(src.data, src.pos, first, acc, v.2, v.1.pos)
  }

  /** A header read moves the reader forward over the same input. */
  lemma LinkAdvances(src: Src, acc: Acc, size: int, v: (int, Src, Acc))
    requires size > 0 && LinkRead(src, acc, size, v)
    ensures v.1.data == src.data && src.pos < v.1.pos <= |src.data|
  {
  }

  /** A header followed by the rest of its chain is the whole chain. */
  lemma ChainReadStep(src: Src, acc: Acc, first: int, h: (int, Src, Acc), rest: (int, Src, Acc))
    requires LinkRead(src, acc, first, h)
    requires ChainRead(h.1, h.2, h.0, rest)
    ensures ChainRead(src, acc, first, (first + rest.0, rest.1, rest.2))
  {
    hide CrcChain, CrcFed, Get16, ChainFed, LinkFed, NextSize;
    ChainAcc(src.data, src.pos, first, acc, h.2, rest.2, rest.1.pos);
  }

  /** One header of the chain followed by the rest of the chain. */
  lemma ChainStep(data: seq<byte>, at: nat, size: int, rest: Chain)
    requires 2 <= size && at + size <= |data| && (data[at] == EXT_COMMON ==> size >= 3)
    requires CrcChain(data, at + size, Get16(CrcFed(data[at..at + size]), size - 2)) == Some(rest)
    ensures CrcChain(data, at, size)
            == Some(Chain(rest.common || data[at] == EXT_COMMON,
                          if rest.common then rest.crc else if data[at] == EXT_COMMON then Get16(data[at..at + size], 1) else 0,
                          CrcFed(data[at..at + size]) + rest.bytes, rest.end))
  {
    hide CrcFed;
    assert data[at..at + size][0] == data[at];
  }

  /** The extended-header chain: read headers while the size the previous
      one names is positive. Returns the sum of the sizes, which level 1
      subtracts from the compressed size. Every header consumes at least one byte, so the chain
      ends at the latest with the input. */
  method ReadExChain(src: Src, acc: Acc, first: int, sep: char) returns (r: Result<(int, Src, Acc)>)
    requires src.pos <= |src.data|
    ensures r.Ok? ==> ChainRead(src, acc, first, r.value)
    decreases |src.data| - src.pos
  {
    if first <= 0 {
      return Ok((0, src, acc));
    }
    hide ChainRead, LinkRead;
    var h := ReadExLink(src, acc, first, sep);
    if h.Err? {
      return Err(h.error);
    }
    LinkAdvances(src, acc, first, h.value);
    var rest := ReadExChain(h.value.1, h.value.2, h.value.0, sep);
    if rest.Err? {
      return Err(rest.error);
    }
    ChainReadStep(src, acc, first, h.value, rest.value);
    return Ok((first + rest.value.0, rest.value.1, rest.value.2));
  }


  // ---------------------------------------------------------------------------
  // Headers

  /** The method signature, the two sizes and the time stamp that levels 0
      and 1 share (level 1 sets its compressed size later). */
  function CommonFields(base: seq<byte>, withCompressedSize: bool): (r: Result<Entry>)
    requires |base| == HEADER_BASE
    ensures r.Ok? ==> r.value.signature in Methods && !r.value.hasCrc
    ensures r.Ok? <==> Text(base[2..7]) in Methods && IsCalendarTime(DosFields(Get32(base, 15)))
    ensures r.Ok? ==> && r.value.signature == Text(base[2..7])
                      && r.value.originalSize == Get32(base, 11)
                      && r.value.compressedSize == (if withCompressedSize then Get32(base, 7) else 0)
                      && r.value.stamp == Dos(DosFields(Get32(base, 15)))
  {
    match SetMethod(NewEntry(), Text(base[2..7]))
    case Err(error) => Err(error)
    case Ok(e) =>
      var e := if withCompressedSize then SetCompressedSize(e, Get32(base, 7)).value else e;
      var e := SetOriginalSize(e, Get32(base, 11)).value;
      SetDosTimeStamp(e, Get32(base, 15))
  }

  /** The bytes a level 0 header carries after its CRC and OS fields:
      `headerSize - nameSize - 23` when positive. */
  function Level0Extra(diff: int): (n: nat)
    ensures diff > 23 ==> n == diff - 23
  {
    if diff > 23 then diff - 23 else 0
  }

  /** The same count as the source computes it, `diff - 24`. */
  function Level0ExtraAsWritten(diff: int): (n: int)
    ensures diff > 23 ==> n == diff - 24
  {
    if diff > 23 then diff - 24 else 0
  }

  /** The bytes a level 0 header occupies after its fixed 21, for an
      accepted name length, with a given count of trailing bytes. */
  function Level0Tail(headerSize: int, nameSize: int, extra: int): int
  {
    var diff := headerSize - nameSize;
    1 + nameSize + (if diff >= 22 then 2 else 0) + (if diff >= 23 then 1 else 0) + extra
  }

  /** With the corrected count every accepted level 0 header is read to its
      last byte: the fixed 21 bytes plus the tail are `headerSize + 2`. */
  lemma Level0ReadsWholeHeader(headerSize: int, nameSize: int)
    requires var diff := headerSize - nameSize; diff == 20 || diff == 22 || diff >= 23
    ensures HEADER_BASE + Level0Tail(headerSize, nameSize, Level0Extra(headerSize - nameSize)) == headerSize + 2
  {
  }

  /** As written, a header with `headerSize - nameSize = 24` (a CRC, an OS
      byte and one extension byte) is read one byte short; that byte is left
      in the stream and missing from the checksum. */
  lemma Level0AsWrittenStopsShort()
    ensures var headerSize, nameSize := 30, 6;
            HEADER_BASE + Level0Tail(headerSize, nameSize, Level0ExtraAsWritten(headerSize - nameSize)) == headerSize + 1
  {
  }

  /** Level 0: a one-byte header size and an additive checksum; the name
      length decides which optional fields follow. */
  method ReadLevel0(base: seq<byte>, src: Src, sep: char) returns (r: Result<(Entry, Src, Acc)>)
    requires |base| == HEADER_BASE && src.pos <= |src.data|
    ensures r.Ok? ==> r.value.1.data == src.data && src.pos < r.value.1.pos <= |src.data|
    ensures r.Ok? ==> r.value.0.signature in Methods
    ensures r.Ok? ==> r.value.2.flagSum && !r.value.2.flagCrc && r.value.2.srcSum == base[1]
    ensures r.Ok? ==> r.value.2.sumBytes == base[2..] + src.data[src.pos..r.value.1.pos]
    ensures r.Ok? ==> HEADER_BASE + (r.value.1.pos - src.pos) == base[0] as int + 2
    ensures r.Ok? ==>
              var e := r.value.0;
              var nameSize := src.data[src.pos] as int;
              var diff := base[0] as int - nameSize;
              var at := src.pos + 1 + nameSize;
              && (diff == 20 || diff == 22 || diff >= 23)
              && e.hasCrc == (diff >= 22)
              && (diff >= 22 ==> at + 2 <= |src.data| && e.crc == Get16(src.data, at))
              && (diff >= 23 ==> at + 3 <= |src.data| && e.os == src.data[at + 2] as int)
              && (diff < 23 ==> e.os == OS_GENERIC)
              && e.signature == Text(base[2..7])
              && e.compressedSize == Get32(base, 7) && e.originalSize == Get32(base, 11)
              && e.stamp == Dos(DosFields(Get32(base, 15)))
              && e.path == ConvertFilePath(Text(src.data[src.pos + 1..at]), e.os, sep)
  {
    var fields := CommonFields(base, true);
    if fields.Err? { return Err(fields.error); }
    var e := fields.value;
    var headerSize: int := base[0];

    var s := Take(src, 1);
    if s.Err? { return Err(s.error); }
    var nameSize: int := s.value.0[0];
    var n := Take(s.value.1, nameSize);
    if n.Err? { return Err(n.error); }
    var name := n.value.0;
    var cur := n.value.1;
    assert src.data[src.pos..cur.pos] == s.value.0 + name;

    var diff := headerSize - nameSize;
    if diff != 20 && diff != 22 && diff < 23 {
      return Err(BrokenHeader);
    }
    e := e.(os := OS_GENERIC);
    if diff >= 22 {
      var k := Take(cur, 2);
      if k.Err? { return Err(k.error); }
      e := SetCRC(e, Get16(k.value.0, 0));
      cur := k.value.1;
    }
    if diff >= 23 {
      var k := Take(cur, 1);
      if k.Err? { return Err(k.error); }
      e := e.(os := k.value.0[0] as int);
      cur := k.value.1;
    }
    var k := Take(cur, Level0Extra(diff));
    if k.Err? { return Err(k.error); }
    cur := k.value.1;
    Level0ReadsWholeHeader(headerSize, nameSize);
    e := e.(path := ConvertFilePath(Text(name), e.os, sep));
    return Ok((e, cur, Acc(true, base[1], base[2..] + src.data[src.pos..cur.pos], false, 0, [], "", "")));
  }

  /** A one-byte length followed by that many name bytes. */
  function NameField(src: Src): (r: Result<(seq<byte>, Src)>)
    ensures r.Ok? <==> src.pos < |src.data| && src.pos + 1 + src.data[src.pos] as int <= |src.data|
    ensures r.Ok? ==> var end := src.pos + 1 + src.data[src.pos] as int;
                      r.value == (src.data[src.pos + 1..end], src.(pos := end))
  {
    if src.pos < |src.data| && src.pos + 1 + src.data[src.pos] as int <= |src.data| then
      var end := src.pos + 1 + src.data[src.pos] as int;
      Ok((src.data[src.pos + 1..end], src.(pos := end)))
    else Err(BrokenHeader)
  }

  /** The five bytes levels 1 and 2 share after the name: a 16-bit CRC, the
      OS byte and the size of the first extended header. */
  function CrcOsNext(src: Src): (r: Result<(int, int, int, Src)>)
    ensures r.Ok? <==> src.pos + 5 <= |src.data|
    ensures r.Ok? ==> var b := src.data[src.pos..src.pos + 5];
                      r.value == (Get16(b, 0), b[2] as int, Get16(b, 3), src.(pos := src.pos + 5))
  {
    if src.pos + 5 <= |src.data| then
      var b := src.data[src.pos..src.pos + 5];
      Ok((Get16(b, 0), b[2] as int, Get16(b, 3), src.(pos := src.pos + 5)))
    else Err(BrokenHeader)
  }

  /** Level 1: like level 0 for the fixed part (with byte 19 fixed at 0x20),
      then the name, CRC, OS and an extended-header chain whose sizes are
      subtracted from the stored compressed size. The checksum covers the
      bytes up to the first extended header, the CRC everything. */
  method ReadLevel1(base: seq<byte>, src: Src, sep: char) returns (r: Result<(Entry, Src, Acc)>)
    requires |base| == HEADER_BASE && src.pos <= |src.data|
    ensures r.Ok? ==> base[19] == 0x20
    ensures r.Ok? ==> r.value.1.data == src.data && src.pos < r.value.1.pos <= |src.data|
    ensures r.Ok? ==> r.value.0.signature in Methods && r.value.0.hasCrc
    ensures r.Ok? ==> var fixedEnd := src.pos + 6 + src.data[src.pos] as int;
                      && fixedEnd <= r.value.1.pos
                      && r.value.2.flagSum && r.value.2.srcSum == base[1]
                      && r.value.2.sumBytes == base[2..] + src.data[src.pos..fixedEnd]
                      && r.value.0.compressedSize == Get32(base, 7) - (r.value.1.pos - fixedEnd)
    ensures r.Ok? ==> var fixedEnd := src.pos + 6 + src.data[src.pos] as int;
                      ChainFed(src.data, fixedEnd, Get16(src.data, fixedEnd - 2), HeaderAcc(base + src.data[src.pos..fixedEnd]), r.value.2, r.value.1.pos)
  {
    var fields := CommonFields(base, false);
    if fields.Err? { return Err(fields.error); }
    if base[19] != 0x20 {
      return Err(BrokenHeader);
    }
    var n := NameField(src);
    if n.Err? { return Err(n.error); }
    var (name, afterName) := n.value;
    var t := CrcOsNext(afterName);
    if t.Err? { return Err(t.error); }
    var (crc, os, first, fixed) := t.value;
    assert fixed.pos == src.pos + 6 + src.data[src.pos] as int && first == Get16(src.data, fixed.pos - 2);
    var acc := Acc(true, base[1], base[2..] + src.data[src.pos..fixed.pos], false, 0, base + src.data[src.pos..fixed.pos], "", "");
    hide CrcChain, Get16, Text;
    var chain := ReadExChain(fixed, acc, first, sep);
    if chain.Err? { return Err(chain.error); }
    var (extSize, cur, acc') := chain.value;
    var c := SetCompressedSize(SetCRC(fields.value, crc).(os := os), Get32(base, 7) - extSize);
    if c.Err? { return Err(c.error); }
    var path := if |acc'.fileName| > 0 then acc'.dirName + acc'.fileName else ConvertFilePath(Text(name), os, sep);
    return Ok((c.value.(path := path), cur, acc'));
  }

  /** Level 2: sizes and a Unix time stamp in the fixed part, then CRC, OS
      and the extended-header chain, which alone supplies the path. No
      checksum. */
  method ReadLevel2(base: seq<byte>, src: Src, sep: char) returns (r: Result<(Entry, Src, Acc)>)
    requires |base| == HEADER_BASE && src.pos <= |src.data|
    ensures r.Ok? ==> r.value.1.data == src.data && src.pos < r.value.1.pos <= |src.data|
    ensures r.Ok? ==> r.value.0.signature in Methods && r.value.0.hasCrc
    ensures r.Ok? ==> !r.value.2.flagSum
    ensures r.Ok? ==> r.value.0.path == r.value.2.dirName + r.value.2.fileName
    ensures r.Ok? ==> var fixedEnd := src.pos + 5;
                      && fixedEnd <= |src.data|
                      && ChainFed(src.data, fixedEnd, Get16(src.data, fixedEnd - 2), HeaderAcc(base + src.data[src.pos..fixedEnd]), r.value.2, r.value.1.pos)
  {
    var m := SetMethod(NewEntry(), Text(base[2..7]));
    if m.Err? { return Err(m.error); }
    var e := SetCompressedSize(m.value, Get32(base, 7)).value;
    e := SetOriginalSize(e, Get32(base, 11)).value;
    e := SetHeaderTimeStamp(e, Get32(base, 15));
    var t := CrcOsNext(src);
    if t.Err? { return Err(t.error); }
    var (crc, os, first, fixed) := t.value;
    assert first == Get16(src.data, fixed.pos - 2);
    var acc := Acc(false, 0, [], false, 0, base + src.data[src.pos..fixed.pos], "", "");
    var chain := ReadExChain(fixed, acc, first, sep);
    if chain.Err? { return Err(chain.error); }
    var (_, cur, acc') := chain.value;
    e := SetCRC(e, crc).(os := os, path := acc'.dirName + acc'.fileName);
    return Ok((e, cur, acc'));
  }

  /** The fixed part of a header followed by the bytes read after it. */
  lemma FixedJoin(data: seq<byte>, pos: nat, end: nat)
    requires pos + HEADER_BASE <= end <= |data|
    ensures data[pos..pos + HEADER_BASE][2..] + data[pos + HEADER_BASE..end] == data[pos + 2..end]
    ensures data[pos..pos + HEADER_BASE] + data[pos + HEADER_BASE..end] == data[pos..end]
  {
    assert data[pos..pos + HEADER_BASE][2..] == data[pos + 2..pos + HEADER_BASE];
  }

  /** The switch on the header level: the level-specific reader on the
      fixed part `data[pos..pos + HEADER_BASE]` and what follows it, or
      `UnsupportedLevel` above 2. States what the checks after it need. */
  method ReadFields(data: seq<byte>, pos: nat, sep: char) returns (r: Result<(Entry, Src, Acc)>)
    requires pos + HEADER_BASE <= |data|
    ensures data[pos + OFF_LEVEL] > 2 ==> r == Err(UnsupportedLevel(data[pos + OFF_LEVEL]))
    ensures r.Ok? ==> r.value.1.data == data && pos + HEADER_BASE < r.value.1.pos <= |data|
    ensures r.Ok? ==> r.value.0.signature in Methods
    ensures r.Ok? && data[pos + OFF_LEVEL] == 0 ==>
              && r.value.2.flagSum && !r.value.2.flagCrc && r.value.2.srcSum == data[pos + 1]
              && r.value.1.pos == pos + data[pos] as int + 2
              && r.value.2.sumBytes == data[pos + 2..r.value.1.pos]
    ensures r.Ok? && data[pos + OFF_LEVEL] == 1 ==>
              var fixedEnd := pos + HEADER_BASE + 6 + data[pos + HEADER_BASE] as int;
              && data[pos + 19] == 0x20
              && fixedEnd <= r.value.1.pos
              && r.value.2.flagSum && r.value.2.srcSum == data[pos + 1]
              && r.value.2.sumBytes == data[pos + 2..fixedEnd]
    ensures r.Ok? && data[pos + OFF_LEVEL] == 2 ==> !r.value.2.flagSum
    ensures r.Ok? && 1 <= data[pos + OFF_LEVEL] <= 2 ==>
              var fixedEnd := if data[pos + OFF_LEVEL] == 1 then pos + HEADER_BASE + 6 + data[pos + HEADER_BASE] as int
                              else pos + HEADER_BASE + 5;
              && fixedEnd <= |data|
              && ChainFed(data, fixedEnd, Get16(data, fixedEnd - 2), HeaderAcc(data[pos..fixedEnd]), r.value.2, r.value.1.pos)
  {
    hide ChainFed, HeaderAcc, Get16, Get32, Text, CrcChain, ConvertFilePath, DosFields, Delimiter, SwapChar;
    var base := data[pos..pos + HEADER_BASE];
    var src := Src(data, pos + HEADER_BASE);
    var level := base[OFF_LEVEL];
    if level == 0 {
      r := ReadLevel0(base, src, sep);
      if r.Ok? {
        FixedJoin(data, pos, r.value.1.pos);
      }
    } else if level == 1 {
      r := ReadLevel1(base, src, sep);
      if r.Ok? {
        FixedJoin(data, pos, pos + HEADER_BASE + 6 + data[pos + HEADER_BASE] as int);
      }
    } else if level == 2 {
      r := ReadLevel2(base, src, sep);
      if r.Ok? {
        FixedJoin(data, pos, pos + HEADER_BASE + 5);
      }
    } else {
      r := Err(UnsupportedLevel(level));
    }
  }

  /** `ReadHeader`: `None` at the end of the archive (no byte left, or a
      single zero byte), otherwise one entry and the position after its
      header. `crc16` computes the header CRC of levels 1 and 2. */
  method ReadHeader(data: seq<byte>, pos: nat, sep: char, crc16: seq<byte> -> int) returns (r: Result<Option<(Entry, nat)>>)
    requires pos <= |data|
    ensures pos == |data| ==> r == Ok(None)
    ensures pos + 1 == |data| && data[pos] == 0 ==> r == Ok(None)
    ensures (pos + 1 == |data| && data[pos] != 0) || (pos + 2 <= |data| < pos + HEADER_BASE) ==> r == Err(BrokenHeader)
    ensures pos + HEADER_BASE <= |data| && data[pos + OFF_LEVEL] > 2 ==> r == Err(UnsupportedLevel(data[pos + OFF_LEVEL]))
    ensures r.Ok? && r.value.Some? ==>
              var (e, end) := r.value.value;
              && pos + HEADER_BASE < end <= |data|
              && data[pos + OFF_LEVEL] <= 2
              && e.signature in Methods
              && (e.signature == METHOD_LHD ==> |e.path| > 0)
    ensures r.Ok? && r.value.Some? && data[pos + OFF_LEVEL] == 0 ==>
              var end := r.value.value.1;
              end == pos + data[pos] as int + 2 && Total(data[pos + 2..end]) % 256 == data[pos + 1]
    ensures r.Ok? && r.value.Some? && data[pos + OFF_LEVEL] == 1 ==>
              var fixedEnd := pos + HEADER_BASE + 6 + data[pos + HEADER_BASE] as int;
              && data[pos + 19] == 0x20
              && fixedEnd <= |data|
              && Total(data[pos + 2..fixedEnd]) % 256 == data[pos + 1]
    ensures r.Ok? && r.value.Some? && 1 <= data[pos + OFF_LEVEL] <= 2 ==>
              var fixedEnd := if data[pos + OFF_LEVEL] == 1 then pos + HEADER_BASE + 6 + data[pos + HEADER_BASE] as int
                              else pos + HEADER_BASE + 5;
              && fixedEnd <= |data|
              && CrcChain(data, fixedEnd, Get16(data, fixedEnd - 2)).Some?
              && var c := CrcChain(data, fixedEnd, Get16(data, fixedEnd - 2)).value;
                 && r.value.value.1 == c.end
                 && (c.common ==> c.crc == crc16(data[pos..fixedEnd] + c.bytes))
  {
    hide UpdateAll, Total, Value, CrcChain, Get16, ChainFed, HeaderAcc, CrcFed;
    if pos == |data| || (pos + 1 == |data| && data[pos] == 0) {
      return Ok(None);
    }
    if |data| < pos + HEADER_BASE {
      return Err(BrokenHeader);
    }
    var parsed := ReadFields(data, pos, sep);
    if parsed.Err? {
      return Err(parsed.error);
    }
    var (e, cur, acc) := parsed.value;
    if e.signature == METHOD_LHD && |e.path| == 0 {
      return Err(BrokenHeader);
    }
    if acc.flagSum && acc.srcSum != Value(UpdateAll(Initial, acc.sumBytes)) {
      return Err(BrokenHeader);
    }
    if acc.flagCrc && acc.srcCrc != crc16(acc.crcBytes) {
      return Err(BrokenHeader);
    }
    InitialValue(acc.sumBytes);
    var level := data[pos + OFF_LEVEL];
    if level == 1 {
      HeaderCrcChecked(data, pos, pos + HEADER_BASE + 6 + data[pos + HEADER_BASE] as int, acc, cur.pos, crc16);
    } else if level == 2 {
      HeaderCrcChecked(data, pos, pos + HEADER_BASE + 5, acc, cur.pos, crc16);
    }
    return Ok(Some((e, cur.pos)));
  }
}
