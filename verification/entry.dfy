/** One archive entry and its validating setters (Library/LhaEntry.cs).

    Setters that can throw return a `Result`; on an error the caller keeps
    the entry it had, which is the "field unchanged" guarantee of the source.
    Time stamps are kept as the decoded fields: building a calendar value,
    time zones and the reverse conversion are not part of this model. */
module Entry {
  import opened Outcome
  import BitStream

  const METHOD_LHD := "-lhd-"
  const METHOD_LH0 := "-lh0-"
  const METHOD_LH1 := "-lh1-"
  const METHOD_LH2 := "-lh2-"
  const METHOD_LH3 := "-lh3-"
  const METHOD_LH4 := "-lh4-"
  const METHOD_LH5 := "-lh5-"
  const METHOD_LH6 := "-lh6-"
  const METHOD_LH7 := "-lh7-"
  const METHOD_LZS := "-lzs-"
  const METHOD_LZ4 := "-lz4-"
  const METHOD_LZ5 := "-lz5-"

  /** The twelve signatures an entry may carry. */
  const Methods: seq<string> := [METHOD_LHD, METHOD_LH0, METHOD_LH1, METHOD_LH2, METHOD_LH3, METHOD_LH4,
                                 METHOD_LH5, METHOD_LH6, METHOD_LH7, METHOD_LZS, METHOD_LZ4, METHOD_LZ5]

  /** The twelve signatures are twelve different strings. */
  lemma MethodsDistinct()
    ensures METHOD_LHD != METHOD_LH0 && METHOD_LHD != METHOD_LH1 && METHOD_LHD != METHOD_LH2 && METHOD_LHD != METHOD_LH3
    ensures METHOD_LHD != METHOD_LH4 && METHOD_LHD != METHOD_LH5 && METHOD_LHD != METHOD_LH6 && METHOD_LHD != METHOD_LH7
    ensures METHOD_LHD != METHOD_LZS && METHOD_LHD != METHOD_LZ4 && METHOD_LHD != METHOD_LZ5
    ensures METHOD_LH0 != METHOD_LH1 && METHOD_LH0 != METHOD_LH2 && METHOD_LH0 != METHOD_LH3 && METHOD_LH0 != METHOD_LH4
    ensures METHOD_LH0 != METHOD_LH5 && METHOD_LH0 != METHOD_LH6 && METHOD_LH0 != METHOD_LH7 && METHOD_LH0 != METHOD_LZS
    ensures METHOD_LH0 != METHOD_LZ4 && METHOD_LH0 != METHOD_LZ5
    ensures METHOD_LH1 != METHOD_LH2 && METHOD_LH1 != METHOD_LH3 && METHOD_LH1 != METHOD_LH4 && METHOD_LH1 != METHOD_LH5
    ensures METHOD_LH1 != METHOD_LH6 && METHOD_LH1 != METHOD_LH7 && METHOD_LH1 != METHOD_LZS && METHOD_LH1 != METHOD_LZ4
    ensures METHOD_LH1 != METHOD_LZ5
    ensures METHOD_LH2 != METHOD_LH3 && METHOD_LH2 != METHOD_LH4 && METHOD_LH2 != METHOD_LH5 && METHOD_LH2 != METHOD_LH6
    ensures METHOD_LH2 != METHOD_LH7 && METHOD_LH2 != METHOD_LZS && METHOD_LH2 != METHOD_LZ4 && METHOD_LH2 != METHOD_LZ5
    ensures METHOD_LH3 != METHOD_LH4 && METHOD_LH3 != METHOD_LH5 && METHOD_LH3 != METHOD_LH6 && METHOD_LH3 != METHOD_LH7
    ensures METHOD_LH3 != METHOD_LZS && METHOD_LH3 != METHOD_LZ4 && METHOD_LH3 != METHOD_LZ5
    ensures METHOD_LH4 != METHOD_LH5 && METHOD_LH4 != METHOD_LH6 && METHOD_LH4 != METHOD_LH7 && METHOD_LH4 != METHOD_LZS
    ensures METHOD_LH4 != METHOD_LZ4 && METHOD_LH4 != METHOD_LZ5
    ensures METHOD_LH5 != METHOD_LH6 && METHOD_LH5 != METHOD_LH7 && METHOD_LH5 != METHOD_LZS && METHOD_LH5 != METHOD_LZ4
    ensures METHOD_LH5 != METHOD_LZ5
    ensures METHOD_LH6 != METHOD_LH7 && METHOD_LH6 != METHOD_LZS && METHOD_LH6 != METHOD_LZ4 && METHOD_LH6 != METHOD_LZ5
    ensures METHOD_LH7 != METHOD_LZS && METHOD_LH7 != METHOD_LZ4 && METHOD_LH7 != METHOD_LZ5
    ensures METHOD_LZS != METHOD_LZ4 && METHOD_LZS != METHOD_LZ5
    ensures METHOD_LZ4 != METHOD_LZ5
  {
  }

  /** Being one of the twelve signatures, spelled out. */
  lemma MethodsMembers(sig: string)
    ensures sig in Methods <==>
              || sig == METHOD_LHD || sig == METHOD_LH0 || sig == METHOD_LH1 || sig == METHOD_LH2
              || sig == METHOD_LH3 || sig == METHOD_LH4 || sig == METHOD_LH5 || sig == METHOD_LH6
              || sig == METHOD_LH7 || sig == METHOD_LZS || sig == METHOD_LZ4 || sig == METHOD_LZ5
  {
  }

  const OS_GENERIC := 0x00
  const OS_MSDOS := 0x4D
  const OS_MAC := 0x6D
  const OS_WIN32 := 0x77
  const OS_WINNT := 0x57

  const UINT32_MAX := 0xFFFF_FFFF

  /** The fields of an MS-DOS time stamp. */
  datatype DosTime = DosTime(year: int, month: int, day: int, hour: int, minute: int, second: int)

  /** The entry's time: none yet, a DOS stamp (levels 0 and 1) or seconds
      since 1970 (level 2). */
  datatype Stamp = NoStamp | Dos(time: DosTime) | Unix(seconds: int)

  datatype Entry = Entry(
    signature: string,
    compressedSize: int,
    originalSize: int,
    stamp: Stamp,
    path: string,
    crc: int,
    hasCrc: bool,
    os: int,
    offset: int)

  /** `new LhaEntry()`: no CRC and no offset yet. */
  function NewEntry(): (e: Entry)
    ensures !e.hasCrc && e.offset == -1
  {
    Entry("", 0, 0, NoStamp, "", 0, false, OS_GENERIC, -1)
  }

  /** `SetMethod`: only a listed signature is accepted. */
  function SetMethod(e: Entry, m: string): (r: Result<Entry>)
    ensures r.Ok? <==> m in Methods
    ensures r.Ok? ==> r.value == e.(signature := m)
  {
    if m in Methods then Ok(e.(signature := m)) else Err(InvalidArgument)
  }

  predicate IsUInt32(v: int)
  {
    0 <= v <= UINT32_MAX
  }

  /** `SetCompressedSize`: an unsigned 32-bit size. */
  function SetCompressedSize(e: Entry, v: int): (r: Result<Entry>)
    ensures r.Ok? <==> IsUInt32(v)
    ensures r.Ok? ==> r.value == e.(compressedSize := v)
  {
    if v < 0 || v > UINT32_MAX then Err(InvalidArgument) else Ok(e.(compressedSize := v))
  }

  /** `SetOriginalSize`: an unsigned 32-bit size. */
  function SetOriginalSize(e: Entry, v: int): (r: Result<Entry>)
    ensures r.Ok? <==> IsUInt32(v)
    ensures r.Ok? ==> r.value == e.(originalSize := v)
  {
    if v < 0 || v > UINT32_MAX then Err(InvalidArgument) else Ok(e.(originalSize := v))
  }

  /** `SetOffset`: an unsigned 32-bit file offset. */
  function SetOffset(e: Entry, v: int): (r: Result<Entry>)
    ensures r.Ok? <==> IsUInt32(v)
    ensures r.Ok? ==> r.value == e.(offset := v)
  {
    if v < 0 || v > UINT32_MAX then Err(InvalidArgument) else Ok(e.(offset := v))
  }

  /** `SetCRC`: stores the value and raises the CRC flag. */
  function SetCRC(e: Entry, crc: int): (e': Entry)
    ensures e'.hasCrc && e'.crc == crc
    ensures e'.(hasCrc := e.hasCrc, crc := e.crc) == e
  {
    e.(hasCrc := true, crc := crc)
  }

  // ---------------------------------------------------------------------------
  // DOS time stamps

  /** `DosToDotNetTime`'s field extraction: year in bits 25-31 (from 1980),
      month 21-24, day 16-20, hour 11-15, minute 5-10, seconds/2 in 0-4. */
  function DosFields(d: int): (t: DosTime)
    ensures 1980 <= t.year < 1980 + 128 && 0 <= t.month < 16 && 0 <= t.day < 32
    ensures 0 <= t.hour < 32 && 0 <= t.minute < 64 && 0 <= t.second < 64 && t.second % 2 == 0
  {
    DosTime(
      (d / 0x200_0000) % 0x80 + 1980,
      (d / 0x20_0000) % 0x10,
      (d / 0x1_0000) % 0x20,
      (d / 0x800) % 0x20,
      (d / 0x20) % 0x40,
      2 * (d % 0x20))      // (d << 1) & 0x3E
  }

  /** Fields a DOS stamp can carry. */
  predicate Packable(t: DosTime)
  {
    && 1980 <= t.year < 1980 + 128 && 0 <= t.month < 16 && 0 <= t.day < 32
    && 0 <= t.hour < 32 && 0 <= t.minute < 64 && 0 <= t.second < 64 && t.second % 2 == 0
  }

  /** The DOS layout itself, as an independent reference for `DosFields`. */
  function PackDos(t: DosTime): (d: int)
    requires Packable(t)
    ensures 0 <= d <= UINT32_MAX
  {
    (t.year - 1980) * 0x200_0000 + t.month * 0x20_0000 + t.day * 0x1_0000
      + t.hour * 0x800 + t.minute * 0x20 + t.second / 2
  }

  /** Extraction undoes packing. */
  lemma DosFieldsOfPack(t: DosTime)
    requires Packable(t)
    ensures DosFields(PackDos(t)) == t
  {
    var d := PackDos(t);
    var s := t.second / 2;
    var q5 := t.year - 1980;
    var q4 := q5 * 0x10 + t.month;
    var q3 := q4 * 0x20 + t.day;
    var q2 := q3 * 0x20 + t.hour;
    var q1 := q2 * 0x40 + t.minute;
    assert d == 0x20 * q1 + s;
    BitStream.DivModOf(d, 0x20, q1, s);
    BitStream.DivModOf(d, 0x800, q2, t.minute * 0x20 + s);
    BitStream.DivModOf(d, 0x1_0000, q3, t.hour * 0x800 + t.minute * 0x20 + s);
    BitStream.DivModOf(d, 0x20_0000, q4, t.day * 0x1_0000 + t.hour * 0x800 + t.minute * 0x20 + s);
    BitStream.DivModOf(d, 0x200_0000, q5, t.month * 0x20_0000 + t.day * 0x1_0000 + t.hour * 0x800 + t.minute * 0x20 + s);
    BitStream.DivModOf(q1, 0x40, q2, t.minute);
    BitStream.DivModOf(q2, 0x20, q3, t.hour);
    BitStream.DivModOf(q3, 0x20, q4, t.day);
    BitStream.DivModOf(q4, 0x10, q5, t.month);
    BitStream.DivModOf(q5, 0x80, 0, q5);
  }

  /** Packing undoes extraction: every one of the 32 bits has a field. */
  lemma PackOfDosFields(d: int)
    requires 0 <= d <= UINT32_MAX
    ensures PackDos(DosFields(d)) == d
  {
    var q1, r0 := d / 0x20, d % 0x20;
    var q2, r1 := q1 / 0x40, q1 % 0x40;
    var q3, r2 := q2 / 0x20, q2 % 0x20;
    var q4, r3 := q3 / 0x20, q3 % 0x20;
    var q5, r4 := q4 / 0x10, q4 % 0x10;
    BitStream.DivModOf(d, 0x800, q2, r1 * 0x20 + r0);
    BitStream.DivModOf(d, 0x1_0000, q3, r2 * 0x800 + r1 * 0x20 + r0);
    BitStream.DivModOf(d, 0x20_0000, q4, r3 * 0x1_0000 + r2 * 0x800 + r1 * 0x20 + r0);
    BitStream.DivModOf(d, 0x200_0000, q5, r4 * 0x20_0000 + r3 * 0x1_0000 + r2 * 0x800 + r1 * 0x20 + r0);
    BitStream.DivModOf(q5, 0x80, 0, q5);
    BitStream.DivModOf(2 * r0, 2, r0, 0);
  }

  function DaysInMonth(year: int, month: int): (n: int)
    requires 1 <= month <= 12
    ensures 28 <= n <= 31
  {
    if month == 2 then
      (if (year % 4 == 0 && year % 100 != 0) || year % 400 == 0 then 29 else 28)
    else if month == 4 || month == 6 || month == 9 || month == 11 then 30
    else 31
  }

  /** The range check of the calendar constructor `DosToDotNetTime` feeds the
      fields to; month 0, day 0, hour 24 or second 60 make it throw. */
  predicate IsCalendarTime(t: DosTime)
  {
    && 1 <= t.month <= 12 && 1 <= t.day <= DaysInMonth(t.year, t.month)
    && 0 <= t.hour < 24 && 0 <= t.minute < 60 && 0 <= t.second < 60
  }

  /** `SetDosTimeStamp`. */
  function SetDosTimeStamp(e: Entry, d: int): (r: Result<Entry>)
    ensures r.Ok? <==> IsCalendarTime(DosFields(d))
    ensures r.Ok? ==> r.value == e.(stamp := Dos(DosFields(d)))
  {
    var t := DosFields(d);
    if IsCalendarTime(t) then Ok(e.(stamp := Dos(t))) else Err(InvalidArgument)
  }

  /** `SetHeaderTimeStamp`: seconds since 1970 (the conversion to local time
      is not modelled). */
  function SetHeaderTimeStamp(e: Entry, seconds: int): (e': Entry)
    ensures e'.stamp.Unix? && e'.stamp.seconds == seconds
    ensures e'.(stamp := e.stamp) == e
  {
    e.(stamp := Unix(seconds))
  }
}
