# LHA/LZH decompression core in Dafny

This project models the decompression core of a C# LHA/LZH archive reader and proves properties of the model. The reader has these parts:

- an MSB-first bit reader with a 16-bit look-ahead window;
- a canonical Huffman table builder (`MakeTable`) with an overflow tree for long codes;
- the adaptive Huffman trees of `-lh1-` and `-lh2-`, kept in sibling order;
- the static Huffman block decoders of `-lh3-` and `-lh4-` to `-lh7-`;
- the byte-oriented `-lzs-` and `-lz5-` decoders, the pass-through decoder of `-lh0-`/`-lz4-`, and the directory decoder of `-lhd-`;
- the circular dictionary and the `Read` loop shared by every compressed method;
- the decoder factory and the entry stream, with its counters and checksum input;
- the entry record with its validating setters and DOS time fields, the additive header checksum, and the parsing of level 0, 1 and 2 headers.

Modules follow the source files:

| file | module | source |
|---|---|---|
| outcome.dfy | `Outcome` | the exceptions, as an `Error` datatype with a `Result` type |
| bit_stream.dfy | `BitStream` | shifts and the bit-level view of the input |
| bit_reader.dfy | `BitReader` | `FillBitBuffer`, `GetBits` |
| sum.dfy | `Checksum` | `Sum` |
| window.dfy | `Window` | the dictionary of `SlidingDicDecoder` |
| sliding_dic.dfy | `SlidingDic` | `SlidingDicDecoder.Read` and the codec dispatch |
| lh_table.dfy | `LhTable` | `LhDecoder.MakeTable` |
| adaptive.dfy | `Adaptive` | the tree code that `Lh1Decoder` and `Lh2Decoder` share |
| lh1.dfy … lh4.dfy, lzs.dfy, lz5.dfy, nocompress.dfy | one per decoder | the method-specific decoders |
| decoder_stream.dfy | `DecoderStream` | `LhaDecoderInputStream`, `LhdDecoder` |
| entry.dfy | `Entry` | `LhaEntry` |
| entry_reader.dfy | `EntryReader` | `LhaEntryReader` |

Conventions of the model:

- Input is a byte sequence with a cursor. The bit reader reads a byte past the end as 0, as the source does. `ReadByte` past the end is an `EndOfStream` error.
- An exception of the source is an `Err` result. An array access the CLR would reject is `IndexOutOfRange`.
- Arrays are immutable sequences and every operation returns the new state. Output buffers (`b`, `off`) are returned as sequences.
- C#'s 32-bit arithmetic is written out where it matters: the checksum accumulator's wrap, the masks, and the shifts.
- The meaning of the bit reader is a ghost stream view: the window always holds the next 16 unconsumed bits. The meaning of the dictionary is a ghost history of every byte it has held. `Read` is proved to deliver the next bytes of that history, in order.

In a few places the code behaves in a way its surroundings would not suggest. The model follows the code in each of these, and records them here:

- `MakeTable` accepts any total weight that is a multiple of 2^16, including 0, rather than exactly 2^16.
- The last two seeding loops of the `-lz5-` dictionary each write one fixed slot.
- `-lh1-`'s `n1` is 512, so its 8-bit extension branch never runs.
- `-lh2-`'s `MakeNewNode` writes the moved leaf into `child`, where the reverse map `sNode` would be expected.
- The `-lh1-` and `-lh3-` position walks test bit `0x80` of the refilled window.
- `Skip` takes the skipped bytes off the expected count a second time and feeds them to the checksum twice.

One place departs from the code: a level 0 header with more than 23 bytes past the name is read with `diff - 23` extension bytes, where the code reads `diff - 24`. The code's count is modelled beside it and its effect is shown under Findings.

## Model

| member | source | states |
|---|---|---|
| Checksum.Wrap32 | Library/Sum.cs:28-31 | the accumulator after `sum += b` is the mathematical sum brought back into the signed 32-bit range, congruent to it modulo 2^32 |
| Checksum.Reset | Library/Sum.cs:65-68 | after a reset the reported value is 0 |
| Checksum.Value | Library/Sum.cs:56-59 | the reported value is one byte, 0 to 255, also for a negative accumulator |
| Checksum.Update | Library/Sum.cs:28-31 | adding a byte moves the reported value on by that byte modulo 256, whatever the 32-bit wrap of the accumulator |
| Checksum.LowByteOfWrap | Library/Sum.cs:56-59 | wrapping the accumulator at 32 bits never changes its low byte |
| Checksum.UpdateRange | Library/Sum.cs:43-49 | the range form succeeds exactly when `len <= 0` or the range lies in the array, adds nothing for `len <= 0`, and otherwise equals adding the bytes one at a time |
| Checksum.UpdateAllValue | Library/Sum.cs:28-59 | after any run of additions the value is the old value plus the bytes' total, modulo 256 |
| Checksum.GroupingIrrelevant | Library/Sum.cs:43-49 | two calls over consecutive runs report the same value as one call over both |
| Checksum.OrderIrrelevant | Library/Sum.cs:28-31 | the order in which two runs are added does not change the value |
| Checksum.InitialValue | Library/Sum.cs:17-20 | a new checker fed a header reports the header's byte total modulo 256 |
| BitReader.NextByte | Library/SlidingDicDecoder.cs:186-187 | the byte taken in is stream byte `pos + 2` of the model stream, and 0 once the input is exhausted |
| BitReader.FillLoop | Library/SlidingDicDecoder.cs:181-193 | the registers stay within 16 and 8 bits and exactly `n` more bits are consumed |
| BitReader.FillBitBuffer | Library/SlidingDicDecoder.cs:179-194 | `FillBitBuffer(n)` keeps the registers in range and consumes exactly `n` bits |
| BitReader.Peek | Library/SlidingDicDecoder.cs:198 | the top `n` bits of the window are a number below 2^n |
| BitReader.GetBits | Library/SlidingDicDecoder.cs:196-202 | `GetBits(n)` returns a number below 2^n and consumes exactly `n` bits |
| BitReader.FinalShiftReads | Library/SlidingDicDecoder.cs:191-193 | the final shift leaves the window on the next 16 unconsumed stream bits and the kept byte on the bits after them |
| BitReader.FillLoopReads | Library/SlidingDicDecoder.cs:181-189 | the refill loop keeps the window equal to the stream bits it has taken in, so the reader it ends with is valid |
| BitReader.FillBitBufferReads | Library/SlidingDicDecoder.cs:179-194 | refilling keeps the window on the stream: a valid reader stays valid |
| BitReader.GetBitsReads | Library/SlidingDicDecoder.cs:196-202 | `GetBits(n)` returns exactly the next `n` stream bits, MSB first, and leaves a valid reader |
| BitReader.FreshValid | Library/SlidingDicDecoder.cs:52-54 | a new decoder's zero registers stand for the 16 zero bits before the data, nothing consumed |
| BitReader.InitialFill | Library/Lh4Decoder.cs:35-38 | the first `FillBitBuffer(2 * CHAR_BIT)` leaves the window on the first 16 bits of the data |
| Window.Empty | Library/SlidingDicDecoder.cs:46-50 | a new dictionary is `2^dictionaryBit` zero bytes with both pointers at 0 |
| Window.Pending | Library/SlidingDicDecoder.cs:72-76 | the undelivered count lies below the dictionary size and is 0 exactly when the pointers meet |
| Window.Next | Library/SlidingDicDecoder.cs:141-144 | the pointer after slot `i` is `(i + 1)` modulo the dictionary size |
| Window.Put | Library/SlidingDicDecoder.cs:156 | writing at `end` stores the byte there and moves `end` on by one, wrapping |
| Window.PutHolds | Library/SlidingDicDecoder.cs:156 | a write appends the byte to the history the dictionary holds |
| Window.SlotReads | Library/SlidingDicDecoder.cs:155 | slot `j` holds the byte `Age(w, j)` places back in the history |
| Window.AgeOfBack | Library/SlidingDicDecoder.cs:150 | the slot `(end - dist) & mask` is exactly `dist` places back |
| Window.PutLiteral | Library/SlidingDicDecoder.cs:137-144 | a literal is written at `end`, both pointers move on together and return to 0 together at the wrap |
| Window.PutLiteralHolds | Library/SlidingDicDecoder.cs:137-144 | a literal is appended to the history |
| Window.Drain | Library/SlidingDicDecoder.cs:71-123 | the delivery step hands out `min(len, pending)` bytes, leaves the buffer and `end` alone and lowers the pending count by the count handed out |
| Window.DrainReads | Library/SlidingDicDecoder.cs:71-123 | the bytes handed out are the oldest pending bytes of the history, in order, in both the wrapped and the unwrapped case |
| Window.DrainSlots | Library/SlidingDicDecoder.cs:76-108 | byte `i` handed out is the one in slot `begin + i`, wrapping at the dictionary size |
| Window.PendingSlot | Library/SlidingDicDecoder.cs:71-123 | the pending bytes are the last `Pending` bytes of the history, the oldest in slot `begin` |
| Window.CopyOut | Library/SlidingDicDecoder.cs:153-172 | a match copy extends the history by exactly its length and keeps what was there |
| Window.CopyPeriodic | Library/SlidingDicDecoder.cs:153-172 | byte `i` of a copy from `dist` back is byte `i mod dist` of the bytes it starts from, so an overlapping copy repeats them |
| Window.RepeatLast | Library/SlidingDicDecoder.cs:153-172 | a copy from one place back repeats the last byte |
| Window.CopyNoOverlap | Library/SlidingDicDecoder.cs:153-172 | a copy that does not reach its own start is a plain slice of the history |
| Window.CopyMatch | Library/SlidingDicDecoder.cs:148-172 | the match loop appends the copy to the history in the dictionary, delivers its first `min(length, len)` bytes and leaves the rest pending |
| Window.CopyStep | Library/SlidingDicDecoder.cs:155-171 | one pass of the match loop keeps the loop's invariant: history, delivered prefix, pointers and pending count |
| Window.CopyStepHolds | Library/SlidingDicDecoder.cs:155-156 | copying slot `mp + k` to `end` writes the next byte of the copy |
| Window.AgeAfterWrites | Library/SlidingDicDecoder.cs:155 | after `k` writes, slot `mp + k` is as far back as `mp` was, so each copied byte is read from the same distance |
| Window.HoldsBegin | Library/SlidingDicDecoder.cs:160-164 | moving `begin` does not change what the dictionary holds |
| Window.PendingAfterCopy | Library/SlidingDicDecoder.cs:157-171 | after `k` copied bytes of which `min(k, len)` went out, the rest are pending |
| SlidingDic.NewDecoder | Library/SlidingDicDecoder.cs:39-57 | the constructor leaves a valid decoder: a dictionary of `2^dictionaryBit` bytes with nothing pending, a fresh bit reader, `decodeCount` 0 and `InitRead` still due |
| SlidingDic.NewDecoderHolds | Library/SlidingDicDecoder.cs:48 | the zeroed dictionary stands for a history of zeros |
| SlidingDic.MatchDistance | Library/SlidingDicDecoder.cs:148-150 | the slot `(end - offset - 1) & dictionaryMask` lies `offset + 1` places back, modulo the dictionary size |
| SlidingDic.InitCodec | Library/SlidingDicDecoder.cs:65-69 | `InitRead` of each method leaves a started decoder: LZ5 seeds the dictionary, clears its flag count and reads no bits; LZS is its own `InitRead`; every method but LZ5 consumes exactly 16 bits and leaves the dictionary alone; only LH2 can fail |
| SlidingDic.NextCode | Library/SlidingDicDecoder.cs:133 | `DecodeCode` of every method yields a code below 541 and keeps the method's state well formed; LZS never fails and LZ5 fails only at the end of the input |
| SlidingDic.NextCodeAdaptive | Library/SlidingDicDecoder.cs:133 | for LH1 and LH2, `DecodeCode` yields a code below 541 and keeps the state well formed |
| SlidingDic.NextCodeStatic | Library/SlidingDicDecoder.cs:133 | for LH3 to LH7, `DecodeCode` yields a code below 541 and keeps the state well formed |
| SlidingDic.NextCodeByte | Library/SlidingDicDecoder.cs:133 | for LZS and LZ5, `DecodeCode` yields a code below 541 and is the code of the independent LZSS account; LZS never fails and LZ5 fails only at the end of the input |
| SlidingDic.NextPosition | Library/SlidingDicDecoder.cs:149 | `DecodePosition` of every method keeps the state well formed; for LZS and LZ5 it reads no bits and is their position function of `end` |
| SlidingDic.SeededHolds | Library/Lz5Decoder.cs:47-68 | a dictionary written from slot 0 with both pointers at 0 stands for a history that ends in its contents |
| SlidingDic.Unrolled | Library/SlidingDicDecoder.cs:25-27 | every well-formed ring stands for some history as long as the ring |
| SlidingDic.LiteralStep | Library/SlidingDicDecoder.cs:135-145 | a literal while bytes are wanted is appended to the history and delivered, and `decodeCount` grows by one |
| SlidingDic.MatchStep | Library/SlidingDicDecoder.cs:146-173 | a match while bytes are wanted appends its copy to the history, delivers as much as is wanted, leaves the rest pending, and `decodeCount` grows by its length |
| SlidingDic.DecodeLoop | Library/SlidingDicDecoder.cs:131-174 | the decoding loop keeps the delivered bytes a slice of the history and stops short of `len` only once `decodeCount` reached `originalSize`; for LZS and LZ5 the items it applied are exactly the next items of the independent LZSS account |
| SlidingDic.Begin | Library/SlidingDicDecoder.cs:65-123 | the start of `Read` runs `InitRead` only on the first call and then hands out the oldest pending bytes, up to `len`; short only when nothing is left pending; for LZS and LZ5 decoding resumes where the LZSS account starts |
| SlidingDic.Read | Library/SlidingDicDecoder.cs:63-177 | `Read` delivers the next unread bytes of the output history, in order, extended by what it decodes; fewer than `len` only at the end of the entry, -1 only when nothing was left; the rest stays pending; `decodeCount` grows with the history; a negative `len` is an error; every applied item is the token of a decoded code, and for LZS and LZ5 those items are the independent LZSS account from the entry's start state |
| SlidingDic.LzssCode | Library/SlidingDicDecoder.cs:133 | for LZS and LZ5 the next code is below 272; LZS never fails; LZ5 fails only at the end of the input, keeps being LZ5 and moves only its byte position |
| SlidingDic.TokenOf | Library/SlidingDicDecoder.cs:135-150 | a match copies from 1 to `dictionarySize` places back, as masking the position with `dictionaryMask` guarantees |
| SlidingDic.LzssRun | Library/SlidingDicDecoder.cs:131-150 | the LZSS account of `n` decoding steps, code then offset from the current write position, holds exactly `n` items and keeps the method LZS or LZ5 |
| SlidingDic.LzssRunSnoc | Library/SlidingDicDecoder.cs:131-150 | the account one step longer is the account so far followed by the next code's item, with the write position moved on by its length |
| SlidingDic.LzssStart | Library/SlidingDicDecoder.cs:65-69 | LZS and LZ5 decoding starts from the state `InitRead` leaves on the first call and from the decoder's own state on later calls |
| SlidingDic.TiedStep | Library/SlidingDicDecoder.cs:133-150 | each code and offset the loop decodes extends, by one item, the agreement between the loop's items and the LZSS account |
| SlidingDic.DecodeStep | Library/SlidingDicDecoder.cs:132-173 | one turn of the loop decodes a literal or a match, keeps the delivered bytes a slice of the history and the agreement with the LZSS account, and moves `decodeCount` on |
| NoCompress.Read | Library/NocompressDecoder.cs:20-43 | the pass-through decoder returns 0 for `len <= 0`, -1 once nothing is owed, and otherwise the next `min(len, originalSize)` input bytes verbatim, taking that many off the count owed; running out of input is the reader's end-of-stream error |
| NoCompress.ReadsFollowOn | Library/NocompressDecoder.cs:34-40 | two reads in a row deliver the input without gap or overlap, and the count owed drops by their total |
| DecoderStream.NewSlidingEngine | Library/SlidingDicDecoder.cs:39-57 | a sliding-dictionary decoder as its constructor leaves it, for the given dictionary size, match adjustment and method state |
| DecoderStream.CreateDecoder | Library/LhaDecoderInputStream.cs:223-251 | each signature gets its decoder with the source's constants: LH1 4 KiB, LH4 4 KiB with 14 positions and 4-bit lengths, LH5 8 KiB, LH6 32 KiB with 16 and 5, LH7 64 KiB with 17 and 5, LZS 2 KiB with adjustment 254, LZ5 4 KiB; LH0 and LZ4 pass through; LH2 and LH3 are unsupported; anything else is unknown |
| DecoderStream.FactoryCoversMethods | Library/LhaDecoderInputStream.cs:223-251 | the factory succeeds exactly on the twelve entry signatures other than LH2 and LH3, and reports any other signature as unknown |
| DecoderStream.Open | Library/LhaDecoderInputStream.cs:34-43 | the stream opens exactly when the factory has a decoder, expecting the whole original size, with the checksum reset |
| DecoderStream.Available | Library/LhaDecoderInputStream.cs:64-70 | 1 exactly while the stream is open and bytes are still expected, 0 otherwise |
| DecoderStream.Close | Library/LhaDecoderInputStream.cs:189-198 | after closing no decoder is left and nothing is available; the counters stay |
| DecoderStream.ReadEngine | Library/LhdDecoder.cs:14-17 | every decoder's `Read` returns a count in `[0, len]` with that many bytes, or -1 with none, and never 0 when bytes were asked for; the directory decoder always returns -1 |
| DecoderStream.Read | Library/LhaDecoderInputStream.cs:118-133 | -1 once closed; otherwise the bytes returned are appended to the checksum input and taken off the expected count |
| DecoderStream.ReadByte | Library/LhaDecoderInputStream.cs:82-98 | -1 once closed; otherwise a byte value, counted and checksummed when one was read, and 0 with nothing counted at the end of the entry |
| DecoderStream.Skip | Library/LhaDecoderInputStream.cs:146-181 | skips at most `min(n, Int32.MaxValue)` bytes, none for `n <= 0` or once the stream is closed; every skipped byte is counted and checksummed twice, once by `Read` and once by `Skip` itself |
| Entry.MethodsDistinct | Library/LhaEntry.cs:16-38 | the twelve method signatures are twelve different strings |
| Entry.MethodsMembers | Library/LhaEntry.cs:135-146 | a signature is one of the twelve exactly when it equals one of the twelve constants |
| Entry.NewEntry | Library/LhaEntry.cs:118-122 | a new entry has no CRC and offset -1 |
| Entry.SetMethod | Library/LhaEntry.cs:133-151 | the signature is accepted exactly when it is one of the twelve, and then only the signature changes |
| Entry.SetCompressedSize | Library/LhaEntry.cs:174-181 | the size is accepted exactly when it is an unsigned 32-bit value, and then only that field changes |
| Entry.SetOriginalSize | Library/LhaEntry.cs:204-211 | the size is accepted exactly when it is an unsigned 32-bit value, and then only that field changes |
| Entry.SetOffset | Library/LhaEntry.cs:405-412 | the offset is accepted exactly when it is an unsigned 32-bit value, and then only that field changes |
| Entry.SetCRC | Library/LhaEntry.cs:332-336 | the CRC is stored and flagged, nothing else changes |
| Entry.DosFields | Library/LhaEntry.cs:429-435 | the fields cut out of a DOS stamp lie within their bit widths, years from 1980 to 2107 and even seconds |
| Entry.PackDos | Library/LhaEntry.cs:429-435 | the DOS layout of fields within their widths is an unsigned 32-bit value |
| Entry.DosFieldsOfPack | Library/LhaEntry.cs:429-435 | cutting the fields out of a packed stamp gives back the fields |
| Entry.PackOfDosFields | Library/LhaEntry.cs:429-435 | packing the fields cut out of any 32-bit stamp gives back the stamp: every bit belongs to a field |
| Entry.DaysInMonth | Library/LhaEntry.cs:431-434 | a month of the calendar the stamp is checked against has 28 to 31 days |
| Entry.SetDosTimeStamp | Library/LhaEntry.cs:254-257 | a DOS stamp is accepted exactly when its fields make a calendar date and time, and then only the time stamp changes |
| Entry.SetHeaderTimeStamp | Library/LhaEntry.cs:277-281 | a level-2 stamp is stored as seconds since 1970, nothing else changes |
| EntryReader.Get16 | Library/LhaEntryReader.cs:434-437 | two bytes read little-endian give an unsigned value below 2^16 |
| EntryReader.Get32 | Library/LhaEntryReader.cs:439-442 | four bytes read little-endian give an unsigned 32-bit value |
| EntryReader.Get16Put16 | Library/LhaEntryReader.cs:434-437 | every 16-bit value written little-endian reads back as itself |
| EntryReader.Put16Get16 | Library/LhaEntryReader.cs:434-437 | the value read from two bytes encodes back to exactly those bytes, so no two byte pairs share a value |
| EntryReader.Get32Put32 | Library/LhaEntryReader.cs:439-442 | every 32-bit value written little-endian reads back as itself |
| EntryReader.Put32Get32 | Library/LhaEntryReader.cs:439-442 | the value read from four bytes encodes back to exactly those bytes |
| EntryReader.Text | Library/LhaEntryReader.cs:152 | decoding header text keeps one character per byte, with the byte's value |
| EntryReader.ConvertFilePath | Library/LhaEntryReader.cs:400-432 | the archiving system's delimiter becomes the host separator, the host separator becomes the delimiter, every other character is kept, and the length is unchanged |
| EntryReader.ConvertFilePathInvolution | Library/LhaEntryReader.cs:422-429 | the conversion swaps two characters, so applying it twice restores the path |
| EntryReader.DirName | Library/LhaEntryReader.cs:350-365 | a directory extension becomes its bytes with every 0xFF separator turned into the host separator |
| EntryReader.Take | Library/LhaEntryReader.cs:140-143 | a read of n bytes succeeds exactly when n bytes remain, and then yields exactly those bytes and advances by n |
| EntryReader.ReadExHeader | Library/LhaEntryReader.cs:331-398 | one extended header consumes exactly its declared size, fails on a short input, and yields as the next size the 16-bit value in its last two bytes; a common header records its CRC from bytes 1 and 2, feeds the CRC the header with those bytes zeroed, and is an index error when shorter than 3; every other header feeds the CRC all its bytes; a file name or directory name header sets that name; nothing reaches the checksum |
| EntryReader.CrcFed | Library/LhaEntryReader.cs:337-344 | a common header reaches the CRC with its two CRC bytes zeroed and every other byte kept; any other header reaches it unchanged |
| EntryReader.CrcChain | Library/LhaEntryReader.cs:271-274 | the chain of extended headers read straight off the input ends inside it and feeds the CRC exactly as many bytes as it spans; a header past the end of the input, or too short for its size field or its CRC field, ends it with no result |
| EntryReader.ChainStep | Library/LhaEntryReader.cs:395-397 | a chain is its first header, fed to the CRC with the CRC field zeroed, followed by the chain whose size that header names in its last two bytes; a later common header's CRC value overrides an earlier one |
| EntryReader.ReadExLink | Library/LhaEntryReader.cs:331-397 | one extended header read by the header reader moves the reader over exactly its size, leaves the checksum alone, feeds the CRC what `CrcFed` says, and names the size of the next one (`LinkRead`) |
| EntryReader.ChainAcc | Library/LhaEntryReader.cs:271-274 | what one header feeds the CRC, followed by what the rest of the chain feeds it, is what the whole chain feeds it |
| EntryReader.ChainReadStep | Library/LhaEntryReader.cs:271-274 | reading one header and then the rest of the chain reads the whole chain |
| EntryReader.ReadExChain | Library/LhaEntryReader.cs:271-274 | following the chain of extended headers stays inside the input, reports exactly the number of bytes it consumed and leaves the checksum alone; what it feeds the CRC, and the CRC value it records, are exactly what `CrcChain` says the headers on the input hold (`ChainRead`) |
| EntryReader.CommonFields | Library/LhaEntryReader.cs:132-135 | the fixed part of a header is accepted exactly when its method is one of the known ones and its DOS stamp is a calendar date and time |
| EntryReader.Level0ReadsWholeHeader | Library/LhaEntryReader.cs:155-193 | with `diff - 23` extension bytes, a level 0 header of every accepted size is read to its last byte (header size plus two) |
| EntryReader.Level0AsWrittenStopsShort | Library/LhaEntryReader.cs:185-193 | with `diff - 24` extension bytes, a level 0 header of size 30 and name length 6 is read one byte short |
| EntryReader.ReadLevel0 | Library/LhaEntryReader.cs:120-198 | a level 0 header is accepted only for `diff` 20, 22 or at least 23; it carries a CRC exactly when `diff >= 22`, taken from the two bytes after the name, and an OS byte exactly when `diff >= 23` (otherwise the generic OS); method, sizes, stamp and path come from their fixed offsets; with the corrected extension count (see Findings) it is read to exactly its declared end and its checksum covers every byte after the first two; no CRC is checked |
| EntryReader.NameField | Library/LhaEntryReader.cs:223-243 | a name field is a length byte followed by that many bytes, and is accepted exactly when all of them are present |
| EntryReader.CrcOsNext | Library/LhaEntryReader.cs:245-271 | the CRC, OS byte and first extension size are five bytes read in that order, accepted exactly when present |
| EntryReader.ReadLevel1 | Library/LhaEntryReader.cs:200-289 | a level 1 header needs 0x20 at offset 19; its checksum covers the fixed part only; the compressed size excludes the extension bytes that follow |
| EntryReader.ReadLevel2 | Library/LhaEntryReader.cs:291-329 | a level 2 header carries no checksum, has a CRC, and takes its path from the directory and file name extensions |
| EntryReader.ReadFields | Library/LhaEntryReader.cs:82-97 | the switch on the level byte reads level 0, 1 or 2 and rejects any other level; for levels 1 and 2 the CRC has been fed the fixed part and then the extended-header chain that starts with the size in its last two bytes |
| EntryReader.ReadHeader | Library/LhaEntryReader.cs:61-119 | end of input or a lone zero byte means no more entries; a short or unknown-level header is an error; a returned entry has a known method, a non-empty path when it is a directory, and for levels 0 and 1 a checksum that matches the bytes it covers; for levels 1 and 2 the entry ends where the chain of extended headers ends, and when that chain holds a common header its CRC value is the CRC of the fixed part followed by every extended header, the CRC field zeroed |
| EntryReader.HeaderCrcChecked | Library/LhaEntryReader.cs:113-116 | once the CRC check passes, a common header's CRC value is the CRC of the fixed part and the chain of extended headers, the CRC field zeroed |
| Lzs.InitRead | Library/LzsDecoder.cs:39-42 | starting an entry primes the bit buffer with exactly 16 bits |
| Lzs.DecodeCode | Library/LzsDecoder.cs:20-32 | a code is a literal below 256 costing 9 bits and leaving the state alone, or a match code 256..271 costing 16 bits with an 11-bit match position |
| Lzs.DecodeCodeReads | Library/LzsDecoder.cs:20-32 | a leading 1-bit means a literal whose value is the next 8 stream bits; a 0-bit means a match whose position is the next 11 bits and whose length code is the 4 after |
| Lzs.DecodePosition | Library/LzsDecoder.cs:34-37 | the back offset lies inside the 2 KiB dictionary |
| Lzs.CopySource | Library/LzsDecoder.cs:34-37 | the copy starts at slot `matchPosition + 17` of the dictionary whatever the current end is |
| Lz5.ReadByte | Library/Lz5Decoder.cs:26 | a byte can be read exactly when one is left, and reading advances by one |
| Lz5.DecodeCode | Library/Lz5Decoder.cs:21-40 | a flag byte is fetched every eighth call; a flag bit 1 gives the next byte as a literal; a 0 gives a match position of 12 bits from two bytes and a length code 256..271; running out of bytes is an end-of-stream error |
| Lz5.FlagOrder | Library/Lz5Decoder.cs:23-38 | the k-th code after a flag byte is a literal exactly when bit k of that byte is set, least significant first |
| Lz5.FlagRefresh | Library/Lz5Decoder.cs:23-28 | after eight codes the next call reads a fresh flag byte and uses its lowest bit |
| Lz5.DecodePosition | Library/Lz5Decoder.cs:42-45 | the back offset lies inside the 4 KiB dictionary |
| Lz5.CopySource | Library/Lz5Decoder.cs:42-45 | the copy starts at slot `matchPosition + 18` of the dictionary whatever the current end is |
| Lz5.Seed | Library/Lz5Decoder.cs:47-68 | seeding leaves thirteen copies of each byte value from slot 18, a rising and a falling ramp, a 0 at slot 3858, 0x20 at slot 3986, and every other slot as it was |
| Lh4.Initial | Library/Lh4Decoder.cs:24-33 | a new decoder has arrays of the sizes the source allocates and starts with no block open |
| Lh4.InitRead | Library/Lh4Decoder.cs:35-38 | starting an entry primes the bit buffer with exactly 16 bits |
| Lh4.Walk | Library/Lh4Decoder.cs:60-73 | the overflow walk ends on a leaf below the limit or on a self-linked node, reports a bad index or an endless walk as an error, and from a node whose children are both leaves takes the child the window bit selects |
| Lh4.WalkTo | Library/Lh4Decoder.cs:60-73 | the overflow walk, written as recursion, ends on a symbol below the limit or a self-linked node, and otherwise reports a bad index or an endless walk |
| Lh4.WalkToAgrees | Library/Lh4Decoder.cs:60-73 | within the 16 window bits the masked walk ends where the plain overflow walk `LhTable.Walk` ends |
| Lh4.LongWalk | Library/Lh4Decoder.cs:57-75 | a long code of a complete code whose links the table builder laid down has a table entry that is an internal node, and the walk from it ends on that code's own symbol |
| Lh4.TableSymbol | Library/Lh4Decoder.cs:51-78 | a symbol read through a direct table and its overflow tree indexes the length array and leaves the reader in range; a walk to a symbol outside the lengths is an index error |
| Lh4.ReadSymbol | Library/Lh4Decoder.cs:51-78 | the imperative lookup and walk yield exactly `TableSymbol` |
| Lh4.TableShort | Library/Lh4Decoder.cs:51-56 | a window opening with a short code yields that code's symbol after consuming exactly its length |
| Lh4.TableLong | Library/Lh4Decoder.cs:57-76 | a window opening with a long code of a complete linked code yields that code's symbol after consuming the table bits and then the rest of its length |
| Lh4.CodeSymbolReads | Library/Lh4Decoder.cs:50-78 | the character and length symbol is the one whose code the window opens with, short or long, and consumes exactly its length |
| Lh4.PositionSymbolReads | Library/Lh4Decoder.cs:83-109 | the position symbol is the one whose code the window opens with, short or long, and consumes exactly its length |
| Lh4.BuildPosition | Library/Lh4Decoder.cs:174-176 | building the position table places every short position symbol, links every long one, and keeps the code tree's links when the position code fits its part of the tree |
| Lh4.CodeKept | Library/Lh4Decoder.cs:174-176 | a position table built next to the code table, using only its own part of the shared overflow arrays, keeps every long code's links |
| Lh4.ReadLength | Library/Lh4Decoder.cs:142-156 | a length field below 7 costs 3 bits; a longer one costs `length - 3` bits; no length exceeds 20 |
| Lh4.OnesReads | Library/Lh4Decoder.cs:149-154 | the run the length loop counts is exactly the run of 1-bits in the stream, ended by a 0-bit or the window's edge |
| Lh4.ReadShortLength | Library/Lh4Decoder.cs:142-145 | a 3-bit field other than 7 is the length itself |
| Lh4.ReadLongLength | Library/Lh4Decoder.cs:147-156 | a field of 7 is followed by one 1-bit per extra unit of length, closed by a 0-bit |
| Lh4.ReadLengthReads | Library/Lh4Decoder.cs:142-156 | a length is its 3-bit field when that is below 7, otherwise 7 plus the number of 1-bits that follow, read from the stream in order |
| Lh4.PeekReads | Library/Lh4Decoder.cs:142 | the top bits of the window are the next bits of the stream |
| Lh4.ZeroFill | Library/Lh4Decoder.cs:160-167 | the run after the special position writes zeros and never runs past the array |
| Lh4.ReadLengths | Library/Lh4Decoder.cs:138-173 | the lengths read are exactly the transmitted ones, including the 2-bit zero run after the special position; the index ends at or past the count; every later entry is zero up to where the loop stopped and unchanged beyond |
| Lh4.SentLengths | Library/Lh4Decoder.cs:138-168 | the transmitted position lengths, each at most 20, run from the start to at least the count and never past the array; nothing is sent once the count is reached |
| Lh4.PadZeros | Library/Lh4Decoder.cs:170-173 | padding writes zeros from the current index up to the count, leaves every other entry alone, and ends at the count |
| Lh4.LengthStep | Library/Lh4Decoder.cs:140-167 | one round of the length loop moves the index on and keeps the lengths so far equal to the start of the transmitted lengths |
| Lh4.PositionLengths | Library/Lh4Decoder.cs:119-177 | the position lengths the reader leaves always fill the array |
| Lh4.ReadPositionLength | Library/Lh4Decoder.cs:119-177 | a zero count means every length is zero and every table entry is the one symbol sent next; otherwise the lengths are the transmitted ones padded with zeros, at most 16, zero past the count, and the table is built from them; nothing but the position lengths and table changes |
| Lh4.ReadLengthSymbol | Library/Lh4Decoder.cs:201-220 | a length-of-lengths symbol is found by direct lookup when the table has it, and exactly its code length is consumed |
| Lh4.ZeroRun | Library/Lh4Decoder.cs:222-236 | symbol 0 stands for one zero, 1 for 3 to 18 zeros read from 4 bits, 2 for 20 to 531 zeros read from 9 bits |
| Lh4.StoreZeros | Library/Lh4Decoder.cs:237-240 | a zero run is stored exactly when it fits in the array, and then writes only zeros |
| Lh4.ReadCodeLengths | Library/Lh4Decoder.cs:195-251 | the loop succeeds exactly when the transmitted code lengths can be read, and then yields them, symbol 0, 1 and 2 as their zero runs and every other symbol `c` as `c - 2`, padded with zeros to the array |
| Lh4.SentCodes | Library/Lh4Decoder.cs:197-246 | the transmitted code lengths run to at least the count and never past the array; nothing is sent once the count is reached |
| Lh4.SentCodesStep | Library/Lh4Decoder.cs:199-246 | one round of the code length loop: a failed symbol fails, a zero run that overruns the array is an index error, otherwise its zeros or the length `c - 2` come first |
| Lh4.CodeStep | Library/Lh4Decoder.cs:199-246 | one round of the loop moves the index on and keeps the lengths so far equal to the start of the transmitted lengths; a failure is a failure of the transmitted lengths |
| Lh4.CodeLengths | Library/Lh4Decoder.cs:179-255 | the code lengths, when they can be read, fill the array |
| Lh4.ReadCodeLength | Library/Lh4Decoder.cs:179-255 | a zero count means every code length is zero and every table entry is the one symbol sent next; otherwise the code lengths are the transmitted ones padded with zeros, at most 16, zero past the count, and the table is built from them |
| Lh4.ReadBlockHeader | Library/Lh4Decoder.cs:42-48 | a new block's size is the next 16 bits; then the length-of-lengths, the code lengths and the position lengths are the ones transmitted one after another on the stream, and the tables agree with them |
| Lh4.DecodeCode | Library/Lh4Decoder.cs:40-79 | inside a block a short code is decoded by direct lookup and consumes exactly its length, and a long code of a complete code whose links the table builder laid down is decoded through the overflow tree to its own symbol after consuming exactly its length; the block count drops by one; an empty block first reads a fresh block header, after which the code's overflow links are intact whenever the position code fits its tree |
| Lh4.DecodePositionSymbol | Library/Lh4Decoder.cs:83-109 | a short position code is decoded by direct lookup, and a long position code of a complete linked code through the overflow tree, each to its own symbol after consuming exactly its length |
| Lh4.PositionValue | Library/Lh4Decoder.cs:111-114 | symbol 0 is offset 0; symbol j is an offset in [2^(j-1), 2^j) read with j-1 extra bits |
| Lh4.PositionValueReads | Library/Lh4Decoder.cs:111-114 | position symbol j stands for 2^(j-1) plus the next j-1 stream bits |
| Lh4.DecodePosition | Library/Lh4Decoder.cs:81-117 | a match offset lies below 2^17; when the window opens with a position code, short or long (of a complete linked code), the offset is that symbol's value read after exactly its code length |
| Lh3.Initial | Library/Lh3Decoder.cs:29-40 | a new decoder has arrays of the sizes the source allocates and starts with no block open |
| Lh3.InitRead | Library/Lh3Decoder.cs:117-120 | starting an entry primes the bit buffer with exactly 16 bits |
| Lh3.FixedCodeStep | Library/Lh3Decoder.cs:48-58 | each ready-made code follows the previous one by the weight of the previous length, as the source's running sum does |
| Lh3.ReadyMade | Library/Lh3Decoder.cs:42-60 | the ready-made position code gives every symbol the length and code of the fixed table, and changes nothing else |
| Lh3.CountFixed | Library/Lh3Decoder.cs:42-60 | the number of ready-made symbols of each length is the width of that length's run in the fixed table |
| Lh3.BaseFixed | Library/Lh3Decoder.cs:42-60 | the canonical first code of each length of the ready-made lengths is the fixed table's first code of that length |
| Lh3.FixedComplete | Library/Lh3Decoder.cs:42-60 | the ready-made lengths fill the code space exactly, so the table builder accepts them |
| Lh3.FixedCanonical | Library/Lh3Decoder.cs:42-60 | the codes the ready-made loop assigns are the canonical codes of its lengths |
| Lh3.CodeField | Library/Lh3Decoder.cs:68-75 | a code length field is 0, or a 4-bit value plus one |
| Lh3.PositionField | Library/Lh3Decoder.cs:99 | a position length field is a 4-bit value |
| Lh3.Lead | Library/Lh3Decoder.cs:65-77 | the first fields of a table are read in order, one per position |
| Lh3.FieldReads | Library/Lh3Decoder.cs:68-75 | a code or position length field read through the bit reader is the field written on the stream at the current position |
| Lh3.ReadTreeCode | Library/Lh3Decoder.cs:62-92 | three leading lengths of 1 mean every code length is zero and every table entry is the symbol sent next; otherwise every code length is the field transmitted for it and the table is built from them; only code lengths and table change |
| Lh3.ReadTreePosition | Library/Lh3Decoder.cs:94-115 | position lengths are below 16; three leading lengths of 1 mean every length is zero and every table entry is the 7-bit symbol sent next; otherwise every length is the field transmitted for it and the table is untouched |
| Lh3.ReadBlockHeader | Library/Lh3Decoder.cs:124-137 | a new block's size is the next 16 bits; the code lengths are the transmitted fields or all zero; a 0 flag bit selects the ready-made position lengths, otherwise they are the transmitted fields or all zero; the tables agree with them |
| Lh3.DecodeCode | Library/Lh3Decoder.cs:122-168 | inside a block a short code is decoded by direct lookup and consumes exactly its length, and a long code of a complete linked code is decoded through the overflow tree to its own symbol; the last symbol takes 8 extra bits; the block count drops by one; an empty block first reads a block header, after which the symbol is the one `CodeSymbol` reads from the window past that header |
| Lh3.CodeSymbol | Library/Lh3Decoder.cs:139-167 | a symbol read through the code table, with the extra bits of the last symbol, lies below 510 and leaves the reader in range |
| Lh3.CodeSymbolDecodes | Library/Lh3Decoder.cs:139-167 | the symbol read is the one whose code the window opens with, for short codes and for long codes of a complete linked code, after consuming exactly its length |
| Lh3.LongEntries | Library/Lh3Decoder.cs:139-159 | a long code of a complete linked code has a table entry that is an internal node, and the overflow walk from it ends on that code's symbol |
| Lh3.HeaderEndReads | Library/Lh3Decoder.cs:124-137 | reading a block header leaves the reader on the stream |
| Lh3.BuildCode | Library/Lh3Decoder.cs:91 | the code table built from the transmitted lengths places every short symbol and links every long one |
| Lh3.BuildPosition | Library/Lh3Decoder.cs:136 | building the position table changes only that table and the overflow arrays, places every short position symbol, links every long one, and keeps the code's links when the position code fits its part of the tree |
| Lh3.CodeKept | Library/Lh3Decoder.cs:136 | a position table built after the code table, using only its own part of the shared overflow arrays, keeps every long code's links |
| Lh3.PositionSymbol | Library/Lh3Decoder.cs:172-194 | a short position code is decoded by direct lookup and consumes exactly its length |
| Lh3.PositionSymbolReads | Library/Lh3Decoder.cs:172-194 | reading the position symbol leaves the reader on the stream |
| Lh3.ShortPositionLookup | Library/Lh3Decoder.cs:172 | the direct table entry under a short position code is that code's symbol |
| Lh3.DecodePosition | Library/Lh3Decoder.cs:170-197 | an offset is the position symbol times 64 plus 6 further bits, and those low 6 bits are the stream bits right after the symbol (`Lh3.PositionLowBits`) |
| Lh3.PositionLowBits | Library/Lh3Decoder.cs:196 | the low 6 bits of every offset are the 6 stream bits right after the position symbol |
| Lh3.PositionFirstBranch | Library/Lh3Decoder.cs:179-192 | the first step of the position overflow walk tests window bit 8 after the 8-bit refill, that is stream bit 16 past the current position |
| Adaptive.Adopt | Library/Lh1Decoder.cs:190-205 | an inner child gets both its nodes re-parented and a leaf gets its symbol's node updated; nothing else changes |
| Adaptive.Regroup | Library/Lh1Decoder.cs:209-218 | a raised node joins its predecessor's block when their frequencies now agree, and otherwise takes a fresh block from the stock whose first node it becomes |
| Adaptive.SwapInc | Library/Lh1Decoder.cs:180-240 | the node raised is the first of the block, its frequency grows by one, the two subtrees are exchanged, and the result is the raised node's parent |
| Adaptive.SwapIncHeadShape | Library/Lh1Decoder.cs:182-232 | when the node is not alone in its block, the block's first node is raised, the block's first node moves one on, and the raised node joins the previous block or a fresh one |
| Adaptive.SwapIncAloneShape | Library/Lh1Decoder.cs:234-238 | a node alone in its block is raised in place; when it now equals its predecessor its block goes back to the stock and it joins the previous block |
| Adaptive.SwapIncKeepsSibling | Library/Lh1Decoder.cs:180-240 | raising a node below the root keeps the sibling invariant: frequencies non-increasing, one block per run of equal frequencies, each block's edge its first node, and the free block stock in step |
| Adaptive.RaiseOrdered | Library/Lh1Decoder.cs:209 | raising a node whose predecessor is strictly heavier keeps the frequencies non-increasing |
| Adaptive.PredecessorHeavier | Library/Lh1Decoder.cs:183-209 | the node before a block's first node is strictly heavier, so raising the first node keeps the order |
| Adaptive.SplitJoin | Library/Lh1Decoder.cs:208-213 | raising the first node of a shared block to its predecessor's frequency keeps the invariant, the node joining the previous block |
| Adaptive.SplitNew | Library/Lh1Decoder.cs:208-218 | raising the first node of a shared block below its predecessor's frequency keeps the invariant, the node taking a fresh block |
| Adaptive.AloneJoin | Library/Lh1Decoder.cs:234-238 | raising a node alone in its block to its predecessor's frequency keeps the invariant, its block returning to the stock |
| Adaptive.AloneStay | Library/Lh1Decoder.cs:234 | raising a node alone in its block below its predecessor's frequency keeps the invariant without touching the blocks |
| Adaptive.RaiseCounted | Library/Lh1Decoder.cs:208-217 | raising a block's first node changes the number of runs by exactly the blocks it leaves and opens, so a fresh block is available whenever one is taken |
| Adaptive.LeavesBlocks | Library/Lh1Decoder.cs:76-91 | the leaves, all of frequency 1, form one block whose edge is its first leaf, with the stock holding the rest |
| Adaptive.LeavesBuilt | Library/Lh1Decoder.cs:82-91 | after the leaf loop the arena satisfies the invariant the inner-node loop keeps |
| Adaptive.BuildInner | Library/Lh1Decoder.cs:92-106 | one pass of the inner-node loop keeps that invariant one node further down |
| Adaptive.NewNodeHeavier | Library/Lh1Decoder.cs:94-97 | each new inner node weighs at least as much as the node after it, so the loop keeps frequencies non-increasing |
| Adaptive.BuiltStep | Library/Lh1Decoder.cs:94-105 | an inner node that sums its two children and joins or opens a block extends the built region by one node |
| Adaptive.InitCodeDynamic | Library/Lh1Decoder.cs:65-107 | the initial tree satisfies the sibling invariant; symbol s is leaf `2 nMax - 2 - s` of frequency 1; inner node k has children `2k+1, 2k+2` and their summed frequency; the root weighs nMax; n1 is 512 or `nMax - 1` by the source's test |
| Adaptive.Descend | Library/Lh1Decoder.cs:266-288 | the bit-by-bit walk from the root ends on a leaf of the tree, refilling the window every 16 steps |
| Adaptive.DescendFollows | Library/Lh1Decoder.cs:266-288 | the window walk reaches the same leaf as following the stream's bits from the current position, and consumes exactly the bits followed |
| Adaptive.HalfUp | Library/Lh1Decoder.cs:120 | halving a frequency rounds up and keeps it non-negative |
| Adaptive.Reconstruct | Library/Lh1Decoder.cs:109-178 | rebuilding keeps the arena's sizes, every leaf of the result was a leaf before (`LeavesKept`), and nodes of equal frequency that are next to each other share a block |
| Adaptive.Rise | Library/Lh1Decoder.cs:250-253 | the climb stops at the root, keeps the arena's sizes and only moves leaves about, and does nothing when it starts at the root |
| Adaptive.UpdateCode | Library/Lh1Decoder.cs:242-254 | counting a symbol keeps the arena's sizes, succeeds only for a symbol index inside the node table (below `TREESIZE / 2`), and only moves leaves about: every leaf after the update was a leaf before (`LeavesKept`) |
| Adaptive.LeavesKeptBelow | Library/Lh1Decoder.cs:109-178 | moving the leaves about, as rebuilding and swapping do, keeps every leaf a symbol below the bound |
| Adaptive.LeavesKeptTrans | Library/Lh1Decoder.cs:242-254 | two rounds of moving the leaves about keep the leaves of the first |
| Adaptive.LeavesNamed | Library/Lh1Decoder.cs:82-89 | every leaf of the initial tree names a symbol below the alphabet size |
| Adaptive.DecodeSymbol | Library/Lh1Decoder.cs:264-290 | the decoded symbol is the leaf reached by following the stream's bits from the root, exactly those bits are consumed, and updating the tree afterwards only moves leaves about |
| Lh1.FixedCodeStep | Library/Lh1Decoder.cs:51-61 | each ready-made code follows the previous one by the weight of the previous length |
| Lh1.ReadyMade | Library/Lh1Decoder.cs:45-63 | the first 64 position lengths and codes become the fixed ones and the rest are kept |
| Lh1.CountFixed | Library/Lh1Decoder.cs:45-63 | the number of ready-made symbols of each length is the width of that length's run |
| Lh1.BaseFixed | Library/Lh1Decoder.cs:45-63 | the canonical first code of each ready-made length is the fixed table's first code of that length |
| Lh1.FixedComplete | Library/Lh1Decoder.cs:45-63 | the ready-made lengths fill the code space exactly, so the table builder accepts them |
| Lh1.FixedCanonical | Library/Lh1Decoder.cs:45-63 | the codes the ready-made loop assigns are the canonical codes of its lengths |
| Lh1.FixedCovers | Library/Lh1Decoder.cs:45-63 | every 16-bit window opens with the code of exactly one ready-made symbol |
| Lh1.ReadyTable | Library/Lh1Decoder.cs:261 | the table built from the ready-made lengths maps every window's top 8 bits to the symbol whose code opens it |
| Lh1.ReadyTree | Library/Lh1Decoder.cs:45-63 | the tree built for the ready-made position code maps the top 8 bits of every window to the symbol whose code opens it |
| Lh1.InitRead | Library/Lh1Decoder.cs:256-262 | starting an entry always succeeds: it primes 16 bits, builds the initial tree satisfying the sibling invariant with root weight 314, n1 512, and the ready-made position table |
| Lh1.DecodeCode | Library/Lh1Decoder.cs:264-297 | the symbol is the leaf the stream's bits lead to from the root, exactly those bits are consumed, only the tree changes, and with n1 of 512 no symbol takes the 8-bit extension and every symbol is below 314 |
| Lh1.DecodePosition | Library/Lh1Decoder.cs:299-326 | with the ready-made table the offset's top part is the symbol whose code opens the window, and the code length plus 6 bits are consumed |
| Lh1.PositionLowBits | Library/Lh1Decoder.cs:325 | with the ready-made table the low 6 bits of the offset are the 6 stream bits right after the position code |
| Lh2.Advance | Library/Lh2Decoder.cs:332-336 | the growth counter moves on by 64 until the alphabet is complete, and then is parked at 0xFFFFFFFF |
| Lh2.ScheduleAdvance | Library/Lh2Decoder.cs:329-337 | the counter runs 64, 128, ... so the k-th new position symbol is k+1, for 127 new symbols, after which the counter is parked |
| Lh2.InitPositionDynamic | Library/Lh2Decoder.cs:87-97 | the position tree starts as one leaf for position symbol 0 at its root, with frequency 1 and a fresh block, and the code tree is untouched; a missing fresh block is an index error |
| Lh2.InitRead | Library/Lh2Decoder.cs:285-290 | starting an entry primes 16 bits, builds the code tree with root weight 286 and n1 285, and a one-leaf position tree with the growth counter at 64 |
| Lh2.UpdatePosition | Library/Lh2Decoder.cs:247-261 | below the rebuild threshold the position total grows by one, and counting the root's own symbol changes no node |
| Lh2.Split | Library/Lh2Decoder.cs:263-281 | the last position leaf becomes an inner node over a copy of itself and a new leaf of frequency 0 for the new symbol; splitting the root pins its frequency to 0xFFFF |
| Lh2.SplitOverwritesCodeTree | Library/Lh2Decoder.cs:268 | as written, the split stores the moved leaf into the child link of code tree node `s + 314` and leaves that symbol's reverse link on the old node |
| Lh2.MakeNewNode | Library/Lh2Decoder.cs:263-283 | a new node pair is appended after the last position node, which moves on by two, and the position total is counted |
| Lh2.Grow | Library/Lh2Decoder.cs:329-337 | growth runs until the counter passes the decoded count, never touching n1, and keeps the counter on its schedule; nothing changes when the counter is already ahead |
| Lh2.ReadPosition | Library/Lh2Decoder.cs:339-365 | the position symbol is the leaf the stream's bits lead to from the position root, then 6 more bits; only the tree and position total change |
| Lh2.DecodePosition | Library/Lh2Decoder.cs:327-366 | the alphabet is first grown past the decoded count, and the offset is below the 8 KiB dictionary size |
| Lh2.DecodeCode | Library/Lh2Decoder.cs:292-325 | the symbol is the leaf the stream's bits lead to; symbol 285 adds the next 8 bits; exactly the bits read are consumed and only the tree changes |
| LhTable.CountMono | Library/LhDecoder.cs:43-51 | counting symbols of one length over a longer prefix never gives fewer |
| LhTable.CodeEnd | Library/LhDecoder.cs:53-58 | a canonical code's range ends no later than where the next length's codes begin |
| LhTable.Disjoint | Library/LhDecoder.cs:53-58 | the code ranges of two different symbols never overlap, so no table entry is claimed twice |
| LhTable.Scale | Library/LhDecoder.cs:65-70 | shifting the 16-bit start of a length right by `16 - tableBits` gives the start counted in table bits |
| LhTable.DirectLookup | Library/LhDecoder.cs:96-105 | the top `tableBits` bits of any window opening with a short code index an entry inside that code's range |
| LhTable.AllZeroBase | Library/LhDecoder.cs:53-60 | with every length zero, every start is zero and so is the total, which the check accepts |
| LhTable.CountLong | Library/LhDecoder.cs:43-51 | when every length fits the direct table, no code longer than the table is counted |
| LhTable.BaseLong | Library/LhDecoder.cs:53-58 | when every length fits the direct table, the starts of all longer lengths coincide |
| LhTable.CompleteShortBase | Library/LhDecoder.cs:53-70 | a complete code whose lengths all fit the direct table fills it: the short codes end exactly at its size |
| LhTable.CompleteFits | Library/LhDecoder.cs:110-115 | when the code space is not overfull, every long code's table entry lies inside the table, so the bad-table error cannot happen |
| LhTable.Fill | Library/LhDecoder.cs:80-83 | filling a range writes the value exactly there and leaves everything else; a range past the array is an index error |
| LhTable.Set | Library/LhDecoder.cs:119-138 | a write into the table or one of the tree arrays keeps every size and touches the table only when it is the target |
| LhTable.PlaceLong | Library/LhDecoder.cs:107-139 | hanging a long code below its table entry changes only that entry, and only when it was empty, to a fresh node index at or above the symbol count; when the path is free, following the remaining code bits from the entry, right on a 1 and left on a 0, reaches the symbol, the nodes stay those below `avail`, and every other code still reaches its own symbol |
| LhTable.Weights | Library/LhDecoder.cs:37-41 | a code of length l takes up 2^(16-l) window values |
| LhTable.CountLengths | Library/LhDecoder.cs:43-51 | a length above 16 is rejected, and otherwise the counts are the number of symbols of each length |
| LhTable.Starts | Library/LhDecoder.cs:53-58 | each length's start is the canonical first code of that length, and the total is the weight of all codes |
| LhTable.Rescale | Library/LhDecoder.cs:65-70 | starts and weights of lengths up to `tableBits` are rescaled to table bits and the rest stay 16-bit |
| LhTable.NextCodesStep | Library/LhDecoder.cs:141 | moving a length's start on by its weight after each symbol keeps the start at the next unassigned canonical code |
| LhTable.PlaceSymbol | Library/LhDecoder.cs:87-142 | one symbol's turn keeps every short symbol placed so far on its range, the region above the short codes holding only empty entries or node indices, and the next-code starts in step; a length-0 symbol changes nothing |
| LhTable.ShortRound | Library/LhDecoder.cs:96-106 | a short code's round writes its symbol across its range, keeps the overflow tree, and fails only when the short codes overrun the table |
| LhTable.LongRound | Library/LhDecoder.cs:107-139 | a long code's round hangs the symbol in the overflow tree and keeps short symbols, the free region and the next-code starts in step |
| LhTable.PlaceAll | Library/LhDecoder.cs:86-142 | after the placement loop every short symbol sits on every entry of its canonical range and every long code starts inside the table; all-zero lengths leave the tables as they were |
| LhTable.MakeTable | Library/LhDecoder.cs:29-143 | a length above 16, a total weight that is not a multiple of 2^16, or a table wider than 16 bits is rejected; on success every short symbol sits on its canonical range of the direct table, the entries above the short codes hold only 0 or tree nodes, every long code's entry index is at most 4096, the bound behind the bad-table error, and, when the long codes' entries lie inside the given table, each long code's path through the overflow tree leads to its symbol; an all-zero length table is accepted unchanged, and a complete code whose lengths all fit a large enough table is accepted |
| LhTable.LookupShort | Library/LhDecoder.cs:96-105 | after the table is built, looking up any window that opens with a short code yields that code's symbol |
| LhTable.PlaceShort | Library/LhDecoder.cs:96-105 | writing one short symbol across its range keeps earlier short symbols in place and the region above them free of symbols |
| LhTable.LongAboveShort | Library/LhDecoder.cs:110-111 | a long code's table entry lies at or above every short code's range |
| LhTable.KeepShort | Library/LhDecoder.cs:117-124 | linking a long code through an empty entry never disturbs a short symbol's entry |
| LhTable.PrefixFree | Library/LhDecoder.cs:107-139 | the codes of two different long symbols part somewhere below the table, so neither overflow path is a prefix of the other |
| LhTable.HungLeads | Library/LhDecoder.cs:107-139 | once every symbol is placed, each long code's path through the overflow tree leads from its table entry to its symbol |
| LhTable.LookupLong | Library/Lh3Decoder.cs:146-160 | following a long code's bits from its table entry, the overflow walk `LhTable.Walk` returns that code's symbol; `LhTable.Walk` is the walk of `-lh1-` and `-lh3-`, while `-lh4-` to `-lh7-` use their own masked walk `Lh4.WalkTo`, which `Lh4.WalkToAgrees` and `Lh4.LongWalk` connect to this one |
| LhTable.LongFollows | Library/Lh3Decoder.cs:146-158 | after the table bits are consumed, the window continues with the rest of the long code's bits |
| LhTable.DecodeLong | Library/Lh3Decoder.cs:146-160 | when every long code leads from its table entry to its symbol, the overflow walk on a window opening with a long code returns that symbol |
| LhTable.CompleteLinks | Library/LhDecoder.cs:107-115 | a complete code over fewer symbols than twice the table size has at least one short code, and every long code's table entry lies inside the table, so the bad-table error cannot fire |
| LhTable.LinkedKept | Library/LhDecoder.cs:117-138 | links laid down for long codes survive any later change that keeps the nodes they use |
| LhTable.Walk | Library/Lh3Decoder.cs:146-160 | the overflow walk of the code and position trees ends on a symbol below the limit, or reports a bad index or an endless walk as an error |
| DecoderStream.CloseEntry | Library/LhaDecoderInputStream.cs:189-218 | closing an entry succeeds only when the count skipped matches the count left after `Skip`'s double decrement (a third of what was expected), and the CRC matches when the entry has one; a fully read entry closes exactly when its CRC matches; on a stream already closed the entry is null, so it fails with a data mismatch when the count is not 0 and with a null reference when it is |

## Left out

- I/O and the archive index: `LhaFile` (file access, the entry list, `GetEntryBytes`) and `LhaInputStream` (the stream wrapper). Input is a byte sequence instead.
- The test driver `Test/Program.cs` and its fixture archives.
- CRC-16 is not part of this model. `EntryReader.ReadHeader` and `DecoderStream.CloseEntry` take it as a function parameter.
- `Encoding.GetString` keeps one character per byte. `Path.DirectorySeparatorChar` is a parameter.
- `DateTime` handling is left out: `SetTimeStamp`, `GetTimeStamp`, `DosToDotNetTime`, `DotNetToDosTime` and the conversion to local time. A DOS stamp is kept as its decoded fields; a level-2 stamp as its seconds.
- Plain getters and setters (`SetPath`, `SetOS`, `GetMethod`, …) are datatype fields and field updates.
- The decoders' own `Close` methods do nothing the stream can observe. `DecoderStream.Close` drops the decoder.
- Adaptive.Reconstruct: its contract covers sizes, block grouping and that every leaf of the result was a leaf before (`LeavesKept`). That it rebuilds the sibling order from halved leaf frequencies is not proved.
- Adaptive.UpdateCode: its contract covers sizes and that leaves are only moved, never invented (`LeavesKept`). Each `SwapInc` step is shown to keep the sibling invariant (`Adaptive.SwapIncKeepsSibling`), but the climb as a whole and the rebuild at 0x8000 are not.
- Adaptive.Rise: the climb to the root carries a fuel of `TREESIZE` steps. It reports `Diverges` where a corrupt tree would make the source loop forever.
- Adaptive.Descend: the walk from the root carries a fuel of `TREESIZE` steps and reports `Diverges` on a cycle.
- LhTable.Walk: the overflow walk carries a fuel of `16 + |left|` steps, where the source would loop forever on a corrupt tree.
- Lh4.Walk: the same fuel bound applies.
- Lh2.UpdatePosition: the contract states the counter update and the no-op case. The sibling invariant of the growing position tree is not proved.
- Lh2.MakeNewNode: the contract states the same counter update and the node pair it appends, no more.
- Lh2.DecodePosition: the contract states the bound and the growth schedule only.
- `-lh2-` and `-lh3-` are modelled but unreachable from the factory, as in the source.
- Lh4.DecodePosition: the result is pinned to `PositionValue` of the symbol the canonical code names for a short position code, and for a long one when the position code is complete and its overflow links are intact (`LongLinked`). A long code of an incomplete position code is covered by the offset bound only.
- Lh4.DecodePositionSymbol: a long position code is pinned to its symbol only for a complete code whose overflow links are intact. The entries of an incomplete code are not pinned.
- Lh4.DecodeCode: a long code is pinned to its symbol only for a complete code (total weight 2^16) whose overflow links are intact. After a fresh block header the symbol is bounded but not restated against the stream past the header. The code's links after that header are stated only when the position code fits its part of the shared overflow arrays (`PositionFits`).
- Lh3.DecodeCode: a long code is pinned to its symbol only for a complete code whose overflow links are intact. The code's links after a fresh block header are stated only when the position code fits its part of the shared overflow arrays (`PositionFits`).
- Lh3.PositionSymbol: a long position code is walked with the `0x80` test the source uses. Only the walk's first branch is stated (`Lh3.PositionFirstBranch`), not the symbol it reaches.
- EntryReader.ReadHeader: the header CRC is stated for accepted headers: their common header's CRC value matches. That a header whose CRC does not match is rejected is not stated as a separate clause.
- Lh4.ReadBlockHeader: the contract ties the three length lists to the bit stream and states that the tables are complete where the lengths are. The intermediate table's overflow part is not pinned down.
- LhTable.MakeTable: the contract says every symbol is reached by its own code when each long code's first bits fall inside the table. A table whose long codes start past its end is not covered.
- SlidingDic.Read: for `-lzs-` and `-lz5-` the items are tied to an independent decoding of the stream (`SlidingDic.LzssRun`). For the Huffman decoders they are tied to the codes and offsets those decoders returned, not to a second decoding of the bit stream.
- Lh4.PositionValue: an extra-bit field wider than the 16-bit window (symbol above 17) is a `Malformed` error. In the source, C# masks the shift count and yields a garbage value.
- BitReader.FillBitBuffer: a negative count, reached through `codeLength[j] - 12` on a corrupt table, is a `Malformed` error in the callers rather than a masked shift.
- Frequencies, `decodeCount` and the entry counters are unbounded integers. Their 32-bit and 64-bit limits are out of reach for entries below 2 GiB.
- DecoderStream.ReadEngine: a sliding decoder asked for a negative length returns an error before `InitRead` runs. The source throws from `Array.Copy` after its lazy initialisation.

## Findings

| source | as written | input that shows it | evidently intended | confidence | as-written member | corrected member |
|---|---|---|---|---|---|---|
| Library/LhaEntryReader.cs:185-193 | a level 0 header with `diff = headerSize - nameSize > 23` reads `diff - 24` extension bytes after the OS byte | header size 30, name length 6: the header occupies 32 bytes but 31 are read, so one byte stays in the stream and is missing from the checksum | `diff - 23` bytes, which ends the read at header size plus two | high (not executed) | EntryReader.Level0ExtraAsWritten, EntryReader.Level0AsWrittenStopsShort | EntryReader.Level0Extra, EntryReader.Level0ReadsWholeHeader |
