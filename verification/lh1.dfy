/** The `-lh1-` decoder (Library/Lh1Decoder.cs): a 4 KB dictionary, an
    adaptive Huffman code for the 314 literal/length symbols (the shared
    tree of module `Adaptive`) and a ready-made static code for the 64
    position symbols. A position is its symbol times 64 plus 6 extra bits. */
module Lh1 {
  import opened Outcome
  import opened BitStream
  import opened BitReader
  import opened LhTable
  import opened Adaptive

  const NPT := 0x80
  const NC := 255 + 256 + 2 - 3
  const POSITION_TABLE_SIZE := 256
  const N_MAX := 314
  const MAX_MATCH := 60
  const NP := 64
  const DICTIONARY_BIT := 12
  const FIXED: seq<int> := [3, 0x01, 0x04, 0x0c, 0x18, 0x30, 0]

  /** The decoder's state after `InitRead`: the adaptive tree, the escape
      symbol `n1`, and the position code with its table. */
  datatype State = State(
    arena: Arena,
    n1: int,
    positionLength: seq<nat>,
    positionCode: seq<int>,
    positionTable: seq<int>,
    left: seq<int>,
    right: seq<int>)

  predicate Wf(s: State)
  {
    && Sized(s.arena) && LeavesBelow(s.arena.child, N_MAX)
    && |s.positionLength| == NPT && |s.positionCode| == NPT && |s.positionTable| == POSITION_TABLE_SIZE
    && |s.left| == 2 * NC - 1 && |s.right| == 2 * NC - 1
  }

  // ---------------------------------------------------------------------------
  // The ready-made position code

  /** The length `ReadyMade` gives position symbol `i`: `FIXED` lists, after
      the first length 3, the symbols at which the length grows by one. */
  function FixedLength(i: int): nat
  {
    if i < 1 then 3 else if i < 4 then 4 else if i < 12 then 5 else if i < 24 then 6
    else if i < 48 then 7 else 8
  }

  /** The first and one-past-last symbol of each length. */
  function Lo(l: nat): nat
  {
    if l == 3 then 0 else if l == 4 then 1 else if l == 5 then 4 else if l == 6 then 12
    else if l == 7 then 24 else if l == 8 then 48 else 0
  }

  function Hi(l: nat): nat
  {
    if l == 3 then 1 else if l == 4 then 4 else if l == 5 then 12 else if l == 6 then 24
    else if l == 7 then 48 else if l == 8 then 64 else 0
  }

  /** The first code of each length, 16 bits wide. */
  function FixedBase(l: nat): int
  {
    if l <= 3 then 0 else if l == 4 then 0x2000 else if l == 5 then 0x5000 else if l == 6 then 0x9000
    else if l == 7 then 0xC000 else if l == 8 then 0xF000 else 0x10000
  }

  /** The code `ReadyMade` gives symbol `i`. */
  function FixedCode(i: int): int
  {
    var l := FixedLength(i);
    if i >= NP then 0x10000 else FixedBase(l) + (i - Lo(l)) * Pow2(16 - l)
  }

  /** The symbol whose ready-made code opens the 16-bit window `w`. */
  function FixedSymbol(w: int): int
  {
    if w < 0x2000 then 0
    else if w < 0x5000 then 1 + (w - 0x2000) / 0x1000
    else if w < 0x9000 then 4 + (w - 0x5000) / 0x800
    else if w < 0xC000 then 12 + (w - 0x9000) / 0x400
    else if w < 0xF000 then 24 + (w - 0xC000) / 0x200
    else 48 + (w - 0xF000) / 0x100
  }

  /** The first `NP` lengths are the ready-made ones. */
  predicate FixedPrefix(bl: seq<nat>)
  {
    |bl| >= NP && forall i :: 0 <= i < NP ==> bl[i] == FixedLength(i)
  }

  lemma Pow2Table()
    ensures Pow2(8) == 0x100 && Pow2(9) == 0x200 && Pow2(10) == 0x400 && Pow2(11) == 0x800
    ensures Pow2(12) == 0x1000 && Pow2(13) == 0x2000 && Pow2(14) == 0x4000
    ensures Pow2(15) == 0x8000 && Pow2(16) == 0x10000
  {
    Pow2Values();
    assert Pow2(9) == 2 * Pow2(8);
    assert Pow2(10) == 2 * Pow2(9);
    assert Pow2(11) == 2 * Pow2(10);
    assert Pow2(13) == 2 * Pow2(12);
    assert Pow2(14) == 2 * Pow2(13);
    assert Pow2(15) == 2 * Pow2(14);
  }

  /** Consecutive ready-made codes are one code-space step apart. */
  lemma FixedCodeStep(i: int)
    requires 0 <= i < NP
    ensures FixedCode(i + 1) == FixedCode(i) + Pow2(16 - FixedLength(i))
  {
    Pow2Table();
    hide Pow2;
    // one case per code length
    if i < 1 {
    } else if i < 4 {
    } else if i < 12 {
    } else if i < 24 {
    } else if i < 48 {
    } else {
    }
  }

  /** `ReadyMade`: lengths and codes of the ready-made position code. */
  method ReadyMade(pl: seq<nat>, pc: seq<int>) returns (pl': seq<nat>, pc': seq<int>)
    requires |pl| == NPT && |pc| == NPT
    ensures |pl'| == NPT && |pc'| == NPT
    ensures forall i :: 0 <= i < NP ==> pl'[i] == FixedLength(i) && pc'[i] == FixedCode(i)
    ensures forall i :: NP <= i < NPT ==> pl'[i] == pl[i] && pc'[i] == pc[i]
  {
    Pow2Table();
    pl', pc' := pl, pc;
    var index := 0;
    var j := FIXED[index];
    index := index + 1;
    var weight := Pow2(16 - j);
    var code := 0;
    var i := 0;
    while i < NP
      invariant 0 <= i <= NP && |pl'| == NPT && |pc'| == NPT
      invariant j == index + 2 && FixedLength(i - 1) == j && 1 <= index <= 6 && weight == Pow2(16 - j)
      invariant code == FixedCode(i)
      invariant forall k :: 0 <= k < i ==> pl'[k] == FixedLength(k) && pc'[k] == FixedCode(k)
      invariant forall k :: NP <= k < NPT ==> pl'[k] == pl[k] && pc'[k] == pc[k]
    {
      while FIXED[index] == i
        invariant FixedLength(i - 1) <= j <= FixedLength(i) && j == index + 2 && 1 <= index <= 6
        invariant weight == Pow2(16 - j)
        decreases 6 - index
      {
        j := j + 1;
        index := index + 1;
        weight := weight / 2;
      }
      assert j == FixedLength(i);
      pl' := pl'[i := j];
      pc' := pc'[i := code];
      FixedCodeStep(i);
      code := code + weight;
      i := i + 1;
    }
  }

  lemma {:induction false} CountFixed(bl: seq<nat>, n: nat, l: nat)
    requires FixedPrefix(bl) && n <= NP
    ensures Count(bl, n, l) == if n <= Lo(l) then 0 else if n <= Hi(l) then n - Lo(l) else Hi(l) - Lo(l)
  {
    if n > 0 {
      CountFixed(bl, n - 1, l);
    }
  }

  lemma {:induction false} BaseFixed(bl: seq<nat>, l: nat)
    requires FixedPrefix(bl) && 1 <= l <= 17
    ensures Base(bl, NP, l, 16) == FixedBase(l)
  {
    hide Base, Count, Pow2;
    Pow2Table();
    if l == 1 {
      BaseFirst(bl, NP, 16);
    }
    if l > 1 {
      BaseFixed(bl, l - 1);
      CountFixed(bl, NP, l - 1);
      BaseSucc(bl, NP, l - 1, 16);
      var c := Count(bl, NP, l - 1);
      var w := Pow2(16 - (l - 1));
      if l - 1 == 3 {
        assert c * w == 0x2000;
      } else if l - 1 == 4 {
        assert c * w == 0x3000;
      } else if l - 1 == 5 {
        assert c * w == 0x4000;
      } else if l - 1 == 6 {
        assert c * w == 0x3000;
      } else if l - 1 == 7 {
        assert c * w == 0x3000;
      } else if l - 1 == 8 {
        assert c * w == 0x1000;
      } else {
        assert c == 0;
      }
    }
  }

  /** The ready-made code is complete: it passes `MakeTable`'s check. */
  lemma FixedComplete(bl: seq<nat>)
    requires FixedPrefix(bl)
    ensures Total(bl, NP) == 0x10000
  {
    BaseFixed(bl, 17);
  }

  /** `ReadyMade`'s codes are the canonical codes of its lengths. */
  lemma FixedCanonical(bl: seq<nat>, i: nat)
    requires FixedPrefix(bl) && i < NP
    ensures FixedCode(i) == CodeStart(bl, NP, i, 16)
  {
    var l := FixedLength(i);
    BaseFixed(bl, l);
    CountFixed(bl, i, l);
  }

  /** Every 16-bit window opens with exactly the code of `FixedSymbol`. */
  lemma FixedCovers(w: int)
    requires 0 <= w < 0x10000
    ensures var s := FixedSymbol(w);
            0 <= s < NP && FixedCode(s) <= w < FixedCode(s) + Pow2(16 - FixedLength(s))
  {
    Pow2Table();
    hide Pow2;
    // one case per code length
    if w < 0x2000 {
    } else if w < 0x5000 {
      assert 0 <= (w - 0x2000) / 0x1000 < 3;
    } else if w < 0x9000 {
      assert 0 <= (w - 0x5000) / 0x800 < 8;
    } else if w < 0xC000 {
      assert 0 <= (w - 0x9000) / 0x400 < 12;
    } else if w < 0xF000 {
      assert 0 <= (w - 0xC000) / 0x200 < 24;
    } else {
      assert 0 <= (w - 0xF000) / 0x100 < 16;
    }
  }

  /** Every entry of the position table holds the symbol whose code it
      starts with: all 64 codes are at most 8 bits long. */
  ghost predicate PositionReady(s: State)
  {
    forall w :: 0 <= w < 0x10000 ==>
      0 <= Shr(w, 8) < |s.positionTable| && s.positionTable[Shr(w, 8)] == FixedSymbol(w)
  }

  /** A table `MakeTable` built from the ready-made lengths answers every
      window. */
  lemma ReadyTable(bl: seq<nat>, table: seq<int>)
    requires FixedPrefix(bl) && |table| == POSITION_TABLE_SIZE
    requires ShortPlaced(bl, NP, 8, table, NP)
    ensures forall w :: 0 <= w < 0x10000 ==> 0 <= Shr(w, 8) < |table| && table[Shr(w, 8)] == FixedSymbol(w)
  {
    Pow2Table();
    forall w | 0 <= w < 0x10000
      ensures 0 <= Shr(w, 8) < |table| && table[Shr(w, 8)] == FixedSymbol(w)
    {
      var sym := FixedSymbol(w);
      FixedCovers(w);
      FixedCanonical(bl, sym);
      ShrRange(w, 8, 8);
      LookupShort(bl, NP, 8, table, sym, w);
    }
  }

  // ---------------------------------------------------------------------------
  // Decoding

  /** The `MakeTable` call of `InitRead`: the ready-made lengths form a
      complete code of lengths at most 8, so the table is always built,
      and every window finds its symbol in it. */
  method ReadyTree(pl: seq<nat>) returns (t: Tree)
    requires FixedPrefix(pl)
    ensures |t.table| == POSITION_TABLE_SIZE && |t.left| == 2 * NC - 1 && |t.right| == 2 * NC - 1
    ensures forall w :: 0 <= w < 0x10000 ==> 0 <= Shr(w, 8) < |t.table| && t.table[Shr(w, 8)] == FixedSymbol(w)
  {
    var tree := Tree(seq(POSITION_TABLE_SIZE, _ => 0), seq(2 * NC - 1, _ => 0), seq(2 * NC - 1, _ => 0));
    FixedComplete(pl);
    assert AllShort(pl, NP, 8) && Pow2(8) <= |tree.table| by {
      Pow2Table();
    }
    var built := MakeTable(NP, pl, 8, tree);
    ReadyTable(pl, built.value.table);
    return built.value;
  }

  /** `InitRead`: prime the window, start the adaptive tree, build the
      ready-made position code and its table. It cannot fail. */
  method InitRead(data: seq<byte>, r: Reader) returns (res: Result<(Reader, State)>)
    requires InRange(r)
    ensures res.Ok?
    ensures res.Ok? ==> InRange(res.value.0) && Consumed(res.value.0) == Consumed(r) + 16
    ensures res.Ok? ==> var s := res.value.1;
              && Wf(s) && Sibling(s.arena, 0, 2 * N_MAX - 1) && s.n1 == 512 && s.arena.freq[ROOT_CODE] == N_MAX
              && FixedPrefix(s.positionLength) && PositionReady(s)
  {
    var r' := FillBitBuffer(data, r, 2 * CHAR_BIT);
    var a, n1 := InitCodeDynamic(N_MAX, MAX_MATCH);
    var pl, pc := ReadyMade(seq(NPT, _ => 0), seq(NPT, _ => 0));
    var built := ReadyTree(pl);
    return Ok((r', State(a, n1, pl, pc, built.table, built.left, built.right)));
  }

  /** `DecodeCode`: the adaptive symbol, extended by 8 bits when it is the
      escape symbol `n1`; with `n1 == 512` that never happens. */
  method DecodeCode(data: seq<byte>, r: Reader, s: State) returns (res: Result<(int, Reader, State)>)
    requires InRange(r) && Wf(s)
    ensures res.Ok? ==> InRange(res.value.1) && Wf(res.value.2) && 0 <= res.value.0
    ensures res.Ok? ==> res.value.2 == s.(arena := res.value.2.arena)
    ensures res.Ok? && s.n1 >= TREESIZE / 2 ==> res.value.0 < N_MAX
    ensures Valid(data, r) ==>
              var f := Follow(data, Consumed(r), s.arena.child, s.arena.child[ROOT_CODE], TREESIZE);
              && (res.Ok? ==> f.Ok? && Valid(data, res.value.1))
              && (res.Ok? && s.n1 >= TREESIZE / 2 ==>
                    res.value.0 == Not(f.value.0) && Consumed(res.value.1) == Consumed(r) + f.value.1)
  {
    hide Follow, FillBitBuffer, GetBits, Bits, StreamBit, Shl, Shr, Peek;
    var got :- DecodeSymbol(data, r, s.arena, N_MAX);
    var c, r2, a := got.0, got.1, got.2;
    LeavesKeptBelow(s.arena.child, a.child, N_MAX);
    if c == s.n1 {
      var extra, r3 := GetBits(data, r2, 8).0, GetBits(data, r2, 8).1;
      if Valid(data, r) {
        GetBitsReads(data, r2, 8);
      }
      return Ok((c + extra, r3, s.(arena := a)));
    }
    return Ok((c, r2, s.(arena := a)));
  }

  /** `DecodePosition`: the position symbol from the table, or the overflow
      walk for a table entry at or above `np`; then 6 low bits. */
  function DecodePosition(data: seq<byte>, r: Reader, s: State): (res: Result<(int, Reader)>)
    requires InRange(r) && Wf(s)
    ensures res.Ok? ==> 0 <= res.value.0 < NP * 64 && InRange(res.value.1)
    ensures PositionReady(s) && FixedPrefix(s.positionLength) ==>
              && res.Ok?
              && res.value.0 / 64 == FixedSymbol(r.bitBuffer)
              && Consumed(res.value.1) == Consumed(r) + FixedLength(FixedSymbol(r.bitBuffer)) + 6
  {
    hide FillBitBuffer, GetBits;
    Pow2Values();
    var j := s.positionTable[Peek(r, 8)];
    var sym :-
      if j < NP then
        if j < 0 then Err(IndexOutOfRange) else Ok((j, FillBitBuffer(data, r, s.positionLength[j])))
      else
        var r1 := FillBitBuffer(data, r, 8);
        var k :- Walk(r1, s.left, s.right, j, NP, 8, 16 + |s.left|);
        if k < 0 then Err(IndexOutOfRange)
        else if s.positionLength[k] < 8 then Err(Malformed)
        else Ok((k, FillBitBuffer(data, r1, s.positionLength[k] - 8)));
    var (low, r') := GetBits(data, sym.1, 6);
    DivModOf(64 * sym.0 + low, 64, sym.0, low);
    Ok((64 * sym.0 + low, r'))
  }

  /** With the ready-made table in place, the 6 low bits of an offset are
      the 6 stream bits right after the position symbol's code. */
  lemma PositionLowBits(data: seq<byte>, r: Reader, s: State)
    requires Valid(data, r) && Wf(s) && PositionReady(s) && FixedPrefix(s.positionLength)
    ensures var res := DecodePosition(data, r, s);
            var at := Consumed(r) + FixedLength(FixedSymbol(r.bitBuffer));
            && res.Ok? && at >= 0 && Valid(data, res.value.1)
            && res.value.0 % 64 == Bits(data, at, 6)
  {
    hide Bits, Shl, LowBits, StreamBit, FillBitBuffer, GetBits, FixedSymbol;
    Pow2Values();
    var sym := FixedSymbol(r.bitBuffer);
    assert Peek(r, 8) == Shr(r.bitBuffer, 8);
    assert s.positionTable[Peek(r, 8)] == sym && 0 <= sym < NP by {
      FixedCovers(r.bitBuffer);
    }
    var r1 := FillBitBuffer(data, r, FixedLength(sym));
    FillBitBufferReads(data, r, FixedLength(sym));
    GetBitsReads(data, r1, 6);
    var low := GetBits(data, r1, 6).0;
    assert DecodePosition(data, r, s) == Ok((64 * sym + low, GetBits(data, r1, 6).1));
    DivModOf(64 * sym + low, 64, sym, low);
  }
}
