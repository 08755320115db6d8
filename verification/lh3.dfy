/** The `-lh3-` decoder (Library/Lh3Decoder.cs): static Huffman blocks with
    a 286-symbol literal/length code sent as plain 4-bit lengths, and a
    128-symbol position code that is either sent the same way or the
    ready-made code of `FIXED`. Symbol 285 carries 8 extra bits, giving
    literal/length symbols up to 540. A position is its symbol times 64
    plus 6 extra bits. */
module Lh3 {
  import opened Outcome
  import opened BitStream
  import opened BitReader
  import opened LhTable

  const BUFBITS := 16
  const NP := 8 * 1024 / 64
  const NPT := 0x80
  const NC := 510
  const CBIT := 9
  const CODE_TABLE_SIZE := 4096
  const POSITION_TABLE_SIZE := 256
  const TREE_SIZE := 2 * NC - 1
  const N1 := 286
  const EXTRA_BITS := 8
  const LENGTH_FIELD := 4
  const FIXED: seq<int> := [2, 0x01, 0x01, 0x03, 0x06, 0x0D, 0x1F, 0x4E, 0]

  /** The decoder's arrays; `np` is the constant `NP`. */
  datatype State = State(
    codeLength: seq<nat>,
    codeTable: seq<int>,
    positionLength: seq<nat>,
    positionCode: seq<int>,
    positionTable: seq<int>,
    left: seq<int>,
    right: seq<int>,
    blockSize: int)

  predicate Wf(s: State)
  {
    && |s.codeLength| == NC && |s.codeTable| == CODE_TABLE_SIZE
    && |s.positionLength| == NPT && |s.positionCode| == NPT && |s.positionTable| == POSITION_TABLE_SIZE
    && |s.left| == TREE_SIZE && |s.right| == TREE_SIZE
  }

  function Initial(): (s: State)
    ensures Wf(s) && s.blockSize == 0
  {
    State(seq(NC, _ => 0), seq(CODE_TABLE_SIZE, _ => 0), seq(NPT, _ => 0), seq(NPT, _ => 0),
          seq(POSITION_TABLE_SIZE, _ => 0), seq(TREE_SIZE, _ => 0), seq(TREE_SIZE, _ => 0), 0)
  }

  ghost predicate TablesOk(s: State)
    requires Wf(s)
  {
    && ShortPlaced(s.codeLength, N1, 12, s.codeTable, N1)
    && ShortPlaced(s.positionLength, NP, 8, s.positionTable, NP)
  }

  /** `InitRead`: prime the 16-bit window. */
  function InitRead(data: seq<byte>, r: Reader): (r': Reader)
    requires InRange(r)
    ensures InRange(r') && Consumed(r') == Consumed(r) + 2 * CHAR_BIT
  {
    FillBitBuffer(data, r, 2 * CHAR_BIT)
  }

  // ---------------------------------------------------------------------------
  // The ready-made position code

  /** The length `ReadyMade` gives position symbol `i`: `FIXED` lists, after
      the first length 2, the symbols at which the length grows by one. */
  function FixedLength(i: int): nat
  {
    if i < 1 then 2 else if i < 3 then 4 else if i < 6 then 5 else if i < 13 then 6
    else if i < 31 then 7 else if i < 78 then 8 else 9
  }

  /** The first and one-past-last symbol of each length of the ready-made code. */
  function Lo(l: nat): nat
  {
    if l == 2 then 0 else if l == 4 then 1 else if l == 5 then 3 else if l == 6 then 6
    else if l == 7 then 13 else if l == 8 then 31 else if l == 9 then 78 else 0
  }

  function Hi(l: nat): nat
  {
    if l == 2 then 1 else if l == 4 then 3 else if l == 5 then 6 else if l == 6 then 13
    else if l == 7 then 31 else if l == 8 then 78 else if l == 9 then 128 else 0
  }

  /** The first code of each length of the ready-made code, 16 bits wide. */
  function FixedBase(l: nat): int
  {
    if l <= 2 then 0 else if l <= 4 then 0x4000 else if l == 5 then 0x6000 else if l == 6 then 0x7800
    else if l == 7 then 0x9400 else if l == 8 then 0xB800 else if l == 9 then 0xE700 else 0x10000
  }

  /** The code `ReadyMade` gives symbol `i`. */
  function FixedCode(i: int): int
  {
    var l := FixedLength(i);
    if i >= NP then 0x10000 else FixedBase(l) + (i - Lo(l)) * Pow2(16 - l)
  }

  function FixedLengths(): (bl: seq<nat>)
    ensures |bl| == NP
    ensures forall i :: 0 <= i < NP ==> bl[i] == FixedLength(i)
  {
    seq(NP, i => FixedLength(i))
  }

  lemma Pow2Table()
    ensures Pow2(7) == 0x80 && Pow2(8) == 0x100 && Pow2(9) == 0x200 && Pow2(10) == 0x400
    ensures Pow2(11) == 0x800 && Pow2(12) == 0x1000 && Pow2(13) == 0x2000 && Pow2(14) == 0x4000
    ensures Pow2(15) == 0x8000 && Pow2(16) == 0x10000
  {
    Pow2Values();
    assert Pow2(7) == 2 * Pow2(6);
    assert Pow2(9) == 2 * Pow2(8);
    assert Pow2(10) == 2 * Pow2(9);
    assert Pow2(11) == 2 * Pow2(10);
    assert Pow2(13) == 2 * Pow2(12);
    assert Pow2(14) == 2 * Pow2(13);
    assert Pow2(15) == 2 * Pow2(14);
  }

  /** Consecutive ready-made codes are one code-space step apart, and the
      last one ends the 16-bit space. */
  lemma FixedCodeStep(i: int)
    requires 0 <= i < NP
    ensures FixedCode(i + 1) == FixedCode(i) + Pow2(16 - FixedLength(i))
  {
    Pow2Table();
    hide Pow2;
    var l := FixedLength(i);
    var p := Pow2(16 - l);
    if i + 1 < Hi(l) {
      // inside a run of one length
      assert FixedLength(i + 1) == l;
      assert (i + 1 - Lo(l)) * p == (i - Lo(l)) * p + p;
    } else if i < 1 {
    } else if i < 3 {
      assert i == 2;
    } else if i < 6 {
      assert i == 5;
    } else if i < 13 {
      assert i == 12;
    } else if i < 31 {
      assert i == 30;
    } else if i < 78 {
      assert i == 77;
    } else {
      assert i == 127;
    }
  }

  /** `ReadyMade`: lengths and codes of the ready-made position code. */
  method ReadyMade(s: State) returns (s': State)
    requires Wf(s)
    ensures Wf(s') && s' == s.(positionLength := s'.positionLength, positionCode := s'.positionCode)
    ensures forall i :: 0 <= i < NP ==> s'.positionLength[i] == FixedLength(i) && s'.positionCode[i] == FixedCode(i)
  {
    Pow2Table();
    var pl, pc := s.positionLength, s.positionCode;
    var index := 0;
    var j := FIXED[index];
    index := index + 1;
    var weight := Pow2(16 - j);
    var code := 0;
    var i := 0;
    while i < NP
      invariant 0 <= i <= NP && |pl| == NPT && |pc| == NPT
      invariant j == index + 1 && FixedLength(i - 1) == j && 1 <= index <= 8 && weight == Pow2(16 - j)
      invariant code == FixedCode(i)
      invariant forall k :: 0 <= k < i ==> pl[k] == FixedLength(k) && pc[k] == FixedCode(k)
    {
      while FIXED[index] == i
        invariant FixedLength(i - 1) <= j <= FixedLength(i) && j == index + 1 && 1 <= index <= 8
        invariant weight == Pow2(16 - j)
        decreases 8 - index
      {
        j := j + 1;
        index := index + 1;
        weight := weight / 2;
      }
      assert j == FixedLength(i);
      pl := pl[i := j];
      pc := pc[i := code];
      FixedCodeStep(i);
      code := code + weight;
      i := i + 1;
    }
    s' := s.(positionLength := pl, positionCode := pc);
  }

  lemma {:induction false} CountFixed(n: nat, l: nat)
    requires n <= NP
    ensures Count(FixedLengths(), n, l) == if n <= Lo(l) then 0 else if n <= Hi(l) then n - Lo(l) else Hi(l) - Lo(l)
  {
    if n > 0 {
      CountFixed(n - 1, l);
    }
  }

  lemma {:induction false} BaseFixed(l: nat)
    requires 1 <= l <= 17
    ensures Base(FixedLengths(), NP, l, 16) == FixedBase(l)
  {
    hide Base, Count, Pow2, FixedLengths;
    Pow2Table();
    if l == 1 {
      BaseFirst(FixedLengths(), NP, 16);
    }
    if l > 1 {
      BaseFixed(l - 1);
      CountFixed(NP, l - 1);
      BaseSucc(FixedLengths(), NP, l - 1, 16);
      var c := Count(FixedLengths(), NP, l - 1);
      var w := Pow2(16 - (l - 1));
      if l - 1 == 2 {
        assert c * w == 0x4000;
      } else if l - 1 == 4 {
        assert c * w == 0x2000;
      } else if l - 1 == 5 {
        assert c * w == 0x1800;
      } else if l - 1 == 6 {
        assert c * w == 0x1C00;
      } else if l - 1 == 7 {
        assert c * w == 0x2400;
      } else if l - 1 == 8 {
        assert c * w == 0x2F00;
      } else if l - 1 == 9 {
        assert c * w == 0x1900;
      } else {
        assert c == 0;
      }
    }
  }

  /** The ready-made code is complete: it passes `MakeTable`'s check. */
  lemma FixedComplete()
    ensures Total(FixedLengths(), NP) == 0x10000
  {
    hide Base, Count, Pow2, FixedLengths;
    BaseFixed(17);
  }

  /** The ready-made position code descends one level for each of its 50
      length-9 codes. */
  lemma {:induction false} FixedBudget(bl: seq<nat>, j: nat)
    requires j <= NP <= |bl| && forall i :: 0 <= i < NP ==> bl[i] == FixedLength(i)
    ensures Budget(bl, 8, j) == if j <= Lo(9) then 0 else j - Lo(9)
  {
    if j > 0 {
      FixedBudget(bl, j - 1);
    }
  }

  /** The ready-made position code is complete and fits below the code tree. */
  lemma ReadyFits(s: State)
    requires Wf(s) && forall i :: 0 <= i < NP ==> s.positionLength[i] == FixedLength(i)
    ensures PositionFits(s.positionLength)
  {
    hide Base, Count, Pow2, FixedLengths;
    FixedComplete();
    BaseSame(s.positionLength, FixedLengths(), NP, MAX_LENGTH + 1, MAX_LENGTH);
    FixedBudget(s.positionLength, NP);
  }

  /** `ReadyMade`'s codes are the canonical codes of its lengths, the ones
      `MakeTable` places. */
  lemma FixedCanonical(i: nat)
    requires i < NP
    ensures FixedCode(i) == CodeStart(FixedLengths(), NP, i, 16)
  {
    hide Base, Count, Pow2, FixedLengths;
    var l := FixedLength(i);
    BaseFixed(l);
    CountFixed(i, l);
  }

  // ---------------------------------------------------------------------------
  // Reading the code lengths of a block

  /** One literal/length length field: a 0 bit for "unused", or a 1 bit and
      4 bits holding the length minus one. */
  function CodeField(data: seq<byte>, r: Reader): (res: (nat, Reader))
    requires InRange(r)
    ensures InRange(res.1) && res.0 <= 16
  {
    Pow2Values();
    var (flag, r1) := GetBits(data, r, 1);
    if flag != 0 then var (x, r2) := GetBits(data, r1, LENGTH_FIELD); (x + 1, r2) else (0, r1)
  }

  /** One position length field: 4 bits. */
  function PositionField(data: seq<byte>, r: Reader): (res: (nat, Reader))
    requires InRange(r)
    ensures InRange(res.1) && res.0 < 16
  {
    Pow2Values();
    GetBits(data, r, LENGTH_FIELD)
  }

  /** The first `n` fields of a table, and the reader after them. */
  function Lead(data: seq<byte>, r: Reader, n: nat, code: bool): (res: (seq<nat>, Reader))
    requires InRange(r)
    ensures |res.0| == n && InRange(res.1)
  {
    if n == 0 then ([], r)
    else
      var (f, r1) := Lead(data, r, n - 1, code);
      var (x, r2) := if code then CodeField(data, r1) else PositionField(data, r1);
      (f + [x], r2)
  }

  /** The first `m` of `n` fields are the first `m` fields. */
  lemma {:induction false} LeadPrefix(data: seq<byte>, r: Reader, m: nat, n: nat, code: bool)
    requires InRange(r) && m <= n
    ensures Lead(data, r, n, code).0[..m] == Lead(data, r, m, code).0
    decreases n
  {
    hide CodeField, PositionField;
    if m < n {
      LeadPrefix(data, r, m, n - 1, code);
      assert Lead(data, r, n, code).0[..n - 1] == Lead(data, r, n - 1, code).0;
    }
  }

  /** One length field read at stream bit `k`, and the bit after it. */
  function FieldAt(data: seq<byte>, k: nat, code: bool): (int, nat)
  {
    if !code then (Bits(data, k, LENGTH_FIELD), k + LENGTH_FIELD)
    else if StreamBit(data, k) == 1 then (Bits(data, k + 1, LENGTH_FIELD) + 1, k + 1 + LENGTH_FIELD)
    else (0, k + 1)
  }

  /** The first `n` length fields read at stream bit `k`, and the bit after them. */
  function FieldsAt(data: seq<byte>, k: nat, n: nat, code: bool): (seq<int>, nat)
  {
    if n == 0 then ([], k)
    else
      var (f, k1) := FieldsAt(data, k, n - 1, code);
      var (x, k2) := FieldAt(data, k1, code);
      (f + [x], k2)
  }

  /** A one-bit read is the stream bit. */
  lemma BitsOne(data: seq<byte>, k: nat)
    ensures Bits(data, k, 1) == StreamBit(data, k)
  {
    assert Bits(data, k, 0) == 0;
  }

  /** One field read through the bit reader is the field on the stream. */
  lemma FieldReads(data: seq<byte>, r: Reader, code: bool)
    requires Valid(data, r)
    ensures var (x, r') := if code then CodeField(data, r) else PositionField(data, r);
            && Valid(data, r') && Consumed(r) >= 0
            && FieldAt(data, Consumed(r), code) == (x, Consumed(r'))
  {
    hide Bits, StreamBit, FillBitBuffer, Pow2, Peek;
    Pow2Values();
    GetBitsReads(data, r, 1);
    GetBitsReads(data, r, LENGTH_FIELD);
    var r1 := GetBits(data, r, 1).1;
    GetBitsReads(data, r1, LENGTH_FIELD);
    BitsOne(data, Consumed(r));
  }

  /** Reading fields through the bit reader reads them off the stream. */
  lemma {:induction false} LeadReads(data: seq<byte>, r: Reader, n: nat, code: bool)
    requires Valid(data, r)
    ensures Valid(data, Lead(data, r, n, code).1)
    ensures Consumed(r) >= 0
    ensures var (f, r') := Lead(data, r, n, code);
            FieldsAt(data, Consumed(r), n, code) == (f, Consumed(r'))
  {
    hide Bits, StreamBit, GetBits, FillBitBuffer, Pow2, CodeField, PositionField, FieldAt;
    if n > 0 {
      LeadReads(data, r, n - 1, code);
      FieldReads(data, Lead(data, r, n - 1, code).1, code);
    }
  }

  /** `ReadTreeCode`: 286 length fields and the code table. If the first
      three lengths are 1 the block has one literal/length symbol instead,
      sent in 9 bits, and every table entry holds it. */
  method ReadTreeCode(data: seq<byte>, r: Reader, s: State) returns (res: Result<(Reader, State)>)
    requires InRange(r) && Wf(s)
    ensures res.Ok? ==> InRange(res.value.0) && Wf(res.value.1)
    ensures res.Ok? ==> res.value.1.(codeLength := s.codeLength, codeTable := s.codeTable,
                                     left := s.left, right := s.right) == s
    ensures res.Ok? ==> ShortPlaced(res.value.1.codeLength, N1, 12, res.value.1.codeTable, N1)
    ensures res.Ok? ==> res.value.1.codeLength[N1..] == s.codeLength[N1..]
    ensures var (lead, r3) := Lead(data, r, 3, true);
            lead == [1, 1, 1] ==>
              var c := Peek(r3, CBIT);
              && res.Ok?
              && res.value.0 == FillBitBuffer(data, r3, CBIT)
              && (forall i :: 0 <= i < N1 ==> res.value.1.codeLength[i] == 0)
              && (forall i :: 0 <= i < CODE_TABLE_SIZE ==> res.value.1.codeTable[i] == c)
    ensures res.Ok? && Lead(data, r, 3, true).0 != [1, 1, 1] ==>
              && res.value.1.codeLength[..N1] == Lead(data, r, N1, true).0
              && res.value.0 == Lead(data, r, N1, true).1
    ensures res.Ok? ==> LongLinked(res.value.1.codeLength, N1, 12, CodeTree(res.value.1))
  {
    hide CodeField, Pow2, Shl, Shr, LowBits, LongLinked;
    var rr := r;
    var cl: seq<nat> := s.codeLength;
    var i := 0;
    while i < N1
      invariant 0 <= i <= N1 && |cl| == NC && InRange(rr)
      invariant (cl[..i], rr) == Lead(data, r, i, true)
      invariant cl[N1..] == s.codeLength[N1..]
      invariant i >= 3 ==> cl[..3] == Lead(data, r, 3, true).0 && cl[..3] != [1, 1, 1]
    {
      var (x, r1) := CodeField(data, rr);
      rr := r1;
      assert cl[i := x][..i + 1] == cl[..i] + [x];
      cl := cl[i := x];
      i := i + 1;
      if i == 3 {
        LeadPrefix(data, r, 3, i, true);
      }
      if i == 3 && cl[0] == 1 && cl[1] == 1 && cl[2] == 1 {
        assert cl[..3] == [1, 1, 1];
        var (c, r2) := GetBits(data, rr, CBIT);
        var s' := s.(codeLength := seq(N1, _ => 0) + cl[N1..], codeTable := seq(CODE_TABLE_SIZE, _ => c));
        ShortLinked(s'.codeLength, N1, 12, CodeTree(s'));
        return Ok((r2, s'));
      }
    }
    var built :- BuildCode(cl, s);
    return Ok((rr, s.(codeLength := cl, codeTable := built.table, left := built.left, right := built.right)));
  }

  /** The literal/length decode table and overflow tree for lengths `cl`,
      built over the arrays of `s`. */
  method BuildCode(cl: seq<nat>, s: State) returns (res: Result<Tree>)
    requires |cl| == NC && Wf(s)
    ensures res.Ok? ==> |res.value.table| == CODE_TABLE_SIZE && |res.value.left| == TREE_SIZE && |res.value.right| == TREE_SIZE
    ensures res.Ok? ==> ShortPlaced(cl, N1, 12, res.value.table, N1)
    ensures res.Ok? ==> LongLinked(cl, N1, 12, res.value)
  {
    hide LeadsTo, ZeroRegion, Count, CodeStart, Pow2, Shl, Shr, KeptFrom, Total;
    res := MakeTable(N1, cl, 12, CodeTree(s));
  }

  /** `ReadTreePosition`: 128 position length fields. If the first three
      are 1 the block has one position symbol instead, sent in 7 bits, and
      every position table entry holds it. */
  method ReadTreePosition(data: seq<byte>, r: Reader, s: State) returns (r': Reader, s': State)
    requires InRange(r) && Wf(s)
    ensures InRange(r') && Wf(s')
    ensures s' == s.(positionLength := s'.positionLength, positionTable := s'.positionTable)
    ensures forall i :: 0 <= i < NP ==> s'.positionLength[i] < 16
    ensures var (lead, r3) := Lead(data, r, 3, false);
            lead == [1, 1, 1] ==>
              && r' == FillBitBuffer(data, r3, 7)
              && AllZero(s'.positionLength, NP)
              && (forall i :: 0 <= i < POSITION_TABLE_SIZE ==> s'.positionTable[i] == Peek(r3, 7))
    ensures Lead(data, r, 3, false).0 != [1, 1, 1] ==>
              && s'.positionLength == Lead(data, r, NP, false).0
              && r' == Lead(data, r, NP, false).1
              && s'.positionTable == s.positionTable
  {
    hide PositionField, Pow2, Shl, Shr, LowBits;
    r' := r;
    var pl: seq<nat> := s.positionLength;
    var i := 0;
    while i < NP
      invariant 0 <= i <= NP && |pl| == NPT && InRange(r')
      invariant (pl[..i], r') == Lead(data, r, i, false)
      invariant i >= 3 ==> pl[..3] == Lead(data, r, 3, false).0 && pl[..3] != [1, 1, 1]
      invariant forall k :: 0 <= k < i ==> pl[k] < 16
    {
      var (x, r1) := PositionField(data, r');
      r' := r1;
      assert pl[i := x][..i + 1] == pl[..i] + [x];
      pl := pl[i := x];
      i := i + 1;
      if i == 3 {
        LeadPrefix(data, r, 3, i, false);
      }
      if i == 3 && pl[0] == 1 && pl[1] == 1 && pl[2] == 1 {
        assert pl[..3] == [1, 1, 1];
        var (c, r2) := GetBits(data, r', NP_BIT);
        r' := r2;
        s' := s.(positionLength := seq(NP, _ => 0), positionTable := seq(POSITION_TABLE_SIZE, _ => c));
        return;
      }
    }
    assert pl == pl[..NP];
    s' := s.(positionLength := pl);
  }

  const NP_BIT := 13 - 6

  /** Building the position tree over the shared node arrays leaves the
      code tree's links, when the position code fits below node `N1`. */
  lemma CodeKept(st: State, built: Tree)
    requires Wf(st) && |built.left| == |st.left| && |built.right| == |st.right|
    requires LongLinked(st.codeLength, N1, 12, CodeTree(st))
    requires AllShort(st.positionLength, NP, 8) ==> built.left == st.left && built.right == st.right
    requires Base(st.positionLength, NP, 9, 8) != 0 && RootsInTable(st.positionLength, NP, 8, Clamp(Pow2(8)), NP) ==>
               KeptFrom(PositionTree(st), built, NP + Budget(st.positionLength, 8, NP))
    requires PositionFits(st.positionLength)
    ensures LongLinked(st.codeLength, N1, 12, Tree(st.codeTable, built.left, built.right))
  {
    hide LongLinked, Base, Count, RootsInTable, Total, Budget, CodeStart;
    if !AllShort(st.positionLength, NP, 8) {
      Pow2Values();
      CompleteLinks(st.positionLength, NP, 8);
      LinkedKept(st.codeLength, N1, 12, CodeTree(st), Tree(st.codeTable, built.left, built.right),
                 NP + Budget(st.positionLength, 8, NP));
    }
  }

  /** `make_table` for the position code, over the node arrays the code
      tree shares. */
  method BuildPosition(s: State) returns (res: Result<State>)
    requires Wf(s)
    ensures res.Ok? ==> Wf(res.value) && res.value == s.(positionTable := res.value.positionTable,
                                                        left := res.value.left, right := res.value.right)
    ensures res.Ok? ==> ShortPlaced(s.positionLength, NP, 8, res.value.positionTable, NP)
    ensures res.Ok? ==> LongLinked(s.positionLength, NP, 8, PositionTree(res.value))
    ensures res.Ok? && PositionFits(s.positionLength) && LongLinked(s.codeLength, N1, 12, CodeTree(s)) ==>
              LongLinked(s.codeLength, N1, 12, CodeTree(res.value))
  {
    hide LeadsTo, ZeroRegion, Count, CodeStart, Pow2, Shl, Shr, PositionFits, KeptFrom, Total;
    var built :- MakeTable(NP, s.positionLength, 8, PositionTree(s));
    if PositionFits(s.positionLength) && LongLinked(s.codeLength, N1, 12, CodeTree(s)) {
      CodeKept(s, built);
    }
    return Ok(s.(positionTable := built.table, left := built.left, right := built.right));
  }

  /** The block header: size, literal/length table, a bit choosing a sent or
      the ready-made position code, and the position decode table. */
  method ReadBlockHeader(data: seq<byte>, r: Reader, s: State) returns (res: Result<(Reader, State)>)
    requires InRange(r) && Wf(s)
    ensures res.Ok? ==> InRange(res.value.0) && Wf(res.value.1) && TablesOk(res.value.1)
    ensures res.Ok? ==> res.value.1.blockSize == Peek(r, BUFBITS)
    ensures res.Ok? ==> res.value.0 == HeaderEnd(data, r)
    ensures res.Ok? ==> LongLinked(res.value.1.positionLength, NP, 8, PositionTree(res.value.1))
    ensures res.Ok? && PositionFits(res.value.1.positionLength) ==> LongLinked(res.value.1.codeLength, N1, 12, CodeTree(res.value.1))
    ensures res.Ok? ==>
              var r1 := FillBitBuffer(data, r, BUFBITS);
              var (lead, r3) := Lead(data, r1, 3, true);
              var r2 := if lead == [1, 1, 1] then FillBitBuffer(data, r3, CBIT) else Lead(data, r1, N1, true).1;
              var (sent, r4) := GetBits(data, r2, 1);
              var (plead, r5) := Lead(data, r4, 3, false);
              var st := res.value.1;
              && (lead == [1, 1, 1] ==> AllZero(st.codeLength, N1))
              && (lead != [1, 1, 1] ==> st.codeLength[..N1] == Lead(data, r1, N1, true).0)
              && st.codeLength[N1..] == s.codeLength[N1..]
              && (sent == 0 ==> res.value.0 == r4 && forall i :: 0 <= i < NP ==> st.positionLength[i] == FixedLength(i))
              && (sent != 0 && plead == [1, 1, 1] ==> res.value.0 == FillBitBuffer(data, r5, NP_BIT) && AllZero(st.positionLength, NP))
              && (sent != 0 && plead != [1, 1, 1] ==>
                    res.value.0 == Lead(data, r4, NP, false).1 && st.positionLength == Lead(data, r4, NP, false).0)
  {
    hide LeadsTo, RootsInTable, ZeroRegion, Base, Count, CodeStart, Pow2, Shl, Shr, Lead;
    hide LongLinked, PositionFits, KeptFrom, AllShort, Budget, Total;
    var (size, r1) := GetBits(data, r, BUFBITS);
    var st := s.(blockSize := size);
    var step :- ReadTreeCode(data, r1, st);
    var rr := step.0;
    st := step.1;
    var (sent, r2) := GetBits(data, rr, 1);
    rr := r2;
    if sent != 0 {
      rr, st := ReadTreePosition(data, rr, st);
    } else {
      st := ReadyMade(st);
    }
    assert st.codeLength == step.1.codeLength && CodeTree(st) == CodeTree(step.1);
    ghost var read := st;
    st :- BuildPosition(st);
    return Ok((rr, st));
  }

  /** The window opens with the code of short literal/length symbol `sym`. */
  ghost predicate ShortCodeAt(s: State, sym: int, window: int)
    requires Wf(s)
  {
    && 0 <= sym < N1 && 1 <= s.codeLength[sym] <= 12
    && CodeStart(s.codeLength, N1, sym, MAX_LENGTH) <= window
    && window < CodeStart(s.codeLength, N1, sym, MAX_LENGTH) + Pow2(MAX_LENGTH - s.codeLength[sym])
  }

  /** The literal/length decode table and the overflow tree. */
  function CodeTree(s: State): Tree
  {
    Tree(s.codeTable, s.left, s.right)
  }

  function PositionTree(s: State): Tree
  {
    Tree(s.positionTable, s.left, s.right)
  }

  /** The position code allocates its overflow nodes below the code tree's
      first node `N1`: it has no long codes, or it is complete and its
      walks descend at most `N1 - NP` levels in all. */
  predicate PositionFits(pl: seq<nat>)
    requires NP <= |pl|
  {
    || AllShort(pl, NP, 8)
    || (Total(pl, NP) == 0x10000 && NP + Budget(pl, 8, NP) <= N1)
  }

  /** Symbol 285 stands for 285 plus the next 8 stream bits, every other
      symbol for itself; `r` is the reader past the symbol's code. */
  function Extra(data: seq<byte>, sym: int, r: Reader): (e: (int, Reader))
    requires InRange(r)
    ensures 0 <= sym < N1 ==> sym <= e.0 < N1 + 255 && InRange(e.1)
  {
    if sym == N1 - 1 then (sym + Peek(r, EXTRA_BITS), FillBitBuffer(data, r, EXTRA_BITS)) else (sym, r)
  }

  /** `res` is what the window of `r` decodes to under the lengths `bl` and
      the tables `tr`: the symbol whose code opens the window, by its direct
      entry when the code is short, by the overflow walk when it is long.
      The long case needs the stream behind the reader, a complete code,
      and the tree `MakeTable` linked. */
  ghost predicate Decodes(data: seq<byte>, r: Reader, bl: seq<nat>, tr: Tree, res: Result<(int, Reader)>)
    requires InRange(r) && N1 <= |bl|
  {
    && (ShortPlaced(bl, N1, 12, tr.table, N1) ==>
          forall sym :: CodeAt(bl, N1, sym, r.bitBuffer) && bl[sym] <= 12 ==>
            res == Ok(Extra(data, sym, FillBitBuffer(data, r, bl[sym]))))
    && (Valid(data, r) && Total(bl, N1) == 0x10000 && LongLinked(bl, N1, 12, tr) ==>
          forall sym :: CodeAt(bl, N1, sym, r.bitBuffer) && 12 < bl[sym] ==>
            res == Ok(Extra(data, sym, FillBitBuffer(data, FillBitBuffer(data, r, 12), bl[sym] - 12))))
  }

  /** Under its tables, the direct entry the top 12 window bits select is
      the symbol whose short code opens the window. */
  lemma ShortEntries(r: Reader, s: State)
    requires InRange(r) && Wf(s)
    ensures ShortPlaced(s.codeLength, N1, 12, s.codeTable, N1) ==>
              forall sym :: CodeAt(s.codeLength, N1, sym, r.bitBuffer) && s.codeLength[sym] <= 12 ==>
                s.codeTable[Peek(r, 12)] == sym
  {
    hide CodeStart, Base, Count, Shl;
    Pow2Values();
    forall sym | ShortPlaced(s.codeLength, N1, 12, s.codeTable, N1) && CodeAt(s.codeLength, N1, sym, r.bitBuffer) && s.codeLength[sym] <= 12
      ensures s.codeTable[Peek(r, 12)] == sym
    {
      LookupShort(s.codeLength, N1, 12, s.codeTable, sym, r.bitBuffer);
    }
  }

  /** For a complete code whose tree is linked, the direct entry the top
      12 window bits select is a node, and the overflow walk from it
      returns the symbol whose long code opens the window. */
  lemma LongEntries(data: seq<byte>, r: Reader, s: State)
    requires InRange(r) && Wf(s)
    ensures Valid(data, r) && Total(s.codeLength, N1) == 0x10000 && LongLinked(s.codeLength, N1, 12, CodeTree(s)) ==>
              forall sym :: CodeAt(s.codeLength, N1, sym, r.bitBuffer) && 12 < s.codeLength[sym] ==>
                && 0 <= Peek(r, 12) < |s.codeTable| && s.codeTable[Peek(r, 12)] >= N1
                && Walk(FillBitBuffer(data, r, 12), s.left, s.right, s.codeTable[Peek(r, 12)], N1, 0, 16 + |s.left|) == Ok(sym)
  {
    hide FillBitBuffer, LongLeads, LeadsTo, Walk, CodeStart, Base, Count, Shr, Shl, Valid, Total, RootsInTable;
    Pow2Values();
    forall sym | (&& Valid(data, r) && Total(s.codeLength, N1) == 0x10000 && LongLinked(s.codeLength, N1, 12, CodeTree(s))
                  && CodeAt(s.codeLength, N1, sym, r.bitBuffer) && 12 < s.codeLength[sym])
      ensures 0 <= Peek(r, 12) < |s.codeTable| && s.codeTable[Peek(r, 12)] >= N1
      ensures Walk(FillBitBuffer(data, r, 12), s.left, s.right, s.codeTable[Peek(r, 12)], N1, 0, 16 + |s.left|) == Ok(sym)
    {
      CompleteLinks(s.codeLength, N1, 12);
      DecodeLong(data, s.codeLength, N1, 12, CodeTree(s), sym, r, 16 + |s.left|);
    }
  }

  /** One literal/length symbol of an open block: the direct entry the top
      12 window bits select, or the overflow walk from window bit 0 once
      they are consumed; symbol 285 adds 8 extra bits. */
  function CodeSymbol(data: seq<byte>, r: Reader, s: State): (res: Result<(int, Reader)>)
    requires InRange(r) && Wf(s)
    ensures res.Ok? ==> 0 <= res.value.0 < N1 + 255 && InRange(res.value.1)
  {
    hide FillBitBuffer, Walk, CodeStart, Base, Count, Shr, Shl, Peek;
    var j := s.codeTable[Peek(r, 12)];
    if j < N1 then
      if j < 0 then Err(IndexOutOfRange) else Ok(Extra(data, j, FillBitBuffer(data, r, s.codeLength[j])))
    else
      var r1 := FillBitBuffer(data, r, 12);
      var k :- Walk(r1, s.left, s.right, j, N1, 0, 16 + |s.left|);
      if k < 0 then Err(IndexOutOfRange)
      else if s.codeLength[k] < 12 then Err(Malformed)
      else Ok(Extra(data, k, FillBitBuffer(data, r1, s.codeLength[k] - 12)))
  }

  /** The symbol read is the one whose code the stream holds, short or long. */
  lemma CodeSymbolDecodes(data: seq<byte>, r: Reader, s: State)
    requires InRange(r) && Wf(s)
    ensures Decodes(data, r, s.codeLength, CodeTree(s), CodeSymbol(data, r, s))
  {
    hide FillBitBuffer, LongLinked, LeadsTo, Walk, CodeStart, Base, Count, Shr, Shl, Valid, Total, ShortPlaced, Extra, Peek;
    ShortEntries(r, s);
    LongEntries(data, r, s);
  }

  /** Where the code-length part of a block header ends, read from the reader after the block size. */
  function CodeEnd(data: seq<byte>, r1: Reader): (r': Reader)
    requires InRange(r1)
    ensures InRange(r')
  {
    var (lead, r3) := Lead(data, r1, 3, true);
    if lead == [1, 1, 1] then FillBitBuffer(data, r3, CBIT) else Lead(data, r1, N1, true).1
  }

  /** Where the sent position lengths end, read from the reader after the flag bit. */
  function PositionEnd(data: seq<byte>, r4: Reader): (r': Reader)
    requires InRange(r4)
    ensures InRange(r')
  {
    var (plead, r5) := Lead(data, r4, 3, false);
    if plead == [1, 1, 1] then FillBitBuffer(data, r5, NP_BIT) else Lead(data, r4, NP, false).1
  }

  /** The reader after a block header read from `r`, as `ReadBlockHeader` leaves it. */
  function HeaderEnd(data: seq<byte>, r: Reader): (r': Reader)
    requires InRange(r)
    ensures InRange(r')
  {
    var (sent, r4) := GetBits(data, CodeEnd(data, FillBitBuffer(data, r, BUFBITS)), 1);
    if sent == 0 then r4 else PositionEnd(data, r4)
  }

  lemma CodeEndReads(data: seq<byte>, r1: Reader)
    requires Valid(data, r1)
    ensures Valid(data, CodeEnd(data, r1))
  {
    hide FillBitBuffer, Lead, CodeField, Bits, StreamBit, Shl, Shr, Pow2;
    LeadReads(data, r1, 3, true);
    LeadReads(data, r1, N1, true);
    FillBitBufferReads(data, Lead(data, r1, 3, true).1, CBIT);
  }

  lemma PositionEndReads(data: seq<byte>, r4: Reader)
    requires Valid(data, r4)
    ensures Valid(data, PositionEnd(data, r4))
  {
    hide FillBitBuffer, Lead, PositionField, Bits, StreamBit, Shl, Shr, Pow2;
    LeadReads(data, r4, 3, false);
    LeadReads(data, r4, NP, false);
    FillBitBufferReads(data, Lead(data, r4, 3, false).1, NP_BIT);
  }

  /** A block header read from a reader that follows the stream leaves one that still does. */
  lemma HeaderEndReads(data: seq<byte>, r: Reader)
    requires Valid(data, r)
    ensures Valid(data, HeaderEnd(data, r))
  {
    hide CodeEnd, PositionEnd, GetBits, FillBitBuffer, Bits, StreamBit, Shl, Shr, Pow2;
    FillBitBufferReads(data, r, BUFBITS);
    var r2 := CodeEnd(data, FillBitBuffer(data, r, BUFBITS));
    CodeEndReads(data, FillBitBuffer(data, r, BUFBITS));
    GetBitsReads(data, r2, 1);
    PositionEndReads(data, GetBits(data, r2, 1).1);
  }

  /** `DecodeCode`: a new block header when the last block is used up, then
      one literal/length symbol; symbol 285 adds 8 extra bits. */
  method DecodeCode(data: seq<byte>, r: Reader, s: State) returns (res: Result<(int, Reader, State)>)
    requires InRange(r) && Wf(s)
    ensures res.Ok? ==> 0 <= res.value.0 < N1 + 255 && InRange(res.value.1) && Wf(res.value.2)
    ensures res.Ok? && s.blockSize != 0 ==> res.value.2 == s.(blockSize := s.blockSize - 1)
    ensures res.Ok? && s.blockSize == 0 ==> res.value.2.blockSize == Peek(r, BUFBITS) - 1 && TablesOk(res.value.2)
    ensures s.blockSize != 0 && TablesOk(s) ==>
              forall sym :: ShortCodeAt(s, sym, r.bitBuffer) ==>
                var r1 := FillBitBuffer(data, r, s.codeLength[sym]);
                var s' := s.(blockSize := s.blockSize - 1);
                res == Ok(if sym == N1 - 1 then (sym + Peek(r1, EXTRA_BITS), FillBitBuffer(data, r1, EXTRA_BITS), s')
                          else (sym, r1, s'))
    ensures s.blockSize != 0 && Valid(data, r) && Total(s.codeLength, N1) == 0x10000 && LongLinked(s.codeLength, N1, 12, CodeTree(s)) ==>
              forall sym :: CodeAt(s.codeLength, N1, sym, r.bitBuffer) && 12 < s.codeLength[sym] ==>
                var (x, r') := Extra(data, sym, FillBitBuffer(data, FillBitBuffer(data, r, 12), s.codeLength[sym] - 12));
                res == Ok((x, r', s.(blockSize := s.blockSize - 1)))
    ensures res.Ok? && s.blockSize == 0 ==>
              Decodes(data, HeaderEnd(data, r), res.value.2.codeLength, CodeTree(res.value.2), Ok((res.value.0, res.value.1)))
    ensures res.Ok? && s.blockSize == 0 && PositionFits(res.value.2.positionLength) ==>
              LongLinked(res.value.2.codeLength, N1, 12, CodeTree(res.value.2))
  {
    hide FillBitBuffer, HeaderEnd, CodeStart, Base, Count, Shr, Shl;
    var st := s;
    var rr := r;
    if st.blockSize == 0 {
      var header :- ReadBlockHeader(data, rr, st);
      rr, st := header.0, header.1;
    }
    CodeSymbolDecodes(data, rr, st);
    var got :- CodeSymbol(data, rr, st);
    st := st.(blockSize := st.blockSize - 1);
    return Ok((got.0, got.1, st));
  }

  /** The position table entry the top 8 window bits select. */
  function PositionEntry(r: Reader, s: State): int
    requires InRange(r) && Wf(s)
  {
    Pow2Values();
    s.positionTable[Peek(r, 8)]
  }

  /** The position symbol: a direct entry of the position table, or an
      overflow walk over the window refreshed past the 8 table bits. The
      walk tests bit `0x80` of that window, bit 8 from the top, and shifts
      left after each step. Short codes are read straight from the table. */
  function PositionSymbol(data: seq<byte>, r: Reader, s: State): (res: Result<(int, Reader)>)
    requires InRange(r) && Wf(s)
    ensures res.Ok? ==> 0 <= res.value.0 < NP && InRange(res.value.1)
    ensures TablesOk(s) ==>
              forall sym :: (&& 0 <= sym < NP && 1 <= s.positionLength[sym] <= 8
                             && CodeStart(s.positionLength, NP, sym, MAX_LENGTH) <= r.bitBuffer
                             && r.bitBuffer < CodeStart(s.positionLength, NP, sym, MAX_LENGTH) + Pow2(MAX_LENGTH - s.positionLength[sym]))
                ==> res == Ok((sym, FillBitBuffer(data, r, s.positionLength[sym])))
  {
    Pow2Values();
    ShortPositionLookup(r, s);
    var j := PositionEntry(r, s);
    if j < NP then
      if j < 0 then Err(IndexOutOfRange) else Ok((j, FillBitBuffer(data, r, s.positionLength[j])))
    else
      var r1 := FillBitBuffer(data, r, 8);
      var k :- Walk(r1, s.left, s.right, j, NP, 8, 16 + |s.left|);
      if k < 0 then Err(IndexOutOfRange)
      else if s.positionLength[k] < 8 then Err(Malformed)
      else Ok((k, FillBitBuffer(data, r1, s.positionLength[k] - 8)))
  }

  /** The direct position table entry of a short code is its symbol. */
  lemma ShortPositionLookup(r: Reader, s: State)
    requires InRange(r) && Wf(s)
    ensures TablesOk(s) ==>
              forall sym :: (&& 0 <= sym < NP && 1 <= s.positionLength[sym] <= 8
                             && CodeStart(s.positionLength, NP, sym, MAX_LENGTH) <= r.bitBuffer
                             && r.bitBuffer < CodeStart(s.positionLength, NP, sym, MAX_LENGTH) + Pow2(MAX_LENGTH - s.positionLength[sym]))
                ==> PositionEntry(r, s) == sym
  {
    Pow2Values();
    if TablesOk(s) {
      forall sym | (&& 0 <= sym < NP && 1 <= s.positionLength[sym] <= 8
                    && CodeStart(s.positionLength, NP, sym, MAX_LENGTH) <= r.bitBuffer
                    && r.bitBuffer < CodeStart(s.positionLength, NP, sym, MAX_LENGTH) + Pow2(MAX_LENGTH - s.positionLength[sym]))
        ensures PositionEntry(r, s) == sym
      {
        LookupShort(s.positionLength, NP, 8, s.positionTable, sym, r.bitBuffer);
      }
    }
  }

  /** `DecodePosition`: symbol times 64 plus 6 extra bits. */
  function DecodePosition(data: seq<byte>, r: Reader, s: State): (res: Result<(int, Reader)>)
    requires InRange(r) && Wf(s)
    ensures res.Ok? <==> PositionSymbol(data, r, s).Ok?
    ensures res.Ok? ==> 0 <= res.value.0 < NP * 64 && res.value.0 / 64 == PositionSymbol(data, r, s).value.0
    ensures res.Ok? ==> Consumed(res.value.1) == Consumed(PositionSymbol(data, r, s).value.1) + 6
  {
    var sym :- PositionSymbol(data, r, s);
    Pow2Values();
    var (low, r') := GetBits(data, sym.1, 6);
    Ok((sym.0 * 64 + low, r'))
  }

  /** With a long position code whose first overflow branch ends the walk,
      the branch is taken on the stream bit 16 places after the code's start:
      8 places past the first code bit after the table bits. */
  lemma PositionFirstBranch(data: seq<byte>, r: Reader, s: State)
    requires Valid(data, r) && Wf(s)
    requires var j := PositionEntry(r, s);
             && NP <= j < TREE_SIZE
             && 0 <= s.left[j] < NP && 0 <= s.right[j] < NP
             && s.positionLength[s.left[j]] >= 8 && s.positionLength[s.right[j]] >= 8
    ensures var j := PositionEntry(r, s);
            && PositionSymbol(data, r, s).Ok?
            && PositionSymbol(data, r, s).value.0 ==
                 if StreamBit(data, Consumed(r) + 16) == 1 then s.right[j] else s.left[j]
  {
    hide Bits, Shl, Shr, LowBits, Pow2, StreamBit, FillBitBuffer, Peek, WindowBit;
    var r1 := FillBitBuffer(data, r, 8);
    FillBitBufferReads(data, r, 8);
    WindowBitReads(data, r1, 8);
  }

  /** The position symbol's reader stays on the stream. */
  lemma PositionSymbolReads(data: seq<byte>, r: Reader, s: State)
    requires Valid(data, r) && Wf(s) && PositionSymbol(data, r, s).Ok?
    ensures Valid(data, PositionSymbol(data, r, s).value.1)
  {
    hide Bits, Shl, Shr, LowBits, Pow2, StreamBit, FillBitBuffer, Walk;
    FillBitBufferReads(data, r, 8);
    var j := PositionEntry(r, s);
    if j < NP {
      FillBitBufferReads(data, r, s.positionLength[j]);
    } else {
      var r1 := FillBitBuffer(data, r, 8);
      var k := Walk(r1, s.left, s.right, j, NP, 8, 16 + |s.left|).value;
      FillBitBufferReads(data, r1, s.positionLength[k] - 8);
    }
  }

  /** The 6 low bits of an offset are the 6 stream bits right after the
      position symbol's code. */
  lemma PositionLowBits(data: seq<byte>, r: Reader, s: State)
    requires Valid(data, r) && Wf(s) && DecodePosition(data, r, s).Ok?
    ensures var after := PositionSymbol(data, r, s).value.1;
            var res := DecodePosition(data, r, s).value;
            && Consumed(after) >= 0 && Valid(data, res.1)
            && res.0 % 64 == Bits(data, Consumed(after), 6)
  {
    hide Bits, Shl, Shr, LowBits, StreamBit, FillBitBuffer, PositionSymbol;
    Pow2Values();
    PositionSymbolReads(data, r, s);
    var sym := PositionSymbol(data, r, s).value;
    GetBitsReads(data, sym.1, 6);
    var low := GetBits(data, sym.1, 6).0;
    DivModOf(sym.0 * 64 + low, 64, sym.0, low);
  }
}
