/** The static-Huffman block decoder behind `-lh4-` to `-lh7-`
    (Library/Lh4Decoder.cs, with the tables of Library/LhDecoder.cs).

    Each block starts with a 16-bit item count and three code-length
    tables: the 19 lengths of the code that codes the literal/length
    lengths, the 510 literal/length lengths themselves, and the `np`
    position lengths. Each table is turned into a decode table by
    `LhTable.MakeTable`; a table announced with count 0 is a single
    constant symbol instead. */
module Lh4 {
  import opened Outcome
  import opened BitStream
  import opened BitReader
  import opened LhTable

  const NPT := 0x80
  const NC := 0xFF + 256 + 2 - 3
  const POSITION_TABLE_SIZE := 256
  const TREE_SIZE := 2 * NC - 1
  const NT := 16 + 3
  const TBIT := 5
  const CBIT := 9
  const CODE_TABLE_SIZE := 4096
  const CODE_TABLE_BIT := 12
  const POSITION_TABLE_BIT := 8

  datatype State = State(
    codeLength: seq<nat>,
    codeTable: seq<int>,
    positionLength: seq<nat>,
    positionTable: seq<int>,
    left: seq<int>,
    right: seq<int>,
    np: int,
    positionBit: int,
    blockSize: int)

  /** The arrays have the sizes the constructors give them; the factory's
      position parameters are small. */
  predicate Wf(s: State)
  {
    && |s.codeLength| == NC && |s.codeTable| == CODE_TABLE_SIZE
    && |s.positionLength| == NPT && |s.positionTable| == POSITION_TABLE_SIZE
    && |s.left| == TREE_SIZE && |s.right| == TREE_SIZE
    && 0 <= s.np <= NPT && 0 <= s.positionBit <= 16
  }

  /** A new decoder: every array zero and no block started. */
  function Initial(np: int, positionBit: int): (s: State)
    requires 0 <= np <= NPT && 0 <= positionBit <= 16
    ensures Wf(s) && s.blockSize == 0 && s.np == np && s.positionBit == positionBit
  {
    State(seq(NC, _ => 0), seq(CODE_TABLE_SIZE, _ => 0), seq(NPT, _ => 0), seq(POSITION_TABLE_SIZE, _ => 0),
          seq(TREE_SIZE, _ => 0), seq(TREE_SIZE, _ => 0), np, positionBit, 0)
  }

  /** The decode tables agree with the lengths they were built from. */
  ghost predicate TablesOk(s: State)
    requires Wf(s)
  {
    && ShortPlaced(s.codeLength, NC, CODE_TABLE_BIT, s.codeTable, NC)
    && ShortPlaced(s.positionLength, s.np, POSITION_TABLE_BIT, s.positionTable, s.np)
  }

  function CodeTree(s: State): Tree
  {
    Tree(s.codeTable, s.left, s.right)
  }

  function PositionTree(s: State): Tree
  {
    Tree(s.positionTable, s.left, s.right)
  }

  /** A position code of `n` symbols allocates its overflow nodes below
      the code tree's first node `NC`: it has no long codes, or it is
      complete and its walks descend at most `NC - n` levels in all. */
  predicate PositionFits(pl: seq<nat>, n: int)
    requires 0 <= n <= |pl|
  {
    || AllShort(pl, n, POSITION_TABLE_BIT)
    || (Total(pl, n) == 0x10000 && n + Budget(pl, POSITION_TABLE_BIT, n) <= NC)
  }

  /** Every complete position code of at most 56 symbols fits, and the
      factory's `np` is at most 19. */
  lemma SmallFits(pl: seq<nat>, n: int)
    requires 0 <= n <= 56 && n <= |pl|
    requires forall i :: 0 <= i < n ==> pl[i] <= MAX_LENGTH
    requires Total(pl, n) == 0x10000
    ensures PositionFits(pl, n)
  {
    hide Base, Count, Total;
    BudgetBound(pl, POSITION_TABLE_BIT, n);
  }

  /** Building a position code of `n` symbols over the shared node arrays
      keeps the code tree's links when that code fits below node `NC`. */
  lemma CodeKept(s: State, pl: seq<nat>, n: int, built: Tree)
    requires Wf(s) && 0 <= n <= |pl| && |built.left| == |s.left| && |built.right| == |s.right|
    requires LongLinked(s.codeLength, NC, CODE_TABLE_BIT, CodeTree(s))
    requires AllShort(pl, n, POSITION_TABLE_BIT) ==> built.left == s.left && built.right == s.right
    requires Base(pl, n, POSITION_TABLE_BIT + 1, POSITION_TABLE_BIT) != 0
             && RootsInTable(pl, n, POSITION_TABLE_BIT, Clamp(Pow2(POSITION_TABLE_BIT)), n) ==>
               KeptFrom(PositionTree(s), built, n + Budget(pl, POSITION_TABLE_BIT, n))
    requires PositionFits(pl, n)
    ensures LongLinked(s.codeLength, NC, CODE_TABLE_BIT, Tree(s.codeTable, built.left, built.right))
  {
    hide LongLinked, Base, Count, RootsInTable, Total, Budget, CodeStart;
    if !AllShort(pl, n, POSITION_TABLE_BIT) {
      Pow2Values();
      CompleteLinks(pl, n, POSITION_TABLE_BIT);
      LinkedKept(s.codeLength, NC, CODE_TABLE_BIT, CodeTree(s), Tree(s.codeTable, built.left, built.right),
                 n + Budget(pl, POSITION_TABLE_BIT, n));
    }
  }

  /** `InitRead`: prime the 16-bit window. */
  function InitRead(data: seq<byte>, r: Reader): (r': Reader)
    requires InRange(r)
    ensures InRange(r') && Consumed(r') == Consumed(r) + 2 * CHAR_BIT
  {
    FillBitBuffer(data, r, 2 * CHAR_BIT)
  }

  // ---------------------------------------------------------------------------
  // Walking the overflow tree

  /** The overflow walk of `DecodeCode`, `DecodePosition` and
      `ReadCodeLength`: from node `j`, test window bits from bit `top`
      (counted from the top) on, going right on a 1 and left on a 0; once
      the mask has shifted out, only left. It stops at a symbol below
      `limit`, or at a node that is its own left child. A walk longer than
      the 16 mask bits plus one visit per node has entered a cycle of left
      links, which the source never leaves. */
  function WalkTo(r: Reader, left: seq<int>, right: seq<int>, j: int, limit: int, k: nat, fuel: nat): (res: Result<int>)
    requires |left| == |right|
    ensures res.Ok? ==> res.value < limit || (0 <= res.value < |left| && left[res.value] == res.value)
    ensures res.Err? ==> res.error == IndexOutOfRange || res.error == Diverges
    decreases fuel
  {
    if !(0 <= j < |left|) then Err(IndexOutOfRange)
    else
      var next := if WindowBit(r, k) then right[j] else left[j];
      if next < limit then Ok(next)
      else if k + 1 >= 16 && !(0 <= next < |left|) then Err(IndexOutOfRange)
      else if k + 1 >= 16 && next == left[next] then Ok(next)
      else if fuel == 0 then Err(Diverges)
      else WalkTo(r, left, right, next, limit, k + 1, fuel - 1)
  }

  /** Within the 16 mask bits the source's walk is the plain overflow walk
      `LhTable.Walk`. */
  lemma {:induction false} WalkToAgrees(r: Reader, left: seq<int>, right: seq<int>, j: int, limit: int, k: nat, fuel: nat, fuel': nat)
    requires |left| == |right| && k + fuel < 16 && fuel <= fuel'
    requires LhTable.Walk(r, left, right, j, limit, k, fuel).Ok?
    ensures WalkTo(r, left, right, j, limit, k, fuel') == LhTable.Walk(r, left, right, j, limit, k, fuel)
    decreases fuel
  {
    var next := if WindowBit(r, k) then right[j] else left[j];
    if next >= limit {
      WalkToAgrees(r, left, right, next, limit, k + 1, fuel - 1, fuel' - 1);
    }
  }

  /** A long code of a complete code whose links the table builder laid
      down is decoded by the source's walk to its own symbol. */
  lemma LongWalk(data: seq<byte>, bl: seq<nat>, n: nat, tb: nat, tr: Tree, sym: int, r: Reader)
    requires n <= |bl| && tb <= CODE_TABLE_BIT && n < Pow2(tb + 1) && |tr.left| == |tr.right|
    requires Valid(data, r) && Total(bl, n) == 0x10000 && LongLinked(bl, n, tb, tr)
    requires CodeAt(bl, n, sym, r.bitBuffer) && tb < bl[sym]
    ensures 0 <= Peek(r, tb) < |tr.table| && tr.table[Peek(r, tb)] >= n
    ensures WalkTo(FillBitBuffer(data, r, tb), tr.left, tr.right, tr.table[Peek(r, tb)], n, 0, 16 + |tr.left|) == Ok(sym)
  {
    hide FillBitBuffer, LongLeads, LeadsTo, CodeStart, Base, Count, Shr, Shl, Total, RootsInTable, Peek;
    CompleteLinks(bl, n, tb);
    DecodeLong(data, bl, n, tb, tr, sym, r, bl[sym] - tb - 1);
    WalkToAgrees(FillBitBuffer(data, r, tb), tr.left, tr.right, tr.table[Peek(r, tb)], n, 0, bl[sym] - tb - 1, 16 + |tr.left|);
  }

  /** The walk as the source's loop runs it: the same steps as `WalkTo`. */
  method Walk(r: Reader, left: seq<int>, right: seq<int>, j: int, limit: int, top: nat) returns (res: Result<int>)
    requires |left| == |right|
    ensures res == WalkTo(r, left, right, j, limit, top, 16 + |left|)
    ensures res.Ok? ==> res.value < limit || (0 <= res.value < |left| && left[res.value] == res.value)
    ensures res.Err? ==> res.error == IndexOutOfRange || res.error == Diverges
    ensures 0 <= j < |left| && right[j] < limit && left[j] < limit ==>
              res == Ok(if WindowBit(r, top) then right[j] else left[j])
  {
    var node := j;
    var k := top;
    var fuel: nat := 16 + |left|;
    while true
      invariant WalkTo(r, left, right, node, limit, k, fuel) == WalkTo(r, left, right, j, limit, top, 16 + |left|)
      decreases fuel
    {
      if !(0 <= node < |left|) {
        return Err(IndexOutOfRange);
      }
      node := if WindowBit(r, k) then right[node] else left[node];
      k := k + 1;
      if node < limit {
        return Ok(node);
      }
      if k >= 16 {
        if !(0 <= node < |left|) {
          return Err(IndexOutOfRange);
        }
        if node == left[node] {
          return Ok(node);
        }
      }
      if fuel == 0 {
        return Err(Diverges);
      }
      fuel := fuel - 1;
    }
  }

  /** One symbol through a table of `tb` bits and the overflow tree: the
      entry for the next `tb` window bits when it is a symbol below `n`,
      else the walk from that entry once the table bits are consumed. A
      walked leaf outside `bound`, or one whose length is below `tb`, is an
      error. */
  function TableSymbol(data: seq<byte>, r: Reader, bl: seq<nat>, n: nat, tb: nat, tr: Tree, bound: nat): (res: Result<(int, Reader)>)
    requires InRange(r) && n <= |bl| && bound <= |bl| && tb <= MAX_LENGTH
    requires |tr.table| == Pow2(tb) && |tr.left| == |tr.right|
    ensures res.Ok? ==> 0 <= res.value.0 < |bl| && InRange(res.value.1)
  {
    var j := tr.table[Peek(r, tb)];
    if j < n then
      if j < 0 then Err(IndexOutOfRange) else Ok((j, FillBitBuffer(data, r, bl[j])))
    else
      var r1 := FillBitBuffer(data, r, tb);
      match WalkTo(r1, tr.left, tr.right, j, n, 0, 16 + |tr.left|)
      case Err(e) => Err(e)
      case Ok(k) =>
        if !(0 <= k < bound) then Err(IndexOutOfRange)
        else if bl[k] < tb then Err(Malformed)
        else Ok((k, FillBitBuffer(data, r1, bl[k] - tb)))
  }

  /** `TableSymbol` as the decoders run it, with the walk's loop. */
  method ReadSymbol(data: seq<byte>, r: Reader, bl: seq<nat>, n: nat, tb: nat, tr: Tree, bound: nat)
    returns (res: Result<(int, Reader)>)
    requires InRange(r) && n <= |bl| && bound <= |bl| && tb <= MAX_LENGTH
    requires |tr.table| == Pow2(tb) && |tr.left| == |tr.right|
    ensures res == TableSymbol(data, r, bl, n, tb, tr, bound)
  {
    hide FillBitBuffer, WalkTo, Peek;
    var j := tr.table[Peek(r, tb)];
    if j < n {
      if j < 0 {
        return Err(IndexOutOfRange);
      }
      return Ok((j, FillBitBuffer(data, r, bl[j])));
    }
    var r1 := FillBitBuffer(data, r, tb);
    j :- Walk(r1, tr.left, tr.right, j, n, 0);
    if !(0 <= j < bound) {
      return Err(IndexOutOfRange);
    }
    if bl[j] < tb {
      return Err(Malformed);
    }
    return Ok((j, FillBitBuffer(data, r1, bl[j] - tb)));
  }

  /** A code no longer than the table is read from its table entry alone:
      the symbol, and the reader advanced by the code's length. */
  lemma TableShort(data: seq<byte>, r: Reader, bl: seq<nat>, n: nat, tb: nat, tr: Tree, bound: nat, sym: int)
    requires InRange(r) && n <= |bl| && bound <= |bl| && tb < MAX_LENGTH
    requires |tr.table| == Pow2(tb) <= TABLE_LIMIT && |tr.left| == |tr.right|
    requires ShortPlaced(bl, n, tb, tr.table, n)
    requires 0 <= sym < n && 1 <= bl[sym] <= tb
    requires CodeStart(bl, n, sym, MAX_LENGTH) <= r.bitBuffer < CodeStart(bl, n, sym, MAX_LENGTH) + Pow2(MAX_LENGTH - bl[sym])
    ensures TableSymbol(data, r, bl, n, tb, tr, bound) == Ok((sym, FillBitBuffer(data, r, bl[sym])))
  {
    assert Peek(r, tb) == Shr(r.bitBuffer, MAX_LENGTH - tb);
    hide FillBitBuffer, WalkTo, CodeStart, Base, Count, Shl, Shr, Peek;
    LookupShort(bl, n, tb, tr.table, sym, r.bitBuffer);
  }

  /** A complete code longer than the table, whose overflow nodes lead to
      their symbols, is read by the walk: the symbol, and the reader
      advanced by the table bits and then by the rest of the code. */
  lemma TableLong(data: seq<byte>, r: Reader, bl: seq<nat>, n: nat, tb: nat, tr: Tree, bound: nat, sym: int)
    requires n <= bound <= |bl| && tb <= CODE_TABLE_BIT && n < Pow2(tb + 1)
    requires |tr.table| == Pow2(tb) && |tr.left| == |tr.right|
    requires Valid(data, r) && Total(bl, n) == 0x10000 && LongLinked(bl, n, tb, tr)
    requires CodeAt(bl, n, sym, r.bitBuffer) && tb < bl[sym]
    ensures TableSymbol(data, r, bl, n, tb, tr, bound) == Ok((sym, FillBitBuffer(data, FillBitBuffer(data, r, tb), bl[sym] - tb)))
  {
    hide FillBitBuffer, WalkTo, LongLinked, Total, CodeStart, Base, Count, Shl, Shr, Peek;
    LongWalk(data, bl, n, tb, tr, sym, r);
  }

  // ---------------------------------------------------------------------------
  // Reading lengths

  /** Consecutive set window bits from bit `k` (counted from the top). */
  function Ones(r: Reader, k: nat): (n: nat)
    ensures k + n <= 16 || n == 0
    decreases 16 - k
  {
    if k < 16 && WindowBit(r, k) then 1 + Ones(r, k + 1) else 0
  }

  /** One transmitted length: a 3-bit field; 7 grows by one for each 1 bit
      that follows it. */
  function ReadLength(data: seq<byte>, r: Reader): (res: (nat, Reader))
    requires InRange(r)
    ensures InRange(res.1) && res.0 <= 7 + 13
    ensures res.0 < 7 ==> Consumed(res.1) == Consumed(r) + 3
    ensures res.0 >= 7 ==> Consumed(res.1) == Consumed(r) + res.0 - 3
  {
    var c := Peek(r, 3);
    Pow2Values();
    if c != 7 then (c, FillBitBuffer(data, r, 3))
    else
      var c' := 7 + Ones(r, 3);
      (c', FillBitBuffer(data, r, c' - 3))
  }

  lemma {:induction false} OnesReads(data: seq<byte>, r: Reader, k: nat)
    requires Valid(data, r)
    ensures forall q :: Consumed(r) + k <= q < Consumed(r) + k + Ones(r, k) ==> StreamBit(data, q) == 1
    ensures k + Ones(r, k) < 16 ==> StreamBit(data, Consumed(r) + k + Ones(r, k)) == 0
    decreases 16 - k
  {
    hide Bits, Shl, Shr, LowBits, Pow2, StreamBit, WindowBit;
    if k < 16 {
      var at := Consumed(r) + k;
      WindowBitReads(data, r, k);
      StreamBitIsBit(data, at);
      if WindowBit(r, k) {
        OnesReads(data, r, k + 1);
        assert Ones(r, k) == 1 + Ones(r, k + 1);
        assert at + Ones(r, k) == Consumed(r) + (k + 1) + Ones(r, k + 1);
        forall q | at <= q < at + Ones(r, k)
          ensures StreamBit(data, q) == 1
        {
          if q > at {
            assert Consumed(r) + (k + 1) <= q < Consumed(r) + (k + 1) + Ones(r, k + 1);
          }
        }
      } else {
        assert Ones(r, k) == 0 && StreamBit(data, at) == 0;
      }
    }
  }

  /** `Peek(n)` shows the next `n` stream bits. */
  lemma PeekReads(data: seq<byte>, r: Reader, n: nat)
    requires Valid(data, r) && n <= 16
    ensures Peek(r, n) == Bits(data, Consumed(r), n)
  {
    BitsPrefix(data, Consumed(r), 16, n);
  }

  lemma ReadShortLength(data: seq<byte>, r: Reader)
    requires Valid(data, r) && Peek(r, 3) != 7
    ensures ReadLength(data, r).0 == Bits(data, Consumed(r), 3) < 7
    ensures Valid(data, ReadLength(data, r).1)
  {
    PeekReads(data, r, 3);
    hide Bits, Shl, Shr, LowBits, Pow2, StreamBit, FillBitBuffer, Peek;
    FillBitBufferReads(data, r, 3);
  }

  lemma ReadLongLength(data: seq<byte>, r: Reader)
    requires Valid(data, r) && Peek(r, 3) == 7
    ensures var at := Consumed(r);
            var c := 7 + Ones(r, 3);
            && Bits(data, at, 3) == 7
            && (forall q :: at + 3 <= q < at + c - 4 ==> StreamBit(data, q) == 1)
            && (c < 20 ==> StreamBit(data, at + c - 4) == 0)
    ensures Valid(data, FillBitBuffer(data, r, 4 + Ones(r, 3)))
  {
    hide Bits, Shl, Shr, LowBits, Pow2, StreamBit, FillBitBuffer, Peek, Ones, WindowBit;
    PeekReads(data, r, 3);
    OnesReads(data, r, 3);
    FillBitBufferReads(data, r, 4 + Ones(r, 3));
  }

  /** What `ReadLength` reads, in stream terms: the 3-bit field, and for 7
      the run of 1 bits after it and the 0 that ends the run. */
  lemma ReadLengthReads(data: seq<byte>, r: Reader)
    requires Valid(data, r)
    ensures var (c, r') := ReadLength(data, r);
            var at := Consumed(r);
            && Valid(data, r')
            && (c < 7 ==> c == Bits(data, at, 3))
            && (c >= 7 ==> (&& Bits(data, at, 3) == 7
                            && (forall q :: at + 3 <= q < at + c - 4 ==> StreamBit(data, q) == 1)
                            && (c < 20 ==> StreamBit(data, at + c - 4) == 0)))
  {
    hide Bits, Shl, Shr, LowBits, Pow2, StreamBit, FillBitBuffer, Peek, WindowBit;
    if Peek(r, 3) != 7 {
      ReadShortLength(data, r);
    } else {
      ReadLongLength(data, r);
      assert ReadLength(data, r) == (7 + Ones(r, 3), FillBitBuffer(data, r, 4 + Ones(r, 3)));
    }
  }

  /** `a[i] = v`, or the CLR's index check. */
  function Store(a: seq<nat>, i: int, v: nat): (r: Result<seq<nat>>)
    ensures r.Ok? <==> 0 <= i < |a|
    ensures r.Ok? ==> r.value == a[i := v]
  {
    if 0 <= i < |a| then Ok(a[i := v]) else Err(IndexOutOfRange)
  }

  /** `n` zero lengths. */
  function Zeros(n: nat): (z: seq<nat>)
    ensures |z| == n && forall k :: 0 <= k < n ==> z[k] == 0
  {
    seq(n, _ => 0)
  }

  /** The zero run after the `i_special`-th length: a 2-bit count of zeros,
      stopping at the end of the array. */
  method ZeroFill(lengths: seq<nat>, i: int, z: int, max: int) returns (pl: seq<nat>, i': int)
    requires |lengths| == NPT && 0 <= i <= NPT && 0 <= max
    requires forall k :: max <= k < i ==> lengths[k] == 0
    ensures |pl| == NPT && i <= i' <= NPT
    ensures i' == i + if z <= 0 then 0 else if z < NPT - i then z else NPT - i
    ensures forall k :: 0 <= k < NPT ==> pl[k] == if i <= k < i' then 0 else lengths[k]
    ensures forall k :: max <= k < i' ==> pl[k] == 0
  {
    pl, i' := lengths, i;
    var run := z;
    while true
      invariant i <= i' <= NPT && |pl| == NPT
      invariant run == z - (i' - i) && i' - i <= (if z <= 0 then 0 else z)
      invariant forall k :: 0 <= k < NPT ==> pl[k] == if i <= k < i' then 0 else lengths[k]
      decreases run
    {
      run := run - 1;
      if !(run >= 0 && i' < NPT) {
        break;
      }
      pl := pl[i' := 0];
      i' := i' + 1;
    }
  }

  /** The lengths `ReadPositionLength` sends from position `i` up to `max`:
      a `ReadLength` each, and after the `i_special`-th a 2-bit count of
      zeros, cut at the array's end. Also the reader after them. */
  function SentLengths(data: seq<byte>, r: Reader, i: nat, max: nat, iSpecial: int): (res: (seq<nat>, Reader))
    requires InRange(r) && i <= NPT && max <= NPT
    ensures InRange(res.1) && i + |res.0| <= NPT
    ensures i < max ==> max <= i + |res.0|
    ensures i >= max ==> res == ([], r)
    ensures forall k :: 0 <= k < |res.0| ==> res.0[k] <= 7 + 13
    decreases NPT - i
  {
    if i >= max then ([], r)
    else
      var (c, r1) := ReadLength(data, r);
      if i + 1 == iSpecial then
        var (z, r2) := GetBits(data, r1, 2);
        var run := if z < NPT - (i + 1) then z else NPT - (i + 1);
        var (rest, r3) := SentLengths(data, r2, i + 1 + run, max, iSpecial);
        ([c] + Zeros(run) + rest, r3)
      else
        var (rest, r3) := SentLengths(data, r1, i + 1, max, iSpecial);
        ([c] + rest, r3)
  }

  /** One ordinary step of `SentLengths`. */
  lemma SentPlain(data: seq<byte>, r: Reader, i: nat, max: nat, iSpecial: int)
    requires InRange(r) && i < max <= NPT && i + 1 != iSpecial
    ensures var (c, r1) := ReadLength(data, r);
            var (rest, r3) := SentLengths(data, r1, i + 1, max, iSpecial);
            SentLengths(data, r, i, max, iSpecial) == ([c] + rest, r3)
  {
  }

  /** The step of `SentLengths` at the special position. */
  lemma SentSpecial(data: seq<byte>, r: Reader, i: nat, max: nat, iSpecial: int)
    requires InRange(r) && i < max <= NPT && i + 1 == iSpecial
    ensures var (c, r1) := ReadLength(data, r);
            var (z, r2) := GetBits(data, r1, 2);
            var run := if z < NPT - (i + 1) then z else NPT - (i + 1);
            var (rest, r3) := SentLengths(data, r2, i + 1 + run, max, iSpecial);
            SentLengths(data, r, i, max, iSpecial) == ([c] + Zeros(run) + rest, r3)
  {
    hide ReadLength, GetBits, Zeros;
  }

  /** What the lengths read so far and the lengths still to come make up
      together: the whole of `SentLengths` from position 0. */
  ghost predicate SoFar(data: seq<byte>, r: Reader, lengths: seq<nat>, max: int, iSpecial: int,
                        rr: Reader, pl: seq<nat>, i: int)
    requires InRange(r) && |lengths| == NPT && 0 <= max <= NPT
  {
    && 0 <= i <= NPT && |pl| == NPT && InRange(rr)
    && (var (rest, rEnd) := SentLengths(data, rr, i, max, iSpecial);
        && pl[..i] + rest == SentLengths(data, r, 0, max, iSpecial).0
        && rEnd == SentLengths(data, r, 0, max, iSpecial).1)
    && pl[i..] == lengths[i..]
    && (forall k :: max <= k < i ==> pl[k] == 0)
  }

  /** One round of the length loop: one length, and after the special
      position its zero run. */
  method LengthStep(data: seq<byte>, r: Reader, lengths: seq<nat>, max: int, iSpecial: int,
                    rr: Reader, pl: seq<nat>, i: int)
    returns (rr': Reader, pl': seq<nat>, i': int)
    requires InRange(r) && |lengths| == NPT && 0 <= max <= NPT
    requires SoFar(data, r, lengths, max, iSpecial, rr, pl, i) && i < max
    ensures SoFar(data, r, lengths, max, iSpecial, rr', pl', i') && i < i'
  {
    if i + 1 == iSpecial {
      rr', pl', i' := SpecialStep(data, r, lengths, max, iSpecial, rr, pl, i);
    } else {
      rr', pl', i' := PlainStep(data, r, lengths, max, iSpecial, rr, pl, i);
    }
  }

  /** The round of an ordinary position: one length. */
  method PlainStep(data: seq<byte>, r: Reader, lengths: seq<nat>, max: int, iSpecial: int,
                   rr: Reader, pl: seq<nat>, i: int)
    returns (rr': Reader, pl': seq<nat>, i': int)
    requires InRange(r) && |lengths| == NPT && 0 <= max <= NPT
    requires SoFar(data, r, lengths, max, iSpecial, rr, pl, i) && i < max && i + 1 != iSpecial
    ensures SoFar(data, r, lengths, max, iSpecial, rr', pl', i') && i' == i + 1
  {
    hide Pow2, Shl, Shr, LowBits, Peek, FillBitBuffer, GetBits, ReadLength, SentLengths;
    var (c, r2) := ReadLength(data, rr);
    rr', pl', i' := r2, pl[i := c], i + 1;
    assert pl'[..i'] == pl[..i] + [c];
    assert pl'[i'..] == lengths[i'..] by {
      assert pl[i'..] == lengths[i'..];
    }
    SentPlain(data, rr, i, max, iSpecial);
    assert pl[..i] + ([c] + SentLengths(data, rr', i', max, iSpecial).0)
        == pl'[..i'] + SentLengths(data, rr', i', max, iSpecial).0;
  }

  /** The round of the special position: its length, then its zero run. */
  method SpecialStep(data: seq<byte>, r: Reader, lengths: seq<nat>, max: int, iSpecial: int,
                     rr: Reader, pl: seq<nat>, i: int)
    returns (rr': Reader, pl': seq<nat>, i': int)
    requires InRange(r) && |lengths| == NPT && 0 <= max <= NPT
    requires SoFar(data, r, lengths, max, iSpecial, rr, pl, i) && i < max && i + 1 == iSpecial
    ensures SoFar(data, r, lengths, max, iSpecial, rr', pl', i') && i < i'
  {
    hide Pow2, Shl, Shr, LowBits, Peek, FillBitBuffer, GetBits, ReadLength, SentLengths;
    var (c, r2) := ReadLength(data, rr);
    var at := i + 1;
    var before := pl[i := c];
    assert before[..at] == pl[..i] + [c];
    assert before[at..] == lengths[at..] by {
      assert pl[at..] == lengths[at..];
    }
    SentSpecial(data, rr, i, max, iSpecial);
    var (z, r3) := GetBits(data, r2, 2);
    rr' := r3;
    pl', i' := ZeroFill(before, at, z, max);
    assert pl'[..i'] == before[..at] + Zeros(i' - at);
    assert pl'[i'..] == lengths[i'..];
    assert pl[..i] + ([c] + Zeros(i' - at) + SentLengths(data, rr', i', max, iSpecial).0)
        == pl'[..i'] + SentLengths(data, rr', i', max, iSpecial).0;
  }

  /** The transmitted lengths of `ReadPositionLength`; only positions below
      `max` can be nonzero. */
  method ReadLengths(data: seq<byte>, r: Reader, lengths: seq<nat>, max: int, iSpecial: int)
    returns (rr: Reader, pl: seq<nat>, i: int)
    requires InRange(r) && |lengths| == NPT && 0 <= max <= NPT
    ensures InRange(rr) && |pl| == NPT && max <= i <= NPT
    ensures (pl[..i], rr) == SentLengths(data, r, 0, max, iSpecial)
    ensures pl[i..] == lengths[i..]
    ensures forall k :: max <= k < i ==> pl[k] == 0
  {
    rr, pl, i := r, lengths, 0;
    assert pl[..0] + SentLengths(data, rr, 0, max, iSpecial).0 == SentLengths(data, rr, 0, max, iSpecial).0;
    while i < max
      invariant SoFar(data, r, lengths, max, iSpecial, rr, pl, i)
      decreases NPT - i
    {
      rr, pl, i := LengthStep(data, r, lengths, max, iSpecial, rr, pl, i);
    }
    assert SentLengths(data, rr, i, max, iSpecial) == ([], rr);
    assert pl[..i] + [] == pl[..i];
  }

  /** Set every entry from `from` up to, not including, `n` to zero. */
  method PadZeros(a: seq<nat>, from: int, n: int) returns (a': seq<nat>, i: int)
    requires 0 <= from && n <= |a|
    ensures |a'| == |a| && i == if from < n then n else from
    ensures forall k :: 0 <= k < |a| ==> a'[k] == if from <= k < n then 0 else a[k]
  {
    a', i := a, from;
    while i < n
      invariant from <= i && (i == from || i <= n) && |a'| == |a|
      invariant forall k :: 0 <= k < |a| ==> a'[k] == if from <= k < i then 0 else a[k]
    {
      a' := a'[i := 0];
      i := i + 1;
    }
  }

  /** The lengths and reader of `ReadPositionLength`: a count of `nbit` bits;
      count 0 gives `nn` zero lengths and the constant symbol's `nbit` bits;
      otherwise the lengths sent, then zeros up to `nn`. Positions past both
      keep their old lengths. */
  function PositionLengths(data: seq<byte>, r: Reader, lengths: seq<nat>, nn: int, nbit: nat, iSpecial: int): (res: (seq<nat>, Reader))
    requires InRange(r) && |lengths| == NPT && 0 <= nn <= NPT && nbit <= 16
    ensures |res.0| == NPT
  {
    var (n, r1) := GetBits(data, r, nbit);
    if n == 0 then
      (seq(NPT, k requires 0 <= k < NPT => if k < nn then 0 else lengths[k]), FillBitBuffer(data, r1, nbit))
    else
      var (w, r2) := SentLengths(data, r1, 0, if n < NPT then n else NPT, iSpecial);
      (seq(NPT, k requires 0 <= k < NPT => if k < |w| then w[k] else if k < nn then 0 else lengths[k]), r2)
  }

  /** `MakeTable` for a position code of `nn` symbols, over the node
      arrays the code tree shares. */
  method BuildPosition(s: State, pl: seq<nat>, nn: int) returns (res: Result<Tree>)
    requires Wf(s) && 0 <= nn <= NPT && |pl| == NPT
    ensures res.Ok? ==> && |res.value.table| == POSITION_TABLE_SIZE
                        && |res.value.left| == TREE_SIZE && |res.value.right| == TREE_SIZE
    ensures res.Ok? ==> ShortPlaced(pl, nn, POSITION_TABLE_BIT, res.value.table, nn)
    ensures res.Ok? ==> forall i :: 0 <= i < nn ==> pl[i] <= MAX_LENGTH
    ensures res.Ok? ==> LongLinked(pl, nn, POSITION_TABLE_BIT, res.value)
    ensures res.Ok? && PositionFits(pl, nn) && LongLinked(s.codeLength, NC, CODE_TABLE_BIT, CodeTree(s)) ==>
              LongLinked(s.codeLength, NC, CODE_TABLE_BIT, Tree(s.codeTable, res.value.left, res.value.right))
  {
    hide LeadsTo, ZeroRegion, Count, CodeStart, Pow2, Shl, Shr, PositionFits, KeptFrom, Total;
    var built :- MakeTable(nn, pl, POSITION_TABLE_BIT, PositionTree(s));
    if PositionFits(pl, nn) && LongLinked(s.codeLength, NC, CODE_TABLE_BIT, CodeTree(s)) {
      CodeKept(s, pl, nn, built);
    }
    return Ok(built);
  }

  /** `ReadPositionLength(nn, nbit, i_special)`: the lengths of a code of
      `nn` symbols and its decode table. Count 0 means a single constant
      symbol; otherwise `min(count, 128)` lengths follow, with a 2-bit count
      of extra zero lengths after the `i_special`-th. */
  method ReadPositionLength(data: seq<byte>, r: Reader, s: State, nn: int, nbit: nat, iSpecial: int)
    returns (res: Result<(Reader, State)>)
    requires InRange(r) && Wf(s) && 0 <= nn <= NPT && nbit <= 16
    ensures res.Ok? ==> InRange(res.value.0) && Wf(res.value.1)
    ensures res.Ok? ==> res.value.1.(positionLength := s.positionLength, positionTable := s.positionTable,
                                     left := s.left, right := s.right) == s
    ensures res.Ok? ==> ShortPlaced(res.value.1.positionLength, nn, POSITION_TABLE_BIT, res.value.1.positionTable, nn)
    ensures res.Ok? ==> (res.value.1.positionLength, res.value.0) == PositionLengths(data, r, s.positionLength, nn, nbit, iSpecial)
    ensures res.Ok? && Peek(r, nbit) == 0 ==>
              var c := Peek(FillBitBuffer(data, r, nbit), nbit);
              && (forall i :: 0 <= i < nn ==> res.value.1.positionLength[i] == 0)
              && (forall i :: 0 <= i < POSITION_TABLE_SIZE ==> res.value.1.positionTable[i] == c)
              && Consumed(res.value.0) == Consumed(r) + 2 * nbit
    ensures res.Ok? && Peek(r, nbit) != 0 ==>
              var sent := if Peek(r, nbit) < NPT then Peek(r, nbit) else NPT;
              && (forall i :: 0 <= i < nn ==> res.value.1.positionLength[i] <= 16)
              && (forall i :: sent <= i < nn ==> res.value.1.positionLength[i] == 0)
    ensures res.Ok? ==> LongLinked(res.value.1.positionLength, nn, POSITION_TABLE_BIT, PositionTree(res.value.1))
    ensures res.Ok? && PositionFits(res.value.1.positionLength, nn) && LongLinked(s.codeLength, NC, CODE_TABLE_BIT, CodeTree(s)) ==>
              LongLinked(s.codeLength, NC, CODE_TABLE_BIT, CodeTree(res.value.1))
  {
    hide SentLengths, ReadLength, Pow2, Shl, Shr, LowBits, LeadsTo, RootsInTable, ZeroRegion, Base, CodeStart, Count;
    hide PositionFits, KeptFrom, Total, LongLinked;
    var (n, r1) := GetBits(data, r, nbit);
    if n == 0 {
      var (c, r2) := GetBits(data, r1, nbit);
      var pl, _ := PadZeros(s.positionLength, 0, nn);
      assert pl == seq(NPT, k requires 0 <= k < NPT => if k < nn then 0 else s.positionLength[k]);
      var s' := s.(positionLength := pl, positionTable := seq(POSITION_TABLE_SIZE, _ => c));
      ShortLinked(pl, nn, POSITION_TABLE_BIT, PositionTree(s'));
      return Ok((r2, s'));
    }
    var max := if n < NPT then n else NPT;
    var rr, pl, i := ReadLengths(data, r1, s.positionLength, max, iSpecial);
    ghost var sent := pl;
    pl, i := PadZeros(pl, i, nn);
    var built :- BuildPosition(s, pl, nn);
    ghost var w := SentLengths(data, r1, 0, max, iSpecial).0;
    assert forall k :: 0 <= k < NPT ==> pl[k] == if k < |w| then w[k] else if k < nn then 0 else s.positionLength[k] by {
      forall k | 0 <= k < NPT
        ensures pl[k] == if k < |w| then w[k] else if k < nn then 0 else s.positionLength[k]
      {
        if k < |w| {
          assert sent[..|w|][k] == w[k];
        } else {
          assert sent[|w|..][k - |w|] == s.positionLength[|w|..][k - |w|];
        }
      }
    }
    assert pl == seq(NPT, k requires 0 <= k < NPT => if k < |w| then w[k] else if k < nn then 0 else s.positionLength[k]);
    return Ok((rr, s.(positionLength := pl, positionTable := built.table, left := built.left, right := built.right)));
  }

  /** One symbol of the length-of-lengths code: a direct entry of the
      position table, or an overflow walk from window bit 8, then its
      length consumed. */
  function ReadLengthSymbol(data: seq<byte>, r: Reader, s: State): (res: Result<(int, Reader)>)
    requires InRange(r) && Wf(s)
    ensures res.Ok? ==> 0 <= res.value.0 < NPT && InRange(res.value.1)
    ensures res.Ok? ==> Consumed(res.value.1) == Consumed(r) + s.positionLength[res.value.0]
    ensures var x := Peek(r, POSITION_TABLE_BIT);
            0 <= s.positionTable[x] < NT ==> res == Ok((s.positionTable[x], FillBitBuffer(data, r, s.positionLength[s.positionTable[x]])))
  {
    Pow2Values();
    var c0 := s.positionTable[Peek(r, POSITION_TABLE_BIT)];
    var c :- if c0 >= NT then WalkTo(r, s.left, s.right, c0, NT, 8, 16 + |s.left|) else Ok(c0);
    if !(0 <= c < NPT) then Err(IndexOutOfRange) else Ok((c, FillBitBuffer(data, r, s.positionLength[c])))
  }

  /** How many zero lengths a length-of-lengths symbol 0, 1 or 2 stands
      for: one, 3 plus 4 bits, or 20 plus 9 bits. */
  function ZeroRun(data: seq<byte>, r: Reader, c: int): (res: (int, Reader))
    requires InRange(r) && 0 <= c <= 2
    ensures InRange(res.1)
    ensures c == 0 ==> res.0 == 1 && res.1 == r
    ensures c == 1 ==> 3 <= res.0 < 3 + 16 && Consumed(res.1) == Consumed(r) + 4
    ensures c == 2 ==> 20 <= res.0 < 20 + 512 && Consumed(res.1) == Consumed(r) + CBIT
  {
    Pow2Values();
    assert Pow2(9) == 512 by { Pow2Add(8, 1); }
    if c == 0 then (1, r)
    else if c == 1 then var (x, r') := GetBits(data, r, 4); (x + 3, r')
    else var (x, r') := GetBits(data, r, CBIT); (x + 20, r')
  }

  /** `run` zero lengths from position `i`; past the end of the array is
      the CLR's index error. */
  method StoreZeros(lengths: seq<nat>, i: int, run: nat, max: int) returns (res: Result<(seq<nat>, int)>)
    requires |lengths| == NC && 0 <= i <= NC && 0 <= max
    requires forall k :: max <= k < i ==> lengths[k] == 0
    ensures res.Ok? <==> i + run <= NC
    ensures res.Ok? ==> var (cl, i') := res.value;
              && |cl| == NC && i' == i + run
              && (forall k :: max <= k < i' ==> cl[k] == 0)
              && (forall k :: 0 <= k < NC ==> cl[k] == if i <= k < i' then 0 else lengths[k])
  {
    var cl, j := lengths, i;
    var left := run;
    while left > 0
      invariant i <= j <= NC && |cl| == NC && j - i + left == run
      invariant forall k :: max <= k < j ==> cl[k] == 0
      invariant forall k :: 0 <= k < NC ==> cl[k] == if i <= k < j then 0 else lengths[k]
    {
      var stored :- Store(cl, j, 0);
      cl := stored;
      j := j + 1;
      left := left - 1;
    }
    return Ok((cl, j));
  }

  /** `p` in front of the lengths of a successful read; a failed read stays failed. */
  function Prefixed(p: seq<nat>, t: Result<(seq<nat>, Reader)>): Result<(seq<nat>, Reader)>
  {
    if t.Ok? then Ok((p + t.value.0, t.value.1)) else t
  }

  lemma PrefixedAppend(a: seq<nat>, b: seq<nat>, t: Result<(seq<nat>, Reader)>)
    ensures Prefixed(a, Prefixed(b, t)) == Prefixed(a + b, t)
  {
    if t.Ok? {
      assert a + (b + t.value.0) == (a + b) + t.value.0;
    }
  }

  /** The literal/length lengths `ReadCodeLength` sends from position `i` up
      to `max`, and the reader after them: a length-of-lengths symbol `c`
      stands for length `c - 2` when `c >= 3`, and for a run of zeros
      (`ZeroRun`) when `c <= 2`. A run past the 510 entries fails. */
  function SentCodes(data: seq<byte>, r: Reader, s: State, i: nat, max: nat): (res: Result<(seq<nat>, Reader)>)
    requires InRange(r) && Wf(s) && i <= NC && max <= NC
    ensures res.Ok? ==> InRange(res.value.1) && i + |res.value.0| <= NC
    ensures res.Ok? && i < max ==> max <= i + |res.value.0|
    ensures i >= max ==> res == Ok(([], r))
    decreases NC - i
  {
    if i >= max then Ok(([], r))
    else
      match ReadLengthSymbol(data, r, s)
      case Err(e) => Err(e)
      case Ok((c, r1)) =>
        if c <= 2 then
          var (run, r2) := ZeroRun(data, r1, c);
          if i + run > NC then Err(IndexOutOfRange)
          else Prefixed(Zeros(run), SentCodes(data, r2, s, i + run, max))
        else Prefixed([c - 2], SentCodes(data, r1, s, i + 1, max))
  }

  /** One step of `SentCodes` below `max`. */
  lemma SentCodesStep(data: seq<byte>, r: Reader, s: State, i: nat, max: nat)
    requires InRange(r) && Wf(s) && i < max <= NC
    ensures ReadLengthSymbol(data, r, s).Err? ==> SentCodes(data, r, s, i, max).Err?
    ensures ReadLengthSymbol(data, r, s).Ok? ==>
              var (c, r1) := ReadLengthSymbol(data, r, s).value;
              && (c <= 2 ==>
                    var (run, r2) := ZeroRun(data, r1, c);
                    SentCodes(data, r, s, i, max)
                      == if i + run > NC then Err(IndexOutOfRange) else Prefixed(Zeros(run), SentCodes(data, r2, s, i + run, max)))
              && (c > 2 ==> SentCodes(data, r, s, i, max) == Prefixed([c - 2], SentCodes(data, r1, s, i + 1, max)))
  {
    hide Pow2, Shl, Shr, LowBits, Peek, FillBitBuffer, GetBits, ReadLengthSymbol, ZeroRun, Zeros, Prefixed;
  }

  /** The lengths read so far and the lengths still to come make up the whole
      of `SentCodes` from position 0. */
  ghost predicate CodesSoFar(data: seq<byte>, r: Reader, s: State, max: int, rr: Reader, cl: seq<nat>, i: int)
    requires InRange(r) && Wf(s) && 0 <= max <= NC
  {
    && 0 <= i <= NC && |cl| == NC && InRange(rr)
    && SentCodes(data, r, s, 0, max) == Prefixed(cl[..i], SentCodes(data, rr, s, i, max))
    && cl[i..] == s.codeLength[i..]
    && (forall k :: max <= k < i ==> cl[k] == 0)
  }

  /** One round of the code length loop: a symbol, then a zero run or one length. */
  method CodeStep(data: seq<byte>, r: Reader, s: State, max: int, rr: Reader, cl: seq<nat>, i: int)
    returns (res: Result<(Reader, seq<nat>, int)>)
    requires InRange(r) && Wf(s) && 0 <= max <= NC
    requires CodesSoFar(data, r, s, max, rr, cl, i) && i < max
    ensures res.Ok? ==> CodesSoFar(data, r, s, max, res.value.0, res.value.1, res.value.2) && i < res.value.2
    ensures res.Err? ==> SentCodes(data, r, s, 0, max).Err?
  {
    hide Pow2, Shl, Shr, LowBits, Peek, FillBitBuffer, GetBits, ReadLengthSymbol, ZeroRun, SentCodes;
    SentCodesStep(data, rr, s, i, max);
    var step :- ReadLengthSymbol(data, rr, s);
    var sym := step.0;
    if sym <= 2 {
      var (run, r2) := ZeroRun(data, step.1, sym);
      var filled :- StoreZeros(cl, i, run, max);
      var (cl', i') := filled;
      assert cl'[..i'] == cl[..i] + Zeros(run);
      assert cl'[i'..] == s.codeLength[i'..] by {
        assert cl[i'..] == s.codeLength[i'..];
      }
      PrefixedAppend(cl[..i], Zeros(run), SentCodes(data, r2, s, i', max));
      return Ok((r2, cl', i'));
    } else {
      var cl' := cl[i := sym - 2];
      assert cl'[..i + 1] == cl[..i] + [sym - 2];
      assert cl'[i + 1..] == s.codeLength[i + 1..] by {
        assert cl[i + 1..] == s.codeLength[i + 1..];
      }
      PrefixedAppend(cl[..i], [sym - 2], SentCodes(data, step.1, s, i + 1, max));
      return Ok((step.1, cl', i + 1));
    }
  }

  /** The loop of `ReadCodeLength`: lengths up to `max` transmitted, the
      rest of the 510 zero. */
  method ReadCodeLengths(data: seq<byte>, r: Reader, s: State, max: int) returns (res: Result<(Reader, seq<nat>)>)
    requires InRange(r) && Wf(s) && 0 <= max <= NC
    ensures res.Ok? <==> SentCodes(data, r, s, 0, max).Ok?
    ensures res.Ok? ==> var (w, rEnd) := SentCodes(data, r, s, 0, max).value;
                        res.value.0 == rEnd && res.value.1 == w + Zeros(NC - |w|)
    ensures res.Ok? ==> InRange(res.value.0) && |res.value.1| == NC
    ensures res.Ok? ==> forall i :: max <= i < NC ==> res.value.1[i] == 0
  {
    hide Pow2, Shl, Shr, LowBits, Peek, FillBitBuffer, GetBits, ReadLengthSymbol, ZeroRun, SentCodes;
    var rr := r;
    var cl: seq<nat> := s.codeLength;
    var i := 0;
    assert Prefixed(cl[..0], SentCodes(data, r, s, 0, max)) == SentCodes(data, r, s, 0, max) by {
      if SentCodes(data, r, s, 0, max).Ok? {
        assert [] + SentCodes(data, r, s, 0, max).value.0 == SentCodes(data, r, s, 0, max).value.0;
      }
    }
    while i < max
      invariant CodesSoFar(data, r, s, max, rr, cl, i)
      decreases NC - i
    {
      var step :- CodeStep(data, r, s, max, rr, cl, i);
      rr, cl, i := step.0, step.1, step.2;
    }
    ghost var w := cl[..i];
    assert SentCodes(data, r, s, 0, max) == Ok((w, rr)) by {
      assert w + [] == w;
    }
    cl, i := PadZeros(cl, i, NC);
    assert cl == w + Zeros(NC - |w|);
    return Ok((rr, cl));
  }

  /** The literal/length lengths and reader of `ReadCodeLength`: a 9-bit
      count; count 0 gives all zero lengths and the constant symbol's 9
      bits; otherwise the lengths sent, then zeros. */
  function CodeLengths(data: seq<byte>, r: Reader, s: State): (res: Result<(seq<nat>, Reader)>)
    requires InRange(r) && Wf(s)
    ensures res.Ok? ==> |res.value.0| == NC && InRange(res.value.1)
  {
    var (n, r1) := GetBits(data, r, CBIT);
    if n == 0 then Ok((Zeros(NC), FillBitBuffer(data, r1, CBIT)))
    else
      match SentCodes(data, r1, s, 0, if n < NC then n else NC)
      case Err(e) => Err(e)
      case Ok((w, r2)) => Ok((w + Zeros(NC - |w|), r2))
  }

  /** `ReadCodeLength`: the 510 literal/length lengths and their decode
      table. Count 0 means one constant symbol; otherwise the lengths come
      coded by the length-of-lengths code, symbols 0 to 2 standing for runs
      of zeros and `c >= 3` for length `c - 2`. A run past the table's end
      is the CLR's index error. */
  method ReadCodeLength(data: seq<byte>, r: Reader, s: State) returns (res: Result<(Reader, State)>)
    requires InRange(r) && Wf(s)
    ensures res.Ok? ==> InRange(res.value.0) && Wf(res.value.1)
    ensures res.Ok? ==> res.value.1.(codeLength := s.codeLength, codeTable := s.codeTable,
                                     left := s.left, right := s.right) == s
    ensures res.Ok? ==> ShortPlaced(res.value.1.codeLength, NC, CODE_TABLE_BIT, res.value.1.codeTable, NC)
    ensures res.Ok? ==> CodeLengths(data, r, s) == Ok((res.value.1.codeLength, res.value.0))
    ensures res.Ok? && Peek(r, CBIT) == 0 ==>
              var c := Peek(FillBitBuffer(data, r, CBIT), CBIT);
              && (forall i :: 0 <= i < NC ==> res.value.1.codeLength[i] == 0)
              && (forall i :: 0 <= i < CODE_TABLE_SIZE ==> res.value.1.codeTable[i] == c)
              && Consumed(res.value.0) == Consumed(r) + 2 * CBIT
    ensures res.Ok? && Peek(r, CBIT) != 0 ==>
              && (forall i :: 0 <= i < NC ==> res.value.1.codeLength[i] <= 16)
              && (forall i :: Peek(r, CBIT) <= i < NC ==> res.value.1.codeLength[i] == 0)
    ensures res.Ok? ==> LongLinked(res.value.1.codeLength, NC, CODE_TABLE_BIT, CodeTree(res.value.1))
  {
    hide LeadsTo, RootsInTable, ZeroRegion, Base, SentCodes, Pow2, Shl, Shr, LowBits, CodeStart, Count;
    var (n, r1) := GetBits(data, r, CBIT);
    if n == 0 {
      var (c, r2) := GetBits(data, r1, CBIT);
      var s' := s.(codeLength := Zeros(NC), codeTable := seq(CODE_TABLE_SIZE, _ => c));
      return Ok((r2, s'));
    }
    var lengths :- ReadCodeLengths(data, r1, s, if n < NC then n else NC);
    var (rr, cl) := lengths;
    var built :- MakeTable(NC, cl, CODE_TABLE_BIT, Tree(s.codeTable, s.left, s.right));
    return Ok((rr, s.(codeLength := cl, codeTable := built.table, left := built.left, right := built.right)));
  }

  // ---------------------------------------------------------------------------
  // Decoding

  /** The three tables of a new block, in the order the source reads them. */
  method ReadBlockHeader(data: seq<byte>, r: Reader, s: State) returns (res: Result<(Reader, State)>)
    requires InRange(r) && Wf(s)
    ensures res.Ok? ==> InRange(res.value.0) && Wf(res.value.1) && TablesOk(res.value.1)
    ensures res.Ok? ==> res.value.1.blockSize == Peek(r, 16)
    ensures res.Ok? ==> res.value.1.np == s.np && res.value.1.positionBit == s.positionBit
    ensures res.Ok? ==>
              var r1 := FillBitBuffer(data, r, 16);
              var (lengths, r2) := PositionLengths(data, r1, s.positionLength, NT, TBIT, 3);
              exists mid: State ::
                && Wf(mid) && mid.positionLength == lengths
                && ShortPlaced(lengths, NT, POSITION_TABLE_BIT, mid.positionTable, NT)
                && CodeLengths(data, r2, mid).Ok?
                && var (codes, r3) := CodeLengths(data, r2, mid).value;
                   && res.value.1.codeLength == codes
                   && (res.value.1.positionLength, res.value.0)
                        == PositionLengths(data, r3, lengths, s.np, s.positionBit, -1)
    ensures res.Ok? ==> LongLinked(res.value.1.positionLength, s.np, POSITION_TABLE_BIT, PositionTree(res.value.1))
    ensures res.Ok? && PositionFits(res.value.1.positionLength, s.np) ==>
              LongLinked(res.value.1.codeLength, NC, CODE_TABLE_BIT, CodeTree(res.value.1))
  {
    var (size, r1) := GetBits(data, r, 16);
    var st := s.(blockSize := size);
    var rr := r1;
    var step :- ReadPositionLength(data, rr, st, NT, TBIT, 3);
    rr, st := step.0, step.1;
    ghost var mid := st;
    step :- ReadCodeLength(data, rr, st);
    rr, st := step.0, step.1;
    step :- ReadPositionLength(data, rr, st, st.np, st.positionBit, -1);
    rr, st := step.0, step.1;
    return Ok((rr, st));
  }

  /** The window opens with the code of short literal/length symbol `sym`. */
  ghost predicate ShortCodeAt(s: State, sym: int, window: int)
    requires Wf(s)
  {
    && 0 <= sym < NC && 1 <= s.codeLength[sym] <= CODE_TABLE_BIT
    && CodeStart(s.codeLength, NC, sym, MAX_LENGTH) <= window
    && window < CodeStart(s.codeLength, NC, sym, MAX_LENGTH) + Pow2(MAX_LENGTH - s.codeLength[sym])
  }

  /** The literal/length symbol of an open block, read through the code
      table: a short code by its entry, a long one of a complete code by
      the overflow walk. */
  lemma CodeSymbolReads(data: seq<byte>, r: Reader, s: State)
    requires InRange(r) && Wf(s)
    ensures TablesOk(s) ==>
              forall sym :: ShortCodeAt(s, sym, r.bitBuffer) ==>
                TableSymbol(data, r, s.codeLength, NC, CODE_TABLE_BIT, CodeTree(s), NC) == Ok((sym, FillBitBuffer(data, r, s.codeLength[sym])))
    ensures Valid(data, r) && Total(s.codeLength, NC) == 0x10000 && LongLinked(s.codeLength, NC, CODE_TABLE_BIT, CodeTree(s)) ==>
              forall sym :: CodeAt(s.codeLength, NC, sym, r.bitBuffer) && CODE_TABLE_BIT < s.codeLength[sym] ==>
                TableSymbol(data, r, s.codeLength, NC, CODE_TABLE_BIT, CodeTree(s), NC)
                == Ok((sym, FillBitBuffer(data, FillBitBuffer(data, r, CODE_TABLE_BIT), s.codeLength[sym] - CODE_TABLE_BIT)))
  {
    hide LongLinked, Total, TableSymbol, FillBitBuffer, Peek, WalkTo, Base, Count, Shl, Shr;
    Pow2Values();
    if TablesOk(s) {
      forall sym | ShortCodeAt(s, sym, r.bitBuffer)
        ensures TableSymbol(data, r, s.codeLength, NC, CODE_TABLE_BIT, CodeTree(s), NC) == Ok((sym, FillBitBuffer(data, r, s.codeLength[sym])))
      {
        TableShort(data, r, s.codeLength, NC, CODE_TABLE_BIT, CodeTree(s), NC, sym);
      }
    }
    if Valid(data, r) && Total(s.codeLength, NC) == 0x10000 && LongLinked(s.codeLength, NC, CODE_TABLE_BIT, CodeTree(s)) {
      assert Pow2(13) == 2 * Pow2(12);
      forall sym | CodeAt(s.codeLength, NC, sym, r.bitBuffer) && CODE_TABLE_BIT < s.codeLength[sym]
        ensures TableSymbol(data, r, s.codeLength, NC, CODE_TABLE_BIT, CodeTree(s), NC)
                == Ok((sym, FillBitBuffer(data, FillBitBuffer(data, r, CODE_TABLE_BIT), s.codeLength[sym] - CODE_TABLE_BIT)))
      {
        TableLong(data, r, s.codeLength, NC, CODE_TABLE_BIT, CodeTree(s), NC, sym);
      }
    }
  }

  /** `DecodeCode`: a new block header when the last block is used up,
      then one literal/length symbol: a direct entry of the code table, or
      an overflow walk from window bit 0 after the 12 table bits. */
  method DecodeCode(data: seq<byte>, r: Reader, s: State) returns (res: Result<(int, Reader, State)>)
    requires InRange(r) && Wf(s)
    ensures res.Ok? ==> 0 <= res.value.0 < NC && InRange(res.value.1) && Wf(res.value.2)
    ensures res.Ok? && s.blockSize != 0 ==> res.value.2 == s.(blockSize := s.blockSize - 1)
    ensures res.Ok? && s.blockSize == 0 ==> res.value.2.blockSize == Peek(r, 16) - 1 && TablesOk(res.value.2)
    ensures res.Ok? ==> res.value.2.np == s.np && res.value.2.positionBit == s.positionBit
    ensures s.blockSize != 0 && TablesOk(s) ==>
              forall sym :: ShortCodeAt(s, sym, r.bitBuffer) ==>
                res == Ok((sym, FillBitBuffer(data, r, s.codeLength[sym]), s.(blockSize := s.blockSize - 1)))
    ensures s.blockSize != 0 && Valid(data, r) && Total(s.codeLength, NC) == 0x10000
            && LongLinked(s.codeLength, NC, CODE_TABLE_BIT, CodeTree(s)) ==>
              forall sym :: CodeAt(s.codeLength, NC, sym, r.bitBuffer) && CODE_TABLE_BIT < s.codeLength[sym] ==>
                var r1 := FillBitBuffer(data, r, CODE_TABLE_BIT);
                res == Ok((sym, FillBitBuffer(data, r1, s.codeLength[sym] - CODE_TABLE_BIT), s.(blockSize := s.blockSize - 1)))
    ensures res.Ok? && s.blockSize == 0 && PositionFits(res.value.2.positionLength, s.np) ==>
              LongLinked(res.value.2.codeLength, NC, CODE_TABLE_BIT, CodeTree(res.value.2))
  {
    hide LongLinked, PositionFits, Total, TableSymbol, FillBitBuffer, Peek, WalkTo, Base, Count, Shl, Shr;
    var st := s;
    var rr := r;
    if st.blockSize == 0 {
      var header :- ReadBlockHeader(data, rr, st);
      rr, st := header.0, header.1;
    }
    var atHeader := st;
    st := st.(blockSize := st.blockSize - 1);
    assert st.codeLength == atHeader.codeLength && st.positionLength == atHeader.positionLength && CodeTree(st) == CodeTree(atHeader);
    Pow2Values();
    if s.blockSize != 0 {
      CodeSymbolReads(data, r, s);
    }
    var got :- ReadSymbol(data, rr, st.codeLength, NC, CODE_TABLE_BIT, CodeTree(st), NC);
    return Ok((got.0, got.1, st));
  }

  /** The position symbol, read through the position table: a short code
      by its entry, a long one of a complete code by the overflow walk. */
  lemma PositionSymbolReads(data: seq<byte>, r: Reader, s: State)
    requires InRange(r) && Wf(s)
    ensures TablesOk(s) ==>
              forall sym :: ShortPositionAt(s, sym, r.bitBuffer) ==>
                TableSymbol(data, r, s.positionLength, s.np, POSITION_TABLE_BIT, PositionTree(s), NPT)
                == Ok((sym, FillBitBuffer(data, r, s.positionLength[sym])))
    ensures Valid(data, r) && Total(s.positionLength, s.np) == 0x10000
            && LongLinked(s.positionLength, s.np, POSITION_TABLE_BIT, PositionTree(s)) ==>
              forall sym :: CodeAt(s.positionLength, s.np, sym, r.bitBuffer) && POSITION_TABLE_BIT < s.positionLength[sym] ==>
                TableSymbol(data, r, s.positionLength, s.np, POSITION_TABLE_BIT, PositionTree(s), NPT)
                == Ok((sym, FillBitBuffer(data, FillBitBuffer(data, r, POSITION_TABLE_BIT), s.positionLength[sym] - POSITION_TABLE_BIT)))
  {
    hide LongLinked, Total, TableSymbol, FillBitBuffer, Peek, WalkTo, Base, Count, Shl, Shr;
    Pow2Values();
    if TablesOk(s) {
      forall sym | ShortPositionAt(s, sym, r.bitBuffer)
        ensures TableSymbol(data, r, s.positionLength, s.np, POSITION_TABLE_BIT, PositionTree(s), NPT)
                == Ok((sym, FillBitBuffer(data, r, s.positionLength[sym])))
      {
        TableShort(data, r, s.positionLength, s.np, POSITION_TABLE_BIT, PositionTree(s), NPT, sym);
      }
    }
    if Valid(data, r) && Total(s.positionLength, s.np) == 0x10000
       && LongLinked(s.positionLength, s.np, POSITION_TABLE_BIT, PositionTree(s)) {
      assert Pow2(9) == 2 * Pow2(8);
      forall sym | CodeAt(s.positionLength, s.np, sym, r.bitBuffer) && POSITION_TABLE_BIT < s.positionLength[sym]
        ensures TableSymbol(data, r, s.positionLength, s.np, POSITION_TABLE_BIT, PositionTree(s), NPT)
                == Ok((sym, FillBitBuffer(data, FillBitBuffer(data, r, POSITION_TABLE_BIT), s.positionLength[sym] - POSITION_TABLE_BIT)))
      {
        TableLong(data, r, s.positionLength, s.np, POSITION_TABLE_BIT, PositionTree(s), NPT, sym);
      }
    }
  }

  /** The position symbol: a direct entry of the position table, or an
      overflow walk after the 8 table bits. */
  method DecodePositionSymbol(data: seq<byte>, r: Reader, s: State) returns (res: Result<(int, Reader)>)
    requires InRange(r) && Wf(s)
    ensures res.Ok? ==> 0 <= res.value.0 < NPT && InRange(res.value.1)
    ensures TablesOk(s) ==>
              forall sym :: ShortPositionAt(s, sym, r.bitBuffer) ==>
                res == Ok((sym, FillBitBuffer(data, r, s.positionLength[sym])))
    ensures Valid(data, r) && Total(s.positionLength, s.np) == 0x10000
            && LongLinked(s.positionLength, s.np, POSITION_TABLE_BIT, PositionTree(s)) ==>
              forall sym :: CodeAt(s.positionLength, s.np, sym, r.bitBuffer) && POSITION_TABLE_BIT < s.positionLength[sym] ==>
                var r1 := FillBitBuffer(data, r, POSITION_TABLE_BIT);
                res == Ok((sym, FillBitBuffer(data, r1, s.positionLength[sym] - POSITION_TABLE_BIT)))
  {
    hide LongLinked, Total, TableSymbol, FillBitBuffer, Peek, WalkTo, Base, Count, Shl, Shr;
    Pow2Values();
    PositionSymbolReads(data, r, s);
    res := ReadSymbol(data, r, s.positionLength, s.np, POSITION_TABLE_BIT, PositionTree(s), NPT);
  }

  /** Position symbol `j` stands for 0 (`j = 0`) or for `2^(j-1)` plus
      `j - 1` extra bits. Extra fields wider than the window are outside
      the model. */
  function PositionValue(data: seq<byte>, r: Reader, j: int): (res: Result<(int, Reader)>)
    requires InRange(r) && 0 <= j
    ensures j == 0 ==> res == Ok((0, r))
    ensures 1 <= j <= 17 ==> res.Ok? && Pow2(j - 1) <= res.value.0 < Pow2(j)
                             && Consumed(res.value.1) == Consumed(r) + j - 1 && InRange(res.value.1)
    ensures res.Ok? ==> 0 <= res.value.0 < 0x10000 * 2
  {
    if j == 0 then Ok((0, r))
    else if j - 1 > 16 then Err(Malformed)
    else
      var (x, r') := GetBits(data, r, j - 1);
      Pow2Values();
      assert Pow2(j) == 2 * Pow2(j - 1);
      Pow2Monotone(j - 1, 16);
      Ok((Pow2(j - 1) + x, r'))
  }

  /** The window opens with the code of short position symbol `sym`. */
  ghost predicate ShortPositionAt(s: State, sym: int, window: int)
    requires Wf(s)
  {
    && 0 <= sym < s.np && 1 <= s.positionLength[sym] <= POSITION_TABLE_BIT
    && CodeStart(s.positionLength, s.np, sym, MAX_LENGTH) <= window
    && window < CodeStart(s.positionLength, s.np, sym, MAX_LENGTH) + Pow2(MAX_LENGTH - s.positionLength[sym])
  }

  /** The offset of symbol `j` is `2^(j-1)` plus the `j - 1` stream bits
      that follow the symbol's code. */
  lemma PositionValueReads(data: seq<byte>, r: Reader, j: int)
    requires Valid(data, r) && 1 <= j <= 17
    ensures var res := PositionValue(data, r, j);
            && res.Ok? && Valid(data, res.value.1)
            && res.value.0 == Pow2(j - 1) + Bits(data, Consumed(r), j - 1)
  {
    hide Bits, Shl, Shr, LowBits, StreamBit, FillBitBuffer;
    GetBitsReads(data, r, j - 1);
  }

  /** `DecodePosition`: the offset of a match. */
  method DecodePosition(data: seq<byte>, r: Reader, s: State) returns (res: Result<(int, Reader)>)
    requires InRange(r) && Wf(s)
    ensures res.Ok? ==> 0 <= res.value.0 < 0x10000 * 2 && InRange(res.value.1)
    ensures TablesOk(s) ==>
              forall sym :: ShortPositionAt(s, sym, r.bitBuffer) ==>
                res == PositionValue(data, FillBitBuffer(data, r, s.positionLength[sym]), sym)
    ensures Valid(data, r) && Total(s.positionLength, s.np) == 0x10000
            && LongLinked(s.positionLength, s.np, POSITION_TABLE_BIT, PositionTree(s)) ==>
              forall sym :: CodeAt(s.positionLength, s.np, sym, r.bitBuffer) && POSITION_TABLE_BIT < s.positionLength[sym] ==>
                var r1 := FillBitBuffer(data, r, POSITION_TABLE_BIT);
                res == PositionValue(data, FillBitBuffer(data, r1, s.positionLength[sym] - POSITION_TABLE_BIT), sym)
  {
    var sym :- DecodePositionSymbol(data, r, s);
    res := PositionValue(data, sym.1, sym.0);
  }
}
