/** `LhDecoder.MakeTable` (Library/LhDecoder.cs): the decode table of a
    canonical Huffman code.

    Symbols are ordered by code length and, within a length, by symbol
    number; each gets the next free code of its length. A code of length
    `l` occupies `2^(16 - l)` of the 65536 sixteen-bit window values. Codes
    no longer than `tableBits` fill a direct table indexed by the top
    `tableBits` bits of the window; longer codes hang a binary overflow tree
    (`treeLeft`/`treeRight`) off a direct entry.

    The reference code is given by `Count`, `Base` and `CodeStart`, defined
    by symbol counting alone; `MakeTable` is shown to place every short code
    exactly on the direct entries its code covers. */
module LhTable {
  import opened Outcome
  import opened BitStream
  import opened BitReader

  const MAX_LENGTH := 16
  const TABLE_LIMIT := 4096

  /** The direct table and the two halves of the overflow tree; the tree
      arrays are shared by every table a decoder builds. */
  datatype Tree = Tree(table: seq<int>, left: seq<int>, right: seq<int>)

  // ---------------------------------------------------------------------------
  // The canonical code

  /** Symbols below `n` whose code length is `l`. */
  function Count(bl: seq<nat>, n: nat, l: nat): (c: nat)
    requires n <= |bl|
    ensures c <= n
  {
    if n == 0 then 0 else Count(bl, n - 1, l) + (if bl[n - 1] == l then 1 else 0)
  }

  /** The first code of length `l`, left-aligned to `w` bits: the room the
      codes shorter than `l` take up. */
  function Base(bl: seq<nat>, n: nat, l: nat, w: nat): (b: int)
    requires n <= |bl| && 1 <= l <= w + 1
    ensures b >= 0
    decreases l
  {
    if l == 1 then 0 else Base(bl, n, l - 1, w) + Count(bl, n, l - 1) * Pow2(w - (l - 1))
  }

  /** The code of symbol `s`, left-aligned to `w` bits: the first code of
      its length, plus one step for each smaller symbol of the same length. */
  function CodeStart(bl: seq<nat>, n: nat, s: nat, w: nat): (c: int)
    requires s < n <= |bl| && 1 <= bl[s] <= w
    ensures c >= 0
  {
    Base(bl, n, bl[s], w) + Count(bl, s, bl[s]) * Pow2(w - bl[s])
  }

  /** The room all codes take up in the 16-bit window space: exactly 65536
      for a complete code. */
  function Total(bl: seq<nat>, n: nat): int
    requires n <= |bl|
  {
    Base(bl, n, MAX_LENGTH + 1, MAX_LENGTH)
  }

  function Clamp(x: int): int
  {
    if x > TABLE_LIMIT then TABLE_LIMIT else x
  }

  /** Direct entry `i` lies in the range of short symbol `s`. */
  predicate Covers(bl: seq<nat>, n: nat, tb: nat, s: nat, i: int)
    requires s < n <= |bl|
  {
    1 <= bl[s] <= tb && CodeStart(bl, n, s, tb) <= i < Clamp(CodeStart(bl, n, s, tb) + Pow2(tb - bl[s]))
  }

  /** Every short symbol below `upto` sits on every entry of its range. */
  ghost predicate ShortPlaced(bl: seq<nat>, n: nat, tb: nat, table: seq<int>, upto: nat)
    requires upto <= n <= |bl|
  {
    forall s, i :: 0 <= s < upto && 0 <= i < |table| && Covers(bl, n, tb, s, i) ==> table[i] == s
  }

  predicate AllZero(bl: seq<nat>, n: nat)
    requires n <= |bl|
  {
    forall i :: 0 <= i < n ==> bl[i] == 0
  }

  /** Every length below `n` fits the direct table. */
  predicate AllShort(bl: seq<nat>, n: nat, tb: nat)
    requires n <= |bl|
  {
    forall i :: 0 <= i < n ==> bl[i] <= tb
  }

  // ---------------------------------------------------------------------------
  // Facts about the canonical code

  lemma {:induction false} CountMono(bl: seq<nat>, a: nat, b: nat, l: nat)
    requires a <= b <= |bl|
    ensures Count(bl, a, l) <= Count(bl, b, l)
    decreases b - a
  {
    if a < b {
      CountMono(bl, a, b - 1, l);
    }
  }

  /** A later symbol of the same length has counted `s` already. */
  lemma CountAfter(bl: seq<nat>, s: nat, t: nat)
    requires s < t <= |bl|
    ensures Count(bl, s, bl[s]) + 1 <= Count(bl, t, bl[s])
  {
    CountMono(bl, s + 1, t, bl[s]);
  }

  lemma MulMono(a: int, b: int, p: int)
    requires a <= b && p >= 0
    ensures a * p <= b * p
  {
    assert b * p - a * p == (b - a) * p;
  }

  lemma {:induction false} BaseMono(bl: seq<nat>, n: nat, l1: nat, l2: nat, w: nat)
    requires n <= |bl| && 1 <= l1 <= l2 <= w + 1
    ensures Base(bl, n, l1, w) <= Base(bl, n, l2, w)
    decreases l2 - l1
  {
    if l1 < l2 {
      BaseMono(bl, n, l1, l2 - 1, w);
    }
  }

  /** A code ends no later than where the next length begins. */
  lemma CodeEnd(bl: seq<nat>, n: nat, s: nat, w: nat)
    requires s < n <= |bl| && 1 <= bl[s] <= w
    ensures CodeStart(bl, n, s, w) + Pow2(w - bl[s]) <= Base(bl, n, bl[s] + 1, w)
  {
    var k := bl[s];
    var p := Pow2(w - k);
    CountAfter(bl, s, n);
    MulMono(Count(bl, s, k) + 1, Count(bl, n, k), p);
    assert (Count(bl, s, k) + 1) * p == Count(bl, s, k) * p + p;
  }

  /** The ranges of two different symbols do not overlap. */
  lemma Disjoint(bl: seq<nat>, n: nat, s1: nat, s2: nat, w: nat)
    requires s1 < s2 < n <= |bl| && 1 <= bl[s1] <= w && 1 <= bl[s2] <= w
    ensures || CodeStart(bl, n, s1, w) + Pow2(w - bl[s1]) <= CodeStart(bl, n, s2, w)
            || CodeStart(bl, n, s2, w) + Pow2(w - bl[s2]) <= CodeStart(bl, n, s1, w)
  {
    var k1, k2 := bl[s1], bl[s2];
    CodeEnd(bl, n, s1, w);
    CodeEnd(bl, n, s2, w);
    if k1 == k2 {
      var p := Pow2(w - k1);
      CountAfter(bl, s1, s2);
      MulMono(Count(bl, s1, k1) + 1, Count(bl, s2, k1), p);
      assert (Count(bl, s1, k1) + 1) * p == Count(bl, s1, k1) * p + p;
    } else if k1 < k2 {
      BaseMono(bl, n, k1 + 1, k2, w);
      MulMono(0, Count(bl, s2, k2), Pow2(w - k2));
    } else {
      BaseMono(bl, n, k2 + 1, k1, w);
      MulMono(0, Count(bl, s1, k1), Pow2(w - k1));
    }
  }

  lemma {:induction false} ShlMul(c: int, x: int, m: nat)
    ensures Shl(c * x, m) == c * Shl(x, m)
    decreases m
  {
    if m > 0 {
      ShlMul(c, x, m - 1);
      assert 2 * (c * Shl(x, m - 1)) == c * (2 * Shl(x, m - 1));
    }
  }

  /** Left-aligning to 16 bits is left-aligning to `tb` bits and shifting. */
  lemma {:induction false} Scale(bl: seq<nat>, n: nat, l: nat, tb: nat)
    requires n <= |bl| && 1 <= l <= tb + 1 && tb <= MAX_LENGTH
    ensures Base(bl, n, l, MAX_LENGTH) == Shl(Base(bl, n, l, tb), MAX_LENGTH - tb)
    decreases l
  {
    hide Shl, Count, Pow2;
    var m := MAX_LENGTH - tb;
    if l == 1 {
      ShlZero(m);
    } else {
      Scale(bl, n, l - 1, tb);
      var c := Count(bl, n, l - 1);
      var p := Pow2(tb - (l - 1));
      Pow2Add(tb - (l - 1), m);
      ShlMul(c, p, m);
      ShlDistributes(Base(bl, n, l - 1, tb), c * p, m);
    }
  }

  lemma ScaleCode(bl: seq<nat>, n: nat, s: nat, tb: nat)
    requires s < n <= |bl| && 1 <= bl[s] <= tb <= MAX_LENGTH
    ensures CodeStart(bl, n, s, MAX_LENGTH) == Shl(CodeStart(bl, n, s, tb), MAX_LENGTH - tb)
    ensures Pow2(MAX_LENGTH - bl[s]) == Shl(Pow2(tb - bl[s]), MAX_LENGTH - tb)
  {
    hide Shl, Pow2, Base, Count;
    var m := MAX_LENGTH - tb;
    var k := bl[s];
    Scale(bl, n, k, tb);
    Pow2Add(tb - k, m);
    ShlMul(Count(bl, s, k), Pow2(tb - k), m);
    ShlDistributes(Base(bl, n, k, tb), Count(bl, s, k) * Pow2(tb - k), m);
  }

  lemma ShrShlExact(x: int, m: nat)
    ensures Shr(Shl(x, m), m) == x
  {
    ShrConcat(x, 0, m);
  }

  lemma {:induction false} ShrMono(a: int, b: int, m: nat)
    requires a <= b
    ensures Shr(a, m) <= Shr(b, m)
    decreases m
  {
    if m > 0 {
      ShrMono(a / 2, b / 2, m - 1);
    }
  }

  lemma {:induction false} ShrAddShl(a: int, d: int, m: nat)
    requires d >= 0
    ensures Shr(Shl(a, m) + d, m) == a + Shr(d, m)
    decreases m
  {
    if m > 0 {
      assert (Shl(a, m) + d) / 2 == Shl(a, m - 1) + d / 2;
      ShrAddShl(a, d / 2, m - 1);
    }
  }

  /** Dropping the low `m` bits of a window value that starts with the code
      of a short symbol lands in that symbol's direct range: the lookup side
      of the table. */
  lemma DirectLookup(bl: seq<nat>, n: nat, s: nat, tb: nat, x: int)
    requires s < n <= |bl| && 1 <= bl[s] <= tb <= MAX_LENGTH
    requires CodeStart(bl, n, s, MAX_LENGTH) <= x < CodeStart(bl, n, s, MAX_LENGTH) + Pow2(MAX_LENGTH - bl[s])
    ensures CodeStart(bl, n, s, tb) <= Shr(x, MAX_LENGTH - tb) < CodeStart(bl, n, s, tb) + Pow2(tb - bl[s])
  {
    hide Shl, Shr, Pow2, CodeStart, Base, Count;
    var m := MAX_LENGTH - tb;
    var a := CodeStart(bl, n, s, tb);
    var p := Pow2(tb - bl[s]);
    ScaleCode(bl, n, s, tb);
    var d := x - Shl(a, m);
    ShrAddShl(a, d, m);
    assert d < Shl(p, m);
    ShlDistributes(p - 1, 1, m);
    ShlOfPow2(m);
    ShrMono(d, Shl(p - 1, m) + (Pow2(m) - 1), m);
    ShrConcat(p - 1, Pow2(m) - 1, m);
    ShrMono(0, d, m);
    ShrZero(m);
  }

  lemma {:induction false} AllZeroCount(bl: seq<nat>, n: nat, l: nat)
    requires n <= |bl| && AllZero(bl, n) && l >= 1
    ensures Count(bl, n, l) == 0
    decreases n
  {
    if n > 0 {
      AllZeroCount(bl, n - 1, l);
    }
  }

  /** No length beyond the direct table is counted when every length fits it. */
  lemma {:induction false} CountLong(bl: seq<nat>, n: nat, tb: nat, l: nat)
    requires n <= |bl| && AllShort(bl, n, tb) && tb < l
    ensures Count(bl, n, l) == 0
    decreases n
  {
    if n > 0 {
      CountLong(bl, n - 1, tb, l);
    }
  }

  /** When every length fits the direct table, the codes take up no room
      past the table's lengths. */
  lemma {:induction false} BaseLong(bl: seq<nat>, n: nat, tb: nat, l: nat)
    requires n <= |bl| && AllShort(bl, n, tb) && tb < MAX_LENGTH && tb + 1 <= l <= MAX_LENGTH + 1
    ensures Base(bl, n, l, MAX_LENGTH) == Base(bl, n, tb + 1, MAX_LENGTH)
    decreases l
  {
    hide Pow2, Count, AllShort;
    if l > tb + 1 {
      BaseLong(bl, n, tb, l - 1);
      CountLong(bl, n, tb, l - 1);
    }
  }

  /** A complete code whose lengths all fit the direct table fills exactly
      its `2^tb` entries. */
  lemma CompleteShortBase(bl: seq<nat>, n: nat, tb: nat)
    requires n <= |bl| && AllShort(bl, n, tb) && tb < MAX_LENGTH && Total(bl, n) == 0x10000
    ensures Base(bl, n, tb + 1, tb) == Pow2(tb)
  {
    var m := MAX_LENGTH - tb;
    BaseLong(bl, n, tb, MAX_LENGTH + 1);
    Scale(bl, n, tb + 1, tb);
    Pow2Add(tb, m);
    Pow2Values();
    ShrShlExact(Base(bl, n, tb + 1, tb), m);
    ShrShlExact(Pow2(tb), m);
  }

  lemma {:induction false} AllZeroBase(bl: seq<nat>, n: nat, l: nat, w: nat)
    requires n <= |bl| && AllZero(bl, n) && 1 <= l <= w + 1
    ensures Base(bl, n, l, w) == 0
    decreases l
  {
    if l > 1 {
      AllZeroBase(bl, n, l - 1, w);
      AllZeroCount(bl, n, l - 1);
    }
  }

  lemma CountSucc(bl: seq<nat>, i: nat, l: nat)
    requires i < |bl|
    ensures Count(bl, i + 1, l) == Count(bl, i, l) + (if bl[i] == l then 1 else 0)
  {
  }

  lemma BaseFirst(bl: seq<nat>, n: nat, w: nat)
    requires n <= |bl|
    ensures Base(bl, n, 1, w) == 0
  {
  }

  lemma BaseSucc(bl: seq<nat>, n: nat, l: nat, w: nat)
    requires n <= |bl| && 1 <= l <= w
    ensures Base(bl, n, l + 1, w) == Base(bl, n, l, w) + Count(bl, n, l) * Pow2(w - l)
  {
  }

  // ---------------------------------------------------------------------------
  // Array helpers

  /** Write `v` into every entry from `lo` up to, not including, `hi`. */
  method Fill(a: seq<int>, lo: int, hi: int, v: int) returns (r: Result<seq<int>>)
    requires lo >= 0
    ensures r.Ok? <==> hi <= lo || hi <= |a|
    ensures r.Ok? ==> |r.value| == |a|
    ensures r.Ok? ==> forall i :: 0 <= i < |a| ==> r.value[i] == if lo <= i < hi then v else a[i]
  {
    if lo < hi && hi > |a| {
      return Err(IndexOutOfRange);
    }
    var b := a;
    var i := lo;
    while i < hi
      invariant |b| == |a|
      invariant lo <= i && (lo < hi ==> i <= hi) && (hi <= lo ==> i == lo)
      invariant forall k :: 0 <= k < |a| ==> b[k] == if lo <= k < i then v else a[k]
    {
      b := b[i := v];
      i := i + 1;
    }
    assert i == if lo < hi then hi else lo;
    return Ok(b);
  }

  /** Which array the overflow walk is looking at. */
  datatype Side = InTable | InLeft | InRight

  function Get(tr: Tree, t: Side, p: int): (r: Result<int>)
    ensures r.Ok? <==> 0 <= p < |match t case InTable => tr.table case InLeft => tr.left case InRight => tr.right|
    ensures r.Ok? ==> r.value == Held(tr, Slot(t, p))
  {
    var a := match t case InTable => tr.table case InLeft => tr.left case InRight => tr.right;
    if 0 <= p < |a| then Ok(a[p]) else Err(IndexOutOfRange)
  }

  function Set(tr: Tree, t: Side, p: int, v: int): (r: Result<Tree>)
    ensures r.Ok? ==> |r.value.table| == |tr.table| && |r.value.left| == |tr.left| && |r.value.right| == |tr.right|
    ensures r.Ok? && t != InTable ==> r.value.table == tr.table
    ensures r.Ok? && t == InTable ==> 0 <= p < |tr.table| && r.value.table == tr.table[p := v]
    ensures r.Ok? ==> r.value == Put(tr, Slot(t, p), v)
  {
    match t
    case InTable => if 0 <= p < |tr.table| then Ok(tr.(table := tr.table[p := v])) else Err(IndexOutOfRange)
    case InLeft => if 0 <= p < |tr.left| then Ok(tr.(left := tr.left[p := v])) else Err(IndexOutOfRange)
    case InRight => if 0 <= p < |tr.right| then Ok(tr.(right := tr.right[p := v])) else Err(IndexOutOfRange)
  }

  // ---------------------------------------------------------------------------
  // The overflow tree

  /** A place that holds a value: a direct entry, or the left or right
      link of a node. */
  datatype Slot = Slot(side: Side, index: int)

  /** What slot `x` holds; -1 for a slot outside its array. */
  function Held(tr: Tree, x: Slot): int
  {
    var a := match x.side case InTable => tr.table case InLeft => tr.left case InRight => tr.right;
    if 0 <= x.index < |a| then a[x.index] else -1
  }

  /** The symbol count, and the direct entries `[z, limit)` that were
      cleared before the symbols were placed. */
  datatype Build = Build(nchar: int, z: int, limit: int)

  /** A slot the walks of the tree being built can reach: a cleared direct
      entry, or a link of a node allocated so far (`[nchar, avail)`). */
  predicate Live(tr: Tree, b: Build, avail: int, x: Slot)
  {
    match x.side
    case InTable => 0 <= b.z <= x.index < b.limit && x.index < |tr.table|
    case _ => 0 <= b.nchar <= x.index < avail && x.index < |tr.left| && x.index < |tr.right|
  }

  /** Bit `i` of a code picks the right link when set, the left one when
      clear. */
  function Turn(code: int, i: nat): Side
  {
    if ByteBit(code, i) == 1 then InRight else InLeft
  }

  /** The slot `d` levels down the overflow walk of the 16-bit `code`
      whose top `16 - m` bits index the direct table: that entry for
      `d = 0`, then the link that bit `m - d` picks out of the node one
      level up. */
  function SlotAt(tr: Tree, code: int, m: nat, d: nat): Slot
    requires d <= m
  {
    if d == 0 then Slot(InTable, Shr(code, m))
    else Slot(Turn(code, m - d), Held(tr, SlotAt(tr, code, m, d - 1)))
  }

  /** The walk of `code` passes nodes (values from `nchar` on) on its first
      `steps` levels and finds `sym` below them: what a decoder walking
      the code's bits finds. */
  ghost predicate LeadsTo(tr: Tree, nchar: int, code: int, m: nat, steps: nat, sym: int)
    requires steps <= m
  {
    && (forall d :: 0 <= d < steps ==> Held(tr, SlotAt(tr, code, m, d)) >= nchar)
    && Held(tr, SlotAt(tr, code, m, steps)) == sym
  }

  /** The first `d` levels of `code`'s walk hold nodes, and every slot down
      to level `d` is live. */
  ghost predicate Walked(tr: Tree, b: Build, avail: int, code: int, m: nat, d: nat)
    requires d <= m
  {
    && (forall i :: 0 <= i <= d ==> Live(tr, b, avail, SlotAt(tr, code, m, i)))
    && (forall i :: 0 <= i < d ==> Held(tr, SlotAt(tr, code, m, i)) >= b.nchar)
  }

  ghost predicate Reaches(tr: Tree, b: Build, avail: int, code: int, m: nat, steps: nat, sym: int)
    requires steps <= m
  {
    Walked(tr, b, avail, code, m, steps) && Held(tr, SlotAt(tr, code, m, steps)) == sym
  }

  /** The tree while it is built: every live slot holds 0, a symbol or a
      node allocated so far, allocated nodes lie inside the link arrays, and
      no node hangs from two live slots. */
  ghost predicate Shaped(tr: Tree, b: Build, avail: int)
  {
    && 0 < b.nchar <= avail
    && (avail > b.nchar ==> avail <= |tr.left| && avail <= |tr.right|)
    && (forall x :: Live(tr, b, avail, x) ==> 0 <= Held(tr, x) < avail)
    && (forall x, y :: Live(tr, b, avail, x) && Live(tr, b, avail, y) && Held(tr, x) == Held(tr, y) && Held(tr, x) >= b.nchar ==> x == y)
  }

  /** Neither code is a prefix of the other: they differ within the
      shorter one's bits. */
  predicate Apart(c1: int, l1: nat, c2: int, l2: nat, m: nat)
    requires l1 <= m && l2 <= m
  {
    var e := if l1 <= l2 then l1 else l2;
    Shr(c1, m - e) != Shr(c2, m - e)
  }

  /** Below level `d`, each level of `code`'s walk holds a node, until one
      holds 0: no symbol sits on the way. */
  ghost predicate Unblocked(tr: Tree, nchar: int, code: int, m: nat, d: nat, steps: nat)
    requires d <= steps <= m
    decreases steps - d
  {
    d == steps ||
    var v := Held(tr, SlotAt(tr, code, m, d));
    v == 0 || (v >= nchar && Unblocked(tr, nchar, code, m, d + 1, steps))
  }

  /** The walk of `code` visits the same slots in `tr'` as in `tr`. */
  ghost predicate SamePath(tr: Tree, tr': Tree, code: int, m: nat, steps: nat)
    requires steps <= m
  {
    forall d :: 0 <= d <= steps ==> SlotAt(tr', code, m, d) == SlotAt(tr, code, m, d)
  }

  lemma {:induction false} ShlShrLow(x: int, k: nat)
    ensures x == Shl(Shr(x, k), k) + LowBits(x, k)
    decreases k
  {
    if k > 0 {
      ShlShrLow(x / 2, k - 1);
    }
  }

  /** The value of the top bits grows by one bit per level. */
  lemma KeyStep(x: int, i: nat)
    ensures Shr(x, i) == 2 * Shr(x, i + 1) + ByteBit(x, i)
  {
    ShrSucc(x, i);
    ByteBitIsShr(x, i);
  }

  /** Live slots stay live as more nodes are allocated. */
  lemma LiveGrows(tr: Tree, tr': Tree, b: Build, avail: int, avail': int, x: Slot)
    requires |tr'.table| == |tr.table| && |tr'.left| == |tr.left| && |tr'.right| == |tr.right|
    requires avail <= avail' && Live(tr, b, avail, x)
    ensures Live(tr', b, avail', x)
  {
  }

  /** A walk whose slots above level `d` hold what they held before finds
      the same slots down to level `d`. */
  lemma {:induction false} SlotsKept(tr: Tree, tr': Tree, code: int, m: nat, d: nat)
    requires d <= m
    requires forall i :: 0 <= i < d ==> Held(tr', SlotAt(tr, code, m, i)) == Held(tr, SlotAt(tr, code, m, i))
    ensures SamePath(tr, tr', code, m, d)
    decreases d
  {
    if d > 0 {
      SlotsKept(tr, tr', code, m, d - 1);
      assert SlotAt(tr', code, m, d) == SlotAt(tr, code, m, d);
    }
  }

  /** A node of a shaped tree is linked from one live slot only. */
  lemma ShapedOnce(tr: Tree, b: Build, avail: int, x: Slot, y: Slot)
    requires Shaped(tr, b, avail) && Live(tr, b, avail, x) && Live(tr, b, avail, y)
    requires Held(tr, x) == Held(tr, y) >= b.nchar
    ensures x == y
  {
  }

  /** On a shaped tree two walks meet only on the same level, having read
      the same bits. */
  lemma {:induction false} SlotsMeet(tr: Tree, b: Build, avail: int, c1: int, d1: nat, c2: int, d2: nat, m: nat)
    requires Shaped(tr, b, avail) && d1 <= m && d2 <= m
    requires Walked(tr, b, avail, c1, m, d1) && Walked(tr, b, avail, c2, m, d2)
    requires SlotAt(tr, c1, m, d1) == SlotAt(tr, c2, m, d2)
    ensures d1 == d2 && Shr(c1, m - d1) == Shr(c2, m - d2)
    decreases d1
  {
    hide Shr, ByteBit, Shaped;
    if d1 > 0 && d2 > 0 {
      var x1 := SlotAt(tr, c1, m, d1 - 1);
      var x2 := SlotAt(tr, c2, m, d2 - 1);
      WalkedPrefix(tr, b, avail, c1, m, d1 - 1, d1);
      WalkedPrefix(tr, b, avail, c2, m, d2 - 1, d2);
      assert Live(tr, b, avail, x1) && Held(tr, x1) >= b.nchar;
      assert Live(tr, b, avail, x2);
      assert Held(tr, x1) == Held(tr, x2);
      ShapedOnce(tr, b, avail, x1, x2);
      SlotsMeet(tr, b, avail, c1, d1 - 1, c2, d2 - 1, m);
      KeyStep(c1, m - d1);
      KeyStep(c2, m - d2);
      assert ByteBit(c1, m - d1) == ByteBit(c2, m - d2);
    }
  }

  /** Slot `x` lies inside its array. */
  predicate InArray(tr: Tree, x: Slot)
  {
    0 <= x.index < |match x.side case InTable => tr.table case InLeft => tr.left case InRight => tr.right|
  }

  /** `t[p] = v` on the array slot `x` names; a slot outside its array is
      left alone. */
  function Put(tr: Tree, x: Slot, v: int): (tr': Tree)
    ensures |tr'.table| == |tr.table| && |tr'.left| == |tr.left| && |tr'.right| == |tr.right|
    ensures forall y :: Held(tr', y) == if y == x && InArray(tr, x) then v else Held(tr, y)
  {
    match x.side
    case InTable => if 0 <= x.index < |tr.table| then tr.(table := tr.table[x.index := v]) else tr
    case InLeft => if 0 <= x.index < |tr.left| then tr.(left := tr.left[x.index := v]) else tr
    case InRight => if 0 <= x.index < |tr.right| then tr.(right := tr.right[x.index := v]) else tr
  }

  /** Take node `av` from the free region: clear both its children and
      link it from slot `x`. */
  function Alloc(tr: Tree, x: Slot, av: int): (tr': Tree)
    requires 0 <= av < |tr.left| && av < |tr.right|
    ensures |tr'.table| == |tr.table| && |tr'.left| == |tr.left| && |tr'.right| == |tr.right|
    ensures InArray(tr, x) && x != Slot(InLeft, av) && x != Slot(InRight, av) ==>
              && Held(tr', x) == av && Held(tr', Slot(InLeft, av)) == 0 && Held(tr', Slot(InRight, av)) == 0
              && forall y :: y != x && y != Slot(InLeft, av) && y != Slot(InRight, av) ==> Held(tr', y) == Held(tr, y)
  {
    var t0 := tr.(right := tr.right[av := 0]).(left := tr.left[av := 0]);
    assert forall y :: y != Slot(InLeft, av) && y != Slot(InRight, av) ==> Held(t0, y) == Held(tr, y);
    Put(t0, x, av)
  }

  /** What the overflow walk of one long code needs to find its way: a
      shaped tree, no symbol on the way, and a root entry inside the
      cleared region. */
  ghost predicate Ready(tr: Tree, b: Build, avail: int, p0: int, start: int, m: nat, steps: nat, sym: int)
    requires steps <= m
  {
    && Shaped(tr, b, avail)
    && Unblocked(tr, b.nchar, start, m, 0, steps)
    && p0 == Shr(start, m) && 0 <= b.z <= p0 < b.limit && p0 < |tr.table|
    && 0 <= sym < b.nchar
  }

  /** Every code apart from the one being placed still reaches its symbol
      along the slots it took in `tr`. */
  ghost predicate OthersKept(tr: Tree, avail: int, b: Build, cur: Tree, av: int, start: int, m: nat, steps: nat)
    requires steps <= m
  {
    forall c, l: nat, s :: l <= m && Reaches(tr, b, avail, c, m, l, s) && Apart(c, l, start, steps, m) ==>
      Reaches(cur, b, av, c, m, l, s) && SamePath(tr, cur, c, m, l)
  }

  /** Every live slot holds what it held in `tr`, 0, or a node. */
  ghost predicate NoStray(tr: Tree, avail: int, b: Build, cur: Tree, av: int)
  {
    forall y :: Live(cur, b, av, y) ==>
      (Live(tr, b, avail, y) && Held(cur, y) == Held(tr, y)) || Held(cur, y) == 0 || Held(cur, y) >= b.nchar
  }

  /** The walk of one long code after `step` levels: the tree is still
      shaped, the code's slots so far hold nodes, either nothing was
      written yet or the current slot is a fresh link, other codes keep
      their way, and no live slot holds a stray symbol. */
  ghost predicate Descending(tr: Tree, avail: int, b: Build, cur: Tree, av: int, start: int, m: nat, step: nat, steps: nat)
    requires step <= steps <= m
  {
    && |cur.table| == |tr.table| && |cur.left| == |tr.left| && |cur.right| == |tr.right|
    && avail <= av
    && Shaped(cur, b, av)
    && Walked(cur, b, av, start, m, step)
    && ((cur == tr && av == avail && Unblocked(tr, b.nchar, start, m, step, steps))
        || (av > avail && Held(cur, SlotAt(cur, start, m, step)) == 0))
    && OthersKept(tr, avail, b, cur, av, start, m, steps)
    && NoStray(tr, avail, b, cur, av)
  }

  /** The last slot of a walk is live. */
  lemma WalkedLast(tr: Tree, b: Build, avail: int, code: int, m: nat, d: nat)
    requires d <= m && Walked(tr, b, avail, code, m, d)
    ensures Live(tr, b, avail, SlotAt(tr, code, m, d))
  {
  }

  /** A walk whose last slot holds a node goes one level further. */
  lemma WalkedNext(tr: Tree, b: Build, avail: int, code: int, m: nat, d: nat)
    requires d < m && Shaped(tr, b, avail) && Walked(tr, b, avail, code, m, d)
    requires Held(tr, SlotAt(tr, code, m, d)) >= b.nchar
    ensures Walked(tr, b, avail, code, m, d + 1)
  {
    hide Shr, ByteBit, Shaped;
    var x := SlotAt(tr, code, m, d);
    ShapedBelow(tr, b, avail, x);
    assert SlotAt(tr, code, m, d + 1) == Slot(Turn(code, m - (d + 1)), Held(tr, x));
  }

  lemma WalkedPrefix(tr: Tree, b: Build, avail: int, code: int, m: nat, i: nat, d: nat)
    requires i <= d <= m && Walked(tr, b, avail, code, m, d)
    ensures Walked(tr, b, avail, code, m, i)
  {
  }

  lemma DescendStart(tr: Tree, b: Build, avail: int, p0: int, start: int, m: nat, steps: nat, sym: int)
    requires steps <= m && Ready(tr, b, avail, p0, start, m, steps, sym)
    ensures Descending(tr, avail, b, tr, avail, start, m, 0, steps)
    ensures Slot(InTable, p0) == SlotAt(tr, start, m, 0) && 0 <= sym < b.nchar
  {
    assert SlotAt(tr, start, m, 0) == Slot(InTable, p0);
    assert Walked(tr, b, avail, start, m, 0);
  }

  /** A live slot of a shaped tree holds 0, a symbol or an allocated node. */
  lemma ShapedBelow(tr: Tree, b: Build, avail: int, x: Slot)
    requires Shaped(tr, b, avail) && Live(tr, b, avail, x)
    ensures 0 <= Held(tr, x) < avail && 0 < b.nchar <= avail
    ensures avail > b.nchar ==> avail <= |tr.left| && avail <= |tr.right|
  {
  }

  /** A node already hangs from the current slot: go down its link. */
  lemma DescendFollow(tr: Tree, avail: int, b: Build, cur: Tree, av: int, start: int, m: nat, step: nat, steps: nat)
    requires step < steps <= m
    requires Descending(tr, avail, b, cur, av, start, m, step, steps)
    requires Held(cur, SlotAt(cur, start, m, step)) != 0
    ensures Descending(tr, avail, b, cur, av, start, m, step + 1, steps)
  {
    hide Shaped, OthersKept, NoStray, Shr, ByteBit;
    var x := SlotAt(cur, start, m, step);
    var v := Held(cur, x);
    assert Live(cur, b, av, x);
    ShapedBelow(cur, b, av, x);
    if cur == tr && av == avail && Unblocked(tr, b.nchar, start, m, step, steps) {
      assert v >= b.nchar && Unblocked(tr, b.nchar, start, m, step + 1, steps);
    }
    assert b.nchar <= v < av;
    assert SlotAt(cur, start, m, step + 1) == Slot(Turn(start, m - (step + 1)), v);
    assert Walked(cur, b, av, start, m, step + 1);
  }

  /** Allocating `av` at a live slot that holds 0 keeps the tree shaped,
      and every slot that was live keeps its value but that one. */
  lemma AllocShaped(cur: Tree, b: Build, av: int, x: Slot)
    requires Shaped(cur, b, av) && Live(cur, b, av, x) && Held(cur, x) == 0
    requires 0 <= av < |cur.left| && av < |cur.right|
    ensures Shaped(Alloc(cur, x, av), b, av + 1)
    ensures forall y :: Live(Alloc(cur, x, av), b, av + 1, y) && y != x ==>
              (Live(cur, b, av, y) && Held(Alloc(cur, x, av), y) == Held(cur, y)) || Held(Alloc(cur, x, av), y) == 0
  {
    var cur' := Alloc(cur, x, av);
    var nl, nr := Slot(InLeft, av), Slot(InRight, av);
    assert InArray(cur, x) && x != nl && x != nr;
    forall y | Live(cur', b, av + 1, y)
      ensures 0 <= Held(cur', y) < av + 1
      ensures y != x && y != nl && y != nr ==> Live(cur, b, av, y) && Held(cur', y) == Held(cur, y)
    {
      if y != x && y != nl && y != nr {
        assert Live(cur, b, av, y);
      }
    }
  }

  /** Allocating at the slot of a walk's level `step` keeps the slots
      above it. */
  lemma AllocAbove(cur: Tree, b: Build, av: int, start: int, m: nat, step: nat)
    requires step < m && Shaped(cur, b, av) && Walked(cur, b, av, start, m, step)
    requires Held(cur, SlotAt(cur, start, m, step)) == 0
    requires 0 <= av < |cur.left| && av < |cur.right|
    ensures var cur' := Alloc(cur, SlotAt(cur, start, m, step), av);
            && SamePath(cur, cur', start, m, step)
            && forall i :: 0 <= i < step ==> Held(cur', SlotAt(cur, start, m, i)) >= b.nchar
  {
    hide Shr, ByteBit, Turn, Put, Alloc;
    var x := SlotAt(cur, start, m, step);
    var cur' := Alloc(cur, x, av);
    assert Live(cur, b, av, x);
    assert InArray(cur, x) && x != Slot(InLeft, av) && x != Slot(InRight, av);
    forall i | 0 <= i < step
      ensures Held(cur', SlotAt(cur, start, m, i)) == Held(cur, SlotAt(cur, start, m, i)) >= b.nchar
    {
      var y := SlotAt(cur, start, m, i);
      assert Live(cur, b, av, y) && Held(cur, y) >= b.nchar;
    }
    SlotsKept(cur, cur', start, m, step);
  }

  /** Allocating at the slot of a walk's level `step` keeps the slots
      above and makes the next level a fresh link. */
  lemma AllocOwn(cur: Tree, b: Build, av: int, start: int, m: nat, step: nat)
    requires step < m && Shaped(cur, b, av) && Walked(cur, b, av, start, m, step)
    requires Held(cur, SlotAt(cur, start, m, step)) == 0
    requires 0 <= av < |cur.left| && av < |cur.right|
    ensures var cur' := Alloc(cur, SlotAt(cur, start, m, step), av);
            && SlotAt(cur', start, m, step) == SlotAt(cur, start, m, step)
            && Walked(cur', b, av + 1, start, m, step + 1)
            && Held(cur', SlotAt(cur', start, m, step + 1)) == 0
  {
    hide Shr, ByteBit, Put, Alloc, Shaped;
    var x := SlotAt(cur, start, m, step);
    var cur' := Alloc(cur, x, av);
    assert Live(cur, b, av, x);
    ShapedBelow(cur, b, av, x);
    assert InArray(cur, x) && x != Slot(InLeft, av) && x != Slot(InRight, av);
    AllocAbove(cur, b, av, start, m, step);
    assert SlotAt(cur', start, m, step) == x;
    assert Held(cur', x) == av;
    assert SlotAt(cur', start, m, step + 1) == Slot(Turn(start, m - (step + 1)), av);
    forall i | 0 <= i <= step + 1
      ensures Live(cur', b, av + 1, SlotAt(cur', start, m, i))
    {
      if i <= step {
        LiveGrows(cur, cur', b, av, av + 1, SlotAt(cur, start, m, i));
      }
    }
  }

  /** A code apart from the one being placed never passes through the
      slot that walk writes: its slot at level `d` when that is the last
      level or still holds 0. */
  lemma OffPath(cur: Tree, b: Build, av: int, start: int, m: nat, d: nat, steps: nat, c: int, l: nat, s: int, i: nat)
    requires d <= steps <= m && i <= l <= m
    requires Shaped(cur, b, av) && Walked(cur, b, av, start, m, d)
    requires d == steps || Held(cur, SlotAt(cur, start, m, d)) == 0
    requires Reaches(cur, b, av, c, m, l, s) && Apart(c, l, start, steps, m)
    ensures SlotAt(cur, c, m, i) != SlotAt(cur, start, m, d)
  {
    hide Put, Alloc;
    if SlotAt(cur, c, m, i) == SlotAt(cur, start, m, d) {
      WalkedPrefix(cur, b, av, c, m, i, l);
      SlotsMeet(cur, b, av, c, i, start, d, m);
    }
  }

  /** Allocating at level `step` of one walk leaves a code apart from it
      on its way. */
  lemma AllocOther(cur: Tree, b: Build, av: int, start: int, m: nat, step: nat, steps: nat, c: int, l: nat, s: int)
    requires step < steps <= m && l <= m
    requires Shaped(cur, b, av) && Walked(cur, b, av, start, m, step)
    requires Held(cur, SlotAt(cur, start, m, step)) == 0
    requires 0 <= av < |cur.left| && av < |cur.right|
    requires Reaches(cur, b, av, c, m, l, s) && Apart(c, l, start, steps, m)
    ensures var cur' := Alloc(cur, SlotAt(cur, start, m, step), av);
            Reaches(cur', b, av + 1, c, m, l, s) && SamePath(cur, cur', c, m, l)
  {
    hide Shr, ByteBit, Turn, Put, Alloc;
    var x := SlotAt(cur, start, m, step);
    var cur' := Alloc(cur, x, av);
    assert Live(cur, b, av, x);
    assert InArray(cur, x) && x != Slot(InLeft, av) && x != Slot(InRight, av);
    forall i | 0 <= i <= l
      ensures Held(cur', SlotAt(cur, c, m, i)) == Held(cur, SlotAt(cur, c, m, i))
    {
      OffPath(cur, b, av, start, m, step, steps, c, l, s, i);
      assert Live(cur, b, av, SlotAt(cur, c, m, i));
    }
    SlotsKept(cur, cur', c, m, l);
    forall i | 0 <= i <= l
      ensures Live(cur', b, av + 1, SlotAt(cur', c, m, i))
    {
      LiveGrows(cur, cur', b, av, av + 1, SlotAt(cur, c, m, i));
    }
  }

  /** The current slot holds 0: hang fresh node `av` from it and go down
      to one of its (cleared) links. */
  lemma DescendAlloc(tr: Tree, avail: int, b: Build, cur: Tree, av: int, start: int, m: nat, step: nat, steps: nat)
    requires step < steps <= m
    requires Descending(tr, avail, b, cur, av, start, m, step, steps)
    requires Held(cur, SlotAt(cur, start, m, step)) == 0
    requires 0 <= av < |cur.left| && av < |cur.right|
    ensures var cur' := Alloc(cur, SlotAt(cur, start, m, step), av);
            && SlotAt(cur', start, m, step) == SlotAt(cur, start, m, step)
            && Descending(tr, avail, b, cur', av + 1, start, m, step + 1, steps)
  {
    var x := SlotAt(cur, start, m, step);
    var cur' := Alloc(cur, x, av);
    assert Live(cur, b, av, x);
    AllocShaped(cur, b, av, x);
    AllocOwn(cur, b, av, start, m, step);
    assert InArray(cur, x) && x != Slot(InLeft, av) && x != Slot(InRight, av);
    assert OthersKept(tr, avail, b, cur, av, start, m, steps);
    forall c, l: nat, s | l <= m && Reaches(tr, b, avail, c, m, l, s) && Apart(c, l, start, steps, m)
      ensures Reaches(cur', b, av + 1, c, m, l, s) && SamePath(tr, cur', c, m, l)
    {
      AllocOther(cur, b, av, start, m, step, steps, c, l, s);
    }
    assert NoStray(tr, avail, b, cur, av);
    forall y | Live(cur', b, av + 1, y)
      ensures (Live(tr, b, avail, y) && Held(cur', y) == Held(tr, y)) || Held(cur', y) == 0 || Held(cur', y) >= b.nchar
    {
      if y != x && Held(cur', y) != 0 {
        assert Live(cur, b, av, y);
      }
    }
  }

  /** What the final store `t[p] = j` leaves: the tree shaped, this code
      reaching its symbol, every code apart from it reaching its own, and no
      stray symbol outside the stored slot. */
  ghost predicate Stored(tr: Tree, avail: int, b: Build, tr': Tree, av: int, start: int, m: nat, steps: nat, sym: int)
    requires steps <= m
  {
    && Shaped(tr', b, av)
    && Reaches(tr', b, av, start, m, steps, sym)
    && OthersKept(tr, avail, b, tr', av, start, m, steps)
    && (forall y :: Live(tr', b, av, y) && y != SlotAt(tr', start, m, steps) ==>
          (Live(tr, b, avail, y) && Held(tr', y) == Held(tr, y)) || Held(tr', y) == 0 || Held(tr', y) >= b.nchar)
  }

  /** The final store keeps the slots of every code apart from this one. */
  lemma StoreOther(cur: Tree, b: Build, av: int, start: int, m: nat, steps: nat, sym: int, c: int, l: nat, s: int)
    requires steps <= m && l <= m
    requires Shaped(cur, b, av) && Walked(cur, b, av, start, m, steps)
    requires Reaches(cur, b, av, c, m, l, s) && Apart(c, l, start, steps, m)
    ensures var cur' := Put(cur, SlotAt(cur, start, m, steps), sym);
            Reaches(cur', b, av, c, m, l, s) && SamePath(cur, cur', c, m, l)
  {
    hide Shr, ByteBit, Turn, Put, Alloc;
    var x := SlotAt(cur, start, m, steps);
    var cur' := Put(cur, x, sym);
    forall i | 0 <= i <= l
      ensures Held(cur', SlotAt(cur, c, m, i)) == Held(cur, SlotAt(cur, c, m, i))
    {
      OffPath(cur, b, av, start, m, steps, steps, c, l, s, i);
    }
    SlotsKept(cur, cur', c, m, l);
  }

  /** The walk is down `steps` levels: store the symbol. */
  lemma DescendEnd(tr: Tree, avail: int, b: Build, cur: Tree, av: int, start: int, m: nat, steps: nat, sym: int)
    requires steps <= m && 0 <= sym < b.nchar
    requires Descending(tr, avail, b, cur, av, start, m, steps, steps)
    ensures Stored(tr, avail, b, Put(cur, SlotAt(cur, start, m, steps), sym), av, start, m, steps, sym)
  {
    var x := SlotAt(cur, start, m, steps);
    var cur' := Put(cur, x, sym);
    assert Live(cur, b, av, x);
    assert InArray(cur, x);
    forall y | Live(cur', b, av, y)
      ensures 0 <= Held(cur', y) < av
      ensures y != x ==> Live(cur, b, av, y)
    {
      assert Live(cur, b, av, y);
    }
    assert Shaped(cur', b, av);
    forall i | 0 <= i < steps
      ensures Held(cur', SlotAt(cur, start, m, i)) == Held(cur, SlotAt(cur, start, m, i))
    {
      var y := SlotAt(cur, start, m, i);
      if y == x {
        WalkedPrefix(cur, b, av, start, m, i, steps);
        SlotsMeet(cur, b, av, start, i, start, steps, m);
        assert false;
      }
    }
    SlotsKept(cur, cur', start, m, steps);
    assert Reaches(cur', b, av, start, m, steps, sym);
    assert OthersKept(tr, avail, b, cur, av, start, m, steps);
    forall c, l: nat, s | l <= m && Reaches(tr, b, avail, c, m, l, s) && Apart(c, l, start, steps, m)
      ensures Reaches(cur', b, av, c, m, l, s) && SamePath(tr, cur', c, m, l)
    {
      StoreOther(cur, b, av, start, m, steps, sym, c, l, s);
    }
    assert NoStray(tr, avail, b, cur, av);
  }

  // ---------------------------------------------------------------------------
  // Every long code hangs in the tree

  /** The direct entry of every long symbol below `upto` lies inside the
      table's first `limit` entries. */
  predicate RootsInTable(bl: seq<nat>, n: nat, tb: nat, limit: int, upto: nat)
    requires upto <= n <= |bl| && tb < MAX_LENGTH
  {
    forall s :: 0 <= s < upto && tb < bl[s] <= MAX_LENGTH ==>
      Shr(CodeStart(bl, n, s, MAX_LENGTH), MAX_LENGTH - tb) < limit
  }

  /** The overflow tree after the long symbols below `upto`: it is shaped,
      each of them is reached by its own code, and a live slot holds a
      symbol other than 0 only at the end of that symbol's walk. */
  ghost predicate Hung(bl: seq<nat>, n: nat, tb: nat, tr: Tree, b: Build, avail: int, upto: nat)
    requires upto <= n <= |bl| && tb < MAX_LENGTH
  {
    && b.nchar == n
    && Shaped(tr, b, avail)
    && (forall s :: 0 <= s < upto && tb < bl[s] <= MAX_LENGTH ==>
          Reaches(tr, b, avail, CodeStart(bl, n, s, MAX_LENGTH), MAX_LENGTH - tb, bl[s] - tb, s))
    && (forall y :: Live(tr, b, avail, y) && 0 < Held(tr, y) < n ==>
          && Held(tr, y) < upto && tb < bl[Held(tr, y)] <= MAX_LENGTH
          && y == SlotAt(tr, CodeStart(bl, n, Held(tr, y), MAX_LENGTH), MAX_LENGTH - tb, bl[Held(tr, y)] - tb))
  }

  /** A window value whose top `bl[s]` bits are the code of `s` lies in
      the range of `s`. */
  lemma WithinCode(bl: seq<nat>, n: nat, s: nat, x: int)
    requires s < n <= |bl| && 1 <= bl[s] <= MAX_LENGTH
    requires Shr(x, MAX_LENGTH - bl[s]) == Shr(CodeStart(bl, n, s, MAX_LENGTH), MAX_LENGTH - bl[s])
    ensures CodeStart(bl, n, s, MAX_LENGTH) <= x < CodeStart(bl, n, s, MAX_LENGTH) + Pow2(MAX_LENGTH - bl[s])
  {
    hide Shl, Shr, Pow2, CodeStart, Base, Count;
    var k := MAX_LENGTH - bl[s];
    ScaleCode(bl, n, s, bl[s]);
    ShrShlExact(CodeStart(bl, n, s, bl[s]), k);
    ShlShrLow(x, k);
    LowBitsBound(x, k);
  }

  /** The canonical code is prefix-free: two long codes part before the
      shorter one ends. */
  lemma PrefixFree(bl: seq<nat>, n: nat, tb: nat, s: nat, j: nat)
    requires s < n && j < n && n <= |bl| && s != j && tb < MAX_LENGTH
    requires tb < bl[s] <= MAX_LENGTH && tb < bl[j] <= MAX_LENGTH
    ensures Apart(CodeStart(bl, n, s, MAX_LENGTH), bl[s] - tb, CodeStart(bl, n, j, MAX_LENGTH), bl[j] - tb, MAX_LENGTH - tb)
  {
    hide Shl, Shr, Pow2, CodeStart, Base, Count;
    var cs, cj := CodeStart(bl, n, s, MAX_LENGTH), CodeStart(bl, n, j, MAX_LENGTH);
    var short, long := if bl[s] <= bl[j] then s else j, if bl[s] <= bl[j] then j else s;
    var k := MAX_LENGTH - bl[short];
    if Shr(cs, k) == Shr(cj, k) {
      var cl := CodeStart(bl, n, long, MAX_LENGTH);
      WithinCode(bl, n, short, cl);
      if short < long {
        Disjoint(bl, n, short, long, MAX_LENGTH);
      } else {
        Disjoint(bl, n, long, short, MAX_LENGTH);
      }
      assert false;
    }
  }

  lemma HungShaped(bl: seq<nat>, n: nat, tb: nat, tr: Tree, b: Build, avail: int, upto: nat)
    requires upto <= n <= |bl| && tb < MAX_LENGTH
    requires Hung(bl, n, tb, tr, b, avail, upto)
    ensures b.nchar == n && Shaped(tr, b, avail)
  {
  }

  /** `Hung` from its three parts. */
  lemma HungIntro(bl: seq<nat>, n: nat, tb: nat, tr: Tree, b: Build, avail: int, upto: nat)
    requires upto <= n <= |bl| && tb < MAX_LENGTH
    requires b.nchar == n && Shaped(tr, b, avail)
    requires forall s :: 0 <= s < upto && tb < bl[s] <= MAX_LENGTH ==>
               Reaches(tr, b, avail, CodeStart(bl, n, s, MAX_LENGTH), MAX_LENGTH - tb, bl[s] - tb, s)
    requires forall y :: Live(tr, b, avail, y) && 0 < Held(tr, y) < n ==>
               && Held(tr, y) < upto && tb < bl[Held(tr, y)] <= MAX_LENGTH
               && y == SlotAt(tr, CodeStart(bl, n, Held(tr, y), MAX_LENGTH), MAX_LENGTH - tb, bl[Held(tr, y)] - tb)
    ensures Hung(bl, n, tb, tr, b, avail, upto)
  {
  }

  lemma ReachesHeld(tr: Tree, b: Build, avail: int, c: int, m: nat, l: nat, s: int)
    requires l <= m && Reaches(tr, b, avail, c, m, l, s)
    ensures Held(tr, SlotAt(tr, c, m, l)) == s
  {
  }

  /** What `Hung` says of one long symbol below `upto`. */
  lemma HungReaches(bl: seq<nat>, n: nat, tb: nat, tr: Tree, b: Build, avail: int, upto: nat, s: nat)
    requires upto <= n <= |bl| && tb < MAX_LENGTH
    requires Hung(bl, n, tb, tr, b, avail, upto)
    requires s < upto && tb < bl[s] <= MAX_LENGTH
    ensures Reaches(tr, b, avail, CodeStart(bl, n, s, MAX_LENGTH), MAX_LENGTH - tb, bl[s] - tb, s)
    ensures b.nchar == n && Shaped(tr, b, avail)
  {
  }

  /** What `Hung` says of one live slot holding a symbol. */
  lemma HungHolds(bl: seq<nat>, n: nat, tb: nat, tr: Tree, b: Build, avail: int, upto: nat, y: Slot)
    requires upto <= n <= |bl| && tb < MAX_LENGTH
    requires Hung(bl, n, tb, tr, b, avail, upto)
    requires Live(tr, b, avail, y) && 0 < Held(tr, y) < n
    ensures Held(tr, y) < upto && tb < bl[Held(tr, y)] <= MAX_LENGTH
    ensures y == SlotAt(tr, CodeStart(bl, n, Held(tr, y), MAX_LENGTH), MAX_LENGTH - tb, bl[Held(tr, y)] - tb)
    ensures b.nchar == n && Shaped(tr, b, avail)
  {
  }

  /** The slots on the way of long symbol `j`, not yet in a hung tree,
      hold no symbol but 0: a slot holding one ends the walk of a code
      that `j`'s would share a prefix with. */
  lemma NoSymbolOnWay(bl: seq<nat>, n: nat, tb: nat, tr: Tree, b: Build, avail: int, j: nat, d: nat)
    requires j < n <= |bl| && tb < bl[j] <= MAX_LENGTH
    requires Hung(bl, n, tb, tr, b, avail, j)
    requires d < bl[j] - tb
    requires Walked(tr, b, avail, CodeStart(bl, n, j, MAX_LENGTH), MAX_LENGTH - tb, d)
    ensures var v := Held(tr, SlotAt(tr, CodeStart(bl, n, j, MAX_LENGTH), MAX_LENGTH - tb, d)); !(0 < v < n)
  {
    hide Hung, CodeStart, Shr, ByteBit, Pow2, Base, Count, Shaped, Walked, SlotAt;
    var c, m := CodeStart(bl, n, j, MAX_LENGTH), MAX_LENGTH - tb;
    var x := SlotAt(tr, c, m, d);
    var v := Held(tr, x);
    WalkedLast(tr, b, avail, c, m, d);
    if 0 < v < n {
      HungHolds(bl, n, tb, tr, b, avail, j, x);
      var cs := CodeStart(bl, n, v, MAX_LENGTH);
      HungReaches(bl, n, tb, tr, b, avail, j, v);
      assert Walked(tr, b, avail, cs, m, bl[v] - tb);
      SlotsMeet(tr, b, avail, cs, bl[v] - tb, c, d, m);
      PrefixFree(bl, n, tb, v, j);
      assert false;
    }
  }

  /** Walking down a long code in a hung tree meets no symbol. */
  lemma {:induction false} ClearFromHung(bl: seq<nat>, n: nat, tb: nat, tr: Tree, b: Build, avail: int, j: nat, d: nat)
    requires j < n <= |bl| && tb < bl[j] <= MAX_LENGTH
    requires Hung(bl, n, tb, tr, b, avail, j)
    requires d <= bl[j] - tb
    requires Walked(tr, b, avail, CodeStart(bl, n, j, MAX_LENGTH), MAX_LENGTH - tb, d)
    ensures Unblocked(tr, n, CodeStart(bl, n, j, MAX_LENGTH), MAX_LENGTH - tb, d, bl[j] - tb)
    decreases bl[j] - tb - d
  {
    hide Hung, CodeStart, Shr, ByteBit, Pow2, Base, Count, Shaped, Walked, SlotAt;
    var c, m, steps := CodeStart(bl, n, j, MAX_LENGTH), MAX_LENGTH - tb, bl[j] - tb;
    if d < steps {
      var x := SlotAt(tr, c, m, d);
      var v := Held(tr, x);
      NoSymbolOnWay(bl, n, tb, tr, b, avail, j, d);
      HungShaped(bl, n, tb, tr, b, avail, j);
      WalkedLast(tr, b, avail, c, m, d);
      ShapedBelow(tr, b, avail, x);
      if v >= n {
        WalkedNext(tr, b, avail, c, m, d);
        ClearFromHung(bl, n, tb, tr, b, avail, j, d + 1);
      }
    }
  }

  /** An empty overflow tree over a cleared region is hung, with no long
      symbol in it yet. */
  lemma HungStart(bl: seq<nat>, n: nat, tb: nat, tr: Tree, z: int, limit: int)
    requires 0 < n <= |bl| && tb < MAX_LENGTH && 0 <= z
    requires forall i :: z <= i < limit && 0 <= i < |tr.table| ==> tr.table[i] == 0
    ensures Hung(bl, n, tb, tr, Build(n, z, limit), n, 0)
  {
  }

  /** A short symbol or one without a code leaves the tree hung. */
  lemma HungNext(bl: seq<nat>, n: nat, tb: nat, tr: Tree, b: Build, avail: int, j: nat)
    requires j < n <= |bl| && tb < MAX_LENGTH && bl[j] <= tb
    requires Hung(bl, n, tb, tr, b, avail, j)
    ensures Hung(bl, n, tb, tr, b, avail, j + 1)
  {
    hide Hung, Shr, ByteBit, CodeStart, Pow2, Base, Count, Reaches, Shaped, Walked;
    HungShaped(bl, n, tb, tr, b, avail, j);
    forall s | 0 <= s < j + 1 && tb < bl[s] <= MAX_LENGTH
      ensures Reaches(tr, b, avail, CodeStart(bl, n, s, MAX_LENGTH), MAX_LENGTH - tb, bl[s] - tb, s)
    {
      HungReaches(bl, n, tb, tr, b, avail, j, s);
    }
    forall y | Live(tr, b, avail, y) && 0 < Held(tr, y) < n
      ensures && Held(tr, y) < j + 1 && tb < bl[Held(tr, y)] <= MAX_LENGTH
              && y == SlotAt(tr, CodeStart(bl, n, Held(tr, y), MAX_LENGTH), MAX_LENGTH - tb, bl[Held(tr, y)] - tb)
    {
      HungHolds(bl, n, tb, tr, b, avail, j, y);
    }
    HungIntro(bl, n, tb, tr, b, avail, j + 1);
  }

  /** `tr'` holds what `tr` holds in every live slot. */
  ghost predicate LiveAgree(tr: Tree, tr': Tree, b: Build, avail: int)
  {
    && |tr'.table| == |tr.table| && |tr'.left| == |tr.left| && |tr'.right| == |tr.right|
    && forall y :: Live(tr, b, avail, y) ==> Held(tr', y) == Held(tr, y)
  }

  lemma ShapedFrame(tr: Tree, tr': Tree, b: Build, avail: int)
    requires Shaped(tr, b, avail) && LiveAgree(tr, tr', b, avail)
    ensures Shaped(tr', b, avail)
    ensures forall y :: Live(tr', b, avail, y) <==> Live(tr, b, avail, y)
  {
    assert forall y :: Live(tr', b, avail, y) <==> Live(tr, b, avail, y);
  }

  /** A code's way through live slots survives any change outside them. */
  lemma ReachesFrame(tr: Tree, tr': Tree, b: Build, avail: int, c: int, m: nat, l: nat, s: int)
    requires l <= m && Reaches(tr, b, avail, c, m, l, s) && LiveAgree(tr, tr', b, avail)
    ensures Reaches(tr', b, avail, c, m, l, s) && SamePath(tr, tr', c, m, l)
  {
    hide Shr, ByteBit;
    assert forall i :: 0 <= i <= l ==> Live(tr, b, avail, SlotAt(tr, c, m, i));
    SlotsKept(tr, tr', c, m, l);
    assert forall y :: Live(tr', b, avail, y) <==> Live(tr, b, avail, y);
  }

  /** Writes below the cleared region touch no slot of the overflow tree. */
  lemma HungFrame(bl: seq<nat>, n: nat, tb: nat, tr: Tree, tr': Tree, b: Build, avail: int, upto: nat)
    requires upto <= n <= |bl| && tb < MAX_LENGTH
    requires Hung(bl, n, tb, tr, b, avail, upto)
    requires tr'.left == tr.left && tr'.right == tr.right && |tr'.table| == |tr.table|
    requires forall i :: 0 <= i < |tr.table| && b.z <= i ==> tr'.table[i] == tr.table[i]
    ensures Hung(bl, n, tb, tr', b, avail, upto)
  {
    hide Hung, Shr, ByteBit, CodeStart, Pow2, Base, Count, Reaches, Shaped, Walked, SlotAt;
    var m := MAX_LENGTH - tb;
    assert LiveAgree(tr, tr', b, avail);
    HungShaped(bl, n, tb, tr, b, avail, upto);
    ShapedFrame(tr, tr', b, avail);
    forall s | 0 <= s < upto && tb < bl[s] <= MAX_LENGTH
      ensures Reaches(tr', b, avail, CodeStart(bl, n, s, MAX_LENGTH), m, bl[s] - tb, s)
      ensures SamePath(tr, tr', CodeStart(bl, n, s, MAX_LENGTH), m, bl[s] - tb)
    {
      HungReaches(bl, n, tb, tr, b, avail, upto, s);
      ReachesFrame(tr, tr', b, avail, CodeStart(bl, n, s, MAX_LENGTH), m, bl[s] - tb, s);
    }
    forall y | Live(tr', b, avail, y) && 0 < Held(tr', y) < n
      ensures && Held(tr', y) < upto && tb < bl[Held(tr', y)] <= MAX_LENGTH
              && y == SlotAt(tr', CodeStart(bl, n, Held(tr', y), MAX_LENGTH), m, bl[Held(tr', y)] - tb)
    {
      HungHolds(bl, n, tb, tr, b, avail, upto, y);
    }
    HungIntro(bl, n, tb, tr', b, avail, upto);
  }

  /** The walk of long symbol `j` adds it to a hung tree. */
  lemma HungLong(bl: seq<nat>, n: nat, tb: nat, tr: Tree, tr': Tree, b: Build, avail: int, av: int, j: nat)
    requires j < n <= |bl| && tb < bl[j] <= MAX_LENGTH
    requires Hung(bl, n, tb, tr, b, avail, j)
    requires Stored(tr, avail, b, tr', av, CodeStart(bl, n, j, MAX_LENGTH), MAX_LENGTH - tb, bl[j] - tb, j)
    ensures Hung(bl, n, tb, tr', b, av, j + 1)
  {
    hide Hung, Shr, ByteBit, Pow2, CodeStart, Base, Count, Reaches, Shaped, Walked, SlotAt, Apart;
    var m := MAX_LENGTH - tb;
    var cj, lj := CodeStart(bl, n, j, MAX_LENGTH), bl[j] - tb;
    HungShaped(bl, n, tb, tr, b, avail, j);
    assert OthersKept(tr, avail, b, tr', av, cj, m, lj);
    forall s | 0 <= s < j + 1 && tb < bl[s] <= MAX_LENGTH
      ensures Reaches(tr', b, av, CodeStart(bl, n, s, MAX_LENGTH), m, bl[s] - tb, s)
      ensures s < j ==> SamePath(tr, tr', CodeStart(bl, n, s, MAX_LENGTH), m, bl[s] - tb)
    {
      if s < j {
        HungReaches(bl, n, tb, tr, b, avail, j, s);
        PrefixFree(bl, n, tb, s, j);
      }
    }
    forall y | Live(tr', b, av, y) && 0 < Held(tr', y) < n
      ensures && Held(tr', y) < j + 1 && tb < bl[Held(tr', y)] <= MAX_LENGTH
              && y == SlotAt(tr', CodeStart(bl, n, Held(tr', y), MAX_LENGTH), m, bl[Held(tr', y)] - tb)
    {
      if y != SlotAt(tr', cj, m, lj) {
        assert Live(tr, b, avail, y) && Held(tr', y) == Held(tr, y);
        HungHolds(bl, n, tb, tr, b, avail, j, y);
      } else {
        ReachesHeld(tr', b, av, cj, m, lj, j);
      }
    }
    HungIntro(bl, n, tb, tr', b, av, j + 1);
  }

  /** What the tree a complete build leaves promises: the direct entry of a
      long code leads, one level per code bit past the first `tb`, to its
      symbol. */
  lemma HungLeads(bl: seq<nat>, n: nat, tb: nat, tr: Tree, b: Build, avail: int)
    requires n <= |bl| && tb < MAX_LENGTH
    requires Hung(bl, n, tb, tr, b, avail, n)
    ensures forall s :: 0 <= s < n && tb < bl[s] <= MAX_LENGTH ==>
              LeadsTo(tr, n, CodeStart(bl, n, s, MAX_LENGTH), MAX_LENGTH - tb, bl[s] - tb, s)
  {
    forall s | 0 <= s < n && tb < bl[s] <= MAX_LENGTH
      ensures LeadsTo(tr, n, CodeStart(bl, n, s, MAX_LENGTH), MAX_LENGTH - tb, bl[s] - tb, s)
    {
      assert Reaches(tr, b, avail, CodeStart(bl, n, s, MAX_LENGTH), MAX_LENGTH - tb, bl[s] - tb, s);
    }
  }

  /** For a code that does not overflow the 16-bit window and a table of
      at most 4096 entries every long code's direct entry is inside the
      table. */
  lemma CompleteFits(bl: seq<nat>, n: nat, tb: nat)
    requires n <= |bl| && tb <= 12
    requires Total(bl, n) <= 0x10000
    ensures RootsInTable(bl, n, tb, Clamp(Pow2(tb)), n)
  {
    hide Shl, Shr, Pow2, CodeStart, Base, Count;
    Pow2Values();
    Pow2Monotone(tb, 12);
    forall s | 0 <= s < n && tb < bl[s] <= MAX_LENGTH
      ensures Shr(CodeStart(bl, n, s, MAX_LENGTH), MAX_LENGTH - tb) < Pow2(tb)
    {
      var c := CodeStart(bl, n, s, MAX_LENGTH);
      CodeEnd(bl, n, s, MAX_LENGTH);
      BaseMono(bl, n, bl[s] + 1, MAX_LENGTH + 1, MAX_LENGTH);
      assert MAX_LENGTH - tb + tb == 16;
      ShrRange(c, MAX_LENGTH - tb, tb);
    }
  }

  /** Window bits `k` on are the code's bits at levels `d` to `steps`:
      a 1 for a right turn, a 0 for a left one. */
  predicate Follows(r: Reader, k: nat, code: int, m: nat, d: nat, steps: nat)
    requires steps <= m
    decreases steps + 1 - d
  {
    d > steps || ((WindowBit(r, k) <==> ByteBit(code, m - d) == 1) && Follows(r, k + 1, code, m, d + 1, steps))
  }

  /** One level of a code's way in the tree: the slot it is at, and the
      value found there. */
  lemma LeadsStep(tr: Tree, nchar: int, code: int, m: nat, steps: nat, sym: int, d: nat)
    requires 1 <= d <= steps <= m && 0 <= sym < nchar
    requires LeadsTo(tr, nchar, code, m, steps, sym)
    ensures Held(tr, SlotAt(tr, code, m, d - 1)) >= nchar
    ensures SlotAt(tr, code, m, d) == Slot(Turn(code, m - d), Held(tr, SlotAt(tr, code, m, d - 1)))
    ensures d < steps ==> Held(tr, SlotAt(tr, code, m, d)) >= nchar
    ensures d == steps ==> Held(tr, SlotAt(tr, code, m, d)) == sym
  {
  }

  /** Decoding a long code: from the node in its slot at level `d - 1`, a
      walk that reads the code's remaining bits returns the symbol. */
  lemma {:induction false} WalkFollows(r: Reader, tr: Tree, nchar: int, code: int, m: nat, steps: nat, sym: int, d: nat, k: nat, fuel: nat)
    requires 1 <= d <= steps <= m && |tr.left| == |tr.right|
    requires 0 <= sym < nchar
    requires LeadsTo(tr, nchar, code, m, steps, sym)
    requires Follows(r, k, code, m, d, steps)
    requires fuel >= steps - d
    ensures Walk(r, tr.left, tr.right, Held(tr, SlotAt(tr, code, m, d - 1)), nchar, k, fuel) == Ok(sym)
    decreases steps - d
  {
    hide LeadsTo, Shr, ByteBit, WindowBit;
    LeadsStep(tr, nchar, code, m, steps, sym, d);
    var j := Held(tr, SlotAt(tr, code, m, d - 1));
    var x := SlotAt(tr, code, m, d);
    assert Held(tr, x) >= 0;
    assert WindowBit(r, k) <==> ByteBit(code, m - d) == 1;
    if d < steps {
      WalkFollows(r, tr, nchar, code, m, steps, sym, d + 1, k + 1, fuel - 1);
    }
  }

  /** The decode side of the tree `MakeTable` builds: for a long symbol,
      the walk from its direct entry, reading the rest of its code from
      window bit `k` on, returns it. */
  lemma LookupLong(bl: seq<nat>, n: nat, tb: nat, tr: Tree, s: nat, r: Reader, k: nat, fuel: nat)
    requires s < n <= |bl| && tb < bl[s] <= MAX_LENGTH && |tr.left| == |tr.right|
    requires LeadsTo(tr, n, CodeStart(bl, n, s, MAX_LENGTH), MAX_LENGTH - tb, bl[s] - tb, s)
    requires Follows(r, k, CodeStart(bl, n, s, MAX_LENGTH), MAX_LENGTH - tb, 1, bl[s] - tb)
    requires fuel >= bl[s] - tb - 1
    ensures var p := Shr(CodeStart(bl, n, s, MAX_LENGTH), MAX_LENGTH - tb);
            && 0 <= p < |tr.table| && tr.table[p] >= n
            && Walk(r, tr.left, tr.right, tr.table[p], n, k, fuel) == Ok(s)
  {
    hide LeadsTo, Shr, ByteBit, WindowBit, CodeStart, Pow2, Base, Count, Follows;
    var c, m := CodeStart(bl, n, s, MAX_LENGTH), MAX_LENGTH - tb;
    assert SlotAt(tr, c, m, 0) == Slot(InTable, Shr(c, m));
    LeadsStep(tr, n, c, m, bl[s] - tb, s, 1);
    WalkFollows(r, tr, n, c, m, bl[s] - tb, s, 1, k, fuel);
  }

  /** Every long symbol's direct entry leads down the overflow tree to it. */
  ghost predicate LongLeads(bl: seq<nat>, n: nat, tb: nat, tr: Tree)
    requires n <= |bl| && tb < MAX_LENGTH
  {
    forall s :: 0 <= s < n && tb < bl[s] <= MAX_LENGTH ==>
      LeadsTo(tr, n, CodeStart(bl, n, s, MAX_LENGTH), MAX_LENGTH - tb, bl[s] - tb, s)
  }

  /** What `MakeTable` promises of the overflow tree it leaves: when the
      region past the short codes was cleared and holds every long code's
      direct entry, every long code leads to its symbol. */
  ghost predicate LongLinked(bl: seq<nat>, n: nat, tb: nat, tr: Tree)
    requires n <= |bl| && tb < MAX_LENGTH
  {
    Base(bl, n, tb + 1, tb) != 0 && RootsInTable(bl, n, tb, Clamp(Pow2(tb)), n) ==> LongLeads(bl, n, tb, tr)
  }

  /** Counts and first codes read only the first `n` lengths. */
  lemma {:induction false} CountSame(bl: seq<nat>, bl': seq<nat>, n: nat, l: nat)
    requires n <= |bl| && n <= |bl'| && forall i :: 0 <= i < n ==> bl[i] == bl'[i]
    ensures Count(bl, n, l) == Count(bl', n, l)
  {
    if n > 0 {
      CountSame(bl, bl', n - 1, l);
    }
  }

  lemma {:induction false} BaseSame(bl: seq<nat>, bl': seq<nat>, n: nat, l: nat, w: nat)
    requires n <= |bl| && n <= |bl'| && forall i :: 0 <= i < n ==> bl[i] == bl'[i]
    requires 1 <= l <= w + 1
    ensures Base(bl, n, l, w) == Base(bl', n, l, w)
    decreases l
  {
    if l > 1 {
      BaseSame(bl, bl', n, l - 1, w);
      CountSame(bl, bl', n, l - 1);
    }
  }

  /** A code without long codes has no links to keep. */
  lemma ShortLinked(bl: seq<nat>, n: nat, tb: nat, tr: Tree)
    requires n <= |bl| && tb < MAX_LENGTH && AllShort(bl, n, tb)
    ensures LongLinked(bl, n, tb, tr)
  {
  }

  /** A walk through nodes numbered `n` and up passes the same slots in a
      tree whose table is the same and whose nodes from `lo <= n` are kept. */
  lemma {:induction false} NodesKept(tr: Tree, tr': Tree, n: int, code: int, m: nat, d: nat, lo: int)
    requires d <= m && tr'.table == tr.table && KeptFrom(tr, tr', lo) && lo <= n
    requires forall e :: 0 <= e < d ==> Held(tr, SlotAt(tr, code, m, e)) >= n
    ensures SlotAt(tr', code, m, d) == SlotAt(tr, code, m, d)
    ensures Held(tr', SlotAt(tr', code, m, d)) == Held(tr, SlotAt(tr, code, m, d))
  {
    if d > 0 {
      NodesKept(tr, tr', n, code, m, d - 1, lo);
    }
  }

  /** Keeping the nodes a code's walk passes keeps where it leads. */
  lemma LeadsKept(tr: Tree, tr': Tree, n: int, code: int, m: nat, steps: nat, sym: int, lo: int)
    requires steps <= m && tr'.table == tr.table && KeptFrom(tr, tr', lo) && lo <= n
    requires LeadsTo(tr, n, code, m, steps, sym)
    ensures LeadsTo(tr', n, code, m, steps, sym)
  {
    forall d | 0 <= d <= steps
      ensures SlotAt(tr', code, m, d) == SlotAt(tr, code, m, d)
      ensures Held(tr', SlotAt(tr', code, m, d)) == Held(tr, SlotAt(tr, code, m, d))
    {
      NodesKept(tr, tr', n, code, m, d, lo);
    }
  }

  /** A build that keeps the nodes from `lo <= n` up keeps every link an
      earlier table over the same node arrays had. */
  lemma LinkedKept(bl: seq<nat>, n: nat, tb: nat, tr: Tree, tr': Tree, lo: int)
    requires n <= |bl| && tb < MAX_LENGTH
    requires tr'.table == tr.table && KeptFrom(tr, tr', lo) && lo <= n
    requires LongLinked(bl, n, tb, tr)
    ensures LongLinked(bl, n, tb, tr')
  {
    hide LeadsTo, CodeStart, Base, RootsInTable;
    forall s | 0 <= s < n && tb < bl[s] <= MAX_LENGTH && LongLeads(bl, n, tb, tr)
      ensures LeadsTo(tr', n, CodeStart(bl, n, s, MAX_LENGTH), MAX_LENGTH - tb, bl[s] - tb, s)
    {
      LeadsKept(tr, tr', n, CodeStart(bl, n, s, MAX_LENGTH), MAX_LENGTH - tb, bl[s] - tb, s, lo);
    }
  }

  /** Symbols below `n` whose length lies in `[a, b)`. */
  function Within(bl: seq<nat>, n: nat, a: nat, b: nat): (c: nat)
    requires n <= |bl|
    ensures c <= n
  {
    if n == 0 then 0 else Within(bl, n - 1, a, b) + (if a <= bl[n - 1] < b then 1 else 0)
  }

  lemma {:induction false} WithinSucc(bl: seq<nat>, n: nat, a: nat, b: nat)
    requires n <= |bl| && a <= b
    ensures Within(bl, n, a, b + 1) == Within(bl, n, a, b) + Count(bl, n, b)
    decreases n
  {
    if n > 0 {
      WithinSucc(bl, n - 1, a, b);
    }
  }

  lemma MulAdd(a: int, b: int, q: int)
    ensures (a + b) * q == a * q + b * q
  {
  }

  /** Each code longer than `tb` bits takes at most `2^(15 - tb)` of the
      16-bit code space. */
  lemma {:induction false} BaseTail(bl: seq<nat>, n: nat, tb: nat, l: nat)
    requires n <= |bl| && tb < MAX_LENGTH && tb + 1 <= l <= MAX_LENGTH + 1
    ensures Base(bl, n, l, MAX_LENGTH) <= Base(bl, n, tb + 1, MAX_LENGTH) + Within(bl, n, tb + 1, l) * Pow2(MAX_LENGTH - 1 - tb)
    decreases l
  {
    hide Pow2, Count, Within, Base;
    if l > tb + 1 {
      BaseTail(bl, n, tb, l - 1);
      WithinSucc(bl, n, tb + 1, l - 1);
      BaseSucc(bl, n, l - 1, MAX_LENGTH);
      var w, c := Within(bl, n, tb + 1, l - 1), Count(bl, n, l - 1);
      var p, q := Pow2(MAX_LENGTH - (l - 1)), Pow2(MAX_LENGTH - 1 - tb);
      Pow2Monotone(MAX_LENGTH - (l - 1), MAX_LENGTH - 1 - tb);
      MulMono(p, q, c);
      MulAdd(w, c, q);
    }
  }

  /** Without a short code, the codes of `n` symbols fill at most
      `n * 2^(15 - tb)` of the code space. */
  lemma NoShortRoom(bl: seq<nat>, n: nat, tb: nat)
    requires n <= |bl| && tb < MAX_LENGTH
    ensures Base(bl, n, tb + 1, tb) == 0 ==> Total(bl, n) <= n * Pow2(MAX_LENGTH - 1 - tb)
  {
    hide Pow2, Shl;
    Scale(bl, n, tb + 1, tb);
    ShlZero(MAX_LENGTH - tb);
    BaseTail(bl, n, tb, MAX_LENGTH + 1);
    MulMono(Within(bl, n, tb + 1, MAX_LENGTH + 1), n, Pow2(MAX_LENGTH - 1 - tb));
  }

  /** A complete code of fewer than `2^(tb + 1)` symbols meets what
      `MakeTable` needs to link its long codes: some code is short, so the
      region past the short codes is cleared, and every long code's direct
      entry lies inside the table. */
  lemma CompleteLinks(bl: seq<nat>, n: nat, tb: nat)
    requires n <= |bl| && tb <= 12 && n < Pow2(tb + 1) && Total(bl, n) == 0x10000
    ensures Base(bl, n, tb + 1, tb) != 0
    ensures RootsInTable(bl, n, tb, Clamp(Pow2(tb)), n)
  {
    CompleteFits(bl, n, tb);
    NoShortRoom(bl, n, tb);
    var q := Pow2(MAX_LENGTH - 1 - tb);
    MulMono(n + 1, Pow2(tb + 1), q);
    assert (n + 1) * q == n * q + q;
    Pow2Add(tb + 1, MAX_LENGTH - 1 - tb);
    Pow2Values();
  }

  /** Shifting right by `a` and then by `b` is shifting by `a + b`. */
  lemma {:induction false} ShrShr(x: int, a: nat, b: nat)
    ensures Shr(Shr(x, a), b) == Shr(x, a + b)
    decreases a
  {
    if a > 0 {
      ShrShr(x / 2, a - 1, b);
    }
  }

  /** The window value `x` opens with the code of symbol `s`. */
  predicate CodeAt(bl: seq<nat>, n: nat, s: int, x: int)
    requires n <= |bl|
  {
    && 0 <= s < n && 1 <= bl[s] <= MAX_LENGTH
    && CodeStart(bl, n, s, MAX_LENGTH) <= x < CodeStart(bl, n, s, MAX_LENGTH) + Pow2(MAX_LENGTH - bl[s])
  }

  /** A window that opens with the code of `s` agrees with that code on
      its top `bl[s]` bits. */
  lemma CodeAtTop(bl: seq<nat>, n: nat, s: nat, x: int)
    requires n <= |bl| && CodeAt(bl, n, s, x)
    ensures Shr(x, MAX_LENGTH - bl[s]) == Shr(CodeStart(bl, n, s, MAX_LENGTH), MAX_LENGTH - bl[s])
  {
    hide Shl, Shr, CodeStart, Base, Count;
    DirectLookup(bl, n, s, bl[s], x);
    ScaleCode(bl, n, s, bl[s]);
    ShrShlExact(CodeStart(bl, n, s, bl[s]), MAX_LENGTH - bl[s]);
  }

  /** Window bits `d - 1` on of the refilled reader `r'` are the code bits
      at levels `d` to `steps`, when `r` agrees with the code on its top
      `tb + steps` bits and `r'` has consumed `tb` bits more. */
  lemma {:induction false} FollowsFrom(data: seq<byte>, r: Reader, r': Reader, tb: nat, code: int, m: nat, d: nat, steps: nat)
    requires Valid(data, r) && Valid(data, r') && Consumed(r') == Consumed(r) + tb
    requires m == MAX_LENGTH - tb && 1 <= d && steps <= m
    requires Shr(r.bitBuffer, m - steps) == Shr(code, m - steps)
    ensures Follows(r', d - 1, code, m, d, steps)
    decreases steps + 1 - d
  {
    hide Shr, ByteBit, StreamBit, Bits;
    if d <= steps {
      WindowBitReads(data, r', d - 1);
      WindowBitReads(data, r, tb + d - 1);
      ShrShr(r.bitBuffer, m - steps, steps - d);
      ShrShr(code, m - steps, steps - d);
      ByteBitIsShr(r.bitBuffer, m - d);
      ByteBitIsShr(code, m - d);
      FollowsFrom(data, r, r', tb, code, m, d + 1, steps);
    }
  }

  /** The top `tb` window bits of a window that opens with a longer code
      are the top `tb` bits of that code. */
  lemma LongPeek(bl: seq<nat>, n: nat, tb: nat, s: nat, r: Reader)
    requires n <= |bl| && CodeAt(bl, n, s, r.bitBuffer) && tb < bl[s] && InRange(r)
    ensures Peek(r, tb) == Shr(CodeStart(bl, n, s, MAX_LENGTH), MAX_LENGTH - tb)
  {
    hide Shl, Shr, Pow2, CodeStart, Base, Count;
    var c, l := CodeStart(bl, n, s, MAX_LENGTH), bl[s];
    CodeAtTop(bl, n, s, r.bitBuffer);
    var a, b := MAX_LENGTH - l, l - tb;
    ShrShr(r.bitBuffer, a, b);
    ShrShr(c, a, b);
  }

  /** `FollowsFrom` from the first level on. */
  lemma FollowsStart(data: seq<byte>, r: Reader, r': Reader, tb: nat, code: int, steps: nat)
    requires Valid(data, r) && Valid(data, r') && Consumed(r') == Consumed(r) + tb
    requires tb <= MAX_LENGTH && steps <= MAX_LENGTH - tb
    requires Shr(r.bitBuffer, MAX_LENGTH - tb - steps) == Shr(code, MAX_LENGTH - tb - steps)
    ensures Follows(r', 0, code, MAX_LENGTH - tb, 1, steps)
  {
    hide Follows, Shr, Valid;
    FollowsFrom(data, r, r', tb, code, MAX_LENGTH - tb, 1, steps);
  }

  /** Reading a long code from the stream: the top `tb` window bits select
      its direct entry, and once they are consumed the window goes on with
      the rest of its code. */
  lemma LongFollows(data: seq<byte>, bl: seq<nat>, n: nat, tb: nat, s: nat, r: Reader)
    requires n <= |bl| && CodeAt(bl, n, s, r.bitBuffer) && tb < bl[s]
    requires Valid(data, r)
    ensures Peek(r, tb) == Shr(CodeStart(bl, n, s, MAX_LENGTH), MAX_LENGTH - tb)
    ensures Follows(FillBitBuffer(data, r, tb), 0, CodeStart(bl, n, s, MAX_LENGTH), MAX_LENGTH - tb, 1, bl[s] - tb)
  {
    assert bl[s] <= MAX_LENGTH && InRange(r);
    hide Shl, Shr, Pow2, CodeStart, Base, Count, FillBitBuffer, Follows, Peek, Valid, CodeAt, Bits, Consumed;
    LongPeek(bl, n, tb, s, r);
    CodeAtTop(bl, n, s, r.bitBuffer);
    var r' := FillBitBuffer(data, r, tb);
    FillBitBufferReads(data, r, tb);
    FollowsStart(data, r, r', tb, CodeStart(bl, n, s, MAX_LENGTH), bl[s] - tb);
  }

  /** Decoding a long code: the direct entry the top `tb` window bits
      select is a node, and the overflow walk from it over the refilled
      window returns the symbol. */
  lemma DecodeLong(data: seq<byte>, bl: seq<nat>, n: nat, tb: nat, tr: Tree, s: nat, r: Reader, fuel: nat)
    requires n <= |bl| && tb < MAX_LENGTH && |tr.left| == |tr.right|
    requires CodeAt(bl, n, s, r.bitBuffer) && tb < bl[s]
    requires Valid(data, r) && LongLeads(bl, n, tb, tr)
    requires fuel >= bl[s] - tb - 1
    ensures 0 <= Peek(r, tb) < |tr.table| && tr.table[Peek(r, tb)] >= n
    ensures Walk(FillBitBuffer(data, r, tb), tr.left, tr.right, tr.table[Peek(r, tb)], n, 0, fuel) == Ok(s)
  {
    hide Shl, Shr, Pow2, CodeStart, Base, Count, FillBitBuffer, Follows, LeadsTo;
    LongFollows(data, bl, n, tb, s, r);
    LookupLong(bl, n, tb, tr, s, FillBitBuffer(data, r, tb), 0, fuel);
  }

  /** A hung tree is ready for the walk of the next long symbol once its
      direct entry is known to lie in the cleared region of the table. */
  lemma LongReady(bl: seq<nat>, n: nat, tb: nat, tr: Tree, b: Build, avail: int, j: nat, p: int)
    requires j < n <= |bl| && tb < bl[j] <= MAX_LENGTH
    requires Hung(bl, n, tb, tr, b, avail, j)
    requires p == Shr(CodeStart(bl, n, j, MAX_LENGTH), MAX_LENGTH - tb)
    requires 0 <= b.z <= p < b.limit && p < |tr.table|
    ensures Ready(tr, b, avail, p, CodeStart(bl, n, j, MAX_LENGTH), MAX_LENGTH - tb, bl[j] - tb, j)
  {
    hide Hung, CodeStart, Shr, ByteBit, Pow2, Base, Count;
    var c, m := CodeStart(bl, n, j, MAX_LENGTH), MAX_LENGTH - tb;
    HungShaped(bl, n, tb, tr, b, avail, j);
    assert SlotAt(tr, c, m, 0) == Slot(InTable, p);
    assert Walked(tr, b, avail, c, m, 0);
    ClearFromHung(bl, n, tb, tr, b, avail, j, 0);
  }

  // ---------------------------------------------------------------------------
  // Which overflow nodes a build can touch

  /** The node arrays of `tr'` agree with those of `tr` from index `lo` up. */
  predicate KeptFrom(tr: Tree, tr': Tree, lo: int)
  {
    && |tr'.left| == |tr.left| && |tr'.right| == |tr.right|
    && (forall i :: lo <= i < |tr.left| && 0 <= i ==> tr'.left[i] == tr.left[i])
    && (forall i :: lo <= i < |tr.right| && 0 <= i ==> tr'.right[i] == tr.right[i])
  }

  /** How many levels the overflow walk of symbol `j` descends. */
  function Spent(bl: seq<nat>, tb: nat, j: nat): nat
    requires j < |bl|
  {
    if tb < bl[j] then bl[j] - tb else 0
  }

  /** The most nodes the first `j` symbols can allocate: one per level of
      each overflow walk. */
  function Budget(bl: seq<nat>, tb: nat, j: nat): nat
    requires j <= |bl|
  {
    if j == 0 then 0 else Budget(bl, tb, j - 1) + Spent(bl, tb, j - 1)
  }

  /** With every length at most 16, each walk descends at most `16 - tb` levels. */
  lemma {:induction false} BudgetBound(bl: seq<nat>, tb: nat, j: nat)
    requires j <= |bl| && tb < MAX_LENGTH
    requires forall i :: 0 <= i < j ==> bl[i] <= MAX_LENGTH
    ensures Budget(bl, tb, j) <= j * (MAX_LENGTH - tb)
  {
    if j > 0 {
      BudgetBound(bl, tb, j - 1);
      var c := MAX_LENGTH - tb;
      assert Spent(bl, tb, j - 1) <= c;
      assert (j - 1) * c + c == j * c;
    }
  }

  lemma KeptSelf(tr: Tree, lo: int)
    ensures KeptFrom(tr, tr, lo)
  {
  }

  /** The slot a descent stands on is live. */
  lemma DescendLive(tr: Tree, avail: int, b: Build, cur: Tree, av: int, start: int, m: nat, step: nat, steps: nat)
    requires step <= steps <= m
    requires Descending(tr, avail, b, cur, av, start, m, step, steps)
    ensures Live(cur, b, av, SlotAt(cur, start, m, step))
  {
    WalkedLast(cur, b, av, start, m, step);
  }

  /** Storing into the table or a node below `av` keeps the nodes from `av` up. */
  lemma PutKept(tr: Tree, cur: Tree, x: Slot, v: int, av: int)
    requires KeptFrom(tr, cur, av)
    requires x.side == InTable || x.index < av
    ensures KeptFrom(tr, Put(cur, x, v), av)
  {
  }

  /** Allocating node `av` under a slot below it keeps the nodes past `av`. */
  lemma AllocKept(tr: Tree, cur: Tree, x: Slot, av: int)
    requires 0 <= av < |cur.left| && av < |cur.right|
    requires KeptFrom(tr, cur, av)
    requires x.side == InTable || x.index < av
    ensures KeptFrom(tr, Alloc(cur, x, av), av + 1)
  {
    var t0 := cur.(right := cur.right[av := 0]).(left := cur.left[av := 0]);
    assert KeptFrom(tr, t0, av + 1);
    PutKept(tr, t0, x, av, av + 1);
  }

  // ---------------------------------------------------------------------------
  // The builder

  /** The overflow walk for one long code: `steps` levels below direct entry
      `p0`, going right on a 1 bit of `start` (the code, 16 bits, read from
      bit `m - 1` down), allocating a node wherever the slot is still 0.
      The source shifts `start` left and tests bit 15; the bit it tests is
      the one `ByteBit` names, whatever the 32-bit shift drops. */
  method PlaceLong(tr: Tree, avail: int, p0: int, start: int, m: nat, steps: nat, sym: int, ghost b: Build)
    returns (r: Result<(Tree, int)>)
    requires 1 <= steps <= m
    ensures r.Ok? ==> |r.value.0.table| == |tr.table| && |r.value.0.left| == |tr.left| && |r.value.0.right| == |tr.right|
    ensures r.Ok? ==> r.value.1 >= avail && 0 <= p0 < |tr.table|
    ensures r.Ok? ==> forall i :: 0 <= i < |tr.table| && i != p0 ==> r.value.0.table[i] == tr.table[i]
    ensures r.Ok? && 0 <= p0 < |tr.table| ==>
              r.value.0.table[p0] == tr.table[p0] || (tr.table[p0] == 0 && r.value.0.table[p0] == avail)
    ensures r.Ok? && Ready(tr, b, avail, p0, start, m, steps, sym) ==>
              Stored(tr, avail, b, r.value.0, r.value.1, start, m, steps, sym)
    ensures r.Ok? && Ready(tr, b, avail, p0, start, m, steps, sym) ==>
              r.value.1 <= avail + steps && KeptFrom(tr, r.value.0, r.value.1)
  {
    hide Descending, Ready, Stored, Shaped, Walked, Held, Put, Shr, ByteBit, KeptFrom;
    var t := InTable;
    var p := p0;
    var cur := tr;
    var av := avail;
    var step := 0;
    ghost var ready := Ready(tr, b, avail, p0, start, m, steps, sym);
    if ready {
      DescendStart(tr, b, avail, p0, start, m, steps, sym);
    }
    KeptSelf(tr, avail);
    while step < steps
      invariant 0 <= step <= steps
      invariant |cur.table| == |tr.table| && |cur.left| == |tr.left| && |cur.right| == |tr.right|
      invariant av >= avail
      invariant step == 0 ==> t == InTable && p == p0 && cur == tr && av == avail
      invariant step > 0 ==> t != InTable && 0 <= p0 < |tr.table|
      invariant forall i :: 0 <= i < |tr.table| && i != p0 ==> cur.table[i] == tr.table[i]
      invariant 0 <= p0 < |tr.table| ==> cur.table[p0] == tr.table[p0] || (tr.table[p0] == 0 && cur.table[p0] == avail)
      invariant ready ==> Slot(t, p) == SlotAt(cur, start, m, step) && Descending(tr, avail, b, cur, av, start, m, step, steps)
      invariant ready ==> av <= avail + step && KeptFrom(tr, cur, av)
    {
      var v :- Get(cur, t, p);
      ghost var x := Slot(t, p);
      if v == 0 {
        if av < 0 || av >= |cur.right| || av >= |cur.left| {
          return Err(IndexOutOfRange);
        }
        ghost var before := cur;
        cur := cur.(right := cur.right[av := 0]);
        cur := cur.(left := cur.left[av := 0]);
        cur :- Set(cur, t, p, av);
        assert cur == Alloc(before, x, av);
        if ready {
          DescendLive(tr, avail, b, before, av, start, m, step, steps);
          AllocKept(tr, before, x, av);
          DescendAlloc(tr, avail, b, before, av, start, m, step, steps);
        }
        av := av + 1;
      } else if ready {
        DescendFollow(tr, avail, b, cur, av, start, m, step, steps);
      }
      p :- Get(cur, t, p);
      t := if ByteBit(start, m - 1 - step) == 1 then InRight else InLeft;
      step := step + 1;
    }
    if ready {
      DescendEnd(tr, avail, b, cur, av, start, m, steps, sym);
      DescendLive(tr, avail, b, cur, av, start, m, steps, steps);
      PutKept(tr, cur, Slot(t, p), sym, av);
    }
    cur :- Set(cur, t, p, sym);
    return Ok((cur, av));
  }

  /** The direct entries from `z` to `limit` hold 0 or a node index. */
  ghost predicate ZeroRegion(table: seq<int>, z: int, limit: int, nchar: nat)
  {
    forall i :: z <= i < limit && 0 <= i < |table| ==> table[i] == 0 || table[i] >= nchar
  }

  /** `weightTable`: a code of length `l` takes up `2^(16 - l)` window values. */
  function Weights(): (w: seq<int>)
    ensures |w| == MAX_LENGTH + 1
    ensures forall l :: 1 <= l <= MAX_LENGTH ==> w[l] == Pow2(MAX_LENGTH - l)
  {
    seq(MAX_LENGTH + 1, l => if 1 <= l <= MAX_LENGTH then Pow2(MAX_LENGTH - l) else 0)
  }

  /** The first loop: count each length, rejecting any above 16. */
  method CountLengths(nchar: nat, bitLength: seq<nat>) returns (r: Result<seq<int>>)
    requires nchar <= |bitLength|
    ensures r.Err? <==> exists i :: 0 <= i < nchar && bitLength[i] > MAX_LENGTH
    ensures r.Err? ==> r.error == BadTable
    ensures r.Ok? ==> |r.value| == MAX_LENGTH + 1
    ensures r.Ok? ==> forall l :: 0 <= l <= MAX_LENGTH ==> r.value[l] == Count(bitLength, nchar, l)
  {
    var count: seq<int> := seq(MAX_LENGTH + 1, _ => 0);
    var i := 0;
    while i < nchar
      invariant 0 <= i <= nchar
      invariant |count| == MAX_LENGTH + 1
      invariant forall k :: 0 <= k < i ==> bitLength[k] <= MAX_LENGTH
      invariant forall l :: 0 <= l <= MAX_LENGTH ==> count[l] == Count(bitLength, i, l)
    {
      if bitLength[i] > MAX_LENGTH {
        return Err(BadTable);
      }
      count := count[bitLength[i] := count[bitLength[i]] + 1];
      i := i + 1;
    }
    return Ok(count);
  }

  /** The second loop: the first 16-bit code of each length, and the room
      all codes take up. */
  method Starts(nchar: nat, bitLength: seq<nat>, count: seq<int>) returns (start: seq<int>, total: int)
    requires nchar <= |bitLength| && |count| == MAX_LENGTH + 1
    requires forall l :: 0 <= l <= MAX_LENGTH ==> count[l] == Count(bitLength, nchar, l)
    ensures |start| == MAX_LENGTH + 1 && total == Total(bitLength, nchar)
    ensures forall k :: 1 <= k <= MAX_LENGTH ==> start[k] == Base(bitLength, nchar, k, MAX_LENGTH)
  {
    var weight := Weights();
    start := seq(MAX_LENGTH + 1, _ => 0);
    total := 0;
    var l := 1;
    hide Base, Count, Pow2;
    BaseFirst(bitLength, nchar, MAX_LENGTH);
    while l <= MAX_LENGTH
      invariant 1 <= l <= MAX_LENGTH + 1
      invariant |start| == MAX_LENGTH + 1
      invariant total == Base(bitLength, nchar, l, MAX_LENGTH)
      invariant forall k :: 1 <= k < l ==> start[k] == Base(bitLength, nchar, k, MAX_LENGTH)
    {
      BaseSucc(bitLength, nchar, l, MAX_LENGTH);
      start := start[l := total];
      MulCong(weight[l], count[l], Pow2(MAX_LENGTH - l), Count(bitLength, nchar, l));
      total := total + weight[l] * count[l];
      l := l + 1;
    }
  }

  /** The third loop: starts and weights of the lengths up to `tableBits`,
      shifted down to table entries. */
  method Rescale(nchar: nat, bitLength: seq<nat>, tableBits: nat, start: seq<int>) returns (start': seq<int>, weight: seq<int>)
    requires nchar <= |bitLength| && tableBits < MAX_LENGTH && |start| == MAX_LENGTH + 1
    requires forall k :: 1 <= k <= MAX_LENGTH ==> start[k] == Base(bitLength, nchar, k, MAX_LENGTH)
    ensures |start'| == MAX_LENGTH + 1 && |weight| == MAX_LENGTH + 1
    ensures forall k :: 1 <= k <= tableBits ==> start'[k] == Base(bitLength, nchar, k, tableBits) && weight[k] == Pow2(tableBits - k)
    ensures forall k :: tableBits < k <= MAX_LENGTH ==> start'[k] == Base(bitLength, nchar, k, MAX_LENGTH) && weight[k] == Pow2(MAX_LENGTH - k)
  {
    var m := MAX_LENGTH - tableBits;
    weight := Weights();
    start' := start;
    var l := 1;
    hide Base, Count, Pow2, Shl, Shr;
    while l <= tableBits
      invariant 1 <= l <= tableBits + 1
      invariant |start'| == MAX_LENGTH + 1 && |weight| == MAX_LENGTH + 1
      invariant forall k :: 1 <= k < l ==> start'[k] == Base(bitLength, nchar, k, tableBits) && weight[k] == Pow2(tableBits - k)
      invariant forall k :: l <= k <= MAX_LENGTH ==> start'[k] == Base(bitLength, nchar, k, MAX_LENGTH) && weight[k] == Pow2(MAX_LENGTH - k)
    {
      Scale(bitLength, nchar, l, tableBits);
      ShrShlExact(Base(bitLength, nchar, l, tableBits), m);
      assert Shr(start'[l], m) == Base(bitLength, nchar, l, tableBits);
      Pow2Add(tableBits - l, m);
      assert tableBits - l + m == MAX_LENGTH - l;
      ShrShlExact(Pow2(tableBits - l), m);
      assert Shr(weight[l], m) == Pow2(tableBits - l);
      start' := start'[l := Shr(start'[l], m)];
      weight := weight[l := Shr(weight[l], m)];
      l := l + 1;
    }
  }

  /** The bookkeeping of the placement loop after `j` symbols: each length's
      next free code. */
  ghost predicate NextCodes(bl: seq<nat>, n: nat, tb: nat, start: seq<int>, weight: seq<int>, j: nat)
    requires j <= n <= |bl| && tb < MAX_LENGTH
  {
    && |start| == MAX_LENGTH + 1 && |weight| == MAX_LENGTH + 1
    && (forall k :: 1 <= k <= tb ==>
          start[k] == Base(bl, n, k, tb) + Count(bl, j, k) * Pow2(tb - k) && weight[k] == Pow2(tb - k))
    && (forall k :: tb < k <= MAX_LENGTH ==>
          start[k] == Base(bl, n, k, MAX_LENGTH) + Count(bl, j, k) * Pow2(MAX_LENGTH - k) && weight[k] == Pow2(MAX_LENGTH - k))
  }

  /** Moving length `bl[j]`'s start on by its weight accounts for symbol `j`. */
  lemma NextCodesStep(bl: seq<nat>, n: nat, tb: nat, start: seq<int>, weight: seq<int>, j: nat)
    requires j < n <= |bl| && tb < MAX_LENGTH && 1 <= bl[j] <= MAX_LENGTH
    requires NextCodes(bl, n, tb, start, weight, j)
    ensures NextCodes(bl, n, tb, start[bl[j] := start[bl[j]] + weight[bl[j]]], weight, j + 1)
  {
    hide Base, Count, Pow2;
    var k := bl[j];
    var start' := start[k := start[k] + weight[k]];
    forall k' | 1 <= k' <= MAX_LENGTH
      ensures k' <= tb ==> start'[k'] == Base(bl, n, k', tb) + Count(bl, j + 1, k') * Pow2(tb - k')
      ensures tb < k' ==> start'[k'] == Base(bl, n, k', MAX_LENGTH) + Count(bl, j + 1, k') * Pow2(MAX_LENGTH - k')
    {
      CountSucc(bl, j, k');
      if k' == k {
        var p := if k <= tb then Pow2(tb - k) else Pow2(MAX_LENGTH - k);
        MulAddOne(Count(bl, j, k), p);
      }
    }
  }

  /** A symbol of length 0 takes no code. */
  lemma NextCodesSkip(bl: seq<nat>, n: nat, tb: nat, start: seq<int>, weight: seq<int>, j: nat)
    requires j < n <= |bl| && tb < MAX_LENGTH && bl[j] == 0
    requires NextCodes(bl, n, tb, start, weight, j)
    ensures NextCodes(bl, n, tb, start, weight, j + 1)
  {
    hide Base, Count, Pow2;
    forall k' | 1 <= k' <= MAX_LENGTH
      ensures Count(bl, j + 1, k') == Count(bl, j, k')
    {
      CountSucc(bl, j, k');
    }
  }

  lemma MulCong(a: int, b: int, p: int, c: int)
    requires a == p && b == c
    ensures a * b == c * p
  {
  }

  lemma MulAddOne(c: int, p: int)
    ensures (c + 1) * p == c * p + p
  {
  }

  /** What one round of the last loop leaves for symbol `j`: the arrays
      keep their sizes, the next free codes and the direct ranges cover
      symbols up to `j`, the cleared region still holds only nodes, a long
      code's root entry is inside the table, and a hung overflow tree stays
      hung with `j` added. */
  ghost predicate Advanced(bitLength: seq<nat>, nchar: nat, tableBits: nat, z: int, limit: int, weight: seq<int>,
                           tr: Tree, avail: int, j: nat, tr': Tree, start': seq<int>, avail': int)
    requires j < nchar <= |bitLength| && tableBits < MAX_LENGTH
  {
    && |tr'.table| == |tr.table| && |tr'.left| == |tr.left| && |tr'.right| == |tr.right|
    && avail' >= nchar
    && NextCodes(bitLength, nchar, tableBits, start', weight, j + 1)
    && ShortPlaced(bitLength, nchar, tableBits, tr'.table, j + 1)
    && (z != 0 ==> ZeroRegion(tr'.table, z, limit, nchar))
    && (tableBits < bitLength[j] <= MAX_LENGTH ==>
          Shr(CodeStart(bitLength, nchar, j, MAX_LENGTH), MAX_LENGTH - tableBits) <= TABLE_LIMIT)
    && (z != 0 && RootsInTable(bitLength, nchar, tableBits, limit, j + 1)
        && Hung(bitLength, nchar, tableBits, tr, Build(nchar, z, limit), avail, j) ==>
          Hung(bitLength, nchar, tableBits, tr', Build(nchar, z, limit), avail', j + 1))
  }

  /** The round of a short code: its direct range gets the symbol. */
  method ShortRound(nchar: nat, bitLength: seq<nat>, tableBits: nat, z: int, limit: int,
                    start: seq<int>, weight: seq<int>, tr: Tree, avail: int, j: nat)
    returns (r: Result<(Tree, seq<int>, int)>)
    requires j < nchar <= |bitLength| && tableBits < MAX_LENGTH
    requires forall i :: 0 <= i < nchar ==> bitLength[i] <= MAX_LENGTH
    requires z == Base(bitLength, nchar, tableBits + 1, tableBits) && avail >= nchar
    requires NextCodes(bitLength, nchar, tableBits, start, weight, j)
    requires ShortPlaced(bitLength, nchar, tableBits, tr.table, j)
    requires z != 0 ==> ZeroRegion(tr.table, z, limit, nchar)
    requires 0 < bitLength[j] <= tableBits
    ensures r.Ok? ==> Advanced(bitLength, nchar, tableBits, z, limit, weight, tr, avail, j, r.value.0, r.value.1, r.value.2)
    ensures r.Ok? ==> r.value.2 == avail && r.value.0.left == tr.left && r.value.0.right == tr.right
    ensures z <= |tr.table| ==> r.Ok?
  {
    hide Base, Count, Pow2, Shl, Shr, Hung, RootsInTable;
    var k := bitLength[j];
    ghost var b := Build(nchar, z, limit);
    var lEnd := start[k] + weight[k];
    NextCodesStep(bitLength, nchar, tableBits, start, weight, j);
    var start' := start[k := lEnd];
    assert start[k] == CodeStart(bitLength, nchar, j, tableBits);
    CodeEnd(bitLength, nchar, j, tableBits);
    BaseMono(bitLength, nchar, k + 1, tableBits + 1, tableBits);
    var filled := Fill(tr.table, start[k], Clamp(lEnd), j);
    if filled.Err? {
      return Err(filled.error);
    }
    PlaceShort(bitLength, nchar, tableBits, tr.table, filled.value, j, z, limit);
    if z != 0 && RootsInTable(bitLength, nchar, tableBits, limit, j + 1) && Hung(bitLength, nchar, tableBits, tr, b, avail, j) {
      HungFrame(bitLength, nchar, tableBits, tr, tr.(table := filled.value), b, avail, j);
      HungNext(bitLength, nchar, tableBits, tr.(table := filled.value), b, avail, j);
    }
    return Ok((tr.(table := filled.value), start', avail));
  }

  /** The round of a long code: its overflow walk ends in the symbol. */
  method LongRound(nchar: nat, bitLength: seq<nat>, tableBits: nat, z: int, limit: int,
                   start: seq<int>, weight: seq<int>, tr: Tree, avail: int, j: nat)
    returns (r: Result<(Tree, seq<int>, int)>)
    requires j < nchar <= |bitLength| && tableBits < MAX_LENGTH
    requires forall i :: 0 <= i < nchar ==> bitLength[i] <= MAX_LENGTH
    requires z == Base(bitLength, nchar, tableBits + 1, tableBits) && avail >= nchar
    requires NextCodes(bitLength, nchar, tableBits, start, weight, j)
    requires ShortPlaced(bitLength, nchar, tableBits, tr.table, j)
    requires z != 0 ==> ZeroRegion(tr.table, z, limit, nchar)
    requires tableBits < bitLength[j]
    ensures r.Ok? ==> Advanced(bitLength, nchar, tableBits, z, limit, weight, tr, avail, j, r.value.0, r.value.1, r.value.2)
    ensures r.Ok? && z != 0 && RootsInTable(bitLength, nchar, tableBits, limit, j + 1)
            && Hung(bitLength, nchar, tableBits, tr, Build(nchar, z, limit), avail, j) ==>
              avail <= r.value.2 <= avail + Spent(bitLength, tableBits, j) && KeptFrom(tr, r.value.0, r.value.2)
  {
    hide Base, Count, Pow2, Shl, Hung;
    var k := bitLength[j];
    ghost var b := Build(nchar, z, limit);
    var m := MAX_LENGTH - tableBits;
    var lEnd := start[k] + weight[k];
    NextCodesStep(bitLength, nchar, tableBits, start, weight, j);
    var start' := start[k := lEnd];
    var st := start[k];
    assert st == CodeStart(bitLength, nchar, j, MAX_LENGTH);
    var p := Shr(st, m);
    if p > TABLE_LIMIT {
      return Err(BadTable);
    }
    var placed := PlaceLong(tr, avail, p, st, m, k - tableBits, j, b);
    if placed.Err? {
      return Err(placed.error);
    }
    LongAboveShort(bitLength, nchar, tableBits, j, z);
    if z != 0 && RootsInTable(bitLength, nchar, tableBits, limit, j + 1) && Hung(bitLength, nchar, tableBits, tr, b, avail, j) {
      LongReady(bitLength, nchar, tableBits, tr, b, avail, j, p);
      HungLong(bitLength, nchar, tableBits, tr, placed.value.0, b, avail, placed.value.1, j);
    }
    KeepShort(bitLength, nchar, tableBits, tr.table, placed.value.0.table, j, p, z, limit, avail);
    return Ok((placed.value.0, start', placed.value.1));
  }

  /** One round of the last loop: symbol `j`'s direct range when its code
      is short, its overflow walk when it is long, nothing when it has no
      code; the next free code of its length moves on by one. */
  method PlaceSymbol(nchar: nat, bitLength: seq<nat>, tableBits: nat, z: int, limit: int,
                     start: seq<int>, weight: seq<int>, tr: Tree, avail: int, j: nat)
    returns (r: Result<(Tree, seq<int>, int)>)
    requires j < nchar <= |bitLength| && tableBits < MAX_LENGTH
    requires forall i :: 0 <= i < nchar ==> bitLength[i] <= MAX_LENGTH
    requires z == Base(bitLength, nchar, tableBits + 1, tableBits) && avail >= nchar
    requires NextCodes(bitLength, nchar, tableBits, start, weight, j)
    requires ShortPlaced(bitLength, nchar, tableBits, tr.table, j)
    requires z != 0 ==> ZeroRegion(tr.table, z, limit, nchar)
    ensures r.Ok? ==> var (tr', start', avail') := r.value;
              && |tr'.table| == |tr.table| && |tr'.left| == |tr.left| && |tr'.right| == |tr.right|
              && avail' >= nchar
              && NextCodes(bitLength, nchar, tableBits, start', weight, j + 1)
              && ShortPlaced(bitLength, nchar, tableBits, tr'.table, j + 1)
              && (z != 0 ==> ZeroRegion(tr'.table, z, limit, nchar))
              && (tableBits < bitLength[j] ==>
                    Shr(CodeStart(bitLength, nchar, j, MAX_LENGTH), MAX_LENGTH - tableBits) <= TABLE_LIMIT)
    ensures bitLength[j] == 0 ==> r == Ok((tr, start, avail))
    ensures r.Ok? && bitLength[j] <= tableBits ==> r.value.0.left == tr.left && r.value.0.right == tr.right
    ensures AllShort(bitLength, nchar, tableBits) && z <= |tr.table| ==> r.Ok?
    ensures r.Ok? && z != 0 && RootsInTable(bitLength, nchar, tableBits, limit, j + 1)
              && Hung(bitLength, nchar, tableBits, tr, Build(nchar, z, limit), avail, j) ==>
                 Hung(bitLength, nchar, tableBits, r.value.0, Build(nchar, z, limit), r.value.2, j + 1)
    ensures r.Ok? && z != 0 && RootsInTable(bitLength, nchar, tableBits, limit, j + 1)
            && Hung(bitLength, nchar, tableBits, tr, Build(nchar, z, limit), avail, j) ==>
              avail <= r.value.2 <= avail + Spent(bitLength, tableBits, j) && KeptFrom(tr, r.value.0, r.value.2)
  {
    hide Base, Count, Pow2, Shl, Shr, Hung, RootsInTable, NextCodes, ZeroRegion;
    var k := bitLength[j];
    if k == 0 {
      NextCodesSkip(bitLength, nchar, tableBits, start, weight, j);
      if z != 0 && RootsInTable(bitLength, nchar, tableBits, limit, j + 1)
         && Hung(bitLength, nchar, tableBits, tr, Build(nchar, z, limit), avail, j) {
        HungNext(bitLength, nchar, tableBits, tr, Build(nchar, z, limit), avail, j);
      }
      return Ok((tr, start, avail));
    }
    if k <= tableBits {
      r := ShortRound(nchar, bitLength, tableBits, z, limit, start, weight, tr, avail, j);
    } else {
      r := LongRound(nchar, bitLength, tableBits, z, limit, start, weight, tr, avail, j);
    }
  }

  /** The last loop: the direct range of every short code, the overflow
      walk of every long one. */
  method PlaceAll(nchar: nat, bitLength: seq<nat>, tableBits: nat, z: int, limit: int,
                  start: seq<int>, weight: seq<int>, tr: Tree) returns (r: Result<Tree>)
    requires nchar <= |bitLength| && tableBits < MAX_LENGTH
    requires forall i :: 0 <= i < nchar ==> bitLength[i] <= MAX_LENGTH
    requires z == Base(bitLength, nchar, tableBits + 1, tableBits)
    requires NextCodes(bitLength, nchar, tableBits, start, weight, 0)
    requires z != 0 ==> ZeroRegion(tr.table, z, limit, nchar)
    requires z != 0 ==> forall i :: z <= i < limit && 0 <= i < |tr.table| ==> tr.table[i] == 0
    ensures r.Ok? ==> |r.value.table| == |tr.table| && |r.value.left| == |tr.left| && |r.value.right| == |tr.right|
    ensures r.Ok? ==> ShortPlaced(bitLength, nchar, tableBits, r.value.table, nchar)
    ensures r.Ok? && z != 0 ==> ZeroRegion(r.value.table, z, limit, nchar)
    ensures r.Ok? ==> forall s :: 0 <= s < nchar && tableBits < bitLength[s] <= MAX_LENGTH ==>
                        Shr(CodeStart(bitLength, nchar, s, MAX_LENGTH), MAX_LENGTH - tableBits) <= TABLE_LIMIT
    ensures r.Ok? && z != 0 && RootsInTable(bitLength, nchar, tableBits, limit, nchar) ==>
              forall s :: 0 <= s < nchar && tableBits < bitLength[s] <= MAX_LENGTH ==>
                LeadsTo(r.value, nchar, CodeStart(bitLength, nchar, s, MAX_LENGTH), MAX_LENGTH - tableBits, bitLength[s] - tableBits, s)
    ensures AllZero(bitLength, nchar) ==> r == Ok(tr)
    ensures AllShort(bitLength, nchar, tableBits) && z <= |tr.table| ==> r.Ok?
    ensures r.Ok? && AllShort(bitLength, nchar, tableBits) ==> r.value.left == tr.left && r.value.right == tr.right
    ensures r.Ok? && z != 0 && RootsInTable(bitLength, nchar, tableBits, limit, nchar) ==>
              KeptFrom(tr, r.value, nchar + Budget(bitLength, tableBits, nchar))
  {
    hide Base, Count, Pow2, Shl, Shr, NextCodes, ZeroRegion, Hung, LeadsTo;
    var cur := tr;
    var start := start;
    var avail := nchar;
    var j := 0;
    ghost var b := Build(nchar, z, limit);
    if z != 0 {
      if nchar == 0 {
        AllZeroBase(bitLength, nchar, tableBits + 1, tableBits);
      }
      HungStart(bitLength, nchar, tableBits, tr, z, limit);
    }
    while j < nchar
      invariant 0 <= j <= nchar
      invariant |cur.table| == |tr.table| && |cur.left| == |tr.left| && |cur.right| == |tr.right|
      invariant avail >= nchar
      invariant NextCodes(bitLength, nchar, tableBits, start, weight, j)
      invariant ShortPlaced(bitLength, nchar, tableBits, cur.table, j)
      invariant z != 0 ==> ZeroRegion(cur.table, z, limit, nchar)
      invariant forall s :: 0 <= s < j && tableBits < bitLength[s] <= MAX_LENGTH ==>
                  Shr(CodeStart(bitLength, nchar, s, MAX_LENGTH), MAX_LENGTH - tableBits) <= TABLE_LIMIT
      invariant AllZero(bitLength, nchar) ==> cur == tr
      invariant AllShort(bitLength, nchar, tableBits) ==> cur.left == tr.left && cur.right == tr.right
      invariant z != 0 && RootsInTable(bitLength, nchar, tableBits, limit, j) ==>
                  Hung(bitLength, nchar, tableBits, cur, b, avail, j)
      invariant z != 0 && RootsInTable(bitLength, nchar, tableBits, limit, j) ==>
                  avail <= nchar + Budget(bitLength, tableBits, j) && KeptFrom(tr, cur, avail)
    {
      var step := PlaceSymbol(nchar, bitLength, tableBits, z, limit, start, weight, cur, avail, j);
      if step.Err? {
        return Err(step.error);
      }
      cur, start, avail := step.value.0, step.value.1, step.value.2;
      j := j + 1;
    }
    if z != 0 && RootsInTable(bitLength, nchar, tableBits, limit, nchar) {
      HungLeads(bitLength, nchar, tableBits, cur, b, avail);
    }
    return Ok(cur);
  }

  /** `MakeTable(nchar, bitLength, tableBits, table)`. */
  method MakeTable(nchar: nat, bitLength: seq<nat>, tableBits: nat, tr: Tree) returns (r: Result<Tree>)
    requires nchar <= |bitLength|
    ensures (exists i :: 0 <= i < nchar && bitLength[i] > MAX_LENGTH) ==> r == Err(BadTable)
    ensures ((forall i :: 0 <= i < nchar ==> bitLength[i] <= MAX_LENGTH)
              && (Total(bitLength, nchar) % 0x10000 != 0 || tableBits > MAX_LENGTH)) ==> r == Err(BadTable)
    ensures r.Ok? ==> && (forall i :: 0 <= i < nchar ==> bitLength[i] <= MAX_LENGTH)
                      && Total(bitLength, nchar) % 0x10000 == 0 && tableBits < MAX_LENGTH
    ensures r.Ok? ==> |r.value.table| == |tr.table| && |r.value.left| == |tr.left| && |r.value.right| == |tr.right|
    ensures r.Ok? ==> ShortPlaced(bitLength, nchar, tableBits, r.value.table, nchar)
    ensures r.Ok? && Base(bitLength, nchar, tableBits + 1, tableBits) != 0 ==>
              ZeroRegion(r.value.table, Base(bitLength, nchar, tableBits + 1, tableBits), Clamp(Pow2(tableBits)), nchar)
    ensures r.Ok? ==> forall s :: 0 <= s < nchar && tableBits < bitLength[s] <= MAX_LENGTH ==>
                        Shr(CodeStart(bitLength, nchar, s, MAX_LENGTH), MAX_LENGTH - tableBits) <= TABLE_LIMIT
    ensures AllZero(bitLength, nchar) && tableBits < MAX_LENGTH ==> r == Ok(tr)
    ensures (&& AllShort(bitLength, nchar, tableBits) && Total(bitLength, nchar) == 0x10000
             && tableBits < MAX_LENGTH && Pow2(tableBits) <= |tr.table|) ==> r.Ok?
    ensures r.Ok? && Base(bitLength, nchar, tableBits + 1, tableBits) != 0
            && RootsInTable(bitLength, nchar, tableBits, Clamp(Pow2(tableBits)), nchar) ==>
              forall s :: 0 <= s < nchar && tableBits < bitLength[s] <= MAX_LENGTH ==>
                LeadsTo(r.value, nchar, CodeStart(bitLength, nchar, s, MAX_LENGTH), MAX_LENGTH - tableBits, bitLength[s] - tableBits, s)
    ensures r.Ok? && AllShort(bitLength, nchar, tableBits) ==> r.value.left == tr.left && r.value.right == tr.right
    ensures r.Ok? && Base(bitLength, nchar, tableBits + 1, tableBits) != 0
            && RootsInTable(bitLength, nchar, tableBits, Clamp(Pow2(tableBits)), nchar) ==>
              KeptFrom(tr, r.value, nchar + Budget(bitLength, tableBits, nchar))
  {
    hide Base, Count, Pow2, Shl, Shr, LeadsTo, RootsInTable;
    var count :- CountLengths(nchar, bitLength);
    var start, total := Starts(nchar, bitLength, count);
    if AllZero(bitLength, nchar) {
      AllZeroBase(bitLength, nchar, MAX_LENGTH + 1, MAX_LENGTH);
    }
    if total % 0x10000 != 0 || tableBits > MAX_LENGTH {
      return Err(BadTable);
    }
    if tableBits == MAX_LENGTH {
      return Err(IndexOutOfRange);  // startTable[tableBits + 1]
    }
    var m := MAX_LENGTH - tableBits;
    var weight;
    start, weight := Rescale(nchar, bitLength, tableBits, start);

    // Clear the entries past the short codes.
    var z := Shr(start[tableBits + 1], m);
    Scale(bitLength, nchar, tableBits + 1, tableBits);
    ShrShlExact(Base(bitLength, nchar, tableBits + 1, tableBits), m);
    var limit := Clamp(Pow2(tableBits));
    var table := tr.table;
    if AllZero(bitLength, nchar) {
      AllZeroBase(bitLength, nchar, tableBits + 1, tableBits);
    }
    if AllShort(bitLength, nchar, tableBits) && Total(bitLength, nchar) == 0x10000 {
      CompleteShortBase(bitLength, nchar, tableBits);
    }
    if z != 0 {
      var cleared := Fill(table, z, limit, 0);
      if cleared.Err? {
        return Err(cleared.error);
      }
      table := cleared.value;
    }
    r := PlaceAll(nchar, bitLength, tableBits, z, limit, start, weight, tr.(table := table));
  }

  /** The decode side: a table `MakeTable` built answers the symbol whose
      code opens the 16-bit window, for every short code whose entry lies
      inside the table. */
  lemma LookupShort(bl: seq<nat>, n: nat, tb: nat, table: seq<int>, s: nat, x: int)
    requires s < n <= |bl| && 1 <= bl[s] <= tb < MAX_LENGTH
    requires ShortPlaced(bl, n, tb, table, n)
    requires CodeStart(bl, n, s, MAX_LENGTH) <= x < CodeStart(bl, n, s, MAX_LENGTH) + Pow2(MAX_LENGTH - bl[s])
    requires 0 <= x && Shr(x, MAX_LENGTH - tb) < TABLE_LIMIT && Shr(x, MAX_LENGTH - tb) < |table|
    ensures 0 <= Shr(x, MAX_LENGTH - tb) && table[Shr(x, MAX_LENGTH - tb)] == s
  {
    hide Base, Count, Pow2, Shl, Shr;
    ShrMono(0, x, MAX_LENGTH - tb);
    ShrZero(MAX_LENGTH - tb);
    DirectLookup(bl, n, s, tb, x);
    assert Covers(bl, n, tb, s, Shr(x, MAX_LENGTH - tb));
  }

  /** Filling the range of short symbol `j` keeps the earlier symbols and
      the cleared region in place. */
  lemma PlaceShort(bl: seq<nat>, n: nat, tb: nat, table: seq<int>, table': seq<int>, j: nat, z: int, limit: int)
    requires j < n <= |bl| && 1 <= bl[j] <= tb < MAX_LENGTH
    requires z == Base(bl, n, tb + 1, tb)
    requires |table'| == |table|
    requires forall i :: 0 <= i < |table| ==> table'[i] == if CodeStart(bl, n, j, tb) <= i < Clamp(CodeStart(bl, n, j, tb) + Pow2(tb - bl[j])) then j else table[i]
    requires ShortPlaced(bl, n, tb, table, j)
    requires z != 0 ==> ZeroRegion(table, z, limit, n)
    ensures ShortPlaced(bl, n, tb, table', j + 1)
    ensures z != 0 ==> ZeroRegion(table', z, limit, n)
  {
    hide Base, Count, Pow2, CodeStart;
    CodeEnd(bl, n, j, tb);
    BaseMono(bl, n, bl[j] + 1, tb + 1, tb);
    forall s, i | 0 <= s < j + 1 && 0 <= i < |table'| && Covers(bl, n, tb, s, i)
      ensures table'[i] == s
    {
      if s < j {
        Disjoint(bl, n, s, j, tb);
      }
    }
  }

  /** A long code's first entry lies at or past the cleared region's start,
      so past every short range. */
  lemma LongAboveShort(bl: seq<nat>, n: nat, tb: nat, j: nat, z: int)
    requires j < n <= |bl| && tb < bl[j] <= MAX_LENGTH
    requires z == Base(bl, n, tb + 1, tb)
    ensures Shr(CodeStart(bl, n, j, MAX_LENGTH), MAX_LENGTH - tb) >= z
  {
    var m := MAX_LENGTH - tb;
    BaseMono(bl, n, tb + 1, bl[j], MAX_LENGTH);
    MulMono(0, Count(bl, j, bl[j]), Pow2(MAX_LENGTH - bl[j]));
    Scale(bl, n, tb + 1, tb);
    ShrShlExact(z, m);
    ShrMono(Shl(z, m), CodeStart(bl, n, j, MAX_LENGTH), m);
  }

  /** The overflow walk touches the direct table only at its root entry,
      which lies past every short range. */
  lemma KeepShort(bl: seq<nat>, n: nat, tb: nat, table: seq<int>, table': seq<int>, j: nat, p: int, z: int, limit: int, avail: int)
    requires j < n <= |bl| && tb < MAX_LENGTH
    requires z == Base(bl, n, tb + 1, tb) && p >= z && avail >= n
    requires |table'| == |table|
    requires forall i :: 0 <= i < |table| && i != p ==> table'[i] == table[i]
    requires 0 <= p < |table| ==> table'[p] == table[p] || (table[p] == 0 && table'[p] == avail)
    requires ShortPlaced(bl, n, tb, table, j + 1)
    requires z != 0 ==> ZeroRegion(table, z, limit, n)
    ensures ShortPlaced(bl, n, tb, table', j + 1)
    ensures z != 0 ==> ZeroRegion(table', z, limit, n)
  {
    forall s, i | 0 <= s < j + 1 && 0 <= i < |table'| && Covers(bl, n, tb, s, i)
      ensures table'[i] == s
    {
      CodeEnd(bl, n, s, tb);
      BaseMono(bl, n, bl[s] + 1, tb + 1, tb);
    }
  }

  // ---------------------------------------------------------------------------
  // Decoding a long code

  /** The overflow walk: window bit `k` onwards picks right on 1 and left on
      0 until a node below `limit`. Past the window only left links remain,
      and a chain of left links longer than the tree repeats a node, which
      the source never leaves. */
  function Walk(r: Reader, left: seq<int>, right: seq<int>, j: int, limit: int, k: nat, fuel: nat): (res: Result<int>)
    requires |left| == |right|
    ensures res.Ok? ==> res.value < limit
    ensures res.Err? ==> res.error == IndexOutOfRange || res.error == Diverges
    decreases fuel
  {
    if !(0 <= j < |left|) then Err(IndexOutOfRange)
    else
      var next := if WindowBit(r, k) then right[j] else left[j];
      if next < limit then Ok(next)
      else if fuel == 0 then Err(Diverges)
      else Walk(r, left, right, next, limit, k + 1, fuel - 1)
  }
}
