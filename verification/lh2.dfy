/** The `-lh2-` decoder (Library/Lh2Decoder.cs): an 8 KB dictionary and two
    adaptive Huffman trees in one arena. The code tree (286 symbols, root
    node 0) is the one of module `Adaptive`; the position tree (root node
    `ROOT_POSITION`, leaf of position symbol `s` written `~(s + N_CHAR)`)
    starts with one leaf and gains a leaf for the next position symbol every
    64 decoded bytes, up to 128 symbols. */
module Lh2 {
  import opened Outcome
  import opened BitStream
  import opened BitReader
  import opened Adaptive

  const ROOT_POSITION := TREESIZE_CODE
  const N_MAX := 286
  const MAX_MATCH := 256
  const NN := 8192
  const DICTIONARY_BIT := 13
  const POSITION_ADJUST := 253
  const NO_MORE := 0xFFFFFFFF

  /** The decoder's state: the arena, the escape symbol `n1`, the sum of the
      position counts since the last halving, the last node of the position
      tree and the decode count at which the next position symbol appears. */
  datatype State = State(arena: Arena, n1: int, totalPosition: int, mostPosition: int, nextCount: int)

  // ---------------------------------------------------------------------------
  // The growing position alphabet

  /** The value `nextCount` takes when it moves on by 64, with the
      cut-off at `nn`. */
  function Advance(next: int): (n: int)
    ensures n > next || next >= NO_MORE - 64
  {
    if next + 64 >= NN then NO_MORE else next + 64
  }

  /** `nextCount` before the `k`-th new position symbol, counted from 0. */
  function Schedule(k: nat): int
  {
    if k < 127 then 64 * (k + 1) else NO_MORE
  }

  /** From the initial 64, the `k`-th growth step adds symbol `k + 1`, so
      the symbols 1 to 127 appear in order, after which growth stops. */
  lemma {:induction false} ScheduleAdvance(k: nat)
    ensures Advance(Schedule(k)) == Schedule(k + 1)
    ensures k < 127 ==> Schedule(k) / 64 == k + 1 && Schedule(k) < NN
    ensures Schedule(0) == 64 && Schedule(127) == NO_MORE
  {
  }

  /** `InitPositionDynamic`: the position tree is one leaf, for position
      symbol 0, with count 1 and a block of its own. */
  function InitPositionDynamic(a: Arena): (res: Result<Arena>)
    requires Sized(a)
    ensures res.Ok? ==> var x := res.value;
              && Sized(x) && 0 <= a.avail < TREESIZE && 0 <= a.stock[a.avail] < TREESIZE
              && x.child[ROOT_POSITION] == Not(N_CHAR) && x.sNode[N_CHAR] == ROOT_POSITION
              && x.avail == a.avail + 1 && x.block[ROOT_POSITION] == a.stock[a.avail]
              && x.freq[ROOT_POSITION] == 1 && x.edge[x.block[ROOT_POSITION]] == ROOT_POSITION
              && x.child[..ROOT_POSITION] == a.child[..ROOT_POSITION] && x.freq[..ROOT_POSITION] == a.freq[..ROOT_POSITION]
              && x.block[..ROOT_POSITION] == a.block[..ROOT_POSITION] && x.parent == a.parent
              && x.stock == a.stock && x.sNode[..N_CHAR] == a.sNode[..N_CHAR]
    ensures res.Ok? <==> 0 <= a.avail < TREESIZE && 0 <= a.stock[a.avail] < TREESIZE
  {
    var b :- At(a.stock, a.avail);
    var edge :- Put(a.edge, b, ROOT_POSITION);
    Ok(a.(freq := a.freq[ROOT_POSITION := 1], child := a.child[ROOT_POSITION := Not(N_CHAR)],
          sNode := a.sNode[N_CHAR := ROOT_POSITION], block := a.block[ROOT_POSITION := b],
          edge := edge, avail := a.avail + 1))
  }

  /** `InitRead`: prime the window, build the code tree and the one-leaf
      position tree. */
  method InitRead(data: seq<byte>, r: Reader) returns (res: Result<(Reader, State)>)
    requires InRange(r)
    ensures res.Ok? ==> InRange(res.value.0) && Consumed(res.value.0) == Consumed(r) + 16
    ensures res.Ok? ==> var s := res.value.1;
              && Sized(s.arena) && s.n1 == N_MAX - 1 && s.arena.freq[ROOT_CODE] == N_MAX
              && s.arena.child[ROOT_POSITION] == Not(N_CHAR) && s.arena.freq[ROOT_POSITION] == 1
              && s.mostPosition == ROOT_POSITION && s.totalPosition == 0 && s.nextCount == Schedule(0)
  {
    hide FillBitBuffer, InitPositionDynamic;
    var r' := FillBitBuffer(data, r, 2 * CHAR_BIT);
    var a, n1 := InitCodeDynamic(N_MAX, MAX_MATCH);
    var x :- InitPositionDynamic(a);
    assert x.freq[ROOT_CODE] == x.freq[..ROOT_POSITION][ROOT_CODE] == a.freq[..ROOT_POSITION][ROOT_CODE];
    return Ok((r', State(x, n1, 0, ROOT_POSITION, 64)));
  }

  /** `UpdatePosition(p)`: halve the position counts once they total
      `0x8000` (pinning the root's count to `0xFFFF`), count one more
      occurrence of position symbol `p` up to the position root, and add
      it to the total. */
  method UpdatePosition(a: Arena, total: int, most: int, p: int) returns (res: Result<(Arena, int)>)
    requires Sized(a)
    ensures res.Ok? ==> Sized(res.value.0) && 0 <= p + N_CHAR < TREESIZE / 2
    ensures res.Ok? && total != 0x8000 ==> res.value.1 == total + 1
    ensures res.Ok? && total != 0x8000 && a.sNode[p + N_CHAR] == ROOT_POSITION ==> res.value.0 == a
  {
    var x, t := a, total;
    if t == 0x8000 {
      x :- Reconstruct(x, ROOT_POSITION, most + 1);
      t := x.freq[ROOT_POSITION];
      x := x.(freq := x.freq[ROOT_POSITION := 0xFFFF]);
    }
    var q :- At(x.sNode, p + N_CHAR);
    x :- Rise(x, q, ROOT_POSITION, TREESIZE);
    return Ok((x, t + 1));
  }

  /** The first half of `MakeNewNode(p)`: leaf `mostPosition` becomes an
      inner node whose children are a copy of the old leaf and a new leaf
      of count 0 for symbol `p`, which becomes the new `mostPosition`.
      The source then writes `child[~child[r]] = r` for the copy `r`: the
      child link of the node numbered by the moved leaf's symbol, not its
      `sNode` entry. */
  function Split(a: Arena, most: int, p: int): (res: Result<Arena>)
    requires Sized(a)
    ensures res.Ok? ==> var x := res.value;
              && Sized(x) && 0 <= most && most + 2 < TREESIZE && 0 <= p + N_CHAR < TREESIZE / 2
              && 0 <= x.block[most + 2] < TREESIZE
              && x.child[most] == most + 2 && x.child[most + 2] == Not(p + N_CHAR)
              && x.freq[most + 1] == a.freq[most] && x.freq[most + 2] == 0
              && x.freq[most] == (if most == ROOT_POSITION then 0xFFFF else a.freq[most])
              && x.parent == a.parent[most + 1 := most][most + 2 := most]
              && x.sNode == a.sNode[p + N_CHAR := most + 2]
              && x.block[most + 1] == a.block[most] && x.edge[x.block[most + 2]] == most + 2
              && x.stock == a.stock && x.avail == a.avail + 1
  {
    var r := most + 1;
    var q := r + 1;
    var moved :- At(a.child, most);
    var child :- Put(a.child, r, moved);
    var child :- Put(child, Not(moved), r);
    var child :- Put(child, q, Not(p + N_CHAR));
    var child := child[most := q];
    var freq := a.freq[r := a.freq[most]][q := 0];
    var block := a.block[r := a.block[most]];
    var pinned :- if most == ROOT_POSITION then
                    var e :- At(a.edge, block[ROOT_POSITION]);
                    Ok((freq[ROOT_POSITION := 0xFFFF], a.edge[block[ROOT_POSITION] := e + 1]))
                  else Ok((freq, a.edge));
    var parent := a.parent[r := most][q := most];
    var nb :- At(a.stock, a.avail);
    var sNode :- Put(a.sNode, p + N_CHAR, q);
    var edge :- Put(pinned.1, nb, q);
    Ok(Arena(child, parent, block[q := nb], edge, a.stock, sNode, pinned.0, a.avail + 1))
  }

  /** As written, splitting the leaf of position symbol `s` overwrites the
      child link of node `s + N_CHAR`, a node of the code tree, and leaves
      `sNode` of `s` on the node that is now inner. */
  lemma SplitOverwritesCodeTree(a: Arena, most: int, p: int, s: int)
    requires Sized(a) && ROOT_POSITION <= most && 0 <= s < 128 && p != s
    requires Split(a, most, p).Ok? && a.child[most] == Not(s + N_CHAR)
    ensures Split(a, most, p).value.child[s + N_CHAR] == most + 1
    ensures Split(a, most, p).value.sNode[s + N_CHAR] == a.sNode[s + N_CHAR]
    ensures s + N_CHAR < ROOT_POSITION
  {
  }

  /** `MakeNewNode(p)`: split `mostPosition`, then count symbol `p`. */
  method MakeNewNode(a: Arena, total: int, most: int, p: int) returns (res: Result<(Arena, int, int)>)
    requires Sized(a)
    ensures res.Ok? ==> Sized(res.value.0) && res.value.2 == most + 2 && most + 2 < TREESIZE
    ensures res.Ok? && total != 0x8000 ==> res.value.1 == total + 1
  {
    var x :- Split(a, most, p);
    var updated :- UpdatePosition(x, total, most + 2, p);
    return Ok((updated.0, updated.1, most + 2));
  }

  /** The growth loop of `DecodePosition`: one new position symbol for
      every 64 bytes decoded past `nextCount`. */
  method Grow(s: State, decodeCount: int) returns (res: Result<State>)
    requires Sized(s.arena)
    ensures res.Ok? ==> Sized(res.value.arena) && decodeCount <= res.value.nextCount
    ensures res.Ok? ==> res.value.n1 == s.n1 && res.value.mostPosition >= s.mostPosition
    ensures res.Ok? && decodeCount <= s.nextCount ==> res.value == s
    ensures res.Ok? && (exists k: nat :: s.nextCount == Schedule(k)) ==>
              exists k: nat :: res.value.nextCount == Schedule(k)
  {
    var x := s;
    ghost var k: nat := 0;
    ghost var scheduled := exists k: nat :: s.nextCount == Schedule(k);
    if scheduled {
      k :| s.nextCount == Schedule(k);
    }
    while decodeCount > x.nextCount
      invariant Sized(x.arena) && x.n1 == s.n1 && x.mostPosition >= s.mostPosition
      invariant decodeCount <= s.nextCount ==> x == s
      invariant scheduled ==> x.nextCount == Schedule(k)
      decreases TREESIZE - x.mostPosition
    {
      var made :- MakeNewNode(x.arena, x.totalPosition, x.mostPosition, x.nextCount / 64);
      ScheduleAdvance(k);
      x := x.(arena := made.0, totalPosition := made.1, mostPosition := made.2, nextCount := Advance(x.nextCount));
      k := k + 1;
    }
    return Ok(x);
  }

  /** The walk and count of `DecodePosition`: from the position root, one
      bit per level, while the current link is an inner node; then the
      symbol is counted and 6 low bits follow. */
  method ReadPosition(data: seq<byte>, r: Reader, s: State) returns (res: Result<(int, Reader, State)>)
    requires InRange(r) && Sized(s.arena)
    ensures res.Ok? ==> -N_CHAR * 64 <= res.value.0 < 8192 && InRange(res.value.1) && Sized(res.value.2.arena)
    ensures res.Ok? ==> res.value.2 == s.(arena := res.value.2.arena, totalPosition := res.value.2.totalPosition)
    ensures Valid(data, r) && s.arena.child[ROOT_POSITION] <= 0 && res.Ok? ==>
              && res.value.0 / 64 == Not(s.arena.child[ROOT_POSITION]) - N_CHAR
              && Consumed(res.value.1) == Consumed(r) + 6
    ensures Valid(data, r) && s.arena.child[ROOT_POSITION] > 0 && res.Ok? ==>
              var f := Follow(data, Consumed(r), s.arena.child, s.arena.child[ROOT_POSITION], TREESIZE);
              && f.Ok? && res.value.0 / 64 == Not(f.value.0) - N_CHAR
              && Consumed(res.value.1) == Consumed(r) + f.value.1 + 6
  {
    hide Descend, Follow, FillBitBuffer, GetBits, Bits, StreamBit, Shl, Shr, Peek;
    var a := s.arena;
    var leaf, r1, count := a.child[ROOT_POSITION], r, 0;
    if leaf > 0 {
      var walked :- Descend(data, r, a.child, leaf, 0, TREESIZE);
      leaf, r1, count := walked.0, walked.1, walked.2;
      if Valid(data, r) {
        DescendFollows(data, r, a.child, a.child[ROOT_POSITION], 0, TREESIZE);
      }
    }
    if Valid(data, r) {
      FillBitBufferReads(data, r1, count);
    }
    var r2 := FillBitBuffer(data, r1, count);
    var c := Not(leaf) - N_CHAR;
    var updated :- UpdatePosition(a, s.totalPosition, s.mostPosition, c);
    var low, r3 := GetBits(data, r2, 6).0, GetBits(data, r2, 6).1;
    Pow2Values();
    return Ok((c * 64 + low, r3, s.(arena := updated.0, totalPosition := updated.1)));
  }

  /** `DecodePosition`: grow the position alphabet, then read a position. */
  method DecodePosition(data: seq<byte>, r: Reader, s: State, decodeCount: int) returns (res: Result<(int, Reader, State)>)
    requires InRange(r) && Sized(s.arena)
    ensures res.Ok? ==> res.value.0 < Pow2(DICTIONARY_BIT) && InRange(res.value.1) && Sized(res.value.2.arena)
    ensures res.Ok? ==> decodeCount <= res.value.2.nextCount && res.value.2.n1 == s.n1
  {
    var grown :- Grow(s, decodeCount);
    res := ReadPosition(data, r, grown);
    Pow2Values();
    assert Pow2(DICTIONARY_BIT) == 8192 by {
      assert Pow2(13) == 2 * Pow2(12);
    }
  }

  /** `DecodeCode`: the adaptive symbol; the escape symbol `n1 = 285` takes
      8 more bits, giving 285 to 540. */
  method DecodeCode(data: seq<byte>, r: Reader, s: State) returns (res: Result<(int, Reader, State)>)
    requires InRange(r) && Sized(s.arena) && s.n1 == N_MAX - 1
    ensures res.Ok? ==> InRange(res.value.1) && Sized(res.value.2.arena) && 0 <= res.value.0 <= 540
    ensures res.Ok? ==> res.value.2 == s.(arena := res.value.2.arena)
    ensures Valid(data, r) ==>
              var f := Follow(data, Consumed(r), s.arena.child, s.arena.child[ROOT_CODE], TREESIZE);
              res.Ok? ==> && f.Ok? && Valid(data, res.value.1)
                          && var sym := Not(f.value.0);
                             if sym == N_MAX - 1 then
                               && res.value.0 == sym + Bits(data, Consumed(r) + f.value.1, 8)
                               && Consumed(res.value.1) == Consumed(r) + f.value.1 + 8
                             else
                               && res.value.0 == sym
                               && Consumed(res.value.1) == Consumed(r) + f.value.1
  {
    hide Follow, FillBitBuffer, GetBits, Bits, StreamBit, Shl, Shr, Peek;
    var got :- DecodeSymbol(data, r, s.arena, N_MAX);
    var c, r2, a := got.0, got.1, got.2;
    if c == s.n1 {
      var extra, r3 := GetBits(data, r2, 8).0, GetBits(data, r2, 8).1;
      if Valid(data, r) {
        GetBitsReads(data, r2, 8);
      }
      Pow2Values();
      return Ok((c + extra, r3, s.(arena := a)));
    }
    return Ok((c, r2, s.(arena := a)));
  }
}
