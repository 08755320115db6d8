/** The adaptive Huffman trees of `-lh1-` and `-lh2-` (Library/Lh1Decoder.cs
    and Library/Lh2Decoder.cs, which share `InitCodeDynamic`, `Reconstruct`,
    `SwapInc` and `UpdateCode` word for word).

    The nodes live in parallel arrays. Node `i` is a leaf for symbol `s`
    when `child[i] == ~s` (and `sNode[s] == i`); otherwise its children are
    `child[i]` and `child[i] - 1`. Nodes are kept in order of
    non-increasing frequency, the *sibling order*. Nodes of equal frequency
    form a block; `edge[b]` is the first node of block `b`, and `stock`
    holds the unused block numbers from `avail` on. */
module Adaptive {
  import opened Outcome
  import opened BitStream
  import opened BitReader

  const N_CHAR := 256 + 60 - THRESHOLD + 1
  const TREESIZE_CODE := N_CHAR * 2
  const TREESIZE_POSITION := 128 * 2
  const TREESIZE := TREESIZE_CODE + TREESIZE_POSITION
  const ROOT_CODE := 0
  const THRESHOLD := 3

  datatype Arena = Arena(
    child: seq<int>,
    parent: seq<int>,
    block: seq<int>,
    edge: seq<int>,
    stock: seq<int>,
    sNode: seq<int>,
    freq: seq<int>,
    avail: int)

  /** The array sizes `InitCodeDynamic` allocates. */
  predicate Sized(a: Arena)
  {
    && |a.child| == TREESIZE && |a.parent| == TREESIZE && |a.block| == TREESIZE
    && |a.edge| == TREESIZE && |a.stock| == TREESIZE && |a.freq| == TREESIZE
    && |a.sNode| == TREESIZE / 2
  }

  /** `~x`, two's complement. */
  function Not(x: int): int
  {
    -x - 1
  }

  /** An array read, or the CLR's index error. */
  function At(s: seq<int>, i: int): (r: Result<int>)
    ensures r.Ok? <==> 0 <= i < |s|
    ensures r.Ok? ==> r.value == s[i]
  {
    if 0 <= i < |s| then Ok(s[i]) else Err(IndexOutOfRange)
  }

  /** An array write, or the CLR's index error. */
  function Put(s: seq<int>, i: int, v: int): (r: Result<seq<int>>)
    ensures r.Ok? <==> 0 <= i < |s|
    ensures r.Ok? ==> r.value == s[i := v]
  {
    if 0 <= i < |s| then Ok(s[i := v]) else Err(IndexOutOfRange)
  }

  /** Every leaf link names a symbol below `n`. */
  predicate LeavesBelow(child: seq<int>, n: int)
  {
    forall i :: 0 <= i < |child| && child[i] < 0 ==> Not(child[i]) < n
  }

  /** Every leaf link of `child'` was already one of `child`: leaves are
      moved about, never made up. */
  ghost predicate LeavesKept(child: seq<int>, child': seq<int>)
  {
    forall i :: 0 <= i < |child'| && child'[i] < 0 ==> child'[i] in child
  }

  /** Moving leaves about keeps every symbol below the bound. */
  lemma LeavesKeptBelow(child: seq<int>, child': seq<int>, n: int)
    requires LeavesKept(child, child') && LeavesBelow(child, n)
    ensures LeavesBelow(child', n)
  {
    forall i | 0 <= i < |child'| && child'[i] < 0
      ensures Not(child'[i]) < n
    {
      var m :| 0 <= m < |child| && child[m] == child'[i];
    }
  }

  /** Two rounds of moving leaves about are one. */
  lemma LeavesKeptTrans(c1: seq<int>, c2: seq<int>, c3: seq<int>)
    requires LeavesKept(c1, c2) && LeavesKept(c2, c3)
    ensures LeavesKept(c1, c3)
  {
    forall i | 0 <= i < |c3| && c3[i] < 0
      ensures c3[i] in c1
    {
      var m :| 0 <= m < |c2| && c2[m] == c3[i];
    }
  }

  // ---------------------------------------------------------------------------
  // The sibling invariant

  /** Frequencies in nodes `[lo, hi)` never increase with the index. */
  ghost predicate Ordered(f: seq<int>, lo: int, hi: int)
    requires 0 <= lo <= hi <= |f|
  {
    forall i, j :: lo <= i < j < hi ==> f[j] <= f[i]
  }

  /** Within nodes `[lo, hi)`: `e` is the first node of the run of equal
      frequencies that contains `i`. */
  ghost predicate FirstOfRun(f: seq<int>, lo: int, e: int, i: int)
    requires 0 <= lo <= i < |f|
  {
    lo <= e <= i && f[e] == f[i] && (e == lo || f[e - 1] != f[i])
  }

  /** Two nodes share a block exactly when their frequencies agree. */
  ghost predicate Grouped(f: seq<int>, bl: seq<int>, lo: int, hi: int)
    requires 0 <= lo <= hi <= |f| == |bl|
  {
    && (forall i :: lo <= i < hi ==> 0 <= bl[i] < TREESIZE)
    && (forall i, j :: lo <= i < hi && lo <= j < hi ==> (bl[i] == bl[j] <==> f[i] == f[j]))
  }

  /** Each block's `edge` is its first node. */
  ghost predicate Edged(f: seq<int>, bl: seq<int>, ed: seq<int>, lo: int, hi: int)
    requires 0 <= lo <= hi <= |f| == |bl| && |ed| == TREESIZE
    requires forall i :: lo <= i < hi ==> 0 <= bl[i] < TREESIZE
  {
    forall i :: lo <= i < hi ==> FirstOfRun(f, lo, ed[bl[i]], i)
  }

  /** The node just past the tree, if any, shares no block with it. */
  ghost predicate Fenced(bl: seq<int>, lo: int, hi: int)
    requires 0 <= lo <= hi <= |bl|
  {
    hi < |bl| ==> forall i :: lo <= i < hi ==> bl[i] != bl[hi]
  }

  /** The free block numbers `st[av..TREESIZE_CODE)` are distinct and in
      use neither by the tree nor by the node just past it. (Only the first
      `TREESIZE_CODE` entries of `stock` are ever filled.) */
  ghost predicate Free(bl: seq<int>, st: seq<int>, av: int, lo: int, hi: int)
    requires 0 <= lo <= hi <= |bl| && |st| == TREESIZE
  {
    && 0 <= av <= TREESIZE_CODE
    && (forall k :: av <= k < TREESIZE_CODE ==> 0 <= st[k] < TREESIZE)
    && (forall k, k' :: av <= k < k' < TREESIZE_CODE ==> st[k] != st[k'])
    && (forall k, i :: av <= k < TREESIZE_CODE && lo <= i < hi ==> st[k] != bl[i])
    && (hi < |bl| ==> forall k :: av <= k < TREESIZE_CODE ==> st[k] != bl[hi])
  }

  /** 1 when node `i` starts a run of equal frequencies in `[lo, ..)`. */
  function Start(f: seq<int>, lo: int, i: int): (r: int)
    requires 0 <= lo <= i < |f|
    ensures r == 0 || r == 1
  {
    if i == lo || f[i - 1] != f[i] then 1 else 0
  }

  /** The number of runs of equal frequencies in nodes `[lo, hi)`. */
  function Runs(f: seq<int>, lo: int, hi: int): nat
    requires 0 <= lo <= hi <= |f|
    decreases hi - lo
  {
    if hi == lo then 0 else Runs(f, lo, hi - 1) + Start(f, lo, hi - 1)
  }

  /** The sibling invariant of the tree in nodes `[lo, hi)`, the only tree
      of its arena, stated on the arrays: besides the conjuncts above,
      `av` counts the blocks in use plus the never-used number 0. */
  ghost predicate Blocks(f: seq<int>, bl: seq<int>, ed: seq<int>, st: seq<int>, av: int, lo: int, hi: int)
    requires |f| == |bl| == |ed| == |st| == TREESIZE
  {
    && 0 <= lo < hi <= TREESIZE
    && Ordered(f, lo, hi)
    && Grouped(f, bl, lo, hi)
    && Edged(f, bl, ed, lo, hi)
    && Fenced(bl, lo, hi)
    && Free(bl, st, av, lo, hi)
    && hi - lo < TREESIZE_CODE
    && av == 1 + Runs(f, lo, hi)
  }

  /** The sibling invariant of the arena's tree in nodes `[lo, hi)`. */
  ghost predicate Sibling(a: Arena, lo: int, hi: int)
    requires Sized(a)
  {
    Blocks(a.freq, a.block, a.edge, a.stock, a.avail, lo, hi)
  }

  /** Raising a node whose predecessor is strictly heavier keeps the order. */
  lemma RaiseOrdered(f: seq<int>, q: int, lo: int, hi: int)
    requires 0 <= lo < q < hi <= |f| && Ordered(f, lo, hi) && f[q] < f[q - 1]
    ensures Ordered(f[q := f[q] + 1], lo, hi)
  {
    var g := f[q := f[q] + 1];
    forall i, j | lo <= i < j < hi
      ensures g[j] <= g[i]
    {
      if j == q {
        assert f[q - 1] <= f[i];
      }
    }
  }

  // ---------------------------------------------------------------------------
  // SwapInc

  /** Hang subtree or leaf `c` under node `at`: a leaf's `sNode` entry, or
      both children's `parent` entries. */
  function Adopt(a: Arena, c: int, at: int): (r: Result<Arena>)
    requires Sized(a)
    ensures r.Ok? ==> Sized(r.value) && r.value.(parent := a.parent, sNode := a.sNode) == a
    ensures r.Ok? && c >= 0 ==>
              1 <= c < TREESIZE && r.value.parent == a.parent[c := at][c - 1 := at] && r.value.sNode == a.sNode
    ensures r.Ok? && c < 0 ==>
              Not(c) < TREESIZE / 2 && r.value.sNode == a.sNode[Not(c) := at] && r.value.parent == a.parent
  {
    if c >= 0 then
      var p1 :- Put(a.parent, c, at);
      var p2 :- Put(p1, c - 1, at);
      Ok(a.(parent := p2))
    else
      var s :- Put(a.sNode, Not(c), at);
      Ok(a.(sNode := s))
  }

  /** Node `q` has just had its frequency raised by one and belongs to no
      block: it joins its predecessor's block if their frequencies now
      agree, or takes a fresh block number whose first node it is. */
  function Regroup(a: Arena, q: int): (r: Result<Arena>)
    requires Sized(a)
    ensures r.Ok? ==> Sized(r.value) && r.value.freq == a.freq && 1 <= q < TREESIZE
    ensures r.Ok? && a.freq[q] == a.freq[q - 1] ==> r.value == a.(block := a.block[q := a.block[q - 1]])
    ensures r.Ok? && a.freq[q] != a.freq[q - 1] ==>
              && 0 <= a.avail < TREESIZE && 0 <= a.stock[a.avail] < TREESIZE
              && r.value == a.(block := a.block[q := a.stock[a.avail]], edge := a.edge[a.stock[a.avail] := q],
                               avail := a.avail + 1)
  {
    var f :- At(a.freq, q);
    var g :- At(a.freq, q - 1);
    if f == g then
      Ok(a.(block := a.block[q := a.block[q - 1]]))
    else
      var nb :- At(a.stock, a.avail);
      var ed :- Put(a.edge, nb, q);
      Ok(a.(block := a.block[q := nb], edge := ed, avail := a.avail + 1))
  }

  /** `SwapInc(p)`: move `p`'s subtree to the first node `q` of its block
      (exchanging it with `q`'s subtree), count one more occurrence there,
      and return the parent of that node, the next node on the way up. */
  function SwapInc(a: Arena, p: int): (r: Result<(Arena, int)>)
    requires Sized(a)
    ensures r.Ok? ==> Sized(r.value.0)
    ensures r.Ok? ==>
              && 0 <= p < TREESIZE && 0 <= a.block[p] < TREESIZE && 0 <= a.edge[a.block[p]] < TREESIZE
              && var q := a.edge[a.block[p]];
                 && r.value.0.freq == a.freq[q := a.freq[q] + 1]
                 && r.value.0.child == a.child[p := a.child[q]][q := a.child[p]]
                 && r.value.1 == r.value.0.parent[q]
    ensures r.Ok? ==> LeavesKept(a.child, r.value.0.child)
  {
    var b :- At(a.block, p);
    var q :- At(a.edge, b);
    if q != p then
      var r := a.child[p];
      var s :- At(a.child, q);
      var x := a.(child := a.child[p := s][q := r]);
      var x :- Adopt(x, r, q);
      var x :- Adopt(x, s, p);
      var e := x.edge[b];
      var x := x.(edge := x.edge[b := e + 1], freq := x.freq[q := x.freq[q] + 1]);
      var x :- Regroup(x, q);
      Ok((x, x.parent[q]))
    else
      var next :- At(a.block, p + 1);
      if b == next then
        var e := a.edge[b];
        var x := a.(edge := a.edge[b := e + 1], freq := a.freq[p := a.freq[p] + 1]);
        var x :- Regroup(x, p);
        Ok((x, x.parent[p]))
      else
        var x := a.(freq := a.freq[p := a.freq[p] + 1]);
        var g :- At(x.freq, p - 1);
        if x.freq[p] == g then
          var slot :- Put(x.stock, x.avail - 1, b);
          var x := x.(stock := slot, avail := x.avail - 1, block := x.block[p := x.block[p - 1]]);
          Ok((x, x.parent[p]))
        else
          Ok((x, x.parent[p]))
  }


  /** The node before the first node of a block is strictly heavier. */
  lemma PredecessorHeavier(f: seq<int>, bl: seq<int>, ed: seq<int>, q: int, lo: int, hi: int)
    requires |f| == |bl| == |ed| == TREESIZE && 0 <= lo < q < hi <= TREESIZE
    requires Ordered(f, lo, hi) && Grouped(f, bl, lo, hi) && Edged(f, bl, ed, lo, hi)
    requires ed[bl[q]] == q
    ensures f[q] < f[q - 1]
  {
    assert FirstOfRun(f, lo, ed[bl[q]], q);
  }

  /** A block whose first node `p` is not followed by another member has
      `p` as its only member. */
  lemma AloneInBlock(f: seq<int>, bl: seq<int>, ed: seq<int>, p: int, lo: int, hi: int)
    requires |f| == |bl| == |ed| == TREESIZE && 0 <= lo <= p < hi <= TREESIZE
    requires Ordered(f, lo, hi) && Grouped(f, bl, lo, hi) && Edged(f, bl, ed, lo, hi)
    requires ed[bl[p]] == p && (p + 1 < hi ==> bl[p + 1] != bl[p])
    ensures forall i :: lo <= i < hi && i != p ==> bl[i] != bl[p]
  {
    forall i | lo <= i < hi && i != p
      ensures bl[i] != bl[p]
    {
      // `p` opens the block, so a later member would put `p + 1` in it
      assert FirstOfRun(f, lo, ed[bl[i]], i);
      assert p < i ==> f[i] <= f[p + 1] <= f[p];
    }
  }

  /** Node `q` moves to the frequency of its predecessor's block and joins
      it: the grouping stays exact. */
  lemma JoinGrouped(f: seq<int>, bl: seq<int>, q: int, lo: int, hi: int)
    requires |f| == |bl| == TREESIZE && 0 <= lo < q < hi <= TREESIZE
    requires Grouped(f, bl, lo, hi) && f[q] + 1 == f[q - 1]
    ensures Grouped(f[q := f[q] + 1], bl[q := bl[q - 1]], lo, hi)
  {
  }

  /** The edges after `SplitJoin`. */
  lemma SplitJoinEdged(f: seq<int>, bl: seq<int>, ed: seq<int>, q: int, lo: int, hi: int)
    requires |f| == |bl| == |ed| == TREESIZE && 0 <= lo < hi <= TREESIZE
    requires Ordered(f, lo, hi) && Grouped(f, bl, lo, hi) && Edged(f, bl, ed, lo, hi)
    requires lo < q && q + 1 < hi && bl[q + 1] == bl[q] && ed[bl[q]] == q && f[q] + 1 == f[q - 1]
    requires Grouped(f[q := f[q] + 1], bl[q := bl[q - 1]], lo, hi)
    ensures Edged(f[q := f[q] + 1], bl[q := bl[q - 1]], ed[bl[q] := q + 1], lo, hi)
  {
    var b := bl[q];
    var f', bl', ed' := f[q := f[q] + 1], bl[q := bl[q - 1]], ed[b := q + 1];
    assert bl[q - 1] != b;
    forall i | lo <= i < hi
      ensures FirstOfRun(f', lo, ed'[bl'[i]], i)
    {
      assert FirstOfRun(f, lo, ed[bl[i]], i);
      if i == q {
        assert FirstOfRun(f, lo, ed[bl[q - 1]], q - 1);
      } else if bl[i] == b {
        assert q < i;
        assert f[i] <= f[q + 1];
      } else {
        assert ed[bl[i]] != q + 1;
      }
    }
  }

  /** Raising the first node `q` of a block with more members, to its
      predecessor's frequency: the block now starts at `q + 1`, and `q`
      joins the predecessor's block. */
  lemma SplitJoin(f: seq<int>, bl: seq<int>, ed: seq<int>, st: seq<int>, av: int, q: int, lo: int, hi: int)
    requires |f| == |bl| == |ed| == |st| == TREESIZE && 0 <= lo < hi <= TREESIZE
    requires Ordered(f, lo, hi) && Grouped(f, bl, lo, hi) && Edged(f, bl, ed, lo, hi)
    requires Fenced(bl, lo, hi) && Free(bl, st, av, lo, hi)
    requires lo < q && q + 1 < hi && bl[q + 1] == bl[q] && ed[bl[q]] == q && f[q] + 1 == f[q - 1]
    ensures var f', bl' := f[q := f[q] + 1], bl[q := bl[q - 1]];
            && Ordered(f', lo, hi) && Grouped(f', bl', lo, hi) && Edged(f', bl', ed[bl[q] := q + 1], lo, hi)
            && Fenced(bl', lo, hi) && Free(bl', st, av, lo, hi)
  {
    hide Ordered, Grouped, Edged;
    RaiseOrdered(f, q, lo, hi);
    JoinGrouped(f, bl, q, lo, hi);
    SplitJoinEdged(f, bl, ed, q, lo, hi);
  }

  /** Node `q` is raised to a frequency no other node has and takes the
      unused block number `nb`: the grouping stays exact. */
  lemma NewGrouped(f: seq<int>, bl: seq<int>, nb: int, q: int, lo: int, hi: int)
    requires |f| == |bl| == TREESIZE && 0 <= lo < q < hi <= TREESIZE
    requires Ordered(f, lo, hi) && Grouped(f, bl, lo, hi) && f[q] + 1 < f[q - 1]
    requires 0 <= nb < TREESIZE && forall i :: lo <= i < hi && i != q ==> bl[i] != nb
    ensures Grouped(f[q := f[q] + 1], bl[q := nb], lo, hi)
  {
    forall i | lo <= i < hi && i != q
      ensures f[i] != f[q] + 1
    {
      if i < q {
        assert f[q - 1] <= f[i];
      }
    }
  }

  /** The edges after raising the first node `q` of a block with more
      members into a block of its own numbered `nb`. */
  lemma SplitNewEdged(f: seq<int>, bl: seq<int>, ed: seq<int>, nb: int, q: int, lo: int, hi: int)
    requires |f| == |bl| == |ed| == TREESIZE && 0 <= lo < hi <= TREESIZE
    requires Ordered(f, lo, hi) && Grouped(f, bl, lo, hi) && Edged(f, bl, ed, lo, hi)
    requires lo < q && q + 1 < hi && bl[q + 1] == bl[q] && ed[bl[q]] == q && f[q] + 1 < f[q - 1]
    requires 0 <= nb < TREESIZE && forall i :: lo <= i < hi ==> bl[i] != nb
    requires Grouped(f[q := f[q] + 1], bl[q := nb], lo, hi)
    ensures Edged(f[q := f[q] + 1], bl[q := nb], ed[bl[q] := q + 1][nb := q], lo, hi)
  {
    var b := bl[q];
    var f', bl', ed' := f[q := f[q] + 1], bl[q := nb], ed[b := q + 1][nb := q];
    forall i | lo <= i < hi
      ensures FirstOfRun(f', lo, ed'[bl'[i]], i)
    {
      assert FirstOfRun(f, lo, ed[bl[i]], i);
      if i == q {
      } else if bl[i] == b {
        assert q < i;
        assert f[i] <= f[q + 1];
      } else {
        assert ed[bl[i]] != q + 1;
      }
    }
  }

  /** Raising the first node `q` of a block with more members, short of
      its predecessor's frequency: the block now starts at `q + 1`, and `q`
      becomes a block of its own, numbered from the stock. */
  lemma SplitNew(f: seq<int>, bl: seq<int>, ed: seq<int>, st: seq<int>, av: int, q: int, lo: int, hi: int)
    requires |f| == |bl| == |ed| == |st| == TREESIZE && 0 <= lo < hi <= TREESIZE
    requires Ordered(f, lo, hi) && Grouped(f, bl, lo, hi) && Edged(f, bl, ed, lo, hi)
    requires Fenced(bl, lo, hi) && Free(bl, st, av, lo, hi)
    requires lo < q && q + 1 < hi && bl[q + 1] == bl[q] && ed[bl[q]] == q && f[q] + 1 != f[q - 1]
    requires av < TREESIZE_CODE
    ensures var f', bl' := f[q := f[q] + 1], bl[q := st[av]];
            && Ordered(f', lo, hi) && Grouped(f', bl', lo, hi) && Edged(f', bl', ed[bl[q] := q + 1][st[av] := q], lo, hi)
            && Fenced(bl', lo, hi) && Free(bl', st, av + 1, lo, hi)
  {
    hide Ordered, Grouped, Edged;
    PredecessorHeavier(f, bl, ed, q, lo, hi);
    RaiseOrdered(f, q, lo, hi);
    NewGrouped(f, bl, st[av], q, lo, hi);
    SplitNewEdged(f, bl, ed, st[av], q, lo, hi);
  }

  /** The edges after raising node `p`, alone in its block, to its
      predecessor's frequency and moving it into the predecessor's block. */
  lemma AloneJoinEdged(f: seq<int>, bl: seq<int>, ed: seq<int>, p: int, lo: int, hi: int)
    requires |f| == |bl| == |ed| == TREESIZE && 0 <= lo < p < hi <= TREESIZE
    requires Ordered(f, lo, hi) && Grouped(f, bl, lo, hi) && Edged(f, bl, ed, lo, hi)
    requires forall i :: lo <= i < hi && i != p ==> bl[i] != bl[p]
    requires f[p] + 1 == f[p - 1]
    requires Grouped(f[p := f[p] + 1], bl[p := bl[p - 1]], lo, hi)
    ensures Edged(f[p := f[p] + 1], bl[p := bl[p - 1]], ed, lo, hi)
  {
    var f', bl' := f[p := f[p] + 1], bl[p := bl[p - 1]];
    forall i | lo <= i < hi
      ensures FirstOfRun(f', lo, ed[bl'[i]], i)
    {
      assert FirstOfRun(f, lo, ed[bl[i]], i);
      if i == p {
        assert FirstOfRun(f, lo, ed[bl[p - 1]], p - 1);
      } else if p < i {
        assert f[i] <= f[p];
      }
    }
  }

  /** Raising node `p`, alone in its block, to its predecessor's frequency:
      it joins that block and its own number goes back to the stock. */
  lemma AloneJoin(f: seq<int>, bl: seq<int>, ed: seq<int>, st: seq<int>, av: int, p: int, lo: int, hi: int)
    requires |f| == |bl| == |ed| == |st| == TREESIZE && 0 <= lo < hi <= TREESIZE
    requires Ordered(f, lo, hi) && Grouped(f, bl, lo, hi) && Edged(f, bl, ed, lo, hi)
    requires Fenced(bl, lo, hi) && Free(bl, st, av, lo, hi)
    requires lo < p < hi && ed[bl[p]] == p && (p + 1 < hi ==> bl[p + 1] != bl[p])
    requires f[p] + 1 == f[p - 1] && 1 <= av
    ensures var f', bl' := f[p := f[p] + 1], bl[p := bl[p - 1]];
            && Ordered(f', lo, hi) && Grouped(f', bl', lo, hi) && Edged(f', bl', ed, lo, hi)
            && Fenced(bl', lo, hi) && Free(bl', st[av - 1 := bl[p]], av - 1, lo, hi)
  {
    hide Ordered, Grouped, Edged;
    AloneInBlock(f, bl, ed, p, lo, hi);
    RaiseOrdered(f, q := p, lo := lo, hi := hi);
    JoinGrouped(f, bl, p, lo, hi);
    AloneJoinEdged(f, bl, ed, p, lo, hi);
    assert 0 <= bl[p] < TREESIZE by { GroupedIds(f, bl, p, lo, hi); }
  }

  /** Raising node `p`, alone in its block, short of its predecessor's
      frequency: nothing but the frequency changes. */
  lemma AloneStay(f: seq<int>, bl: seq<int>, ed: seq<int>, st: seq<int>, av: int, p: int, lo: int, hi: int)
    requires |f| == |bl| == |ed| == |st| == TREESIZE && 0 <= lo < hi <= TREESIZE
    requires Ordered(f, lo, hi) && Grouped(f, bl, lo, hi) && Edged(f, bl, ed, lo, hi)
    requires Fenced(bl, lo, hi) && Free(bl, st, av, lo, hi)
    requires lo < p < hi && ed[bl[p]] == p && (p + 1 < hi ==> bl[p + 1] != bl[p])
    requires f[p] + 1 != f[p - 1]
    ensures var f' := f[p := f[p] + 1];
            Ordered(f', lo, hi) && Grouped(f', bl, lo, hi) && Edged(f', bl, ed, lo, hi)
  {
    hide Ordered, Grouped, Edged;
    PredecessorHeavier(f, bl, ed, p, lo, hi);
    AloneInBlock(f, bl, ed, p, lo, hi);
    RaiseOrdered(f, p, lo, hi);
    GroupedIds(f, bl, p, lo, hi);
    NewGrouped(f, bl, bl[p], p, lo, hi);
    assert bl[p := bl[p]] == bl;
    AloneStayEdged(f, bl, ed, p, lo, hi);
  }

  /** The edges after raising node `p`, alone in its block, short of its
      predecessor's frequency. */
  lemma AloneStayEdged(f: seq<int>, bl: seq<int>, ed: seq<int>, p: int, lo: int, hi: int)
    requires |f| == |bl| == |ed| == TREESIZE && 0 <= lo < p < hi <= TREESIZE
    requires Ordered(f, lo, hi) && Grouped(f, bl, lo, hi) && Edged(f, bl, ed, lo, hi)
    requires forall i :: lo <= i < hi && i != p ==> bl[i] != bl[p]
    requires ed[bl[p]] == p && f[p] + 1 < f[p - 1]
    requires Grouped(f[p := f[p] + 1], bl, lo, hi)
    ensures Edged(f[p := f[p] + 1], bl, ed, lo, hi)
  {
    var f' := f[p := f[p] + 1];
    forall i | lo <= i < hi
      ensures FirstOfRun(f', lo, ed[bl[i]], i)
    {
      assert FirstOfRun(f, lo, ed[bl[i]], i);
      if p < i {
        assert f[i] <= f[p];
      }
    }
  }

  /** Block numbers of the tree's nodes are valid `edge` indices. */
  lemma GroupedIds(f: seq<int>, bl: seq<int>, p: int, lo: int, hi: int)
    requires |f| == |bl| == TREESIZE && 0 <= lo <= p < hi <= TREESIZE && Grouped(f, bl, lo, hi)
    ensures 0 <= bl[p] < TREESIZE
  {
  }

  /** `SwapInc` keeps the sibling invariant of the tree in nodes `[lo, hi)`
      when it raises a node other than the root that is lighter than the
      root. */
  lemma SwapIncKeepsSibling(a: Arena, p: int, lo: int, hi: int)
    requires Sized(a) && Sibling(a, lo, hi)
    requires lo < p < hi && a.freq[p] < a.freq[lo]
    ensures SwapInc(a, p).Ok? ==> Sibling(SwapInc(a, p).value.0, lo, hi)
  {
    hide Ordered, Grouped, Edged, Fenced, Free, SwapInc;
    if SwapInc(a, p).Ok? {
      var b := a.block[p];
      var q := a.edge[b];
      GroupedIds(a.freq, a.block, p, lo, hi);
      EdgeOfNode(a.freq, a.block, a.edge, p, lo, hi);
      assert lo < q <= p && a.freq[q] == a.freq[p];
      SameRun(a.freq, a.block, a.edge, p, lo, hi);
      if q != p || (p + 1 < TREESIZE && a.block[p + 1] == b) {
        SwapIncHeadShape(a, p);
        if q != p {
          assert a.block[q + 1] == a.block[q] == b;
        } else {
          FencedNext(a.block, p, lo, hi);
        }
        SameBlock(a.freq, a.block, q, q + 1, lo, hi);
        RaiseCounted(a, q, lo, hi);
        if a.freq[q] + 1 == a.freq[q - 1] {
          SplitJoin(a.freq, a.block, a.edge, a.stock, a.avail, q, lo, hi);
        } else {
          SplitNew(a.freq, a.block, a.edge, a.stock, a.avail, q, lo, hi);
        }
      } else {
        SwapIncAloneShape(a, p);
        if p + 1 < hi {
          SameBlock(a.freq, a.block, p, p + 1, lo, hi);
        }
        RaiseCounted(a, p, lo, hi);
        if a.freq[p] + 1 == a.freq[p - 1] {
          AloneJoin(a.freq, a.block, a.edge, a.stock, a.avail, p, lo, hi);
        } else {
          AloneStay(a.freq, a.block, a.edge, a.stock, a.avail, p, lo, hi);
        }
      }
    }
  }

  /** What `SwapInc` does to the block structure when `p` shares its block
      with a later node or is not the block's first node: the first node
      `q` is raised, leaves the block (whose first node is now `q + 1`),
      and joins the block in front or a fresh one from the stock. */
  lemma SwapIncHeadShape(a: Arena, p: int)
    requires Sized(a) && 0 <= p < TREESIZE && 0 <= a.block[p] < TREESIZE && 0 <= a.edge[a.block[p]] < TREESIZE
    requires SwapInc(a, p).Ok?
    requires a.edge[a.block[p]] != p || (p + 1 < TREESIZE && a.block[p + 1] == a.block[p])
    ensures var z, b := SwapInc(a, p).value.0, a.block[p];
            var q := a.edge[b];
            var f' := a.freq[q := a.freq[q] + 1];
            && 1 <= q && z.freq == f' && z.stock == a.stock
            && (f'[q] == f'[q - 1] ==>
                  z.block == a.block[q := a.block[q - 1]] && z.edge == a.edge[b := q + 1] && z.avail == a.avail)
            && (f'[q] != f'[q - 1] ==>
                  && 0 <= a.avail < TREESIZE && z.block == a.block[q := a.stock[a.avail]]
                  && z.edge == a.edge[b := q + 1][a.stock[a.avail] := q] && z.avail == a.avail + 1)
  {
  }

  /** What `SwapInc` does to a node alone in its block: it is raised in
      place, and joins the block in front (returning its own block to the
      stock) when it now weighs as much as its predecessor. */
  lemma SwapIncAloneShape(a: Arena, p: int)
    requires Sized(a) && 0 <= p < TREESIZE && 0 <= a.block[p] < TREESIZE
    requires SwapInc(a, p).Ok? && a.edge[a.block[p]] == p
    requires !(p + 1 < TREESIZE && a.block[p + 1] == a.block[p])
    ensures var z, f' := SwapInc(a, p).value.0, a.freq[p := a.freq[p] + 1];
            && 1 <= p && z.freq == f' && z.edge == a.edge
            && (f'[p] == f'[p - 1] ==>
                  && 1 <= a.avail && z.block == a.block[p := a.block[p - 1]]
                  && z.stock == a.stock[a.avail - 1 := a.block[p]] && z.avail == a.avail - 1)
            && (f'[p] != f'[p - 1] ==> z.block == a.block && z.stock == a.stock && z.avail == a.avail)
  {
  }

  /** The run count after raising the first node `q` of a block, and the
      room it leaves in the stock. */
  lemma RaiseCounted(a: Arena, q: int, lo: int, hi: int)
    requires Sized(a) && Sibling(a, lo, hi) && lo < q < hi && a.edge[a.block[q]] == q
    ensures a.freq[q] < a.freq[q - 1]
    ensures Runs(a.freq[q := a.freq[q] + 1], lo, hi) - Runs(a.freq, lo, hi)
            == (if a.freq[q] + 1 == a.freq[q - 1] then -1 else 0) + (if q + 1 < hi && a.freq[q + 1] == a.freq[q] then 1 else 0)
    ensures a.freq[q] + 1 != a.freq[q - 1] && q + 1 < hi && a.freq[q + 1] == a.freq[q] ==> a.avail < TREESIZE_CODE
  {
    hide Ordered, Grouped, Edged, Fenced, Free, Runs, Start;
    PredecessorHeavier(a.freq, a.block, a.edge, q, lo, hi);
    RunsAfterRaise(a.freq, q, lo, hi);
    RunsBound(a.freq[q := a.freq[q] + 1], lo, hi);
  }

  /** Nodes of one block have one frequency. */
  lemma SameBlock(f: seq<int>, bl: seq<int>, i: int, j: int, lo: int, hi: int)
    requires |f| == |bl| == TREESIZE && 0 <= lo <= i < hi <= TREESIZE && lo <= j < hi
    requires Grouped(f, bl, lo, hi)
    ensures bl[i] == bl[j] <==> f[i] == f[j]
  {
  }

  /** The `edge` of a node's block lies in the tree, at or before the node,
      with the node's frequency; it is not the root when the node is lighter
      than the root. */
  lemma EdgeOfNode(f: seq<int>, bl: seq<int>, ed: seq<int>, p: int, lo: int, hi: int)
    requires |f| == |bl| == |ed| == TREESIZE && 0 <= lo <= p < hi <= TREESIZE
    requires Grouped(f, bl, lo, hi) && Edged(f, bl, ed, lo, hi)
    ensures 0 <= bl[p] < TREESIZE && lo <= ed[bl[p]] <= p && f[ed[bl[p]]] == f[p]
  {
    assert FirstOfRun(f, lo, ed[bl[p]], p);
  }

  /** All nodes between a block's first node and a member are members. */
  lemma SameRun(f: seq<int>, bl: seq<int>, ed: seq<int>, p: int, lo: int, hi: int)
    requires |f| == |bl| == |ed| == TREESIZE && 0 <= lo <= p < hi <= TREESIZE
    requires Ordered(f, lo, hi) && Grouped(f, bl, lo, hi) && Edged(f, bl, ed, lo, hi)
    ensures 0 <= bl[p] < TREESIZE
    ensures forall i :: ed[bl[p]] <= i <= p ==> bl[i] == bl[p]
  {
    hide Ordered, Grouped, Edged;
    EdgeOfNode(f, bl, ed, p, lo, hi);
    var e := ed[bl[p]];
    forall i | e <= i <= p
      ensures bl[i] == bl[p]
    {
      if e < i {
        OrderedPair(f, lo, hi, e, i);
      }
      if i < p {
        OrderedPair(f, lo, hi, i, p);
      }
      SameBlock(f, bl, i, p, lo, hi);
    }
  }

  /** The node past the tree is in no block of the tree. */
  lemma FencedNext(bl: seq<int>, p: int, lo: int, hi: int)
    requires 0 <= lo <= p < hi <= |bl| && Fenced(bl, lo, hi) && p + 1 < |bl| && bl[p + 1] == bl[p]
    ensures p + 1 < hi
  {
  }

  /** There are no more runs than nodes. */
  lemma {:induction false} RunsBound(f: seq<int>, lo: int, hi: int)
    requires 0 <= lo <= hi <= |f|
    ensures Runs(f, lo, hi) <= hi - lo
    decreases hi - lo
  {
    if hi > lo {
      RunsBound(f, lo, hi - 1);
    }
  }

  /** Changing one frequency changes the run count only through the run
      starts at that node and the next. */
  lemma {:induction false} RunsPoint(f: seq<int>, g: seq<int>, q: int, lo: int, hi: int)
    requires |f| == |g| && 0 <= lo <= q < hi <= |f|
    requires forall i :: 0 <= i < |f| && i != q ==> f[i] == g[i]
    ensures Runs(g, lo, hi) - Runs(f, lo, hi)
            == Start(g, lo, q) - Start(f, lo, q) + (if q + 1 < hi then Start(g, lo, q + 1) - Start(f, lo, q + 1) else 0)
    decreases hi - lo
  {
    if hi - 1 > q + 1 {
      RunsPoint(f, g, q, lo, hi - 1);
    } else if hi - 1 == q + 1 {
      RunsPoint(f, g, q, lo, hi - 1);
    } else {
      RunsSame(f, g, lo, q);
    }
  }

  /** Runs depend only on the frequencies in their range. */
  lemma {:induction false} RunsSame(f: seq<int>, g: seq<int>, lo: int, hi: int)
    requires 0 <= lo <= hi <= |f| && hi <= |g|
    requires forall i :: lo <= i < hi ==> f[i] == g[i]
    ensures Runs(f, lo, hi) == Runs(g, lo, hi)
    decreases hi - lo
  {
    if hi > lo {
      RunsSame(f, g, lo, hi - 1);
    }
  }

  /** How raising the first node `q` of a run changes the run count: its
      run is lost if it reaches its predecessor's frequency, and the rest
      of its old run, if any, becomes a run of its own. */
  lemma RunsAfterRaise(f: seq<int>, q: int, lo: int, hi: int)
    requires 0 <= lo < q < hi <= |f| && Ordered(f, lo, hi) && f[q] < f[q - 1]
    ensures Runs(f[q := f[q] + 1], lo, hi) - Runs(f, lo, hi)
            == (if f[q] + 1 == f[q - 1] then -1 else 0) + (if q + 1 < hi && f[q + 1] == f[q] then 1 else 0)
  {
    RunsPoint(f, f[q := f[q] + 1], q, lo, hi);
  }

  // ---------------------------------------------------------------------------
  // InitCodeDynamic

  /** The sum of the frequencies in nodes `[lo, hi)`. */
  function FreqSum(f: seq<int>, lo: int, hi: int): int
    requires 0 <= lo <= hi <= |f|
    decreases hi - lo
  {
    if hi == lo then 0 else FreqSum(f, lo, hi - 1) + f[hi - 1]
  }

  /** A sum splits off its first term. */
  lemma {:induction false} FreqSumFront(f: seq<int>, lo: int, hi: int)
    requires 0 <= lo < hi <= |f|
    ensures FreqSum(f, lo, hi) == f[lo] + FreqSum(f, lo + 1, hi)
    decreases hi - lo
  {
    if hi - 1 > lo {
      FreqSumFront(f, lo, hi - 1);
    }
  }

  /** A sum of one term. */
  lemma FreqSumSingle(f: seq<int>, i: int)
    requires 0 <= i < |f|
    ensures FreqSum(f, i, i + 1) == f[i]
  {
  }

  /** A sum splits off its last two terms. */
  lemma FreqSumBackTwo(f: seq<int>, lo: int, hi: int)
    requires 0 <= lo <= hi && hi + 2 <= |f|
    ensures FreqSum(f, lo, hi + 2) == FreqSum(f, lo, hi) + f[hi] + f[hi + 1]
  {
  }

  /** A sum depends only on the frequencies in its range. */
  lemma {:induction false} FreqSumSame(f: seq<int>, g: seq<int>, lo: int, hi: int)
    requires 0 <= lo <= hi <= |f| && hi <= |g|
    requires forall i :: lo <= i < hi ==> f[i] == g[i]
    ensures FreqSum(f, lo, hi) == FreqSum(g, lo, hi)
    decreases hi - lo
  {
    if hi > lo {
      FreqSumSame(f, g, lo, hi - 1);
    }
  }

  /** Nodes of frequency 1 sum to their number. */
  lemma {:induction false} FreqSumOnes(f: seq<int>, lo: int, hi: int)
    requires 0 <= lo <= hi <= |f| && forall i :: lo <= i < hi ==> f[i] == 1
    ensures FreqSum(f, lo, hi) == hi - lo
    decreases hi - lo
  {
    if hi > lo {
      FreqSumOnes(f, lo, hi - 1);
    }
  }

  /** Runs counted from one node earlier. */
  lemma {:induction false} RunsFront(f: seq<int>, lo: int, hi: int)
    requires 0 <= lo && lo + 1 < hi <= |f|
    ensures Runs(f, lo, hi) == Runs(f, lo + 1, hi) + (if f[lo] != f[lo + 1] then 1 else 0)
    decreases hi - lo
  {
    if hi - 1 > lo + 1 {
      RunsFront(f, lo, hi - 1);
      assert Start(f, lo, hi - 1) == Start(f, lo + 1, hi - 1);
    } else {
      assert Runs(f, lo, lo + 1) == 1;
      assert Runs(f, lo + 1, lo + 2) == 1;
    }
  }

  /** Runs of nodes of one frequency: one. */
  lemma {:induction false} RunsOnes(f: seq<int>, lo: int, hi: int)
    requires 0 <= lo < hi <= |f| && forall i :: lo <= i < hi ==> f[i] == 1
    ensures Runs(f, lo, hi) == 1
    decreases hi - lo
  {
    if hi - 1 > lo {
      RunsOnes(f, lo, hi - 1);
    }
  }

  /** A node in front of the tree, no lighter than the first, keeps the
      order. */
  lemma PrependOrdered(f: seq<int>, j: int, hi: int, v: int)
    requires 0 <= j && j + 1 < hi <= |f| && Ordered(f, j + 1, hi) && f[j + 1] <= v
    ensures Ordered(f[j := v], j, hi)
  {
    var f' := f[j := v];
    forall i, k | j <= i < k < hi
      ensures f'[k] <= f'[i]
    {
      if i == j {
        assert f[k] <= f[j + 1];
      }
    }
  }

  /** A node in front of the tree with block number `c`, shared exactly by
      the nodes of its frequency `v`: the grouping stays exact. */
  lemma PrependGrouped(f: seq<int>, bl: seq<int>, j: int, hi: int, v: int, c: int)
    requires |f| == |bl| == TREESIZE && 0 <= j < hi <= TREESIZE && Grouped(f, bl, j + 1, hi)
    requires 0 <= c < TREESIZE && forall i :: j + 1 <= i < hi ==> (bl[i] == c <==> f[i] == v)
    ensures Grouped(f[j := v], bl[j := c], j, hi)
  {
  }

  /** The edges after putting node `j` in front with block number `c`. */
  lemma PrependEdged(f: seq<int>, bl: seq<int>, ed: seq<int>, j: int, hi: int, v: int, c: int)
    requires |f| == |bl| == |ed| == TREESIZE && 0 <= j && j + 1 < hi <= TREESIZE
    requires Grouped(f, bl, j + 1, hi) && Edged(f, bl, ed, j + 1, hi)
    requires 0 <= c < TREESIZE && forall i :: j + 1 <= i < hi ==> (bl[i] == c <==> f[i] == v)
    requires Grouped(f[j := v], bl[j := c], j, hi)
    ensures Edged(f[j := v], bl[j := c], ed[c := j], j, hi)
  {
    var f', bl', ed' := f[j := v], bl[j := c], ed[c := j];
    forall i | j <= i < hi
      ensures FirstOfRun(f', j, ed'[bl'[i]], i)
    {
      if i > j {
        assert FirstOfRun(f, j + 1, ed[bl[i]], i);
      }
    }
  }

  /** Putting a node in front of the tree with the frequency of the
      present first node: it joins that node's block and becomes its edge. */
  lemma PrependJoin(f: seq<int>, bl: seq<int>, ed: seq<int>, st: seq<int>, av: int, j: int, hi: int)
    requires |f| == |bl| == |ed| == |st| == TREESIZE && 0 <= j
    requires Blocks(f, bl, ed, st, av, j + 1, hi) && hi - j < TREESIZE_CODE
    ensures var f' := f[j := f[j + 1]];
            Blocks(f', bl[j := bl[j + 1]], ed[bl[j + 1] := j], st, av, j, hi)
  {
    hide Runs, Ordered, Grouped, Edged;
    var f' := f[j := f[j + 1]];
    GroupedIds(f, bl, j + 1, j + 1, hi);
    forall i | j + 1 <= i < hi
      ensures bl[i] == bl[j + 1] <==> f[i] == f[j + 1]
    {
      SameBlock(f, bl, i, j + 1, j + 1, hi);
    }
    PrependOrdered(f, j, hi, f[j + 1]);
    RunsFront(f', j, hi);
    PrependGrouped(f, bl, j, hi, f[j + 1], bl[j + 1]);
    PrependEdged(f, bl, ed, j, hi, f[j + 1], bl[j + 1]);
    RunsSame(f, f', j + 1, hi);
  }

  /** Putting a node in front of the tree, heavier than the present first
      node: it takes a fresh block number, whose edge it becomes. */
  lemma PrependNew(f: seq<int>, bl: seq<int>, ed: seq<int>, st: seq<int>, av: int, j: int, hi: int, v: int)
    requires |f| == |bl| == |ed| == |st| == TREESIZE && 0 <= j
    requires Blocks(f, bl, ed, st, av, j + 1, hi) && hi - j < TREESIZE_CODE
    requires v > f[j + 1] && av < TREESIZE_CODE
    ensures Blocks(f[j := v], bl[j := st[av]], ed[st[av] := j], st, av + 1, j, hi)
  {
    hide Runs, Ordered, Grouped, Edged;
    var f' := f[j := v];
    forall i | j + 1 <= i < hi
      ensures bl[i] != st[av] && f[i] != v
    {
      AtMostFirst(f, i, j + 1, hi);
    }
    PrependOrdered(f, j, hi, v);
    PrependGrouped(f, bl, j, hi, v, st[av]);
    PrependEdged(f, bl, ed, j, hi, v, st[av]);
    RunsFront(f', j, hi);
    RunsSame(f, f', j + 1, hi);
  }

  /** No node is heavier than the first. */
  lemma AtMostFirst(f: seq<int>, i: int, lo: int, hi: int)
    requires 0 <= lo <= i < hi <= |f| && Ordered(f, lo, hi)
    ensures f[i] <= f[lo]
  {
  }

  /** The leaves alone, before the inner nodes are built: one block,
      number 1, with its edge at the first leaf. */
  lemma LeavesBlocks(f: seq<int>, bl: seq<int>, ed: seq<int>, st: seq<int>, nMax: int)
    requires 2 <= nMax <= N_CHAR && |f| == |bl| == |ed| == |st| == TREESIZE
    requires forall k :: 0 <= k < TREESIZE ==> f[k] == (if nMax - 1 <= k < 2 * nMax - 1 then 1 else 0)
    requires forall k :: 0 <= k < TREESIZE ==> bl[k] == (if nMax - 1 <= k < 2 * nMax - 1 then 1 else 0)
    requires ed[1] == nMax - 1
    requires forall k :: 0 <= k < TREESIZE_CODE ==> st[k] == k
    ensures Blocks(f, bl, ed, st, 2, nMax - 1, 2 * nMax - 1)
  {
    var lo, hi := nMax - 1, 2 * nMax - 1;
    forall i | lo <= i < hi
      ensures FirstOfRun(f, lo, ed[bl[i]], i)
    {
    }
    RunsOnes(f, lo, hi);
  }

  /** The arena after the first two loops of `InitCodeDynamic`: block
      numbers stocked, and the leaves placed from node `2 nMax - 2` down,
      all in block 1 with its edge at node `nMax - 1`. */
  function Leaves(nMax: int): (a: Arena)
    requires 2 <= nMax <= N_CHAR
    ensures Sized(a)
  {
    var hi := 2 * nMax - 1;
    Arena(
      child := seq(TREESIZE, k => if nMax - 1 <= k < hi then Not(2 * nMax - 2 - k) else 0),
      parent := seq(TREESIZE, k => 0),
      block := seq(TREESIZE, k => if nMax - 1 <= k < hi then 1 else 0),
      edge := seq(TREESIZE, k => if k == 1 then nMax - 1 else 0),
      stock := seq(TREESIZE, k => if k < TREESIZE_CODE then k else 0),
      sNode := seq(TREESIZE / 2, s => if s < nMax then 2 * nMax - 2 - s else 0),
      freq := seq(TREESIZE, k => if nMax - 1 <= k < hi then 1 else 0),
      avail := 2)
  }

  /** The leaves name the symbols below `nMax`. */
  lemma LeavesNamed(nMax: int)
    requires 2 <= nMax <= N_CHAR
    ensures LeavesBelow(Leaves(nMax).child, nMax)
  {
    var child := Leaves(nMax).child;
    forall i | 0 <= i < |child| && child[i] < 0
      ensures Not(child[i]) < nMax
    {
      assert nMax - 1 <= i < 2 * nMax - 1 && child[i] == Not(2 * nMax - 2 - i);
    }
  }

  /** The leaves satisfy the loop invariant of the inner-node loop. */
  lemma LeavesBuilt(nMax: int)
    requires 2 <= nMax <= N_CHAR
    ensures Built(Leaves(nMax), nMax, nMax - 2)
  {
    hide Blocks, FreqSum;
    var a := Leaves(nMax);
    LeavesBlocks(a.freq, a.block, a.edge, a.stock, nMax);
    FreqSumOnes(a.freq, nMax - 1, 2 * nMax - 1);
  }

  /** What `InitCodeDynamic` has built once the inner nodes after `j` are
      in place: the sibling invariant over nodes `(j, 2 nMax - 1)`, the
      leaves untouched, the inner nodes' links and sums, positive
      frequencies, and the nodes still without parent (`j + 1` to `2j + 2`)
      summing to `nMax`. */
  ghost predicate Built(a: Arena, nMax: int, j: int)
    requires Sized(a)
  {
    && 2 <= nMax <= N_CHAR && -1 <= j <= nMax - 2
    && Sibling(a, j + 1, 2 * nMax - 1)
    && LeafLinks(a, nMax)
    && InnerLinks(a, nMax, j)
    && (forall k :: j + 1 <= k < 2 * nMax - 1 ==> a.freq[k] >= 1)
    && FreqSum(a.freq, j + 1, 2 * j + 3) == nMax
  }

  /** Leaf `s` is node `2 nMax - 2 - s`, with frequency 1. */
  ghost predicate LeafLinks(a: Arena, nMax: int)
    requires Sized(a) && 2 <= nMax <= N_CHAR
  {
    && (forall k :: nMax - 1 <= k < 2 * nMax - 1 ==> a.freq[k] == 1 && a.child[k] == Not(2 * nMax - 2 - k))
    && (forall s :: 0 <= s < nMax ==> a.sNode[s] == 2 * nMax - 2 - s)
  }

  /** Inner nodes after `j`: node `k` is the parent of nodes `2k + 1` and
      `2k + 2`, whose frequencies it sums. */
  ghost predicate InnerLinks(a: Arena, nMax: int, j: int)
    requires Sized(a) && 2 <= nMax <= N_CHAR && -1 <= j
  {
    forall k :: j + 1 <= k < nMax - 1 ==>
      && a.child[k] == 2 * k + 2 && a.parent[2 * k + 1] == k && a.parent[2 * k + 2] == k
      && a.freq[k] == a.freq[2 * k + 1] + a.freq[2 * k + 2]
  }

  /** One pass of the inner-node loop of `InitCodeDynamic`: node `j` becomes
      the parent of nodes `2j + 1` and `2j + 2`, with their summed
      frequency; it joins the block of node `j + 1` when the frequencies
      agree and takes a fresh block number otherwise. */
  method BuildInner(a: Arena, nMax: int, j: int) returns (a': Arena)
    requires Sized(a) && 0 <= j && Built(a, nMax, j)
    ensures Sized(a') && Built(a', nMax, j - 1) && a'.child == a.child[j := 2 * j + 2]
  {
    hide FreqSum, Blocks, Runs, Ordered, Grouped, Edged, Fenced, Free, LeafLinks, InnerLinks;
    var i := 2 * j + 2;
    var hi := 2 * nMax - 1;
    var f := a.freq[i] + a.freq[i - 1];
    NewNodeHeavier(a, nMax, j);
    var freq := a.freq[j := f];
    var block, avail;
    if f == a.freq[j + 1] {
      PrependJoin(a.freq, a.block, a.edge, a.stock, a.avail, j, hi);
      BlocksIds(a.freq, a.block, a.edge, a.stock, a.avail, j + 1, hi);
      block := a.block[j := a.block[j + 1]];
      avail := a.avail;
    } else {
      BlocksAvail(a.freq, a.block, a.edge, a.stock, a.avail, j + 1, hi);
      PrependNew(a.freq, a.block, a.edge, a.stock, a.avail, j, hi, f);
      block := a.block[j := a.stock[a.avail]];
      avail := a.avail + 1;
    }
    a' := a.(freq := freq, child := a.child[j := i], parent := a.parent[i := j][i - 1 := j],
             block := block, edge := a.edge[block[j] := j], avail := avail);
    assert Sibling(a', j, hi);
    BuiltStep(a, a', nMax, j);
  }

  /** The node built next is at least as heavy as the last one built (or
      than a leaf). */
  lemma NewNodeHeavier(a: Arena, nMax: int, j: int)
    requires Sized(a) && 0 <= j && Built(a, nMax, j)
    ensures a.freq[2 * j + 2] + a.freq[2 * j + 1] >= a.freq[j + 1]
  {
    hide FreqSum, Runs, Grouped, Edged, Fenced, Free;
    var hi := 2 * nMax - 1;
    if j + 1 < nMax - 1 {
      OrderedPair(a.freq, j + 1, hi, 2 * j + 1, 2 * j + 3);
      OrderedPair(a.freq, j + 1, hi, 2 * j + 2, 2 * j + 4);
    }
  }

  /** The parts of `Built` other than the sibling invariant survive one
      pass of the inner-node loop. */
  lemma BuiltStep(a: Arena, a': Arena, nMax: int, j: int)
    requires Sized(a) && Sized(a') && 0 <= j && Built(a, nMax, j) && Sibling(a', j, 2 * nMax - 1)
    requires a'.freq == a.freq[j := a.freq[2 * j + 2] + a.freq[2 * j + 1]]
    requires a'.child == a.child[j := 2 * j + 2] && a'.parent == a.parent[2 * j + 2 := j][2 * j + 1 := j]
    requires a'.sNode == a.sNode && a.freq[j + 1] <= a'.freq[j]
    ensures Built(a', nMax, j - 1)
  {
    hide Sibling, FreqSum, LeafLinks, InnerLinks;
    LeafLinksStep(a, a', nMax, j);
    InnerLinksStep(a, a', nMax, j);
    assert FreqSum(a'.freq, j, 2 * j + 1) == nMax by {
      FreqSumFront(a'.freq, j, 2 * j + 1);
      FreqSumSame(a.freq, a'.freq, j + 1, 2 * j + 1);
      FreqSumBackTwo(a.freq, j + 1, 2 * j + 1);
    }
  }

  /** The leaves are untouched by a pass of the inner-node loop. */
  lemma LeafLinksStep(a: Arena, a': Arena, nMax: int, j: int)
    requires Sized(a) && Sized(a') && 2 <= nMax <= N_CHAR && 0 <= j < nMax - 1 && LeafLinks(a, nMax)
    requires a'.freq == a.freq[j := a.freq[2 * j + 2] + a.freq[2 * j + 1]]
    requires a'.child == a.child[j := 2 * j + 2] && a'.sNode == a.sNode
    ensures LeafLinks(a', nMax)
  {
  }

  /** A pass of the inner-node loop links node `j` to its children. */
  lemma InnerLinksStep(a: Arena, a': Arena, nMax: int, j: int)
    requires Sized(a) && Sized(a') && 2 <= nMax <= N_CHAR && 0 <= j < nMax - 1 && InnerLinks(a, nMax, j)
    requires a'.freq == a.freq[j := a.freq[2 * j + 2] + a.freq[2 * j + 1]]
    requires a'.child == a.child[j := 2 * j + 2] && a'.parent == a.parent[2 * j + 2 := j][2 * j + 1 := j]
    ensures InnerLinks(a', nMax, j - 1)
  {
    forall k | j <= k < nMax - 1
      ensures && a'.child[k] == 2 * k + 2 && a'.parent[2 * k + 1] == k && a'.parent[2 * k + 2] == k
              && a'.freq[k] == a'.freq[2 * k + 1] + a'.freq[2 * k + 2]
    {
      if k > j {
        assert a'.freq[2 * k + 1] == a.freq[2 * k + 1] && a'.freq[2 * k + 2] == a.freq[2 * k + 2];
      }
    }
  }

  /** `InitCodeDynamic`: the initial code tree over `nMax` symbols. Leaf `s`
      sits at node `2 nMax - 2 - s` with frequency 1; inner node `k` has
      children `2k + 1` and `2k + 2` and their summed frequency; the root
      counts every symbol once; and the tree is in sibling order. Also
      computes `n1`, the symbol that carries 8 extra bits. */
  method InitCodeDynamic(nMax: int, maxMatch: int) returns (a: Arena, n1: int)
    requires 2 <= nMax <= N_CHAR
    ensures Sized(a) && Sibling(a, 0, 2 * nMax - 1)
    ensures n1 == (if nMax >= 256 + maxMatch - THRESHOLD + 1 then 512 else nMax - 1)
    ensures forall s :: 0 <= s < nMax ==>
              a.sNode[s] == 2 * nMax - 2 - s && a.child[a.sNode[s]] == Not(s) && a.freq[a.sNode[s]] == 1
    ensures forall k :: 0 <= k < nMax - 1 ==>
              && a.child[k] == 2 * k + 2 && a.parent[2 * k + 1] == k && a.parent[2 * k + 2] == k
              && a.freq[k] == a.freq[2 * k + 1] + a.freq[2 * k + 2]
    ensures a.freq[ROOT_CODE] == nMax
    ensures LeavesBelow(a.child, nMax)
  {
    hide Blocks, FreqSum, Leaves, Built, Sibling;
    n1 := if nMax >= 256 + maxMatch - THRESHOLD + 1 then 512 else nMax - 1;
    a := Leaves(nMax);
    LeavesBuilt(nMax);
    LeavesNamed(nMax);
    var j := nMax - 2;
    while j >= 0
      invariant Sized(a) && -1 <= j && Built(a, nMax, j)
      invariant LeavesBelow(a.child, nMax)
    {
      a := BuildInner(a, nMax, j);
      j := j - 1;
    }
    BuiltDone(a, nMax);
  }

  /** The finished loop: every node placed, and the root counts every
      symbol once. */
  lemma BuiltDone(a: Arena, nMax: int)
    requires Sized(a) && Built(a, nMax, -1)
    ensures Sibling(a, 0, 2 * nMax - 1)
    ensures forall s :: 0 <= s < nMax ==>
              a.sNode[s] == 2 * nMax - 2 - s && a.child[a.sNode[s]] == Not(s) && a.freq[a.sNode[s]] == 1
    ensures forall k :: 0 <= k < nMax - 1 ==>
              && a.child[k] == 2 * k + 2 && a.parent[2 * k + 1] == k && a.parent[2 * k + 2] == k
              && a.freq[k] == a.freq[2 * k + 1] + a.freq[2 * k + 2]
    ensures a.freq[ROOT_CODE] == nMax
  {
    hide Blocks, FreqSum;
    FreqSumSingle(a.freq, 0);
  }

  /** The order conjunct of the invariant. */
  lemma BlocksOrdered(f: seq<int>, bl: seq<int>, ed: seq<int>, st: seq<int>, av: int, lo: int, hi: int)
    requires |f| == |bl| == |ed| == |st| == TREESIZE && Blocks(f, bl, ed, st, av, lo, hi)
    ensures 0 <= lo < hi <= TREESIZE && Ordered(f, lo, hi) && hi - lo < TREESIZE_CODE
  {
  }

  /** The first node's block number is a valid `edge` index. */
  lemma BlocksIds(f: seq<int>, bl: seq<int>, ed: seq<int>, st: seq<int>, av: int, lo: int, hi: int)
    requires |f| == |bl| == |ed| == |st| == TREESIZE && Blocks(f, bl, ed, st, av, lo, hi)
    ensures 0 <= bl[lo] < TREESIZE
  {
  }

  /** Two nodes in order. */
  lemma OrderedPair(f: seq<int>, lo: int, hi: int, i: int, k: int)
    requires 0 <= lo <= i < k < hi <= |f| && Ordered(f, lo, hi)
    ensures f[k] <= f[i]
  {
  }

  /** The tree's nodes bound the blocks in use, leaving a fresh number in
      the stock for one node more. */
  lemma BlocksAvail(f: seq<int>, bl: seq<int>, ed: seq<int>, st: seq<int>, av: int, lo: int, hi: int)
    requires |f| == |bl| == |ed| == |st| == TREESIZE && Blocks(f, bl, ed, st, av, lo, hi)
    requires hi - lo + 1 < TREESIZE_CODE
    ensures 0 <= av < TREESIZE_CODE && 0 <= st[av] < TREESIZE && 0 <= lo < hi
  {
    RunsBound(f, lo, hi);
  }

  // ---------------------------------------------------------------------------
  // The descent of DecodeCode

  /** The loop of `DecodeCode`: from the children `c - 1` (bit 1) and `c`
      (bit 0) of the current node, follow window bit `count` and shift; every
      16 bits the window is refilled. The walk stops at a child link that is
      not positive, a leaf, and returns it with the reader and the count of
      bits not yet consumed. A walk that does not reach a leaf within `fuel`
      steps is reported as `Diverges`. */
  function Descend(data: seq<byte>, r: Reader, child: seq<int>, c: int, count: nat, fuel: nat)
    : (res: Result<(int, Reader, nat)>)
    requires InRange(r) && count < 16
    ensures res.Ok? ==> res.value.0 <= 0 && InRange(res.value.1) && res.value.2 < 16 && res.value.0 in child
    decreases fuel
  {
    if fuel == 0 then Err(Diverges)
    else
      var next :- if WindowBit(r, count) then At(child, c - 1) else At(child, c);
      var r', count' := if count + 1 == 16 then FillBitBuffer(data, r, 16) else r, (count + 1) % 16;
      if next > 0 then Descend(data, r', child, next, count', fuel - 1) else Ok((next, r', count'))
  }

  /** The same walk stated on the stream: from stream bit `at` on, one bit
      per level. Returns the leaf link and the number of bits used. */
  ghost function Follow(data: seq<byte>, at: nat, child: seq<int>, c: int, fuel: nat): (res: Result<(int, nat)>)
    decreases fuel
  {
    if fuel == 0 then Err(Diverges)
    else
      var next :- if StreamBit(data, at) == 1 then At(child, c - 1) else At(child, c);
      if next > 0 then
        var (leaf, n) :- Follow(data, at + 1, child, next, fuel - 1);
        Ok((leaf, n + 1))
      else Ok((next, 1))
  }

  /** The walk of `DecodeCode` reads the stream one bit per tree level: it
      reaches the leaf `Follow` reaches, having moved exactly past the bits
      used, and leaves the reader on the stream. */
  lemma {:induction false} DescendFollows(data: seq<byte>, r: Reader, child: seq<int>, c: int, count: nat, fuel: nat)
    requires Valid(data, r) && count < 16
    ensures var d, f := Descend(data, r, child, c, count, fuel), Follow(data, Consumed(r) + count, child, c, fuel);
            && (d.Ok? <==> f.Ok?)
            && (d.Ok? ==> d.value.0 == f.value.0 && Valid(data, d.value.1)
                          && Consumed(d.value.1) + d.value.2 == Consumed(r) + count + f.value.1)
    decreases fuel
  {
    hide FillBitBuffer, Bits, StreamBit, Shl, Shr, LowBits, Pow2;
    if fuel > 0 {
      WindowBitReads(data, r, count);
      if count + 1 == 16 {
        FillBitBufferReads(data, r, 16);
      }
      var next := if WindowBit(r, count) then At(child, c - 1) else At(child, c);
      if next.Ok? && next.value > 0 {
        var r' := if count + 1 == 16 then FillBitBuffer(data, r, 16) else r;
        DescendFollows(data, r', child, next.value, (count + 1) % 16, fuel - 1);
      }
    }
  }

  // ---------------------------------------------------------------------------
  // Reconstruct and UpdateCode

  /** `(x + 1) / 2` with C#'s division, which truncates toward zero. */
  function HalfUp(x: int): (h: int)
    ensures x >= 0 ==> 2 * h == x + 1 || 2 * h == x
    ensures x >= -1 ==> h >= 0
  {
    if x + 1 >= 0 then (x + 1) / 2 else -((-(x + 1)) / 2)
  }

  /** `Reconstruct(begin, end)`: halve the leaf counts, rebuild the inner
      nodes of `[begin, end)` bottom-up in sibling order, and renumber the
      blocks. Every array access is checked; the three loops follow the
      source's index arithmetic, including the freeing of every block whose
      first node lies in the range. */
  method Reconstruct(a: Arena, begin: int, end: int) returns (res: Result<Arena>)
    requires Sized(a)
    ensures res.Ok? ==> Sized(res.value) && LeavesKept(a.child, res.value.child)
    ensures res.Ok? && begin < end ==> 0 <= begin && end <= TREESIZE
    ensures res.Ok? ==> forall i :: begin < i < end && 0 < i < TREESIZE && res.value.freq[i] == res.value.freq[i - 1]
                           ==> res.value.block[i] == res.value.block[i - 1]
  {
    var child, parent, block, edge, stock, sNode, freq, avail :=
      a.child, a.parent, a.block, a.edge, a.stock, a.sNode, a.freq, a.avail;
    // Collect the leaves, halved, at the front; free the blocks.
    var j := begin;
    var b :- At(block, begin);
    var i := begin;
    while i < end
      invariant |child| == |block| == |edge| == |stock| == |freq| == TREESIZE
      invariant LeavesKept(a.child, child)
      decreases end - i
    {
      var k :- At(child, i);
      if k < 0 {
        freq :- Put(freq, j, HalfUp(freq[i]));
        child := child[j := k];
        j := j + 1;
      }
      b := block[i];
      var e :- At(edge, b);
      if e == i {
        avail := avail - 1;
        stock :- Put(stock, avail, b);
      }
      i := i + 1;
    }
    // Merge: from the back, place each new inner node after the leaves
    // at least as heavy as it.
    j := j - 1;
    var l := end - 2;
    i := end - 1;
    while i >= begin
      invariant |child| == |freq| == TREESIZE
      invariant LeavesKept(a.child, child)
      decreases i - begin
    {
      ghost var top := i;
      while i >= l
        invariant |child| == |freq| == TREESIZE && i <= top
        invariant LeavesKept(a.child, child)
        decreases i - l
      {
        var fj :- At(freq, j);
        freq :- Put(freq, i, fj);
        child := child[i := child[j]];
        i, j := i - 1, j - 1;
      }
      var f0 :- At(freq, l);
      var f1 :- At(freq, l + 1);
      var f := f0 + f1;
      var k := begin;
      var fk := freq[k];
      while f < fk
        invariant 0 <= k < |freq| && fk == freq[k]
        decreases |freq| - k
      {
        k := k + 1;
        fk :- At(freq, k);
      }
      while j >= k
        invariant |child| == |freq| == TREESIZE && i <= top && i < l
        invariant LeavesKept(a.child, child)
        decreases j - k
      {
        var fj :- At(freq, j);
        freq :- Put(freq, i, fj);
        child := child[i := child[j]];
        i, j := i - 1, j - 1;
      }
      freq :- Put(freq, i, f);
      child := child[i := l + 1];
      i, l := i - 1, l - 2;
    }
    // Relink the parents and leaves and hand out blocks in order.
    var current := 0;
    i := begin;
    while i < end
      invariant |child| == |parent| == |block| == |edge| == |stock| == |freq| == TREESIZE
      invariant |sNode| == TREESIZE / 2
      invariant LeavesKept(a.child, child)
      invariant forall m :: begin < m < i && 0 < m < TREESIZE && freq[m] == freq[m - 1] ==> block[m] == block[m - 1]
      invariant begin < i ==> 0 <= i - 1 < TREESIZE && current == freq[i - 1] && b == block[i - 1]
      decreases end - i
    {
      var c :- At(child, i);
      if c < 0 {
        sNode :- Put(sNode, Not(c), i);
      } else {
        parent :- Put(parent, c - 1, i);
        parent :- Put(parent, c, i);
      }
      var g := freq[i];
      if g == current {
        block := block[i := b];
      } else {
        b :- At(stock, avail);
        avail := avail + 1;
        block := block[i := b];
        edge :- Put(edge, b, i);
        current := g;
      }
      i := i + 1;
    }
    return Ok(Arena(child, parent, block, edge, stock, sNode, freq, avail));
  }

  /** Count one more occurrence at every node from `q` up to, not
      including, `root`. A climb longer than the tree has nodes is reported
      as `Diverges`. */
  function Rise(a: Arena, q: int, root: int, fuel: nat): (res: Result<Arena>)
    requires Sized(a)
    ensures res.Ok? ==> Sized(res.value) && LeavesKept(a.child, res.value.child)
    ensures q == root ==> res == Ok(a)
    decreases fuel
  {
    if q == root then Ok(a)
    else if fuel == 0 then Err(Diverges)
    else
      var (x, up) :- SwapInc(a, q);
      var res := Rise(x, up, root, fuel - 1);
      if res.Ok? then LeavesKeptTrans(a.child, x.child, res.value.child); res else res
  }

  /** `UpdateCode(p)`: count one more occurrence of symbol `p`, first
      halving every count once the root has reached `0x8000`. */
  method UpdateCode(a: Arena, p: int, nMax: int) returns (res: Result<Arena>)
    requires Sized(a)
    ensures res.Ok? ==> Sized(res.value) && 0 <= p < TREESIZE / 2
    ensures res.Ok? ==> LeavesKept(a.child, res.value.child)
  {
    var x := a;
    assert LeavesKept(a.child, x.child);
    if x.freq[ROOT_CODE] == 0x8000 {
      x :- Reconstruct(x, 0, nMax * 2 - 1);
    }
    x := x.(freq := x.freq[ROOT_CODE := x.freq[ROOT_CODE] + 1]);
    var q :- At(x.sNode, p);
    var first :- SwapInc(x, q);
    LeavesKeptTrans(a.child, x.child, first.0.child);
    res := Rise(first.0, first.1, ROOT_CODE, TREESIZE);
    if res.Ok? {
      LeavesKeptTrans(a.child, first.0.child, res.value.child);
    }
  }

  /** The part of `DecodeCode` the two adaptive decoders share: walk from
      the root to a leaf one bit per level, consume those bits, and count
      the symbol. */
  method DecodeSymbol(data: seq<byte>, r: Reader, a: Arena, nMax: int) returns (res: Result<(int, Reader, Arena)>)
    requires InRange(r) && Sized(a)
    ensures res.Ok? ==> InRange(res.value.1) && Sized(res.value.2) && 0 <= res.value.0 < TREESIZE / 2
    ensures res.Ok? ==> Not(res.value.0) in a.child && LeavesKept(a.child, res.value.2.child)
    ensures Valid(data, r) ==>
              var f := Follow(data, Consumed(r), a.child, a.child[ROOT_CODE], TREESIZE);
              res.Ok? ==> && f.Ok? && res.value.0 == Not(f.value.0) && Valid(data, res.value.1)
                          && Consumed(res.value.1) == Consumed(r) + f.value.1
  {
    hide Descend, Follow, FillBitBuffer, Bits, StreamBit, Shl, Shr;
    var walked :- Descend(data, r, a.child, a.child[ROOT_CODE], 0, TREESIZE);
    var leaf, r1, count := walked.0, walked.1, walked.2;
    if Valid(data, r) {
      DescendFollows(data, r, a.child, a.child[ROOT_CODE], 0, TREESIZE);
      FillBitBufferReads(data, r1, count);
    }
    var r2 := FillBitBuffer(data, r1, count);
    var c := Not(leaf);
    var a' :- UpdateCode(a, c, nMax);
    return Ok((c, r2, a'));
  }
}
