/** The circular dictionary of the sliding-dictionary decoders
    (`dictionaryBuffer`, `bufferPointerBegin`, `bufferPointerEnd`,
    Library/SlidingDicDecoder.cs).

    Every decoded byte is written at `end`, which then moves on, wrapping at
    the dictionary size. Bytes between `begin` and `end` have been decoded but
    not yet handed to the caller. The meaning of the buffer is given relative
    to a ghost history `h`, the sequence of every byte the dictionary has ever
    held (its initial contents followed by the decoded output): slot `j` holds
    the byte `Age(w, j)` places from the end of `h`. */
module Window {
  import opened BitStream

  datatype Ring = Ring(buf: seq<byte>, begin: int, end: int)

  predicate Wf(w: Ring)
  {
    0 < |w.buf| && 0 <= w.begin < |w.buf| && 0 <= w.end < |w.buf|
  }

  /** A ring of `n` zero bytes with both pointers at 0: a new decoder. */
  function Empty(n: nat): (w: Ring)
    requires n > 0
    ensures Wf(w) && |w.buf| == n && w.begin == w.end == 0
    ensures forall j :: 0 <= j < n ==> w.buf[j] == 0
  {
    Ring(seq(n, _ => 0), 0, 0)
  }

  /** Bytes decoded but not yet delivered. */
  function Pending(w: Ring): (n: int)
    requires Wf(w)
    ensures 0 <= n < |w.buf|
    ensures n == 0 <==> w.begin == w.end
  {
    if w.begin <= w.end then w.end - w.begin else w.end - w.begin + |w.buf|
  }

  /** How many places back from the newest byte slot `j` lies: 1 for the slot
      written last, `|buf|` for the slot written next. */
  function Age(w: Ring, j: int): (a: int)
    requires Wf(w) && 0 <= j < |w.buf|
    ensures 1 <= a <= |w.buf|
  {
    if j < w.end then w.end - j else w.end - j + |w.buf|
  }

  /** Slot `j` holds the byte `Age(w, j)` places from the end of `h`. */
  ghost predicate Holds(w: Ring, h: seq<byte>)
  {
    && Wf(w)
    && |w.buf| <= |h|
    && forall j :: 0 <= j < |w.buf| ==> w.buf[j] == h[|h| - Age(w, j)]
  }

  /** The slot after `i`, wrapping at the dictionary size
      (back to 0 after the last slot). */
  function Next(w: Ring, i: int): (k: int)
    requires Wf(w) && 0 <= i < |w.buf|
    ensures 0 <= k < |w.buf|
    ensures k == (i + 1) % |w.buf|
  {
    if i + 1 == |w.buf| then
      ModUnique(i + 1, |w.buf|, 1, 0);
      0
    else
      ModUnique(i + 1, |w.buf|, 0, i + 1);
      i + 1
  }

  /** Store `x` at slot `end` and move `end` on by one, wrapping. */
  function Put(w: Ring, x: byte): (w': Ring)
    requires Wf(w)
    ensures Wf(w') && |w'.buf| == |w.buf| && w'.begin == w.begin
    ensures w'.end == Next(w, w.end) && w'.buf[w.end] == x
  {
    Ring(w.buf[w.end := x], w.begin, Next(w, w.end))
  }

  /** Writing a byte appends it to the history. */
  lemma PutHolds(w: Ring, h: seq<byte>, x: byte)
    requires Holds(w, h)
    ensures Holds(Put(w, x), h + [x])
  {
    var w' := Put(w, x);
    var h' := h + [x];
    forall j | 0 <= j < |w.buf|
      ensures w'.buf[j] == h'[|h'| - Age(w', j)]
    {
      if j == w.end {
        assert Age(w', j) == 1;
      } else {
        assert Age(w', j) == Age(w, j) + 1;
      }
    }
  }

  /** Slot `j` of the ring is the byte `Age(w, j)` back in the history. */
  lemma SlotReads(w: Ring, h: seq<byte>, j: int)
    requires Holds(w, h) && 0 <= j < |w.buf|
    ensures w.buf[j] == h[|h| - Age(w, j)]
  {
  }

  /** After a write, the slot after `j` is as far back as `j` was before. */
  lemma AgeAfterPut(w: Ring, x: byte, j: int)
    requires Wf(w) && 0 <= j < |w.buf|
    ensures Age(Put(w, x), Next(w, j)) == Age(w, j)
  {
  }

  /** The slot `dist` places back, `(end - dist) & mask`. */
  lemma AgeOfBack(w: Ring, dist: int)
    requires Wf(w) && 1 <= dist <= |w.buf|
    ensures 0 <= (w.end - dist) % |w.buf| < |w.buf|
    ensures Age(w, (w.end - dist) % |w.buf|) == dist
  {
    var n := |w.buf|;
    if w.end - dist >= 0 {
      ModUnique(w.end - dist, n, 0, w.end - dist);
    } else {
      ModUnique(w.end - dist, n, -1, w.end - dist + n);
    }
  }

  /** A literal while the caller still wants bytes: `begin` moves on by
      one, the byte is written at `end`, which moves on too, and both
      pointers go back to 0 at the wrap. */
  function PutLiteral(w: Ring, x: byte): (w': Ring)
    requires Wf(w) && w.begin == w.end
    ensures Wf(w') && |w'.buf| == |w.buf| && w'.begin == w'.end
    ensures w'.end == Next(w, w.end) && w'.buf == w.buf[w.end := x]
  {
    var b := w.begin + 1;
    var e := w.end + 1;
    var buf := w.buf[w.end := x];
    if e == |w.buf| then Ring(buf, 0, 0) else Ring(buf, b, e)
  }

  /** The literal is appended to the history. */
  lemma PutLiteralHolds(w: Ring, h: seq<byte>, x: byte)
    requires Holds(w, h) && w.begin == w.end
    ensures Holds(PutLiteral(w, x), h + [x])
  {
    PutHolds(w, h, x);
    HoldsBegin(Put(w, x), h + [x], Put(w, x).end);
  }

  // ---------------------------------------------------------------------------
  // Delivering pending bytes

  /** The first part of `Read`: copy up to `len` pending bytes out of the
      ring, in one piece or, when they wrap, in two. */
  function Drain(w: Ring, len: nat): (res: (seq<byte>, Ring))
    requires Wf(w)
    ensures Wf(res.1) && res.1.buf == w.buf && res.1.end == w.end
    ensures |res.0| == if len <= Pending(w) then len else Pending(w)
    ensures Pending(res.1) == Pending(w) - |res.0|
    ensures len == 0 ==> res == ([], w)
  {
    var n := |w.buf|;
    var rs := w.end - w.begin;
    if rs < 0 then
      var bl := n - w.begin;
      if bl >= len then
        var b := w.begin + len;
        (w.buf[w.begin..w.begin + len], w.(begin := if b == n then 0 else b))
      else
        var rest := len - bl;
        if w.end >= rest then (w.buf[w.begin..] + w.buf[..rest], w.(begin := rest))
        else (w.buf[w.begin..] + w.buf[..w.end], w.(begin := w.end))
    else if rs >= len then
      (w.buf[w.begin..w.begin + len], w.(begin := w.begin + len))
    else
      (w.buf[w.begin..w.end], w.(begin := w.end))
  }

  /** The pending bytes are the last `Pending(w)` bytes of the history, and
      slot `begin` holds the oldest of them. */
  lemma PendingSlot(w: Ring, h: seq<byte>, i: int)
    requires Holds(w, h) && 0 <= i < Pending(w)
    ensures 0 <= (w.begin + i) % |w.buf| < |w.buf|
    ensures w.buf[(w.begin + i) % |w.buf|] == h[|h| - Pending(w) + i]
  {
    var n := |w.buf|;
    var j := (w.begin + i) % n;
    if w.begin + i < n {
      ModUnique(w.begin + i, n, 0, w.begin + i);
    } else {
      ModUnique(w.begin + i, n, 1, w.begin + i - n);
    }
    assert Age(w, j) == Pending(w) - i;
  }

  /** Draining hands out the oldest pending bytes, in order. */
  lemma DrainReads(w: Ring, h: seq<byte>, len: nat)
    requires Holds(w, h)
    ensures var (out, w') := Drain(w, len);
            && Holds(w', h)
            && out == h[|h| - Pending(w)..|h| - Pending(w) + |out|]
  {
    assert Wf(w) && |w.buf| <= |h|;
    hide Drain, Holds, Pending;
    var (out, w') := Drain(w, len);
    var p := Pending(w);
    DrainSlots(w, len);
    forall i | 0 <= i < |out|
      ensures out[i] == h[|h| - p + i]
    {
      PendingSlot(w, h, i);
    }
    HoldsBegin(w, h, w'.begin);
    assert w' == w.(begin := w'.begin);
  }

  /** Byte `i` drained is the one in slot `begin + i`, wrapping. */
  lemma DrainSlots(w: Ring, len: nat)
    requires Wf(w)
    ensures var out := Drain(w, len).0;
            forall i :: 0 <= i < |out| ==> 0 <= (w.begin + i) % |w.buf| < |w.buf| && out[i] == w.buf[(w.begin + i) % |w.buf|]
  {
    var out := Drain(w, len).0;
    var n := |w.buf|;
    forall i | 0 <= i < |out|
      ensures 0 <= (w.begin + i) % n < n && out[i] == w.buf[(w.begin + i) % n]
    {
      if w.begin + i < n {
        ModUnique(w.begin + i, n, 0, w.begin + i);
        assert out[i] == w.buf[w.begin + i];
      } else {
        ModUnique(w.begin + i, n, 1, w.begin + i - n);
        assert out[i] == w.buf[w.begin + i - n];
      }
    }
  }

  // ---------------------------------------------------------------------------
  // What decoding does to the history

  /** One decoded item: a byte, or a copy of `length` bytes starting `dist`
      places back. */
  datatype Token = Literal(b: byte) | Copy(length: int, dist: int)

  /** `n` bytes copied one at a time from `dist` places back. Each byte is
      read after the ones before it were written, so a copy may overlap
      its own output. */
  function CopyOut(h: seq<byte>, dist: int, n: int): (h': seq<byte>)
    requires 1 <= dist <= |h|
    ensures |h'| == |h| + (if n > 0 then n else 0) && h'[..|h|] == h
    decreases n
  {
    if n <= 0 then h
    else
      var p := CopyOut(h, dist, n - 1);
      p + [p[|p| - dist]]
  }

  /** The copy is periodic: byte `i` of it is byte `i mod dist` of the
      `dist` bytes it starts from. */
  lemma {:induction false} CopyPeriodic(h: seq<byte>, dist: int, n: int, i: int)
    requires 1 <= dist <= |h| && 0 <= i < n
    ensures CopyOut(h, dist, n)[|h| + i] == h[|h| - dist + i % dist]
    decreases n
  {
    hide CopyOut;
    CopyOutLast(h, dist, n);
    if i < n - 1 {
      CopyPeriodic(h, dist, n - 1, i);
    } else if i < dist {
      ModUnique(i, dist, 0, i);
    } else {
      CopyPeriodic(h, dist, n - 1, i - dist);
      ModUnique(i, dist, (i - dist) / dist + 1, (i - dist) % dist);
    }
  }

  /** One more byte of a copy: the earlier bytes stay, and the new one is
      the byte `dist` back. */
  lemma CopyOutLast(h: seq<byte>, dist: int, n: int)
    requires 1 <= dist <= |h| && 1 <= n
    ensures var p, p' := CopyOut(h, dist, n - 1), CopyOut(h, dist, n);
            && p'[..|p|] == p && p'[|p|] == p[|p| - dist]
  {
  }

  /** A copy from one place back repeats the last byte. */
  lemma RepeatLast(h: seq<byte>, n: int, i: int)
    requires 1 <= |h| && 0 <= i < n
    ensures CopyOut(h, 1, n)[|h| + i] == h[|h| - 1]
  {
    CopyPeriodic(h, 1, n, i);
  }

  /** A copy that reaches no further than its start is a plain slice. */
  lemma CopyNoOverlap(h: seq<byte>, dist: int, n: int)
    requires 1 <= n <= dist <= |h|
    ensures CopyOut(h, dist, n)[|h|..] == h[|h| - dist..|h| - dist + n]
  {
    forall j | |h| <= j < |h| + n
      ensures CopyOut(h, dist, n)[j] == h[j - dist]
    {
      CopyPeriodic(h, dist, n, j - |h|);
      ModUnique(j - |h|, dist, 0, j - |h|);
    }
  }

  /** A token every ring of `size` slots can carry out. */
  predicate Fits(t: Token, size: nat)
  {
    t.Copy? ==> 1 <= t.dist <= size
  }

  function Apply(h: seq<byte>, t: Token): (h': seq<byte>)
    requires t.Copy? ==> 1 <= t.dist <= |h|
    ensures |h| <= |h'| && h'[..|h|] == h
  {
    match t
    case Literal(b) => h + [b]
    case Copy(length, dist) => CopyOut(h, dist, length)
  }

  /** The history after a run of tokens, applied left to right. */
  function ApplyAll(h: seq<byte>, ts: seq<Token>, size: nat): (h': seq<byte>)
    requires size <= |h| && forall i :: 0 <= i < |ts| ==> Fits(ts[i], size)
    ensures |h| <= |h'| && h'[..|h|] == h
    decreases |ts|
  {
    if ts == [] then h
    else
      var p := ApplyAll(h, ts[..|ts| - 1], size);
      assert Fits(ts[|ts| - 1], size);
      Apply(p, ts[|ts| - 1])
  }

  lemma ApplyAllSnoc(h: seq<byte>, ts: seq<Token>, t: Token, size: nat)
    requires size <= |h| && (forall i :: 0 <= i < |ts| ==> Fits(ts[i], size)) && Fits(t, size)
    ensures forall i :: 0 <= i < |ts + [t]| ==> Fits((ts + [t])[i], size)
    ensures ApplyAll(h, ts + [t], size) == Apply(ApplyAll(h, ts, size), t)
  {
    assert (ts + [t])[..|ts|] == ts;
  }

  // ---------------------------------------------------------------------------
  // Copying inside the ring

  /** Age is the distance back from `end`, taken modulo the ring size. */
  lemma AgeMod(w: Ring, j: int)
    requires Wf(w) && 0 <= j < |w.buf|
    ensures Age(w, j) == (w.end - j - 1) % |w.buf| + 1
  {
    var n := |w.buf|;
    if j < w.end {
      ModUnique(w.end - j - 1, n, 0, w.end - j - 1);
    } else {
      ModUnique(w.end - j - 1, n, -1, w.end - j - 1 + n);
    }
  }

  /** The slot `k` after `mp` is as far back, once `k` bytes have been
      written, as `mp` was before. */
  lemma AgeAfterWrites(w: Ring, w': Ring, mp: int, k: nat)
    requires Wf(w) && Wf(w') && |w'.buf| == |w.buf| && 0 <= mp < |w.buf|
    requires w'.end == (w.end + k) % |w.buf|
    ensures 0 <= (mp + k) % |w.buf| < |w.buf|
    ensures Age(w', (mp + k) % |w.buf|) == Age(w, mp)
  {
    var n := |w.buf|;
    AgeMod(w, mp);
    AgeMod(w', (mp + k) % n);
    ModDiff(w.end + k, mp + k, -1, n);
  }

  /** One byte of a match: slot `src` copied to `end`. */
  function CopyByte(w: Ring, src: int): (w': Ring)
    requires Wf(w) && 0 <= src < |w.buf|
    ensures Wf(w') && |w'.buf| == |w.buf| && w'.begin == w.begin
  {
    Put(w, w.buf[src])
  }

  /** The match loop of `Read`: `length` bytes from slot `mp` on, each also
      delivered while the caller still wants bytes (`len > 0`); the rest
      stay pending. The copy runs `Age(w, mp)` places back. */
  method CopyMatch(w: Ring, mp: int, length: int, len: int, ghost h: seq<byte>)
    returns (w': Ring, out: seq<byte>, len': int)
    requires Holds(w, h) && 0 <= mp < |w.buf|
    requires len > 0 && w.begin == w.end
    ensures Holds(w', CopyOut(h, Age(w, mp), length)) && |w'.buf| == |w.buf|
    ensures var L := if length > 0 then length else 0;
            && |out| == (if L <= len then L else len)
            && len' == len - |out| && len' >= 0
            && out == CopyOut(h, Age(w, mp), length)[|h|..|h| + |out|]
            && (length <= |w.buf| ==> Pending(w') == L - |out|)
            && w'.end == (w.end + L) % |w.buf|
    ensures len' > 0 ==> w'.begin == w'.end
  {
    hide CopyInv, CopyOut, Holds, Pending;
    w' := w;
    out := [];
    len' := len;
    var k := 0;
    CopyStart(w, mp, len, h);
    while k < length
      invariant 0 <= k && (length > 0 ==> k <= length) && (length <= 0 ==> k == 0)
      invariant CopyInv(w, w', h, mp, k, len, len', out)
    {
      w', len', out := CopyStep(w, w', h, mp, k, len, len', out);
      k := k + 1;
    }
    CopyEnd(w, w', h, mp, length, len, len', out);
  }

  /** The match loop's state once all `length` bytes are copied is what
      `CopyMatch` promises. */
  lemma CopyEnd(w: Ring, cur: Ring, h: seq<byte>, mp: int, length: int, len: int, rem: int, out: seq<byte>)
    requires CopyInv(w, cur, h, mp, if length > 0 then length else 0, len, rem, out)
    ensures Holds(cur, CopyOut(h, Age(w, mp), length)) && |cur.buf| == |w.buf|
    ensures var L := if length > 0 then length else 0;
            && |out| == (if L <= len then L else len)
            && rem == len - |out| && rem >= 0
            && out == CopyOut(h, Age(w, mp), length)[|h|..|h| + |out|]
            && (length <= |w.buf| ==> Pending(cur) == L - |out|)
            && cur.end == (w.end + L) % |w.buf|
    ensures rem > 0 ==> cur.begin == cur.end
  {
    assert length <= 0 ==> CopyOut(h, Age(w, mp), length) == CopyOut(h, Age(w, mp), 0);
  }

  /** The state of the match loop after `k` bytes. */
  ghost predicate CopyInv(w: Ring, cur: Ring, h: seq<byte>, mp: int, k: int, len: int, rem: int, out: seq<byte>)
  {
    && Holds(w, h) && 0 <= mp < |w.buf| && len > 0 && k >= 0
    && Holds(cur, CopyOut(h, Age(w, mp), k)) && |cur.buf| == |w.buf|
    && cur.end == (w.end + k) % |w.buf|
    && |out| == (if k <= len then k else len) && rem == len - |out|
    && out == CopyOut(h, Age(w, mp), k)[|h|..|h| + |out|]
    && (k <= len ==> cur.begin == cur.end)
    && (k > len ==> cur.begin == (w.end + len) % |w.buf|)
    && (k <= |w.buf| ==> Pending(cur) == k - |out|)
  }

  lemma CopyStart(w: Ring, mp: int, len: int, h: seq<byte>)
    requires Holds(w, h) && 0 <= mp < |w.buf|
    requires len > 0 && w.begin == w.end
    ensures CopyInv(w, w, h, mp, 0, len, len, [])
  {
    ModUnique(w.end, |w.buf|, 0, w.end);
    assert CopyOut(h, Age(w, mp), 0) == h;
  }

  /** One pass of the match loop: copy slot `mp + k` to `end`, and deliver
      it while the caller wants bytes. */
  method CopyStep(w: Ring, cur: Ring, ghost h: seq<byte>, mp: int, k: int, len: int, rem: int, out: seq<byte>)
    returns (cur': Ring, rem': int, out': seq<byte>)
    requires CopyInv(w, cur, h, mp, k, len, rem, out)
    ensures CopyInv(w, cur', h, mp, k + 1, len, rem', out')
  {
    hide CopyOut, Pending;
    ghost var dist := Age(w, mp);
    ghost var n := |w.buf|;
    var src := (mp + k) % |cur.buf|;
    CopyStepHolds(w, cur, h, mp, k);
    var t := cur.buf[src];
    cur' := Put(cur, t);
    OutStep(h, dist, k, out, rem > 0);
    rem' := rem;
    out' := out;
    if rem > 0 {
      rem' := rem - 1;
      HoldsBegin(cur', CopyOut(h, dist, k + 1), Next(cur, cur.begin));
      cur' := cur'.(begin := Next(cur, cur.begin));
      out' := out + [t];
    }
    PendingAfterCopy(w, cur', len, k + 1);
  }

  /** Where delivery stands does not change what the ring holds. */
  lemma HoldsBegin(w: Ring, h: seq<byte>, b: int)
    requires Holds(w, h) && 0 <= b < |w.buf|
    ensures Holds(w.(begin := b), h)
  {
    assert forall j :: 0 <= j < |w.buf| ==> Age(w.(begin := b), j) == Age(w, j);
  }

  lemma CopyPrefix(h: seq<byte>, dist: int, k: nat)
    requires 1 <= dist <= |h|
    ensures CopyOut(h, dist, k + 1)[..|h| + k] == CopyOut(h, dist, k)
  {
  }

  /** Copying slot `mp + k` extends the history by the next copied byte and
      moves `end` on by one. */
  lemma CopyStepHolds(w: Ring, cur: Ring, h: seq<byte>, mp: int, k: nat)
    requires Holds(w, h) && 0 <= mp < |w.buf|
    requires Holds(cur, CopyOut(h, Age(w, mp), k)) && |cur.buf| == |w.buf|
    requires cur.end == (w.end + k) % |w.buf|
    ensures 0 <= (mp + k) % |w.buf| < |w.buf|
    ensures var t := cur.buf[(mp + k) % |w.buf|];
            && t == CopyOut(h, Age(w, mp), k + 1)[|h| + k]
            && Holds(Put(cur, t), CopyOut(h, Age(w, mp), k + 1))
            && Put(cur, t).end == (w.end + k + 1) % |w.buf|
  {
    var n := |w.buf|;
    var d := Age(w, mp);
    var hk := CopyOut(h, d, k);
    AgeAfterWrites(w, cur, mp, k);
    var src := (mp + k) % n;
    var t := cur.buf[src];
    SlotReads(cur, hk, src);
    assert t == hk[|hk| - d];
    PutHolds(cur, hk, t);
    NextMod(w.end + k, n);
  }

  /** The delivered bytes stay a prefix of the copy, one more when the
      byte goes out. */
  lemma OutStep(h: seq<byte>, dist: int, k: nat, out: seq<byte>, deliver: bool)
    requires 1 <= dist <= |h|
    requires |out| <= k && out == CopyOut(h, dist, k)[|h|..|h| + |out|]
    requires deliver ==> |out| == k
    ensures deliver ==> out + [CopyOut(h, dist, k + 1)[|h| + k]] == CopyOut(h, dist, k + 1)[|h|..|h| + k + 1]
    ensures !deliver ==> out == CopyOut(h, dist, k + 1)[|h|..|h| + |out|]
  {
    CopyPrefix(h, dist, k);
  }

  lemma NextMod(x: int, n: int)
    requires n >= 1
    ensures var r := x % n; (if r + 1 == n then 0 else r + 1) == (x + 1) % n
  {
    var r := x % n;
    if r + 1 == n {
      ModUnique(x + 1, n, x / n + 1, 0);
    } else {
      ModUnique(x + 1, n, x / n, r + 1);
    }
  }

  /** Pending bytes after `k` copied bytes of which `min(k, len)` went out. */
  lemma PendingAfterCopy(w: Ring, w': Ring, len: int, k: int)
    requires Wf(w) && Wf(w') && |w'.buf| == |w.buf| && len > 0 && k >= 0
    requires w'.end == (w.end + k) % |w.buf|
    requires k <= len ==> w'.begin == w'.end
    requires k > len ==> w'.begin == (w.end + len) % |w.buf|
    ensures k <= |w.buf| ==> Pending(w') == k - (if k <= len then k else len)
  {
    var n := |w.buf|;
    if k > len && k <= n {
      ModDiff(w.end + k, w.end + len, 0, n);
      ModUnique(k - len, n, 0, k - len);
      if w'.begin <= w'.end {
        ModUnique(w'.end - w'.begin, n, 0, w'.end - w'.begin);
      } else {
        ModUnique(w'.end - w'.begin, n, -1, w'.end - w'.begin + n);
      }
    }
  }
}
