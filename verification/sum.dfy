/** The additive 8-bit header checksum (Library/Sum.cs).

    The accumulator is a C# `int`, so it wraps at 32 bits; the reported value
    keeps only its low 8 bits, which the wrap never disturbs. */
module Checksum {
  import opened Outcome

  const INT_MIN := -0x8000_0000
  const INT_RANGE := 0x1_0000_0000

  /** `x` reduced to a signed 32-bit value, as `int` arithmetic leaves it. */
  function Wrap32(x: int): (w: int)
    ensures INT_MIN <= w < INT_MIN + INT_RANGE
    ensures (w - x) % INT_RANGE == 0
  {
    (x - INT_MIN) % INT_RANGE + INT_MIN
  }

  datatype Sum = Sum(acc: int)

  /** A new checker, and the state `Reset` returns to. */
  const Initial := Sum(0)

  function Reset(s: Sum): (s': Sum)
    ensures Value(s') == 0
  {
    Initial
  }

  /** `GetValue()`: `sum & 0xFF`. For a negative accumulator this is the
      two's-complement low byte, which is what a Euclidean `% 256` gives. */
  function Value(s: Sum): (v: int)
    ensures 0 <= v < 256
  {
    s.acc % 256
  }

  /** `Update(int b)`. */
  function Update(s: Sum, b: int): (s': Sum)
    ensures Value(s') == (Value(s) + b) % 256
  {
    LowByteOfWrap(s.acc + b);
    ModAdd(s.acc, b);
    Sum(Wrap32(s.acc + b))
  }

  /** Wrapping at 32 bits leaves the low byte alone. */
  lemma LowByteOfWrap(x: int)
    ensures Wrap32(x) % 256 == x % 256
  {
    var w := Wrap32(x);
    var k := (w - x) / INT_RANGE;
    assert w == x + k * INT_RANGE;
    assert k * INT_RANGE == 256 * (k * 0x100_0000);
    ModShift(x, k * 0x100_0000);
  }

  lemma ModShift(x: int, k: int)
    ensures (x + 256 * k) % 256 == x % 256
  {
  }

  /** Reducing an addend first does not change the sum modulo 256. */
  lemma ModAdd(x: int, y: int)
    ensures (x % 256 + y) % 256 == (x + y) % 256
  {
    ModShift(x % 256 + y, x / 256);
  }

  /** The sum of a run of bytes. */
  function Total(xs: seq<int>): int
  {
    if |xs| == 0 then 0 else Total(xs[..|xs| - 1]) + xs[|xs| - 1]
  }

  /** Feeding bytes one at a time with `Update(int)`. */
  function UpdateAll(s: Sum, xs: seq<int>): Sum
  {
    if |xs| == 0 then s else Update(UpdateAll(s, xs[..|xs| - 1]), xs[|xs| - 1])
  }

  /** `Update(b, off, len)`: add the `len` bytes from `off` on to the sum,
      one at a time. An offset outside the array is the runtime's index
      error; a `len <= 0` adds nothing. */
  method UpdateRange(s: Sum, b: seq<int>, off: int, len: int) returns (r: Result<Sum>)
    ensures r.Ok? <==> len <= 0 || (0 <= off && off + len <= |b|)
    ensures len <= 0 ==> r == Ok(s)
    ensures r.Ok? && len > 0 ==> r.value == UpdateAll(s, b[off..off + len])
  {
    if len <= 0 {
      return Ok(s);
    }
    if off < 0 || off + len > |b| {
      return Err(IndexOutOfRange);
    }
    var acc := s;
    var i := off;
    while i < off + len
      invariant off <= i <= off + len
      invariant acc == UpdateAll(s, b[off..i])
    {
      assert b[off..i + 1][..i - off] == b[off..i];
      acc := Update(acc, b[i]);
      i := i + 1;
    }
    return Ok(acc);
  }

  /** The value is the sum of everything fed in, modulo 256. */
  lemma {:induction false} UpdateAllValue(s: Sum, xs: seq<int>)
    ensures Value(UpdateAll(s, xs)) == (Value(s) + Total(xs)) % 256
    decreases |xs|
  {
    hide Value, Update, Wrap32;
    if |xs| > 0 {
      var init := xs[..|xs| - 1];
      UpdateAllValue(s, init);
      ModAdd(Value(s) + Total(init), xs[|xs| - 1]);
    }
  }

  lemma {:induction false} TotalAppend(xs: seq<int>, ys: seq<int>)
    ensures Total(xs + ys) == Total(xs) + Total(ys)
    decreases |ys|
  {
    if |ys| == 0 {
      assert xs + ys == xs;
    } else {
      assert (xs + ys)[..|xs + ys| - 1] == xs + ys[..|ys| - 1];
      TotalAppend(xs, ys[..|ys| - 1]);
    }
  }

  /** Splitting a run of updates into two calls gives the same value. */
  lemma GroupingIrrelevant(s: Sum, xs: seq<int>, ys: seq<int>)
    ensures Value(UpdateAll(UpdateAll(s, xs), ys)) == Value(UpdateAll(s, xs + ys))
  {
    hide UpdateAll, Update, Total, Value;
    UpdateAllValue(s, xs);
    UpdateAllValue(UpdateAll(s, xs), ys);
    UpdateAllValue(s, xs + ys);
    TotalAppend(xs, ys);
    ModAdd(Value(s) + Total(xs), Total(ys));
  }

  /** The order of two runs of updates does not matter either. */
  lemma OrderIrrelevant(s: Sum, xs: seq<int>, ys: seq<int>)
    ensures Value(UpdateAll(s, xs + ys)) == Value(UpdateAll(s, ys + xs))
  {
    UpdateAllValue(s, xs + ys);
    UpdateAllValue(s, ys + xs);
    TotalAppend(xs, ys);
    TotalAppend(ys, xs);
  }

  /** A fresh sum over a header reports the header's byte total mod 256. */
  lemma InitialValue(xs: seq<int>)
    ensures Value(UpdateAll(Initial, xs)) == Total(xs) % 256
  {
    UpdateAllValue(Initial, xs);
  }
}
