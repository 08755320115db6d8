/** Shifts and the bit-level view of the input byte stream.

    The decoders read their input most-significant bit first. Before the first
    refill the 16-bit window is all zero, so the model treats the stream as two
    zero bytes followed by the data; a byte past the end of the data reads as 0
    (the source maps an end-of-input result of `Read()` to 0).

    Shifts are defined one bit at a time (`Shl`, `Shr`, `LowBits`), so every
    fact about them is proved with linear arithmetic only. */
module BitStream {

  type byte = x: int | 0 <= x < 256

  /** `1 << n`. */
  function Pow2(n: nat): (r: nat)
    ensures r >= 1
  {
    if n == 0 then 1 else 2 * Pow2(n - 1)
  }

  /** `x << n` on unbounded integers. */
  function Shl(x: int, n: nat): int
  {
    if n == 0 then x else 2 * Shl(x, n - 1)
  }

  /** `x >> n`, rounding towards minus infinity. */
  function Shr(x: int, n: nat): int
    decreases n
  {
    if n == 0 then x else Shr(x / 2, n - 1)
  }

  /** `x & ((1 << n) - 1)`: the low `n` bits of `x`. */
  function LowBits(x: int, n: nat): int
    decreases n
  {
    if n == 0 then 0 else 2 * LowBits(x / 2, n - 1) + x % 2
  }

  lemma ShiftByZero(x: int)
    ensures Shl(x, 0) == x && Shr(x, 0) == x
  {
  }

  lemma {:induction false} Pow2Add(a: nat, b: nat)
    ensures Pow2(a + b) == Shl(Pow2(a), b)
    decreases b
  {
    if b > 0 {
      Pow2Add(a, b - 1);
    }
  }

  lemma {:induction false} Pow2Monotone(a: nat, b: nat)
    requires a <= b
    ensures Pow2(a) <= Pow2(b)
    decreases b - a
  {
    if a < b {
      Pow2Monotone(a, b - 1);
    }
  }

  /** The widths the decoders work with. */
  lemma Pow2Values()
    ensures Pow2(0) == 1 && Pow2(1) == 2 && Pow2(2) == 4 && Pow2(4) == 16
    ensures Pow2(6) == 64 && Pow2(8) == 0x100 && Pow2(12) == 0x1000 && Pow2(16) == 0x10000
  {
    assert Pow2(4) == 16;
    assert Pow2(8) == 16 * Pow2(4);
    assert Pow2(12) == 16 * Pow2(8);
    assert Pow2(16) == 16 * Pow2(12);
  }

  lemma {:induction false} ShlNonNegative(x: int, n: nat)
    requires x >= 0
    ensures Shl(x, n) >= x
    decreases n
  {
    if n > 0 {
      ShlNonNegative(x, n - 1);
    }
  }

  lemma {:induction false} ShlZero(n: nat)
    ensures Shl(0, n) == 0
    decreases n
  {
    if n > 0 {
      ShlZero(n - 1);
    }
  }

  lemma {:induction false} ShlAdd(x: int, a: nat, b: nat)
    ensures Shl(Shl(x, a), b) == Shl(x, a + b)
    decreases b
  {
    if b > 0 {
      ShlAdd(x, a, b - 1);
    }
  }

  lemma {:induction false} ShlDistributes(x: int, y: int, n: nat)
    ensures Shl(x + y, n) == Shl(x, n) + Shl(y, n)
    decreases n
  {
    if n > 0 {
      ShlDistributes(x, y, n - 1);
    }
  }

  lemma {:induction false} ShlOfPow2(n: nat)
    ensures Shl(1, n) == Pow2(n)
    decreases n
  {
    if n > 0 {
      ShlOfPow2(n - 1);
    }
  }

  /** A value below `2^a`, shifted left by `b`, stays below `2^(a+b)`. */
  lemma {:induction false} ShlBound(y: int, a: nat, b: nat)
    requires 0 <= y < Pow2(a)
    ensures 0 <= Shl(y, b) < Pow2(a + b)
    decreases b
  {
    if b > 0 {
      ShlBound(y, a, b - 1);
    }
  }

  /** Shifting `x << b | y` right by `b` drops `y`. */
  lemma {:induction false} ShrConcat(x: int, y: int, b: nat)
    requires 0 <= y < Pow2(b)
    ensures Shr(Shl(x, b) + y, b) == x
    decreases b
  {
    if b > 0 {
      assert (Shl(x, b) + y) / 2 == Shl(x, b - 1) + y / 2;
      ShrConcat(x, y / 2, b - 1);
    }
  }

  /** The low `b` bits of `x << b | y` are `y`. */
  lemma {:induction false} LowConcat(x: int, y: int, b: nat)
    requires 0 <= y < Pow2(b)
    ensures LowBits(Shl(x, b) + y, b) == y
    decreases b
  {
    if b > 0 {
      assert (Shl(x, b) + y) / 2 == Shl(x, b - 1) + y / 2;
      LowConcat(x, y / 2, b - 1);
    }
  }

  lemma {:induction false} LowBitsBound(x: int, n: nat)
    ensures 0 <= LowBits(x, n) < Pow2(n)
    decreases n
  {
    if n > 0 {
      LowBitsBound(x / 2, n - 1);
    }
  }

  /** Shifting left by `c` and then right by `c + d` is shifting right by `d`. */
  lemma {:induction false} ShrShl(x: int, c: nat, d: nat)
    ensures Shr(Shl(x, c), c + d) == Shr(x, d)
    decreases c
  {
    if c > 0 {
      assert Shl(x, c) / 2 == Shl(x, c - 1);
      ShrShl(x, c - 1, d);
    }
  }

  /** One more right shift halves the result. */
  lemma {:induction false} ShrSucc(x: int, n: nat)
    ensures Shr(x, n + 1) == Shr(x, n) / 2
    decreases n
  {
    if n > 0 {
      ShrSucc(x / 2, n - 1);
    }
  }

  /** Dropping the low `a` of `a + b` bits leaves a `b`-bit value. */
  lemma {:induction false} ShrRange(x: int, a: nat, b: nat)
    requires 0 <= x < Pow2(a + b)
    ensures 0 <= Shr(x, a) < Pow2(b)
    decreases a
  {
    if a > 0 {
      ShrRange(x / 2, a - 1, b);
    }
  }

  lemma {:induction false} ShrBound(x: int, n: nat)
    requires 0 <= x < Pow2(n)
    ensures Shr(x, n) == 0
    decreases n
  {
    if n > 0 {
      ShrBound(x / 2, n - 1);
    }
  }

  /** `x & ((1 << n) - 1)` is `x` modulo `2^n`, also for negative `x`
      (two's complement). */
  lemma {:induction false} LowBitsMod(x: int, n: nat)
    ensures LowBits(x, n) == x % Pow2(n)
    decreases n
  {
    if n > 0 {
      LowBitsMod(x / 2, n - 1);
      DivModHalf(x, Pow2(n - 1));
    }
  }

  /** Taking the low bit off and reducing the rest modulo `p` reduces `x`
      modulo `2p`. */
  lemma DivModHalf(x: int, p: int)
    requires p >= 1
    ensures 2 * ((x / 2) % p) + x % 2 == x % (2 * p)
  {
    var q := (x / 2) / p;
    var r := (x / 2) % p;
    var m := 2 * p;
    var r' := 2 * r + x % 2;
    assert x / 2 == p * q + r;
    assert x == m * q + r' by {
      assert x == 2 * (x / 2) + x % 2;
    }
    ModUnique(x, m, q, r');
  }

  /** Division with remainder has only one answer. */
  lemma ModUnique(x: int, m: int, q: int, r: int)
    requires m >= 1 && 0 <= r < m && x == m * q + r
    ensures x % m == r
  {
    var q' := x / m;
    var r' := x % m;
    assert x == m * q' + r';
    SameRemainder(m, q, r, q', r');
  }

  lemma SameRemainder(m: int, q: int, r: int, q': int, r': int)
    requires m >= 1 && 0 <= r < m && 0 <= r' < m && m * q + r == m * q' + r'
    ensures r == r'
  {
    if q < q' {
      MulStep(m, q, q');
    } else if q' < q {
      MulStep(m, q', q);
    }
  }

  /** Division with remainder has only one answer, quotient included. */
  lemma DivModOf(x: int, m: int, q: int, r: int)
    requires m >= 1 && 0 <= r < m && x == m * q + r
    ensures x / m == q && x % m == r
  {
    ModUnique(x, m, q, r);
    var q' := x / m;
    assert x == m * q' + r;
    if q < q' {
      MulStep(m, q, q');
    } else if q' < q {
      MulStep(m, q', q);
    }
  }

  /** A larger multiplier adds at least one more `m`. */
  lemma {:induction false} MulStep(m: int, a: int, b: int)
    requires m >= 1 && a < b
    ensures m * b >= m * a + m
    decreases b - a
  {
    if a + 1 < b {
      MulStep(m, a, b - 1);
      MulSucc(m, b - 1);
    } else {
      MulSucc(m, a);
    }
  }

  lemma ModShift(x: int, q: int, n: int)
    requires n >= 1
    ensures (x + n * q) % n == x % n
  {
    assert x + n * q == n * (q + x / n) + x % n;
    ModUnique(x + n * q, n, q + x / n, x % n);
  }

  /** Subtracting residues is subtracting the numbers, modulo `n`. */
  lemma ModDiff(a: int, b: int, c: int, n: int)
    requires n >= 1
    ensures (a % n - b % n + c) % n == (a - b + c) % n
  {
    assert a % n - b % n + c == (a - b + c) + n * (b / n - a / n);
    ModShift(a - b + c, b / n - a / n, n);
  }

  lemma MulSucc(m: int, a: int)
    ensures m * (a + 1) == m * a + m
  {
  }

  // ---------------------------------------------------------------------------
  // The stream

  /** Byte `j` of the stream as the bit reader sees it: two leading zero bytes,
      then the data, then zeros forever. */
  function StreamByte(data: seq<byte>, j: nat): byte
  {
    if j < 2 then 0 else if j - 2 < |data| then data[j - 2] else 0
  }

  /** Bit `j` of `x`, counted from the least significant: `(x >> j) & 1`. */
  function ByteBit(x: int, j: nat): (b: int)
    ensures 0 <= b <= 1
    decreases j
  {
    if j == 0 then x % 2 else ByteBit(x / 2, j - 1)
  }

  lemma {:induction false} ByteBitIsShr(x: int, j: nat)
    ensures ByteBit(x, j) == Shr(x, j) % 2
    decreases j
  {
    if j > 0 {
      ByteBitIsShr(x / 2, j - 1);
    }
  }

  /** Bit `i` of the stream, most significant bit of each byte first. */
  function StreamBit(data: seq<byte>, i: nat): (b: int)
  {
    ByteBit(StreamByte(data, i / 8), 7 - i % 8)
  }

  /** The `n` stream bits starting at bit `k`, read as an unsigned number. */
  function Bits(data: seq<byte>, k: nat, n: nat): int
    decreases n
  {
    if n == 0 then 0 else 2 * Bits(data, k, n - 1) + StreamBit(data, k + n - 1)
  }

  lemma {:induction false} BitsBound(data: seq<byte>, k: nat, n: nat)
    ensures 0 <= Bits(data, k, n) < Pow2(n)
    decreases n
  {
    if n > 0 {
      BitsBound(data, k, n - 1);
    }
  }

  /** Reading `a + b` bits is reading `a` bits, then `b` more. */
  lemma {:induction false} BitsConcat(data: seq<byte>, k: nat, a: nat, b: nat)
    ensures Bits(data, k, a + b) == Shl(Bits(data, k, a), b) + Bits(data, k + a, b)
    decreases b
  {
    hide StreamBit, Pow2, LowBits, Shr;
    if b > 0 {
      BitsConcat(data, k, a, b - 1);
      assert Bits(data, k, a + b) == 2 * Bits(data, k, a + b - 1) + StreamBit(data, k + a + b - 1);
      assert Bits(data, k + a, b) == 2 * Bits(data, k + a, b - 1) + StreamBit(data, k + a + b - 1);
      assert Shl(Bits(data, k, a), b) == 2 * Shl(Bits(data, k, a), b - 1);
    }
  }

  /** The top `b` of `a` bits. */
  lemma BitsPrefix(data: seq<byte>, k: nat, a: nat, b: nat)
    requires b <= a
    ensures Shr(Bits(data, k, a), a - b) == Bits(data, k, b)
  {
    BitsConcat(data, k, b, a - b);
    BitsBound(data, k + b, a - b);
    ShrConcat(Bits(data, k, b), Bits(data, k + b, a - b), a - b);
  }

  /** The low `b` of `a` bits. */
  lemma BitsSuffix(data: seq<byte>, k: nat, a: nat, b: nat)
    requires b <= a
    ensures LowBits(Bits(data, k, a), b) == Bits(data, k + a - b, b)
  {
    hide Bits, Shl, LowBits, Pow2;
    BitsConcat(data, k, a - b, b);
    BitsBound(data, k + a - b, b);
    LowConcat(Bits(data, k, a - b), Bits(data, k + a - b, b), b);
  }

  /** The first `m` bits of stream byte `j` are that byte shifted right by `8 - m`. */
  lemma {:induction false} BitsOfByte(data: seq<byte>, j: nat, m: nat)
    requires m <= 8
    ensures Bits(data, 8 * j, m) == Shr(StreamByte(data, j), 8 - m)
    decreases m
  {
    var x := StreamByte(data, j);
    if m == 0 {
      Pow2Values();
      ShrBound(x, 8);
    } else {
      BitsOfByte(data, j, m - 1);
      var i := 8 * j + m - 1;
      assert i / 8 == j && i % 8 == m - 1;
      ByteBitIsShr(x, 8 - m);
      ShrSucc(x, 8 - m);
    }
  }

  lemma BitsWholeByte(data: seq<byte>, j: nat)
    ensures Bits(data, 8 * j, 8) == StreamByte(data, j)
  {
    BitsOfByte(data, j, 8);
  }

  /** The two leading zero bytes read as zero bits. */
  lemma {:induction false} BitsOfPrefix(data: seq<byte>, n: nat)
    requires n <= 16
    ensures Bits(data, 0, n) == 0
    decreases n
  {
    if n > 0 {
      BitsOfPrefix(data, n - 1);
      var i := n - 1;
      assert i / 8 < 2;
      ByteBitIsShr(0, 7 - i % 8);
      ShrZero(7 - i % 8);
    }
  }

  lemma {:induction false} ShrZero(n: nat)
    ensures Shr(0, n) == 0
    decreases n
  {
    if n > 0 {
      ShrZero(n - 1);
    }
  }

  /** A single bit taken out of a window of `a` bits. */
  lemma BitOfWindow(data: seq<byte>, k: nat, a: nat, i: nat)
    requires i < a
    ensures Shr(Bits(data, k, a), a - 1 - i) % 2 == StreamBit(data, k + i)
  {
    hide Shr, Shl, StreamBit, Pow2;
    BitsPrefix(data, k, a, i + 1);
    StreamBitIsBit(data, k + i);
  }

  lemma StreamBitIsBit(data: seq<byte>, i: nat)
    ensures 0 <= StreamBit(data, i) <= 1
  {
    ByteBitIsShr(StreamByte(data, i / 8), 7 - i % 8);
  }
}
