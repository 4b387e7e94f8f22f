/** Two's-complement machine integers as the C VM (`int64_t`, `int`, `int8_t`, `uint8_t`) and the
    Go VM (`int64`, `int8`, `uint8`) use them. Every value is represented by its mathematical
    integer; wrap-around, truncating division and the bit operations the sources apply are written
    out arithmetically. */
module Int64 {

  const TWO31: int := 0x8000_0000
  const TWO32: int := 0x1_0000_0000
  const TWO63: int := 0x8000_0000_0000_0000
  const TWO64: int := 0x1_0000_0000_0000_0000

  /** Values of `int64_t` / Go `int64`. */
  type i64 = x: int | -0x8000_0000_0000_0000 <= x < 0x8000_0000_0000_0000

  /** Values of `uint64_t` / Go `uint64`. */
  type u64 = x: int | 0 <= x < 0x1_0000_0000_0000_0000

  /** Values of `uint8_t` / Go `byte`. */
  type Byte = x: int | 0 <= x < 0x100

  predicate InI64(x: int) { -TWO63 <= x < TWO63 }

  /** The result of a wrapping 64-bit operation whose exact result is `x`. */
  function Wrap(x: int): (r: i64)
    ensures (x - r) % TWO64 == 0
    ensures InI64(x) ==> r == x
  {
    (x + TWO63) % TWO64 - TWO63
  }

  /** `(uint64_t)x`: the same 64 bits read as unsigned. */
  function Unsigned(x: i64): (u: u64)
    ensures (u - x) % TWO64 == 0
    ensures x >= 0 <==> u < TWO63
  {
    if x < 0 then x + TWO64 else x
  }

  /** `(int64_t)u`: the same 64 bits read as signed. */
  function Signed(u: u64): (x: i64)
    ensures Unsigned(x) == u
    ensures x < 0 <==> u >= TWO63
  {
    if u < TWO63 then u else u - TWO64
  }

  function Abs(x: int): nat { if x < 0 then -x else x }

  /** Quotient of C's and Go's integer division, which rounds toward zero. */
  function TDiv(a: int, b: int): int
    requires b != 0
  {
    if a >= 0 && b > 0 then a / b
    else if a >= 0 then -(a / -b)
    else if b > 0 then -(-a / b)
    else -a / -b
  }

  /** Remainder of C's and Go's integer division. Together with `TDiv` it splits the dividend,
      it is smaller than the divisor in magnitude, and it carries the sign of the dividend. */
  function TRem(a: int, b: int): (r: int)
    requires b != 0
    ensures a == b * TDiv(a, b) + r
    ensures Abs(r) < Abs(b)
    ensures r != 0 ==> (r < 0 <==> a < 0)
  {
    if a >= 0 && b > 0 then a % b
    else if a >= 0 then a % -b
    else if b > 0 then -(-a % b)
    else -(-a % -b)
  }

  /** Truncating division of two 64-bit values stays in 64 bits, except `INT64_MIN / -1`. */
  lemma TDivInRange(a: i64, b: i64)
    requires b != 0
    requires !(a == -TWO63 && b == -1)
    ensures InI64(TDiv(a, b))
  {
    var x: int, y: int := a, b;
    if x < 0 && y < 0 {
      if y == -1 {
        assert TDiv(x, y) == -x;
      } else {
        DivShrinks(-x, -y);
      }
    } else if x >= 0 && y > 0 {
      DivShrinks(x, y);
    } else if x >= 0 {
      DivShrinks(x, -y);
    } else {
      DivShrinks(-x, y);
    }
  }

  lemma DivShrinks(n: nat, d: nat)
    requires d >= 1
    ensures n / d <= n
    ensures d >= 2 ==> n / d <= n / 2
  {
    var q, m := n / d, n % d;
    assert n == d * q + m && 0 <= m;
    var e: nat := d - 1;
    assert d * q == q + e * q;
    if d >= 2 {
      var f: nat := d - 2;
      assert d * q == 2 * q + f * q;
    }
  }

  /** The C conversion `(int)x` of a 64-bit value on the 32-bit-`int` targets the C VM is built
      for: the low 32 bits read as signed. */
  function Trunc32(x: int): (r: int)
    ensures -TWO31 <= r < TWO31
    ensures (x - r) % TWO32 == 0
    ensures -TWO31 <= x < TWO31 ==> r == x
  {
    (x + TWO31) % TWO32 - TWO31
  }

  /** `x & 0xFF` of a two's-complement value: its low byte, as an unsigned number. */
  function LowByte(x: int): (b: Byte)
    ensures (x - b) % 256 == 0
  {
    x % 256
  }

  /** `(int8_t)b` / Go `int8(b)`: a byte read as a signed 8-bit value. */
  function Int8(b: Byte): (r: int)
    ensures -128 <= r < 128
    ensures LowByte(r) == b
  {
    if b < 128 then b else b - 256
  }

  /** `x >> 8` of a two's-complement value (arithmetic shift: rounds toward minus infinity). */
  function High(x: int): int
  {
    x / 256
  }

  lemma SplitHighLow(x: int)
    ensures x == 256 * High(x) + LowByte(x)
  {}

  function Pow2(k: nat): (r: nat)
    ensures r >= 1
  {
    if k == 0 then 1 else 2 * Pow2(k - 1)
  }

  /** `u >> k` on an unsigned value: `k` halvings, each dropping the low bit. */
  function HalveU(u: nat, k: nat): (r: nat)
    ensures r <= u
    ensures k >= 1 ==> r <= u / 2
  {
    if k == 0 then u else HalveU(u / 2, k - 1)
  }

  /** `x >> k` on a signed value: `k` halvings, each rounding toward minus infinity, so the sign
      bit fills the vacated positions. */
  function HalveS(x: int, k: nat): (r: int)
    ensures r < 0 <==> x < 0
    ensures x >= 0 ==> r <= x
    ensures x < 0 ==> r >= x
    decreases k
  {
    if k == 0 then x else HalveS(x / 2, k - 1)
  }

  lemma DivUnique(x: int, d: int, q: int, r: int)
    requires d > 0 && 0 <= r < d && x == d * q + r
    ensures x / d == q && x % d == r
  {
    var q', r' := x / d, x % d;
    var e := q' - q;
    assert d * e == d * q' - d * q;
    assert d * e == r - r';
    if e >= 1 {
      MulAtLeast(d, e);
    } else if e <= -1 {
      MulAtLeast(d, -e);
    }
  }

  lemma MulAtLeast(d: int, e: int)
    requires d > 0 && e >= 1
    ensures d * e >= d
  {
    var f: nat := e - 1;
    assert d * e == d + d * f;
  }

  /** Dividing by `a` and then by `b` divides by `a * b` (rounding toward minus infinity). */
  lemma DivDiv(x: int, a: int, b: int)
    requires a > 0 && b > 0
    ensures (x / a) / b == x / (a * b)
  {
    var q1, r1 := x / a, x % a;
    var q2, r2 := q1 / b, q1 % b;
    assert x == a * q1 + r1;
    assert q1 == b * q2 + r2;
    assert a * q1 == (a * b) * q2 + a * r2;
    MulLe(a, r2, b - 1);
    assert a * (b - 1) == a * b - a;
    DivUnique(x, a * b, q2, a * r2 + r1);
  }

  lemma MulLe(a: nat, x: int, y: int)
    requires x <= y
    ensures a * x <= a * y
  {
    var d: nat := y - x;
    assert a * y == a * x + a * d;
  }

  /** `k` halvings of a signed value divide it by 2^k, rounding toward minus infinity. */
  lemma {:induction false} HalveSIsDiv(x: int, k: nat)
    ensures HalveS(x, k) == x / Pow2(k)
    decreases k
  {
    if k > 0 {
      HalveSIsDiv(x / 2, k - 1);
      DivDiv(x, 2, Pow2(k - 1));
    }
  }

  /** `k` halvings of an unsigned value divide it by 2^k. */
  lemma {:induction false} HalveUIsDiv(u: nat, k: nat)
    ensures HalveU(u, k) == u / Pow2(k)
    decreases k
  {
    if k > 0 {
      HalveUIsDiv(u / 2, k - 1);
      DivDiv(u, 2, Pow2(k - 1));
    }
  }

  /** `x << k` on a 64-bit signed value: the exact product by 2^k wrapped to 64 bits
      (a shift by 64 or more leaves nothing, as Go defines it). */
  function Shl(x: i64, k: nat): (r: i64)
  {
    if k >= 64 then 0 else Wrap(x * Pow2(k))
  }

  /** `(int64_t)((uint64_t)x >> k)`: logical right shift, filling with zeros. */
  function Lsr(x: i64, k: nat): (r: i64)
    ensures k >= 1 ==> 0 <= r
    ensures k == 0 ==> r == x
  {
    if k >= 64 then 0 else Signed(HalveU(Unsigned(x), k))
  }

  /** Go's `x >> k` on a signed value: arithmetic right shift, filling with the sign bit. */
  function Asr(x: i64, k: nat): (r: i64)
    ensures r < 0 <==> x < 0
    ensures k == 0 ==> r == x
  {
    if k >= 64 then (if x < 0 then -1 else 0) else HalveS(x, k)
  }

  /** The logical right shift divides the unsigned view by 2^k. */
  lemma LsrIsDiv(x: i64, k: nat)
    requires k < 64
    ensures Unsigned(Lsr(x, k)) == Unsigned(x) / Pow2(k)
  {
    HalveUIsDiv(Unsigned(x), k);
  }

  /** The arithmetic right shift divides by 2^k, rounding toward minus infinity. */
  lemma AsrIsDiv(x: i64, k: nat)
    requires k < 64
    ensures Asr(x, k) == x / Pow2(k)
  {
    HalveSIsDiv(x, k);
  }

  /** The bitwise and of two bit patterns, built from the lowest bit up. */
  function AndBits(x: nat, y: nat): (r: nat)
    ensures r <= x && r <= y
    decreases x
  {
    if x == 0 || y == 0 then 0 else (x % 2) * (y % 2) + 2 * AndBits(x / 2, y / 2)
  }

  /** `x & y` on 64-bit signed values: the and of their two's complement bit patterns. A
      non-negative operand bounds the result. */
  function And(x: i64, y: i64): (r: i64)
    ensures 0 <= y ==> 0 <= r <= y
    ensures 0 <= x ==> 0 <= r <= x
  {
    Signed(AndBits(Unsigned(x), Unsigned(y)))
  }

  lemma {:induction false} AndBitsCommute(x: nat, y: nat)
    ensures AndBits(x, y) == AndBits(y, x)
    decreases x
  {
    if x != 0 && y != 0 {
      AndBitsCommute(x / 2, y / 2);
    }
  }

  /** Splitting off the low bit: `x % 2m` is the low bit plus twice `(x / 2) % m`. */
  lemma LowBitSplit(x: nat, m: nat)
    requires m >= 1
    ensures x % (2 * m) == x % 2 + 2 * ((x / 2) % m)
  {
    var q, r := (x / 2) / m, (x / 2) % m;
    assert x / 2 == m * q + r;
    assert x == 2 * (x / 2) + x % 2;
    assert 2 * (m * q) == (2 * m) * q;
    DivUnique(x, 2 * m, q, x % 2 + 2 * r);
  }

  /** An odd mask keeps the low bit of `x` and masks the rest with its upper bits. */
  lemma AndBitsOdd(x: nat, y: nat)
    requires x != 0 && y % 2 == 1
    ensures AndBits(x, y) == x % 2 + 2 * AndBits(x / 2, y / 2)
  {
    assert (x % 2) * (y % 2) == x % 2;
  }

  /** And with `k` one bits keeps the `k` low bits. */
  lemma {:induction false} AndBitsMask(x: nat, k: nat)
    ensures AndBits(x, Pow2(k) - 1) == x % Pow2(k)
    decreases k
  {
    if k > 0 && x != 0 {
      var m := Pow2(k - 1);
      var y := 2 * m - 1;
      assert Pow2(k) - 1 == y;
      assert y % 2 == 1 && y / 2 == m - 1 by { DivUnique(y, 2, m - 1, 1); }
      var low := AndBits(x / 2, m - 1);
      assert AndBits(x, y) == x % 2 + 2 * low by { AndBitsOdd(x, y); }
      assert low == (x / 2) % m by { AndBitsMask(x / 2, k - 1); }
      assert x % Pow2(k) == x % 2 + 2 * ((x / 2) % m) by { LowBitSplit(x, m); }
      assert AndBits(x, Pow2(k) - 1) == AndBits(x, y);
    } else if k == 0 {
      DivUnique(x, 1, x, 0);
    } else {
      DivUnique(0, Pow2(k), 0, 0);
    }
  }

  /** `&` commutes. */
  lemma AndCommutes(x: i64, y: i64)
    ensures And(x, y) == And(y, x)
  {
    AndBitsCommute(Unsigned(x), Unsigned(y));
  }

  /** `x & (2^k - 1)` keeps the `k` low bits of `x`'s bit pattern. */
  lemma AndMask(x: i64, k: nat)
    requires Pow2(k) <= TWO63
    ensures And(x, Pow2(k) - 1) == Unsigned(x) % Pow2(k)
  {
    AndBitsMask(Unsigned(x), k);
  }

  /** `x & 0xFF` is the low byte. */
  lemma AndLowByte(x: i64)
    ensures And(x, 0xFF) == LowByte(x)
  {
    assert Pow2(2) == 4;
    assert Pow2(4) == 16;
    assert Pow2(6) == 64;
    assert Pow2(8) == 256;
    AndMask(x, 8);
    if x < 0 {
      DivUnique(Unsigned(x), 256, x / 256 + TWO64 / 256, x % 256);
    }
  }

}

/** The byte view of words that the C VM obtains with a `uint8_t *` cast and the Go VM with
    `unsafe.Slice`: each 64-bit word is eight bytes, least significant byte first (both VMs run on
    little-endian hosts, and the program file is little-endian). */
module Bytes {
  import opened Int64

  /** The `n` low bytes of the number `u`, least significant first. */
  function BytesOf(u: nat, n: nat): (bs: seq<Byte>)
    ensures |bs| == n
  {
    if n == 0 then [] else [u % 256] + BytesOf(u / 256, n - 1)
  }

  /** The number whose little-endian bytes are `bs`. */
  function Pack(bs: seq<Byte>): nat
  {
    if |bs| == 0 then 0 else bs[0] + 256 * Pack(bs[1..])
  }

  function Pow256(n: nat): (r: nat)
    ensures r >= 1
  {
    if n == 0 then 1 else 256 * Pow256(n - 1)
  }

  lemma Pow256Eight()
    ensures Pow256(8) == TWO64
  {
    assert Pow256(2) == 0x1_0000;
    assert Pow256(4) == 0x1_0000_0000 by { assert Pow256(4) == 256 * 256 * Pow256(2); }
    assert Pow256(6) == 0x1_0000_0000_0000 by { assert Pow256(6) == 256 * 256 * Pow256(4); }
    assert Pow256(8) == 256 * 256 * Pow256(6);
  }

  lemma {:induction false} PackBound(bs: seq<Byte>)
    ensures Pack(bs) < Pow256(|bs|)
  {
    if |bs| > 0 {
      PackBound(bs[1..]);
    }
  }

  lemma {:induction false} BytesOfPack(bs: seq<Byte>)
    ensures BytesOf(Pack(bs), |bs|) == bs
  {
    if |bs| > 0 {
      var p := Pack(bs);
      assert p % 256 == bs[0];
      assert p / 256 == Pack(bs[1..]);
      BytesOfPack(bs[1..]);
    }
  }

  lemma {:induction false} PackBytesOf(u: nat, n: nat)
    requires u < Pow256(n)
    ensures Pack(BytesOf(u, n)) == u
  {
    if n > 0 {
      PackBytesOf(u / 256, n - 1);
      assert BytesOf(u, n)[1..] == BytesOf(u / 256, n - 1);
    }
  }

  /** The eight bytes of a word in memory order. */
  function WordBytes(w: i64): (bs: seq<Byte>)
    ensures |bs| == 8
  {
    BytesOf(Unsigned(w), 8)
  }

  /** The word stored as the eight bytes `bs` in memory order. */
  function WordOf(bs: seq<Byte>): i64
    requires |bs| == 8
  {
    PackBound(bs);
    Pow256Eight();
    Signed(Pack(bs))
  }

  lemma WordBytesOf(bs: seq<Byte>)
    requires |bs| == 8
    ensures WordBytes(WordOf(bs)) == bs
  {
    PackBound(bs);
    Pow256Eight();
    BytesOfPack(bs);
  }

  lemma WordOfBytes(w: i64)
    ensures WordOf(WordBytes(w)) == w
  {
    Pow256Eight();
    PackBytesOf(Unsigned(w), 8);
  }

  /** `(old & ~(0xFF << 8*j)) | (b << 8*j)`: the word with byte `j` replaced by `b`. */
  function SetByte(w: i64, j: nat, b: Byte): (r: i64)
    requires j < 8
    ensures WordBytes(r) == WordBytes(w)[j := b]
  {
    WordBytesOf(WordBytes(w)[j := b]);
    WordOf(WordBytes(w)[j := b])
  }

  /** All bytes of a word array, in memory order. */
  function MemBytes(mem: seq<i64>): (bs: seq<Byte>)
    ensures |bs| == 8 * |mem|
  {
    if |mem| == 0 then [] else WordBytes(mem[0]) + MemBytes(mem[1..])
  }

  /** The words whose memory bytes are `bs`: the little-endian decoding of a byte stream. */
  function WordsOf(bs: seq<Byte>): (ws: seq<i64>)
    requires |bs| % 8 == 0
    ensures |ws| == |bs| / 8
  {
    if |bs| == 0 then [] else [WordOf(bs[..8])] + WordsOf(bs[8..])
  }

  lemma {:induction false} MemBytesOfWords(bs: seq<Byte>)
    requires |bs| % 8 == 0
    ensures MemBytes(WordsOf(bs)) == bs
  {
    if |bs| > 0 {
      var ws := WordsOf(bs);
      assert ws[1..] == WordsOf(bs[8..]);
      MemBytesOfWords(bs[8..]);
      WordBytesOf(bs[..8]);
      assert bs == bs[..8] + bs[8..];
    }
  }

  lemma {:induction false} WordsOfMemBytes(mem: seq<i64>)
    ensures WordsOf(MemBytes(mem)) == mem
  {
    if |mem| > 0 {
      var bs := MemBytes(mem);
      assert bs[..8] == WordBytes(mem[0]);
      assert bs[8..] == MemBytes(mem[1..]);
      WordOfBytes(mem[0]);
      WordsOfMemBytes(mem[1..]);
      assert mem == [mem[0]] + mem[1..];
    }
  }

  lemma {:induction false} MemBytesAppend(a: seq<i64>, b: seq<i64>)
    ensures MemBytes(a + b) == MemBytes(a) + MemBytes(b)
  {
    if |a| > 0 {
      assert (a + b)[1..] == a[1..] + b;
      MemBytesAppend(a[1..], b);
    } else {
      assert a + b == b;
    }
  }

  /** Byte `k` of a word array is byte `k % 8` of word `k / 8`. */
  lemma {:induction false} MemBytesIndex(mem: seq<i64>, k: int)
    requires 0 <= k < 8 * |mem|
    ensures MemBytes(mem)[k] == WordBytes(mem[k / 8])[k % 8]
  {
    if k >= 8 {
      MemBytesIndex(mem[1..], k - 8);
      assert (k - 8) / 8 == k / 8 - 1;
    }
  }

  /** The eight bytes of word `i`. */
  lemma {:induction false} MemBytesWord(mem: seq<i64>, i: int)
    requires 0 <= i < |mem|
    ensures MemBytes(mem)[8 * i .. 8 * i + 8] == WordBytes(mem[i])
  {
    var bs := MemBytes(mem);
    assert bs == WordBytes(mem[0]) + MemBytes(mem[1..]);
    if i > 0 {
      MemBytesWord(mem[1..], i - 1);
      assert bs[8 * i .. 8 * i + 8] == MemBytes(mem[1..])[8 * (i - 1) .. 8 * (i - 1) + 8];
    }
  }

  lemma MemBytesSingle(w: i64)
    ensures MemBytes([w]) == WordBytes(w)
  {
    assert MemBytes([w]) == WordBytes(w) + MemBytes([]);
  }
}
