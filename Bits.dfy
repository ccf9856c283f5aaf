/** Integer arithmetic behind the instruction format: powers of two,
    shift-and-mask fields, little-endian byte order and Python's `|` on
    (unbounded, two's complement) ints. */
module Bits {

  type Byte = b: int | 0 <= b < 256

  function Pow2(n: nat): (p: nat)
    ensures p >= 1
  {
    if n == 0 then 1 else 2 * Pow2(n - 1)
  }

  lemma {:induction false} Pow2Add(a: nat, b: nat)
    ensures Pow2(a + b) == Pow2(a) * Pow2(b)
  {
    if a > 0 {
      Pow2Add(a - 1, b);
    }
  }

  /** The powers of two the instruction format uses. */
  lemma Pow2Table()
    ensures Pow2(3) == 8 && Pow2(7) == 0x80 && Pow2(8) == 0x100 && Pow2(10) == 0x400
    ensures Pow2(14) == 0x4000 && Pow2(17) == 0x2_0000 && Pow2(24) == 0x100_0000
    ensures Pow2(25) == 0x200_0000 && Pow2(27) == 0x800_0000
    ensures Pow2(32) == 0x1_0000_0000 && Pow2(40) == 0x100_0000_0000
  {
    Pow2Add(3, 4);
    Pow2Add(7, 1);
    Pow2Add(7, 3);
    Pow2Add(7, 7);
    Pow2Add(7, 10);
    Pow2Add(7, 17);
    Pow2Add(10, 14);
    Pow2Add(10, 17);
    Pow2Add(7, 25);
    Pow2Add(8, 24);
    Pow2Add(8, 32);
  }

  /** Euclidean division is determined by any quotient and remainder pair. */
  lemma DivModUnique(x: int, d: int, q: int, r: int)
    requires d > 0 && 0 <= r < d && x == q * d + r
    ensures x / d == q && x % d == r
  {
    var q', r' := x / d, x % d;
    assert x == q' * d + r';
    assert (q - q') * d == r' - r;
    if q > q' {
      MulAtLeast(q - q', d);
    } else if q < q' {
      MulAtLeast(q' - q, d);
    }
  }

  lemma {:induction false} MulAtLeast(k: nat, d: nat)
    requires k >= 1
    ensures k * d >= d
  {
    if k > 1 {
      MulAtLeast(k - 1, d);
      assert k * d == (k - 1) * d + d;
    }
  }

  /** Python's `(code >> offset) & ((1 << width) - 1)`; Dafny's `/` and `%`
      by a positive divisor round like Python's `>>` and `&` on any int. */
  function Field(code: int, offset: nat, width: nat): (v: nat)
    ensures v < Pow2(width)
  {
    (code / Pow2(offset)) % Pow2(width)
  }

  /** A value laid out as `low`, then `v` at `offset`, then `high` above the
      field reads back as `v`. */
  lemma FieldOfLayout(code: int, offset: nat, width: nat, low: int, v: int, high: int)
    requires 0 <= low < Pow2(offset)
    requires 0 <= v < Pow2(width)
    requires code == low + Pow2(offset) * (v + Pow2(width) * high)
    ensures Field(code, offset, width) == v
  {
    var p, w := Pow2(offset), Pow2(width);
    var q := v + w * high;
    assert code == low + p * q;
    assert p * q == q * p;
    DivModUnique(code, p, q, low);
    assert q == high * w + v;
    DivModUnique(q, w, high, v);
    assert code / p % w == v;
  }

  /** A digit below the base in front of a number below `p` stays below
      `base * p`. */
  lemma DigitBound(d: int, rest: int, base: nat, p: nat)
    requires 0 <= d < base && 0 <= rest < p
    ensures 0 <= d + base * rest < base * p
  {
    var gap := p - 1 - rest;
    assert base * p == base * rest + base * gap + base;
    assert base * gap >= 0;
  }

  /** Python's `int.from_bytes(bytes, "little")`: byte `i` has weight 256^i. */
  function FromLittleEndian(bytes: seq<Byte>): (n: nat)
    ensures n < Pow2(8 * |bytes|)
  {
    if bytes == [] then 0
    else
      var rest := FromLittleEndian(bytes[1..]);
      Pow2Add(8, 8 * (|bytes| - 1));
      assert Pow2(8) == 256;
      DigitBound(bytes[0], rest, 256, Pow2(8 * (|bytes| - 1)));
      bytes[0] + 256 * rest
  }

  /** The `count` low bytes of `n`, least significant first. */
  function ToLittleEndian(n: nat, count: nat): (bytes: seq<Byte>)
    ensures |bytes| == count
  {
    if count == 0 then [] else [n % 256] + ToLittleEndian(n / 256, count - 1)
  }

  /** Writing a value that fits in `count` bytes and reading it back is lossless. */
  lemma {:induction false} LittleEndianRoundTrip(n: nat, count: nat)
    requires n < Pow2(8 * count)
    ensures FromLittleEndian(ToLittleEndian(n, count)) == n
  {
    if count > 0 {
      Pow2Add(8, 8 * (count - 1));
      assert Pow2(8) == 256;
      LittleEndianRoundTrip(n / 256, count - 1);
      assert ToLittleEndian(n, count)[1..] == ToLittleEndian(n / 256, count - 1);
    }
  }

  /** Reading bytes as a little-endian value and writing it back gives the
      same bytes. */
  lemma {:induction false} LittleEndianBytesRoundTrip(bytes: seq<Byte>)
    ensures ToLittleEndian(FromLittleEndian(bytes), |bytes|) == bytes
  {
    if bytes != [] {
      var n := FromLittleEndian(bytes);
      DivModUnique(n, 256, FromLittleEndian(bytes[1..]), bytes[0]);
      LittleEndianBytesRoundTrip(bytes[1..]);
      assert bytes == [bytes[0]] + bytes[1..];
    }
  }

  /** The low three bits of a little-endian value are those of its first byte. */
  lemma LowBitsOfFirstByte(bytes: seq<Byte>)
    requires bytes != []
    ensures Field(FromLittleEndian(bytes), 0, 3) == bytes[0] % 8
  {
    var rest := FromLittleEndian(bytes[1..]);
    assert Pow2(3) == 8;
    DivModUnique(bytes[0], 8, bytes[0] / 8, bytes[0] % 8);
    DivModUnique(FromLittleEndian(bytes), 8, bytes[0] / 8 + 32 * rest, bytes[0] % 8);
  }

  /** Distance of `x` from the fixed points 0 and -1 of halving. */
  function Magnitude(x: int): nat {
    if x >= 0 then x else -x - 1
  }

  /** Python's `a | b` on ints of unbounded width: bit by bit from the least
      significant end, a negative int having infinitely many leading ones. */
  function BitOr(a: int, b: int): int
    decreases Magnitude(a) + Magnitude(b)
  {
    if (a == 0 || a == -1) && (b == 0 || b == -1) then
      if a == -1 || b == -1 then -1 else 0
    else
      2 * BitOr(a / 2, b / 2) + (if a % 2 == 1 || b % 2 == 1 then 1 else 0)
  }

  /** Bit `k` of `x` in two's complement. */
  predicate Bit(x: int, k: nat) {
    (x / Pow2(k)) % 2 == 1
  }

  lemma DivDiv(x: int, a: nat, b: nat)
    requires a > 0 && b > 0
    ensures x / a / b == x / (a * b)
  {
    var q := x / a / b;
    var r := (x / a) % b * a + x % a;
    assert x == (q * b + (x / a) % b) * a + x % a;
    assert x == q * (a * b) + r;
    assert (x / a) % b * a <= (b - 1) * a;
    DivModUnique(x, a * b, q, r);
  }

  /** The low three bits of `y`, read as a number below 8. */
  lemma LowThreeBits(y: int)
    ensures y % 8 == 4 * ((y / 4) % 2) + 2 * ((y / 2) % 2) + y % 2
  {
    var q, r := y / 8, y % 8;
    DivModUnique(y, 2, 4 * q + r / 2, r % 2);
    DivModUnique(y, 4, 2 * q + r / 4, r % 4);
    DivModUnique(y / 2, 2, 2 * q + r / 4, (r / 2) % 2);
    DivModUnique(y / 4, 2, q, r / 4);
  }

  /** The three bits of `x` from bit `j` up, read as a number below 8. */
  lemma ThreeBits(x: int, j: nat)
    ensures (x / Pow2(j)) % 8
      == (if Bit(x, j + 2) then 4 else 0) + (if Bit(x, j + 1) then 2 else 0) + (if Bit(x, j) then 1 else 0)
  {
    var y := x / Pow2(j);
    DivDiv(x, Pow2(j), 2);
    DivDiv(x, Pow2(j), 4);
    assert Pow2(j + 1) == Pow2(j) * 2;
    assert Pow2(j + 2) == Pow2(j) * 4;
    assert Bit(x, j + 1) <==> (y / 2) % 2 == 1;
    assert Bit(x, j + 2) <==> (y / 4) % 2 == 1;
    LowThreeBits(y);
  }

  /** Bit `k + 1` of `x` is bit `k` of `x / 2`. */
  lemma BitOfHalf(x: int, k: nat)
    ensures Bit(x, k + 1) == Bit(x / 2, k)
  {
    DivDiv(x, 2, Pow2(k));
  }

  lemma MinusOneDiv(p: nat)
    requires p > 0
    ensures -1 / p == -1
  {
    DivModUnique(-1, p, -1, p - 1);
  }

  /** `a | b` has bit `k` set exactly when `a` or `b` has. */
  lemma {:induction false} BitOrBits(a: int, b: int, k: nat)
    ensures Bit(BitOr(a, b), k) <==> Bit(a, k) || Bit(b, k)
    decreases k
  {
    var r := BitOr(a, b);
    if (a == 0 || a == -1) && (b == 0 || b == -1) {
      MinusOneDiv(Pow2(k));
    } else {
      var low := if a % 2 == 1 || b % 2 == 1 then 1 else 0;
      DivModUnique(r, 2, BitOr(a / 2, b / 2), low);
      if k == 0 {
        DivModUnique(a, 2, a / 2, a % 2);
      } else {
        BitOfHalf(r, k - 1);
        BitOfHalf(a, k - 1);
        BitOfHalf(b, k - 1);
        BitOrBits(a / 2, b / 2, k - 1);
      }
    }
  }

  /** Or-ing two non-negative values below 2^n gives a non-negative value below 2^n. */
  lemma {:induction false} BitOrBound(a: int, b: int, n: nat)
    requires 0 <= a < Pow2(n) && 0 <= b < Pow2(n)
    ensures 0 <= BitOr(a, b) < Pow2(n)
  {
    if a != 0 || b != 0 {
      assert n > 0;
      BitOrBound(a / 2, b / 2, n - 1);
    }
  }
}
