/**
 * The trailing-zero removal of the vendored fmt formatter (format-inl.h): division
 * by 100 and by 10 through a modular inverse and a rotation, and the 10^8 shortcut
 * through a 128-bit product.
 */
module TrailingZeros {
  import opened Arithmetic
  import opened Bytes

  const TWO32: nat := 0x1_0000_0000
  const TWO64: nat := 0x1_0000_0000_0000_0000
  const TWO90: nat := 0x400_0000_0000_0000_0000_0000
  const E8: nat := 100_000_000

  type Word32 = n: nat | n < TWO32
  type Word64 = n: nat | n < TWO64

  function Pow10(k: nat): (p: nat)
    ensures p >= 1
  {
    if k == 0 then 1 else 10 * Pow10(k - 1)
  }

  lemma Pow10Two(k: nat)
    ensures Pow10(k + 2) == 100 * Pow10(k)
  {
    assert Pow10(k + 2) == 10 * Pow10(k + 1);
  }

  /** n is z zeros after the digits of m, and m ends in none. */
  ghost predicate Stripped(n: nat, m: nat, z: nat) {
    n == m * Pow10(z) && m % 10 != 0
  }

  /**
   * (n >> r) | (n << (w - r)) with d == 2^r and part == 2^(w - r): the shift left keeps
   * the r low bits only, and the two operands of the or share no bit.
   */
  function Rotr(n: nat, d: nat, part: nat): nat
    requires d > 0
  {
    n / d + n % d * part
  }

  lemma RotrPartsAreDisjoint(n: bv32, m: bv64)
    ensures (n >> 2) | (n << 30) == (n >> 2) + (n << 30)
    ensures (n >> 1) | (n << 31) == (n >> 1) + (n << 31)
    ensures (m >> 2) | (m << 62) == (m >> 2) + (m << 62)
    ensures (m >> 1) | (m << 63) == (m >> 1) + (m << 63)
  {
  }

  /** The shifts of the source are the division and the remainder of Rotr, and `|= 1` is SetLowBit. */
  lemma ShiftsAreDivisions(n: bv32, m: bv64)
    ensures n >> 2 == n / 4 && n << 30 == n % 4 * 0x4000_0000
    ensures n >> 1 == n / 2 && n << 31 == n % 2 * 0x8000_0000
    ensures m >> 2 == m / 4 && m << 62 == m % 4 * 0x4000_0000_0000_0000
    ensures m >> 1 == m / 2 && m << 63 == m % 2 * 0x8000_0000_0000_0000
    ensures n | 1 == if n % 2 == 0 then n + 1 else n
  {
  }

  // ----- small facts about products, each proved on its own -----

  lemma Monotone(x: nat, a: nat, b: nat)
    requires a <= b
    ensures x * a <= x * b
  {
    assert x * (b - a) >= 0;
  }

  lemma Associate(a: int, b: int, c: int)
    ensures a * b * c == a * (b * c) == b * (a * c)
  {
  }

  lemma Distribute(a: int, b: int, c: int)
    ensures (a + b) * c == a * c + b * c
  {
  }

  lemma PartsBound(h: nat, l: nat, d: nat, part: nat)
    requires l < d && d * h + l < d * part
    ensures h + l * part < d * part
  {
    if h >= part { Monotone(d, part, h); }
    Monotone(part, l + 1, d);
    assert part * (l + 1) == part * l + part;
  }

  lemma NoHighPart(h: nat, l: nat, part: nat)
    requires h + l * part < part
    ensures l == 0
  {
    if l >= 1 { Monotone(part, 1, l); }
  }

  /** f * ((n * inverse) mod 2^w) is n again, up to a multiple of 2^w. */
  lemma TimesInverse(n: nat, f: nat, inverse: nat, c: nat, modulus: nat) returns (t: int)
    requires modulus > 0 && f * inverse == 1 + modulus * c
    ensures f * (n * inverse % modulus) == n + modulus * t
  {
    var a, m := n * inverse / modulus, n * inverse % modulus;
    assert n * inverse == modulus * a + m;
    t := n * c - f * a;
    calc {
      f * m;
      f * (n * inverse - modulus * a);
      f * (n * inverse) - f * (modulus * a);
      { assert f * (n * inverse) == n * (f * inverse); assert f * (modulus * a) == modulus * (f * a); }
      n * (1 + modulus * c) - modulus * (f * a);
      { assert n * (1 + modulus * c) == n + modulus * (n * c); }
      n + modulus * (n * c) - modulus * (f * a);
      { assert modulus * (n * c - f * a) == modulus * (n * c) - modulus * (f * a); }
      n + modulus * t;
    }
  }

  ghost predicate Setup(f: nat, d: nat, inverse: nat, c: nat, modulus: nat, part: nat, limit: nat) {
    && f > 0 && d > 0 && part > 0
    && f * inverse == 1 + modulus * c
    && modulus == d * part
    && limit < part
    && f * d * limit < modulus <= f * d * (limit + 1)
  }

  lemma RotationTestSound(n: nat, f: nat, d: nat, inverse: nat, c: nat, modulus: nat, part: nat, limit: nat)
    requires Setup(f, d, inverse, c, modulus, part, limit) && n < modulus
    requires Rotr(n * inverse % modulus, d, part) <= limit
    ensures n == f * d * Rotr(n * inverse % modulus, d, part)
  {
    var h, l := RotrParts(n * inverse % modulus, d, part);
    NoHighPart(h, l, part);
    var t := TimesInverse(n, f, inverse, c, modulus);
    SmallMultiple(n, f, d, h, modulus, limit, t);
  }

  lemma RotrParts(m: nat, d: nat, part: nat) returns (h: nat, l: nat)
    requires d > 0
    ensures m == d * h + l && l < d && Rotr(m, d, part) == h + l * part
  {
    h, l := m / d, m % d;
  }

  lemma SmallMultiple(n: nat, f: nat, d: nat, q: nat, modulus: nat, limit: nat, t: int)
    requires f * (d * q) == n + modulus * t && n < modulus && q <= limit && f * d * limit < modulus
    ensures n == f * d * q
  {
    Associate(f, d, q);
    Monotone(f * d, q, limit);
    NoMultipleBelow(modulus, t);
  }

  lemma ProductWithInverse(f: nat, x: nat, inverse: nat, c: nat, modulus: nat)
    requires f * inverse == 1 + modulus * c
    ensures f * x * inverse == modulus * (c * x) + x
  {
    Associate(f, x, inverse);
    Associate(f, inverse, x);
    assert x * inverse == inverse * x;
    Distribute(1, modulus * c, x);
    Associate(modulus, c, x);
  }

  lemma RotationTestComplete(k: nat, f: nat, d: nat, inverse: nat, c: nat, modulus: nat, part: nat, limit: nat)
    requires Setup(f, d, inverse, c, modulus, part, limit) && f * d * k < modulus
    ensures Rotr(f * d * k * inverse % modulus, d, part) == k <= limit
  {
    Associate(f, d, k);
    ProductWithInverse(f, d * k, inverse, c, modulus);
    Monotone(d * k, 1, f);
    DivUnique(f * d * k * inverse, modulus, c * (d * k), d * k);
    DivUnique(d * k, d, k, 0);
    if k > limit {
      Monotone(f * d, limit + 1, k);
    }
  }

  /** The test of the source succeeds exactly on multiples of f * d, and then yields the quotient. */
  lemma RotationTest(n: nat, f: nat, d: nat, inverse: nat, c: nat, modulus: nat, part: nat, limit: nat)
    requires Setup(f, d, inverse, c, modulus, part, limit) && n < modulus
    ensures var q := Rotr(n * inverse % modulus, d, part);
            && (q <= limit <==> n % (f * d) == 0)
            && (q <= limit ==> n == f * d * q)
  {
    var q, u := Rotr(n * inverse % modulus, d, part), f * d;
    Monotone(d, 1, f);
    if q <= limit {
      RotationTestSound(n, f, d, inverse, c, modulus, part, limit);
      DivUnique(n, u, q, 0);
    }
    if n % u == 0 {
      var k := n / u;
      assert n == u * k;
      RotationTestComplete(k, f, d, inverse, c, modulus, part, limit);
    }
  }

  method Test100In32(n: Word32) returns (divides: bool, q: Word32)
    ensures divides <==> n % 100 == 0
    ensures divides ==> n == 100 * q
    ensures q == Rotated100(n) && (divides <==> q <= LIMIT100)
  {
    Test100(n);
    PartsBound(n * 0xc28f5c29 % TWO32 / 4, n * 0xc28f5c29 % TWO32 % 4, 4, TWO32 / 4);
    q := Rotated100(n);
    divides := q <= LIMIT100;
  }

  const LIMIT100: nat := (TWO32 - 1) / 100

  function Rotated100(n: Word32): nat {
    Rotr(n * 0xc28f5c29 % TWO32, 4, TWO32 / 4)
  }

  lemma Test100(n: Word32)
    ensures Rotated100(n) <= LIMIT100 <==> n % 100 == 0
    ensures Rotated100(n) <= LIMIT100 ==> n == 100 * Rotated100(n)
  {
    RotationTest(n, 25, 4, 0xc28f5c29, 19, TWO32, TWO32 / 4, LIMIT100);
  }

  // ----- when the 32-bit loop stops -----

  /** The value after k full turns of the loop, or None if it was left before. */
  function Turns(n: Word32, k: nat): Option<Word32>
    decreases k
  {
    if k == 0 then Some(n)
    else if Rotated100(n) > LIMIT100 then None
    else Turns(Rotated100(n), k - 1)
  }

  lemma {:induction false} ZeroTurnsForEver(k: nat)
    ensures Turns(0, k) == Some(0)
  {
    if k > 0 {
      Test100(0);
      ZeroTurnsForEver(k - 1);
    }
  }

  lemma {:induction false} NonzeroIsLeft(n: Word32) returns (k: nat)
    requires n != 0
    ensures Turns(n, k).None?
  {
    Test100(n);
    if n % 100 != 0 {
      assert Turns(n, 1).None?;
      k := 1;
    } else {
      k := NonzeroIsLeft(Rotated100(n));
      k := k + 1;
    }
  }

  /** The loop is left if and only if n is not zero. */
  lemma LoopEndsIff(n: Word32)
    ensures (exists k: nat :: Turns(n, k).None?) <==> n != 0
  {
    if n == 0 {
      forall k: nat ensures Turns(n, k).Some? { ZeroTurnsForEver(k); }
    } else {
      var k := NonzeroIsLeft(n);
    }
  }

  method Test10In32(n: Word32) returns (divides: bool, q: Word32)
    ensures divides <==> n % 10 == 0
    ensures divides ==> n == 10 * q
  {
    RotationTest(n, 5, 2, 0xcccccccd, 4, TWO32, TWO32 / 2, (TWO32 - 1) / 10);
    PartsBound(n * 0xcccccccd % TWO32 / 2, n * 0xcccccccd % TWO32 % 2, 2, TWO32 / 2);
    q := Rotr(n * 0xcccccccd % TWO32, 2, TWO32 / 2);
    divides := q <= (TWO32 - 1) / 10;
  }

  method Test100In64(n: Word64) returns (divides: bool, q: Word64)
    ensures divides <==> n % 100 == 0
    ensures divides ==> n == 100 * q
  {
    RotationTest(n, 25, 4, 0x8f5c28f5c28f5c29, 14, TWO64, TWO64 / 4, (TWO64 - 1) / 100);
    PartsBound(n * 0x8f5c28f5c28f5c29 % TWO64 / 4, n * 0x8f5c28f5c28f5c29 % TWO64 % 4, 4, TWO64 / 4);
    q := Rotr(n * 0x8f5c28f5c28f5c29 % TWO64, 4, TWO64 / 4);
    divides := q <= (TWO64 - 1) / 100;
  }

  method Test10In64(n: Word64) returns (divides: bool, q: Word64)
    ensures divides <==> n % 10 == 0
    ensures divides ==> n == 10 * q
  {
    RotationTest(n, 5, 2, 0xcccccccccccccccd, 4, TWO64, TWO64 / 2, (TWO64 - 1) / 10);
    PartsBound(n * 0xcccccccccccccccd % TWO64 / 2, n * 0xcccccccccccccccd % TWO64 % 2, 2, TWO64 / 2);
    q := Rotr(n * 0xcccccccccccccccd % TWO64, 2, TWO64 / 2);
    divides := q <= (TWO64 - 1) / 10;
  }

  /** `s |= 1` on a count. */
  function SetLowBit(s: nat): nat {
    if s % 2 == 0 then s + 1 else s
  }

  lemma SetLowBitIsOr(s: nat)
    ensures SetLowBit(s) % 2 == 1 && SetLowBit(s) / 2 == s / 2
  {
  }

  /** The count returned from a starting count s. */
  function CountFrom(s: nat, zeros: nat): nat {
    if s % 2 == 0 then s + zeros else s + zeros / 2 * 2
  }

  lemma CountSteps(s: nat, z: nat)
    requires z % 2 == 0
    ensures CountFrom(s, z) == s + z && CountFrom(s, z + 1) == SetLowBit(s + z)
  {
  }

  lemma Move100(n: nat, m: nat, q: nat, z: nat)
    requires n == m * Pow10(z) && m == 100 * q && m > 0
    ensures n == q * Pow10(z + 2) && 0 < q < m
  {
    Pow10Two(z);
    Associate(100, q, Pow10(z));
  }

  lemma Move10(n: nat, m: nat, q: nat, z: nat)
    requires n == m * Pow10(z) && m == 10 * q && m % 100 != 0
    ensures Stripped(n, q, z + 1)
  {
    Associate(10, q, Pow10(z));
  }

  /**
   * remove_trailing_zeros on 32 bits. `zeros` is what was removed; an odd starting count
   * loses the last step of an odd number of zeros to `s |= 1`.
   */
  method RemoveTrailingZeros32(n: Word32, s: nat) returns (m: Word32, r: nat)
    requires n != 0
    ensures exists zeros: nat :: Stripped(n, m, zeros) && r == CountFrom(s, zeros)
  {
    m, r := n, s;
    ghost var z := 0;
    while true
      invariant m != 0 && n == m * Pow10(z) && z % 2 == 0 && r == s + z
      decreases m
    {
      var divides, q := Test100In32(m);
      if !divides { break; }
      Move100(n, m, q, z);
      m, r, z := q, r + 2, z + 2;
    }
    CountSteps(s, z);
    var divides, q := Test10In32(m);
    if divides {
      Move10(n, m, q, z);
      m, r, z := q, SetLowBit(r), z + 1;
    }
    assert Stripped(n, m, z);
  }

  // ----- the 10^8 shortcut -----

  const MAGIC: nat := 12379400392853802749

  /** n * MAGIC == (n / 10^8) * 2^90 + rest, with rest < MAGIC exactly when 10^8 divides n. */
  lemma MagicSplit(n: Word64)
    ensures n * MAGIC / TWO90 == n / E8
    ensures n * MAGIC % TWO90 == n / E8 * 875776 + n % E8 * MAGIC
    ensures n * MAGIC % TWO90 < MAGIC <==> n % E8 == 0
  {
    var a, r := n / E8, n % E8;
    assert MAGIC * E8 == TWO90 + 875776;
    var rest := a * 875776 + r * MAGIC;
    assert n * MAGIC == TWO90 * a + rest by {
      assert n == E8 * a + r;
      assert E8 * a * MAGIC == (TWO90 + 875776) * a;
    }
    assert a * 875776 < MAGIC - 875776;
    assert rest < TWO90 by {
      assert r * MAGIC <= (E8 - 1) * MAGIC;
    }
    DivUnique(n * MAGIC, TWO90, a, rest);
    if r >= 1 {
      assert r * MAGIC >= MAGIC;
    }
  }

  /** The test on the halves of the product is one on its low 90 bits. */
  lemma HalvesTest(p: nat)
    ensures p / TWO64 % 0x400_0000 == 0 && p % TWO64 < MAGIC <==> p % TWO90 < MAGIC
    ensures p / TWO64 / 0x400_0000 == p / TWO90
  {
    var high, low := p / TWO64, p % TWO64;
    var a, b := high / 0x400_0000, high % 0x400_0000;
    assert p == TWO90 * a + (TWO64 * b + low);
    assert TWO64 * b + low < TWO90;
    DivUnique(p, TWO90, a, TWO64 * b + low);
  }

  /**
   * remove_trailing_zeros on 64 bits. When 10^8 divides n, the quotient is cut to 32 bits.
   * `ends` is false where that leaves 0, which the 32-bit function asserts away and on which
   * its loop, by LoopEndsIff, is never left.
   */
  method RemoveTrailingZeros64(n: Word64) returns (ends: bool, m: Word64, r: nat)
    requires n != 0
    ensures ends <==> n % (TWO32 * E8) != 0
    ensures ends && Stripped(n, m, r) <==> n % E8 != 0 || n < TWO32 * E8
    ensures ends && n % E8 == 0 ==> exists zeros: nat :: Stripped(n / E8 % TWO32, m, zeros) && r == 8 + zeros
  {
    CutToZero(n);
    ends := true;
    var high, low := n * MAGIC / TWO64, n * MAGIC % TWO64;
    MagicSplit(n);
    HalvesTest(n * MAGIC);
    if high % 0x400_0000 == 0 && low < MAGIC {
      var n32 := high / 0x400_0000 % TWO32;
      if n32 == 0 { return false, n, 0; }
      m, r := RemoveTrailingZeros32(n32, 8);
      Shortcut(n, m, r);
      return;
    }
    m, r := n, 0;
    while true
      invariant m != 0 && n == m * Pow10(r) && r % 2 == 0
      decreases m
    {
      var divides, q := Test100In64(m);
      if !divides { break; }
      Move100(n, m, q, r);
      m, r := q, r + 2;
    }
    var divides, q := Test10In64(m);
    if divides {
      Move10(n, m, q, r);
      m, r := q, SetLowBit(r);
    }
  }

  /** The quotient cut to 32 bits is 0 exactly for the multiples of 2^32 * 10^8. */
  lemma CutToZero(n: nat)
    ensures n % (TWO32 * E8) == 0 <==> n % E8 == 0 && n / E8 % TWO32 == 0
  {
    var q, r := n / E8, n % E8;
    var a, b := q / TWO32, q % TWO32;
    assert n == TWO32 * E8 * a + (E8 * b + r);
    DivUnique(n, TWO32 * E8, a, E8 * b + r);
  }

  lemma Pow10Plus8(k: nat)
    ensures Pow10(k + 8) == E8 * Pow10(k)
  {
    Pow10Two(k);
    Pow10Two(k + 2);
    Pow10Two(k + 4);
    Pow10Two(k + 6);
  }

  lemma Shortcut(n: Word64, m: nat, r: nat)
    requires n % E8 == 0
    requires exists zeros: nat :: Stripped(n / E8 % TWO32, m, zeros) && r == 8 + zeros
    ensures Stripped(n, m, r) <==> n < TWO32 * E8
  {
    var zeros: nat :| Stripped(n / E8 % TWO32, m, zeros) && r == 8 + zeros;
    var q := n / E8;
    var low := q % TWO32;
    ScaledBack(m, zeros);
    assert m * Pow10(r) == E8 * low;
    assert n == E8 * q;
    LowIffSmall(n, q);
  }

  lemma ScaledBack(m: nat, zeros: nat)
    ensures m * Pow10(zeros + 8) == E8 * (m * Pow10(zeros))
  {
    Pow10Plus8(zeros);
    Associate(m, E8, Pow10(zeros));
  }

  lemma LowIffSmall(n: nat, q: nat)
    requires n == E8 * q
    ensures n == E8 * (q % TWO32) <==> n < TWO32 * E8
  {
  }

  lemma StripOne(n: nat, m: nat, z: nat)
    requires Stripped(n, m, z) && z > 0
    ensures n % 10 == 0 && Stripped(n / 10, m, z - 1)
  {
    Associate(10, m, Pow10(z - 1));
    TenFold(n, m * Pow10(z - 1));
  }

  lemma TenFold(n: nat, q: nat)
    requires n == 10 * q
    ensures n % 10 == 0 && n / 10 == q
  {
  }

  /** The digits and the count are determined by n, so the methods have no other right answer. */
  lemma {:induction false} StrippedUnique(n: nat, m: nat, z: nat, m': nat, z': nat)
    requires Stripped(n, m, z) && Stripped(n, m', z')
    ensures m == m' && z == z'
    decreases z
  {
    if z > z' {
      StrippedUnique(n, m', z', m, z);
    } else if z > 0 {
      StripOne(n, m, z);
      StripOne(n, m', z');
      StrippedUnique(n / 10, m, z - 1, m', z' - 1);
    } else if z' > 0 {
      StripOne(n, m', z');
    }
  }
}
