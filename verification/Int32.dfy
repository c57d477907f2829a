/**
 * JavaScript's 32-bit operators, on integers and bit by bit. A number is first taken modulo 2^32, its
 * pattern; `&` and `|` work on two patterns bit by bit, and the result is read back as a signed number;
 * `<<` multiplies before it takes the pattern, and `>>>` divides the pattern and stays unsigned. The
 * lemmas say when these operators are plain arithmetic: masking with ones is a remainder, or-ing into
 * bits that are zero is addition, and shifting a byte in drops the eight bits that leave at the top.
 */
module Int32 {

  const WORD := 0x1_0000_0000

  function Pow2(k: nat): (p: nat)
    ensures p >= 1
  {
    if k == 0 then 1 else 2 * Pow2(k - 1)
  }

  /** The 32-bit pattern of a number. */
  function Pattern(x: int): (p: nat)
    ensures p < WORD
  {
    x % WORD
  }

  /** A 32-bit pattern read as a signed number. */
  function Signed(p: nat): int {
    if p < 0x8000_0000 then p else p - WORD
  }

  function BitAnd(a: nat, b: nat): nat {
    if a == 0 || b == 0 then 0 else 2 * BitAnd(a / 2, b / 2) + if a % 2 == 1 && b % 2 == 1 then 1 else 0
  }

  function BitOr(a: nat, b: nat): nat {
    if a == 0 then b else if b == 0 then a
    else 2 * BitOr(a / 2, b / 2) + if a % 2 == 1 || b % 2 == 1 then 1 else 0
  }

  /** `x & y`, `x | y`, `x << k`, `x >>> k`. */
  function And(x: int, y: int): int { Signed(BitAnd(Pattern(x), Pattern(y))) }
  function Or(x: int, y: int): int { Signed(BitOr(Pattern(x), Pattern(y))) }
  function Shl(x: int, k: nat): int { Signed(Pattern(x * Pow2(k))) }
  function Ushr(x: int, k: nat): int { Pattern(x) / Pow2(k) }

  // ---------------------------------------------------------------- powers, quotients and remainders

  lemma {:induction false} Pow2Add(j: nat, k: nat)
    ensures Pow2(j + k) == Pow2(j) * Pow2(k)
  {
    if k > 0 {
      Pow2Add(j, k - 1);
      Doubled(Pow2(k - 1), Pow2(j));
    }
  }

  lemma {:induction false} Doubled(p: int, q: int)
    ensures q * (2 * p) == (2 * p) * q == 2 * (p * q) == 2 * (q * p)
  {}

  lemma {:induction false} Pow2Values()
    ensures Pow2(1) == 2 && Pow2(4) == 16 && Pow2(5) == 32 && Pow2(7) == 128 && Pow2(8) == 256
    ensures Pow2(16) == 0x1_0000 && Pow2(24) == 0x100_0000 && Pow2(31) == 0x8000_0000 && Pow2(32) == WORD
  {
    assert Pow2(4) == 16;
    assert Pow2(8) == 256;
    Pow2Add(8, 8);
    Pow2Add(16, 8);
    Pow2Add(24, 7);
    Pow2Add(16, 16);
  }

  lemma {:induction false} Pow2Grows(j: nat, k: nat)
    requires j <= k
    ensures Pow2(j) <= Pow2(k)
  {
    if j < k { Pow2Grows(j, k - 1); }
  }

  /** A nonzero multiple of m is at least m away from zero. */
  lemma {:induction false} Multiple(m: nat, d: int)
    ensures d >= 1 ==> m * d >= m
    ensures d <= -1 ==> m * d + m <= 0
  {
    assert m * d == m + m * (d - 1);
    assert m * d == m * (d + 1) - m;
  }

  /** Quotient and remainder are unique. */
  lemma {:induction false} Remainder(a: nat, m: nat, q: nat, r: nat)
    requires m > 0 && a == m * q + r && r < m
    ensures a % m == r && a / m == q
  {
    var d := a / m - q;
    assert m * d == r - a % m by {
      assert a == m * (a / m) + a % m;
      assert m * d == m * (a / m) - m * q;
    }
    Multiple(m, d);
  }

  lemma {:induction false} RemainderTwice(a: nat, m: nat, f: nat)
    requires m > 0 && f > 0
    ensures m * f > 0 && a % (m * f) % m == a % m
  {
    assert m * f > 0 by { Multiple(m, f); }
    var q, r := a / (m * f), a % (m * f);
    RemainderTwiceOf(a, m, f, q, r, r / m, r % m);
    Remainder(r, m, r / m, r % m);
  }

  lemma {:induction false} RemainderTwiceOf(a: nat, m: nat, f: nat, q: nat, r: nat, s: nat, t: nat)
    requires a == m * f * q + r && r == m * s + t && t < m
    ensures a % m == t
  {
    assert m * f * q == m * (f * q);
    assert a == m * (f * q + s) + t;
    Remainder(a, m, f * q + s, t);
  }

  lemma {:induction false} HalfMod(n: nat, p: nat)
    requires p >= 1
    ensures n % (2 * p) == 2 * ((n / 2) % p) + n % 2
    ensures n / (2 * p) == n / 2 / p
  {
    HalfModOf(n, p, n / 2, n % 2, n / 2 / p, n / 2 % p);
  }

  lemma {:induction false} HalfModOf(n: nat, p: nat, h: nat, bit: nat, q: nat, r: nat)
    requires n == 2 * h + bit && bit < 2 && h == p * q + r && r < p
    ensures n % (2 * p) == 2 * r + bit && n / (2 * p) == q
  {
    Doubled(p, q);
    Remainder(n, 2 * p, q, 2 * r + bit);
  }

  // ---------------------------------------------------------------- bitwise operators are arithmetic

  lemma {:induction false} BitAndOnes(a: nat, p: nat)
    requires p >= 1
    ensures BitAnd(a, 2 * p - 1) == 2 * BitAnd(a / 2, p - 1) + a % 2
  {
    assert (2 * p - 1) / 2 == p - 1 && (2 * p - 1) % 2 == 1;
  }

  lemma {:induction false} BitAndStep(a: nat, p: nat)
    requires p >= 1 && BitAnd(a / 2, p - 1) == a / 2 % p
    ensures BitAnd(a, 2 * p - 1) == a % (2 * p)
  {
    BitAndOnes(a, p);
    HalfMod(a, p);
  }

  /** A mask of k ones keeps the low k bits. */
  lemma {:induction false} BitAndMask(a: nat, k: nat)
    ensures BitAnd(a, Pow2(k) - 1) == a % Pow2(k)
    decreases k
  {
    if k == 0 {
      assert BitAnd(a, 0) == 0;
    } else {
      BitAndMask(a / 2, k - 1);
      BitAndStep(a, Pow2(k - 1));
    }
  }

  /** Or-ing a number below 2^k into a multiple of 2^k adds it. */
  lemma {:induction false} BitOrLow(a: nat, b: nat, k: nat)
    requires b < Pow2(k)
    ensures BitOr(a * Pow2(k), b) == a * Pow2(k) + b
    decreases k
  {
    if k > 0 && a > 0 && b > 0 {
      var m := a * Pow2(k - 1);
      assert a * Pow2(k) == 2 * m;
      BitOrLow(a, b / 2, k - 1);
      assert (2 * m) / 2 == m && (2 * m) % 2 == 0;
    }
  }

  lemma {:induction false} PatternOfWord(n: nat)
    requires n < WORD
    ensures Pattern(n) == n
  {}

  lemma {:induction false} SignedRemainder(p: nat, m: nat)
    requires 1 <= m <= 0x8000_0000
    ensures Signed(p % m) == p % m
  {}

  lemma {:induction false} AndMask(x: int, k: nat)
    requires k <= 31
    ensures And(x, Pow2(k) - 1) == Pattern(x) % Pow2(k)
  {
    var m, p := Pow2(k), Pattern(x);
    assert m <= 0x8000_0000 by {
      Pow2Values();
      Pow2Grows(k, 31);
    }
    calc {
      And(x, m - 1);
      Signed(BitAnd(p, Pattern(m - 1)));
      { PatternOfWord(m - 1); }
      Signed(BitAnd(p, m - 1));
      { BitAndMask(p, k); }
      Signed(p % m);
      { SignedRemainder(p, m); }
      p % m;
    }
  }

  lemma {:induction false} AndByte(b: nat, k: nat, mask: nat)
    requires b < 256 && k <= 8 && mask == Pow2(k) - 1
    ensures And(b, mask) == b % (mask + 1)
    ensures b <= mask ==> And(b, mask) == b
  {
    AndMask(b, k);
    PatternOfWord(b);
    if b <= mask { Remainder(b, mask + 1, 0, b); }
  }

  lemma {:induction false} PatternOfSigned(p: nat)
    requires p < WORD
    ensures Pattern(Signed(p)) == p
  {
    if p >= 0x8000_0000 { assert (p - WORD) % WORD == p; }
  }

  lemma {:induction false} OrByte(y: int, low: nat, byte: nat)
    requires byte < 256 && low < 0x100_0000 && Pattern(y) == low * 256
    ensures Pattern(Or(y, byte)) == low * 256 + byte
  {
    calc {
      Or(y, byte);
      { PatternOfWord(byte); }
      Signed(BitOr(low * 256, byte));
      { assert Pow2(8) == 256; BitOrLow(low, byte, 8); }
      Signed(low * 256 + byte);
    }
    PatternOfSigned(low * 256 + byte);
  }

  lemma {:induction false} TimesByte(x: int)
    ensures Pattern(x * 256) == Pattern(x) % 0x100_0000 * 256
  {
    TimesByteOf(x, x / WORD, Pattern(x) / 0x100_0000, Pattern(x) % 0x100_0000);
  }

  lemma {:induction false} TimesByteOf(x: int, q: int, s: nat, low: nat)
    requires x == WORD * q + 0x100_0000 * s + low && low < 0x100_0000
    ensures Pattern(x * 256) == low * 256
  {
    assert x * 256 == WORD * (256 * q + s) + low * 256;
    PatternIs(x * 256, 256 * q + s, low * 256);
  }

  lemma {:induction false} PatternIs(x: int, q: int, r: nat)
    requires x == WORD * q + r && r < WORD
    ensures Pattern(x) == r
  {}

  lemma {:induction false} ShlByte(x: int)
    ensures Pattern(Shl(x, 8)) == Pattern(x) % 0x100_0000 * 256
  {
    assert Pow2(8) == 256;
    assert Shl(x, 8) == Signed(Pattern(x * 256));
    PatternOfSigned(Pattern(x * 256));
    TimesByte(x);
  }

  /** `(x << 8) | byte` keeps the low 24 bits of x, shifts them up and puts the byte below them. */
  lemma {:induction false} ShiftInByte(x: int, byte: nat)
    requires byte < 256
    ensures Pattern(Or(Shl(x, 8), byte)) == Pattern(x) % 0x100_0000 * 256 + byte
  {
    ShlByte(x);
    OrByte(Shl(x, 8), Pattern(x) % 0x100_0000, byte);
  }
}
