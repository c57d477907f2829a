/**
 * The encoder of the Stellar key pairs: one pass, a 32-bit accumulator that is never masked and so
 * overflows from the fifth byte on. It still computes the encoding.
 */
module Base32Streaming {
  import opened Int32
  import opened Base32

  /** The output covers all bits read but the last `bits` of them, and those are the low bits of `value`. */
  ghost predicate Emitted(read: seq<bool>, value: int, bits: nat, output: string) {
    && bits <= |read| && (|read| - bits) % 5 == 0
    && output == ToChars(read[..|read| - bits])
    && read[|read| - bits..] == Bits(Pattern(value), bits)
  }

  /** `encodeBase32`. */
  method Encode(buffer: seq<Byte>) returns (output: string)
    ensures output == Encoded(buffer)
  {
    var bits, value := 0, 0;
    output := "";
    for i := 0 to |buffer|
      invariant 0 <= bits < 5
      invariant Emitted(ByteBits(buffer[..i]), value, bits, output)
    {
      ByteBitsAppend(buffer[..i], buffer[i]);
      assert buffer[..i] + [buffer[i]] == buffer[..i + 1];
      TakesByte(ByteBits(buffer[..i]), value, bits, output, buffer[i]);
      value := Or(Shl(value, 8), buffer[i]);
      bits := bits + 8;
      while bits >= 5
        invariant 0 <= bits < 13
        invariant Emitted(ByteBits(buffer[..i + 1]), value, bits, output)
      {
        EmitsGroup(ByteBits(buffer[..i + 1]), value, bits, output);
        output := output + [Letter(And(Ushr(value, bits - 5), 31))];
        bits := bits - 5;
      }
    }
    assert buffer[..|buffer|] == buffer;
    if bits > 0 {
      EmitsLast(ByteBits(buffer), value, bits, output);
      output := output + [Letter(And(Shl(value, 5 - bits), 31))];
    } else {
      assert ByteBits(buffer)[..|ByteBits(buffer)|] == ByteBits(buffer);
    }
  }

  /** The bits not yet written survive the overflow: at most four of them, far below bit 24. */
  lemma {:induction false} PendingBits(value: int, bits: nat, byte: Byte)
    requires bits < 5
    ensures Bits(Pattern(Or(Shl(value, 8), byte)), bits + 8) == Bits(Pattern(value), bits) + Bits(byte, 8)
  {
    var p, low := Pattern(value), Pattern(value) % 0x100_0000;
    ShiftInByte(value, byte);
    ByteBelow(low, bits, byte);
    LowBitsOfLow(p, bits);
    BitsLow(low, p, bits);
  }

  lemma {:induction false} ByteBelow(high: nat, bits: nat, byte: Byte)
    ensures Bits(high * 256 + byte, bits + 8) == Bits(high, bits) + Bits(byte, 8)
  {
    BitsSplit(high * 256 + byte, bits, 8);
    LowByte(high, byte);
  }

  lemma {:induction false} LowByte(high: nat, byte: Byte)
    ensures Quotient(high * 256 + byte, Pow2(8)) == high && Bits(high * 256 + byte, 8) == Bits(byte, 8)
  {
    assert Pow2(8) == 256;
    BitsLow(high * 256 + byte, byte, 8);
  }

  lemma {:induction false} LowBitsOfLow(p: nat, bits: nat)
    requires bits < 5
    ensures p % 0x100_0000 % Pow2(bits) == p % Pow2(bits)
  {
    assert 0x100_0000 == Pow2(bits) * Pow2(24 - bits) by {
      Pow2Values();
      Pow2Add(bits, 24 - bits);
    }
    RemainderTwice(p, Pow2(bits), Pow2(24 - bits));
  }

  lemma {:induction false} SplitLonger(read: seq<bool>, more: seq<bool>, n: nat)
    requires n <= |read|
    ensures (read + more)[..n] == read[..n] && (read + more)[n..] == read[n..] + more
  {}

  lemma {:induction false} TakesByte(read: seq<bool>, value: int, bits: nat, output: string, byte: Byte)
    requires bits < 5 && Emitted(read, value, bits, output)
    ensures Emitted(read + Bits(byte, 8), Or(Shl(value, 8), byte), bits + 8, output)
  {
    PendingBits(value, bits, byte);
    SplitLonger(read, Bits(byte, 8), |read| - bits);
  }

  lemma {:induction false} ValueOfLowBits(q: nat)
    ensures Value(Bits(q, 5)) == q % 32
  {
    Pow2Values();
    BitsLow(q, q % 32, 5);
    ValueOfBits(q % 32, 5);
  }

  lemma {:induction false} MaskFive(x: int)
    ensures And(x, 31) == Pattern(x) % 32
  {
    Pow2Values();
    AndMask(x, 5);
  }

  /** `(value >>> (bits - 5)) & 31` is the first five of the pending bits. */
  lemma {:induction false} FirstFive(value: int, bits: nat)
    requires 5 <= bits < 13
    ensures 0 <= And(Ushr(value, bits - 5), 31) < 32
    ensures And(Ushr(value, bits - 5), 31) == Value(Bits(Pattern(value), bits)[..5])
    ensures Bits(Pattern(value), bits)[5..] == Bits(Pattern(value), bits - 5)
  {
    var q := Quotient(Pattern(value), Pow2(bits - 5));
    BitsSplit(Pattern(value), 5, bits - 5);
    assert Bits(Pattern(value), bits)[..5] == Bits(q, 5);
    ValueOfLowBits(q);
    QuotientIsWord(Pattern(value), Pow2(bits - 5));
    MaskFive(q);
  }

  lemma {:induction false} QuotientIsWord(p: nat, m: nat)
    requires p < WORD && m >= 1
    ensures Pattern(Quotient(p, m)) == Quotient(p, m)
  {
    var q := Quotient(p, m);
    assert p == m * q + p % m;
    assert m * q >= q by { assert m * q == q + (m - 1) * q; }
  }

  lemma {:induction false} GroupAppended(read: seq<bool>, n: nat, output: string)
    requires n + 5 <= |read| && n % 5 == 0 && output == ToChars(read[..n])
    ensures Value(read[n..n + 5]) < 32
    ensures output + [Letter(Value(read[n..n + 5]))] == ToChars(read[..n + 5])
  {
    var group := read[n..n + 5];
    assert group + Zeros(0) == group;
    ToCharsAppend(read[..n], group);
    assert read[..n] + group == read[..n + 5];
  }

  lemma {:induction false} EmitsGroup(read: seq<bool>, value: int, bits: nat, output: string)
    requires 5 <= bits < 13 && Emitted(read, value, bits, output)
    ensures 0 <= And(Ushr(value, bits - 5), 31) < 32
    ensures Emitted(read, value, bits - 5, output + [Letter(And(Ushr(value, bits - 5), 31))])
  {
    var n := |read| - bits;
    FirstFive(value, bits);
    assert read[n..n + 5] == read[n..][..5];
    assert read[n + 5..] == read[n..][5..];
    GroupAppended(read, n, output);
  }

  function Shifted(p: nat, z: nat): nat {
    p * Pow2(z)
  }

  /** Shifting up by z puts z zeros behind the bits. */
  lemma {:induction false} ShiftedBits(p: nat, bits: nat, z: nat)
    ensures Bits(Shifted(p, z), bits + z) == Bits(p, bits) + Zeros(z)
  {
    var f := Pow2(z);
    assert Shifted(p, z) == f * p;
    Remainder(f * p, f, p, 0);
    Remainder(0, f, 0, 0);
    BitsSplit(Shifted(p, z), bits, z);
    BitsLow(Shifted(p, z), 0, z);
    ZeroBits(z);
  }

  lemma {:induction false} ShiftedMask(value: int, z: nat)
    ensures And(Shl(value, z), 31) == Shifted(Pattern(value), z) % 32
  {
    MaskFive(Shl(value, z));
    PatternOfSigned(Pattern(value * Pow2(z)));
    ShiftedLow(value, Pow2(z));
  }

  /** `(value << (5 - bits)) & 31` is the last bits filled up with zeros. */
  lemma {:induction false} LastBits(value: int, bits: nat)
    requires 0 < bits < 5
    ensures 0 <= And(Shl(value, 5 - bits), 31) < 32
    ensures And(Shl(value, 5 - bits), 31) == Value(Bits(Pattern(value), bits) + Zeros(5 - bits))
  {
    ShiftedMask(value, 5 - bits);
    ValueOfLowBits(Shifted(Pattern(value), 5 - bits));
    ShiftedBits(Pattern(value), bits, 5 - bits);
  }

  lemma {:induction false} ShiftedLow(x: int, f: int)
    ensures Pattern(x * f) % 32 == Pattern(x) * f % 32
  {
    var q, r := x / WORD, Pattern(x);
    assert x * f == r * f + 32 * (0x800_0000 * (q * f)) by {
      assert x == WORD * q + r;
      assert (WORD * q) * f == WORD * (q * f);
    }
    SameLowBits(x * f, r * f, 0x800_0000 * (q * f));
    SameLowBits(x * f, Pattern(x * f), 0x800_0000 * (x * f / WORD));
  }

  lemma {:induction false} SameLowBits(a: int, b: int, k: int)
    requires a == b + 32 * k
    ensures a % 32 == b % 32
  {
  }

  lemma {:induction false} ZeroBits(z: nat)
    ensures Bits(0, z) == Zeros(z)
  {
    if z > 0 {
      ZeroBits(z - 1);
      assert Zeros(z) == Zeros(z - 1) + [false];
    }
  }

  lemma {:induction false} EmitsLast(read: seq<bool>, value: int, bits: nat, output: string)
    requires 0 < bits < 5 && Emitted(read, value, bits, output)
    ensures 0 <= And(Shl(value, 5 - bits), 31) < 32
    ensures output + [Letter(And(Shl(value, 5 - bits), 31))] == ToChars(read)
  {
    var n := |read| - bits;
    LastBits(value, bits);
    ToCharsAppend(read[..n], read[n..]);
    assert read[..n] + read[n..] == read;
  }
}
