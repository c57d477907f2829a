/** Base32 (section 6 of RFC 4648): the bit-string decoder and the two encoders of the repository. */
module Base32 {
  import opened Wrappers
  import opened Text
  import opened Sequences
  import opened Int32

  type Byte = n: nat | n < 256

  const ALPHABET := "ABCDEFGHIJKLMNOPQRSTUVWXYZ234567"

  /** `n.toString(2).padStart(width, '0')` for n below 2^width, as truth values. */
  function Bits(n: nat, width: nat): (bits: seq<bool>)
    ensures |bits| == width
  {
    if width == 0 then [] else Bits(n / 2, width - 1) + [n % 2 == 1]
  }

  /** `parseInt(bits, 2)`. */
  function Value(bits: seq<bool>): nat {
    if bits == [] then 0 else 2 * Value(bits[..|bits| - 1]) + if bits[|bits| - 1] then 1 else 0
  }

  /** `alphabet[v]`, the letters being consecutive and then the digits. */
  function Letter(v: nat): char
    requires v < 32
  {
    if v < 26 then ('A' as int + v) as char else ('2' as int + v - 26) as char
  }

  /** `alphabet.indexOf(c)`. */
  function IndexOf(c: char): int {
    if 'A' <= c <= 'Z' then c as int - 'A' as int
    else if '2' <= c <= '7' then c as int - '2' as int + 26
    else -1
  }

  predicate InAlphabet(text: string) {
    forall i :: 0 <= i < |text| ==> IndexOf(text[i]) >= 0
  }

  lemma {:induction false} LettersAreTheAlphabet(i: nat)
    requires i < 32
    ensures ALPHABET[i] == Letter(i) && IndexOf(ALPHABET[i]) == i
  {
    assert forall k :: 0 <= k < 32 ==>
        ALPHABET[k] == if k < 26 then ('A' as int + k) as char else ('2' as int + k - 26) as char;
  }

  // ---------------------------------------------------------------- specification

  function ByteBits(bytes: seq<Byte>): seq<bool> {
    if bytes == [] then [] else Bits(bytes[0], 8) + ByteBits(bytes[1..])
  }

  function CharBits(text: string): seq<bool>
    requires InAlphabet(text)
  {
    if text == "" then [] else Bits(IndexOf(text[0]), 5) + CharBits(text[1..])
  }

  /** Whole groups of eight bits; what is left over is dropped. */
  function ToBytes(bits: seq<bool>): seq<Byte> {
    if |bits| < 8 then [] else
      ValueBelow(bits[..8]);
      [Value(bits[..8])] + ToBytes(bits[8..])
  }

  function Zeros(k: nat): (z: seq<bool>)
    ensures |z| == k
  {
    seq(k, i => false)
  }

  /** Groups of five bits, the last one filled up with zeros. */
  function ToChars(bits: seq<bool>): string {
    if bits == [] then ""
    else if |bits| < 5 then
      ValueBelow(bits + Zeros(5 - |bits|));
      [Letter(Value(bits + Zeros(5 - |bits|)))]
    else
      ValueBelow(bits[..5]);
      [Letter(Value(bits[..5]))] + ToChars(bits[5..])
  }

  function Encoded(bytes: seq<Byte>): string {
    ToChars(ByteBits(bytes))
  }

  /** `replace(/=+$/g, '')`. */
  function WithoutPadding(text: string): (r: string)
    ensures |r| <= |text| && r == text[..|r|]
  {
    if text != "" && text[|text| - 1] == '=' then WithoutPadding(text[..|text| - 1]) else text
  }

  function Cleaned(text: string): string {
    Upper(WithoutPadding(text))
  }

  lemma {:induction false} ValueBelow(bits: seq<bool>)
    ensures Value(bits) < Pow2(|bits|)
    ensures |bits| == 5 ==> Value(bits) < 32
    ensures |bits| == 8 ==> Value(bits) < 256
  {
    if bits != [] { ValueBelow(bits[..|bits| - 1]); }
    assert Pow2(5) == 32 && Pow2(8) == 256;
  }

  // ---------------------------------------------------------------- the code

  /** The first loop of `base32Decode`. */
  method ReadChars(clean: string) returns (bits: seq<bool>)
    requires InAlphabet(clean)
    ensures bits == CharBits(clean)
  {
    bits := [];
    for i := 0 to |clean|
      invariant bits == CharBits(clean[..i])
    {
      assert clean[..i] + [clean[i]] == clean[..i + 1];
      assert InAlphabet(clean[..i + 1]);
      CharBitsAppend(clean[..i], clean[i]);
      bits := bits + Bits(IndexOf(clean[i]), 5);
    }
    assert clean[..|clean|] == clean;
  }

  /** `base32Decode`: all bits first, then whole bytes. */
  method Decode(text: string) returns (bytes: seq<Byte>)
    requires InAlphabet(Cleaned(text))
    ensures bytes == ToBytes(CharBits(Cleaned(text)))
  {
    var bits := ReadChars(Cleaned(text));
    bytes := WholeBytes(bits);
  }

  /** The second loop of both decoders. */
  method WholeBytes(bits: seq<bool>) returns (bytes: seq<Byte>)
    ensures bytes == ToBytes(bits)
  {
    bytes := [];
    var i := 0;
    while i + 8 <= |bits|
      invariant 0 <= i <= |bits| && i % 8 == 0
      invariant bytes == ToBytes(bits[..i])
    {
      OneMoreByte(bits, i);
      bytes := bytes + [Value(bits[i..i + 8])];
      i := i + 8;
    }
    ToBytesDropsRest(bits[..i], bits[i..]);
    assert bits[..i] + bits[i..] == bits;
  }

  /** The first loop of `base32Encode`. */
  method ReadBytes(bytes: seq<Byte>) returns (bits: seq<bool>)
    ensures bits == ByteBits(bytes)
  {
    bits := [];
    for i := 0 to |bytes|
      invariant bits == ByteBits(bytes[..i])
    {
      ByteBitsAppend(bytes[..i], bytes[i]);
      assert bytes[..i] + [bytes[i]] == bytes[..i + 1];
      bits := bits + Bits(bytes[i], 8);
    }
    assert bytes[..|bytes|] == bytes;
  }

  /** `base32Encode` of the two-factor service: all bits first, then groups of five. */
  method Encode(bytes: seq<Byte>) returns (output: string)
    ensures output == Encoded(bytes)
  {
    var bits := ReadBytes(bytes);
    output := "";
    var i := 0;
    while i < |bits|
      invariant 0 <= i && i % 5 == 0
      invariant output == ToChars(bits[..Least(i, |bits|)])
    {
      OneMoreChar(bits, i);
      output := output + [Letter(Value(Chunk(bits, i)))];
      i := i + 5;
    }
    assert bits[..|bits|] == bits;
  }

  function Least(a: nat, b: nat): (r: nat)
    ensures r <= a && r <= b
  {
    if a < b then a else b
  }

  /** `bits.slice(i, i + 5).padEnd(5, '0')`. */
  function Chunk(bits: seq<bool>, i: nat): (chunk: seq<bool>)
    requires i < |bits|
    ensures |chunk| == 5
  {
    var slice := bits[i..Least(i + 5, |bits|)];
    slice + Zeros(5 - |slice|)
  }

  lemma {:induction false} OneMoreChar(bits: seq<bool>, i: nat)
    requires i % 5 == 0 && i < |bits|
    ensures Value(Chunk(bits, i)) < 32
    ensures ToChars(bits[..Least(i + 5, |bits|)]) == ToChars(bits[..i]) + [Letter(Value(Chunk(bits, i)))]
  {
    var end := Least(i + 5, |bits|);
    ToCharsAppend(bits[..i], bits[i..end]);
    assert bits[..i] + bits[i..end] == bits[..end];
  }

  lemma {:induction false} OneMoreByte(bits: seq<bool>, i: nat)
    requires i % 8 == 0 && i + 8 <= |bits|
    ensures Value(bits[i..i + 8]) < 256
    ensures ToBytes(bits[..i + 8]) == ToBytes(bits[..i]) + [Value(bits[i..i + 8])]
  {
    assert bits[..i + 8] == bits[..i] + bits[i..i + 8] + [];
    ToBytesAppend(bits[..i], bits[i..i + 8], []);
  }

  // ---------------------------------------------------------------- bits and numbers

  lemma {:induction false} ValueOfBits(n: nat, width: nat)
    requires n < Pow2(width)
    ensures Value(Bits(n, width)) == n
  {
    if width > 0 {
      ValueOfBits(n / 2, width - 1);
      var bits := Bits(n, width);
      assert bits[..|bits| - 1] == Bits(n / 2, width - 1);
    }
  }

  lemma {:induction false} BitsOfValue(bits: seq<bool>)
    ensures Bits(Value(bits), |bits|) == bits
  {
    if bits != [] {
      BitsOfValue(bits[..|bits| - 1]);
    }
  }

  lemma {:induction false} ValueOfConcat(a: seq<bool>, b: seq<bool>)
    ensures Value(a + b) == Value(a) * Pow2(|b|) + Value(b)
  {
    if b == [] {
      assert a + b == a;
    } else {
      var front := b[..|b| - 1];
      assert (a + b)[..|a + b| - 1] == a + front;
      ValueOfConcat(a, front);
      assert Value(b) == 2 * Value(front) + if b[|b| - 1] then 1 else 0;
      assert Value(a + b) == 2 * Value(a + front) + if b[|b| - 1] then 1 else 0;
      assert Pow2(|b|) == 2 * Pow2(|front|);
      Doubled(Pow2(|front|), Value(a));
    }
  }

  // ---------------------------------------------------------------- round trip

  lemma {:induction false} CharBitsLength(text: string)
    requires InAlphabet(text)
    ensures |CharBits(text)| == 5 * |text|
  {
    if text != "" { CharBitsLength(text[1..]); }
  }

  function Fill(n: nat): (k: nat)
    ensures k < 5
  {
    (5 - n % 5) % 5
  }

  lemma {:induction false} FillStep(n: nat)
    requires n >= 5
    ensures Fill(n) == Fill(n - 5)
  {
  }

  lemma {:induction false} OneGroup(group: seq<bool>, tail: string)
    requires |group| == 5 && InAlphabet(tail)
    ensures Value(group) < 32
    ensures var text := [Letter(Value(group))] + tail; InAlphabet(text) && CharBits(text) == group + CharBits(tail)
  {
    ValueBelow(group);
    BitsOfValue(group);
    var text := [Letter(Value(group))] + tail;
    assert text[1..] == tail;
  }

  /** Encoding and reading the characters back gives the bits and at most four zeros more. */
  lemma {:induction false} CharsHoldTheBits(bits: seq<bool>)
    ensures InAlphabet(ToChars(bits))
    ensures CharBits(ToChars(bits)) == bits + Zeros(Fill(|bits|))
    decreases |bits|
  {
    if bits == [] {
    } else if |bits| < 5 {
      LastGroup(bits);
    } else {
      CharsHoldTheBits(bits[5..]);
      FillStep(|bits|);
      FirstGroup(bits, Zeros(Fill(|bits|)));
    }
  }

  lemma {:induction false} LastGroup(bits: seq<bool>)
    requires 0 < |bits| < 5
    ensures InAlphabet(ToChars(bits))
    ensures CharBits(ToChars(bits)) == bits + Zeros(Fill(|bits|))
  {
    var group := bits + Zeros(5 - |bits|);
    OneGroup(group, "");
    assert [Letter(Value(group))] + "" == ToChars(bits);
    assert group + [] == group;
  }

  lemma {:induction false} FirstGroup(bits: seq<bool>, zeros: seq<bool>)
    requires |bits| >= 5
    requires InAlphabet(ToChars(bits[5..])) && CharBits(ToChars(bits[5..])) == bits[5..] + zeros
    ensures InAlphabet(ToChars(bits)) && CharBits(ToChars(bits)) == bits + zeros
  {
    OneGroup(bits[..5], ToChars(bits[5..]));
    assert bits[..5] + (bits[5..] + zeros) == bits + zeros;
  }

  lemma {:induction false} FirstByte(byte: Byte, rest: seq<bool>)
    ensures ToBytes(Bits(byte, 8) + rest) == [byte] + ToBytes(rest)
  {
    var bits := Bits(byte, 8) + rest;
    assert bits[..8] == Bits(byte, 8) && bits[8..] == rest;
    assert Pow2(8) == 256;
    ValueOfBits(byte, 8);
  }

  lemma {:induction false} BytesHoldTheBits(bytes: seq<Byte>, extra: seq<bool>)
    requires |extra| < 8
    ensures ToBytes(ByteBits(bytes) + extra) == bytes
  {
    if bytes == [] {
      assert ByteBits(bytes) + extra == extra;
    } else {
      BytesHoldTheBits(bytes[1..], extra);
      FirstByte(bytes[0], ByteBits(bytes[1..]) + extra);
      Associate(Bits(bytes[0], 8), ByteBits(bytes[1..]), extra);
      assert bytes == [bytes[0]] + bytes[1..];
    }
  }

  lemma {:induction false} PaddingIsStripped(text: string, k: nat)
    requires text == "" || text[|text| - 1] != '='
    ensures WithoutPadding(text + seq(k, i => '=')) == text
  {
    var padded := text + seq(k, i => '=');
    if k == 0 {
      assert padded == text;
    } else {
      assert padded[..|padded| - 1] == text + seq(k - 1, i => '=');
      PaddingIsStripped(text, k - 1);
    }
  }

  /** A character that is a letter or digit of the alphabet once upper-cased. */
  predicate Legible(c: char) {
    InAlphabet(UpperChar(c))
  }

  lemma {:induction false} InAlphabetConcat(s: string, t: string)
    ensures InAlphabet(s + t) <==> InAlphabet(s) && InAlphabet(t)
  {
    if InAlphabet(s + t) {
      forall i | 0 <= i < |s| ensures IndexOf(s[i]) >= 0 { assert (s + t)[i] == s[i]; }
      forall i | 0 <= i < |t| ensures IndexOf(t[i]) >= 0 { assert (s + t)[|s| + i] == t[i]; }
    }
  }

  lemma {:induction false} UpperIsInAlphabetIff(s: string)
    ensures InAlphabet(Upper(s)) <==> forall c :: c in s ==> Legible(c)
  {
    if s != "" {
      UpperIsInAlphabetIff(s[1..]);
      InAlphabetConcat(UpperChar(s[0]), Upper(s[1..]));
      assert s == [s[0]] + s[1..];
      assert InAlphabet(UpperChar(s[0])) <==> Legible(s[0]);
      forall c ensures c in s <==> c == s[0] || c in s[1..] {}
    } else {
      assert Upper(s) == "";
    }
  }

  lemma {:induction false} NeitherBlankNorPaddingIsLegible(c: char)
    requires IsSpace(c) || c == '='
    ensures !Legible(c)
  {
    assert UpperChar(c) == [c] && IndexOf([c][0]) < 0;
  }

  /**
   * The round trip: whatever letter case the encoded text is typed in, and however many `=` follow
   * it, decoding gives the bytes back.
   */
  lemma {:induction false} DecodeOfEncoded(bytes: seq<Byte>, typed: string, k: nat)
    requires Upper(typed) == Encoded(bytes)
    ensures var clean := Cleaned(typed + seq(k, i => '='));
            InAlphabet(clean) && ToBytes(CharBits(clean)) == bytes
  {
    CharsHoldTheBits(ByteBits(bytes));
    UpperIsInAlphabetIff(typed);
    NeitherBlankNorPaddingIsLegible('=');
    PaddingIsStripped(typed, k);
    BytesHoldTheBits(bytes, Zeros(Fill(|ByteBits(bytes)|)));
  }

  /** The same in so many words: each character as encoded, or the small letter for a capital. */
  lemma {:induction false} DecodeInAnyCase(bytes: seq<Byte>, typed: string, k: nat)
    requires |typed| == |Encoded(bytes)|
    requires forall i :: 0 <= i < |typed| ==>
               var c := Encoded(bytes)[i];
               typed[i] == c || ('A' <= c <= 'Z' && typed[i] as int == c as int + 32)
    ensures var clean := Cleaned(typed + seq(k, i => '='));
            InAlphabet(clean) && ToBytes(CharBits(clean)) == bytes
    ensures Strict(typed + seq(k, i => '=')) == Some(bytes)
  {
    CharsHoldTheBits(ByteBits(bytes));
    assert forall i :: 0 <= i < |typed| ==> IndexOf(Encoded(bytes)[i]) >= 0;
    UpperOfAnyCase(typed, Encoded(bytes));
    DecodeOfEncoded(bytes, typed, k);
    DecodersAgree(typed + seq(k, i => '='));
  }

  // ---------------------------------------------------------------- the service's strict decoder

  /** Padding goes first, then white space, and any other character outside the alphabet is an error. */
  function Strict(text: string): Option<seq<Byte>> {
    var clean := Upper(Without(WithoutPadding(text), IsSpace));
    if InAlphabet(clean) then Some(ToBytes(CharBits(clean))) else None
  }

  /** `base32Decode` of the two-factor service. */
  method StrictDecode(text: string) returns (r: Option<seq<Byte>>)
    ensures r == Strict(text)
  {
    var clean := Upper(Without(WithoutPadding(text), IsSpace));
    for i := 0 to |clean|
      invariant forall j :: 0 <= j < i ==> IndexOf(clean[j]) >= 0
    {
      if IndexOf(clean[i]) < 0 { return None; }
    }
    var bits := ReadChars(clean);
    var bytes := WholeBytes(bits);
    r := Some(bytes);
  }

  /** Where the test's decoder is meaningful, the service's gives the same bytes. */
  lemma {:induction false} DecodersAgree(text: string)
    requires InAlphabet(Cleaned(text))
    ensures Strict(text) == Some(ToBytes(CharBits(Cleaned(text))))
  {
    var stripped := WithoutPadding(text);
    UpperIsInAlphabetIff(stripped);
    forall c | IsSpace(c) ensures c !in stripped {
      NeitherBlankNorPaddingIsLegible(c);
    }
    WithoutNothing(stripped, IsSpace);
  }

  /** The round trip again, with white space typed anywhere inside the key. */
  lemma {:induction false} StrictOfEncoded(bytes: seq<Byte>, typed: string, k: nat)
    requires Upper(Without(typed, IsSpace)) == Encoded(bytes)
    ensures Strict(typed + seq(k, i => '=')) == Some(bytes)
  {
    CharsHoldTheBits(ByteBits(bytes));
    UpperIsInAlphabetIff(Without(typed, IsSpace));
    NeitherBlankNorPaddingIsLegible('=');
    WithoutKeeps(typed, IsSpace, '=');
    PaddingIsStripped(typed, k);
    BytesHoldTheBits(bytes, Zeros(Fill(|ByteBits(bytes)|)));
  }

  /**
   * Exactly which texts the service decodes: those that, without the padding at their end, hold nothing
   * but white space and characters that are in the alphabet once upper-cased.
   */
  lemma {:induction false} StrictAcceptsIff(text: string)
    ensures Strict(text).Some? <==> forall c :: c in WithoutPadding(text) ==> IsSpace(c) || Legible(c)
  {
    var stripped := WithoutPadding(text);
    UpperIsInAlphabetIff(Without(stripped, IsSpace));
    forall c ensures c in Without(stripped, IsSpace) <==> c in stripped && !IsSpace(c) {
      WithoutKeeps(stripped, IsSpace, c);
    }
  }

  lemma {:induction false} OnlyPaddingIsStripped(text: string, i: nat)
    requires i < |text| && text[i] != '='
    ensures |WithoutPadding(text)| > i
  {
    if text[|text| - 1] == '=' { OnlyPaddingIsStripped(text[..|text| - 1], i); }
  }

  /** A `=` with anything but `=` behind it stays, and is rejected. */
  lemma {:induction false} PaddingMustComeLast(text: string, i: nat, j: nat)
    requires i < j < |text| && text[i] == '=' && text[j] != '='
    ensures Strict(text) == None
  {
    OnlyPaddingIsStripped(text, j);
    assert WithoutPadding(text)[i] == '=';
    NeitherBlankNorPaddingIsLegible('=');
    StrictAcceptsIff(text);
  }

  /** So white space behind the padding is not forgiven, however much of either there is. */
  lemma {:induction false} SpaceBehindPaddingIsRejected(text: string, blanks: string)
    requires blanks != "" && forall c :: c in blanks ==> IsSpace(c)
    ensures Strict(text + "=" + blanks) == None
  {
    assert IsSpace(blanks[0]);
    PaddingMustComeLast(text + "=" + blanks, |text|, |text| + 1);
  }

  // ---------------------------------------------------------------- what decoding means on any text

  function BigEndian(bytes: seq<Byte>): nat {
    if bytes == [] then 0 else 256 * BigEndian(bytes[..|bytes| - 1]) + bytes[|bytes| - 1]
  }

  function Base32Number(text: string): nat
    requires InAlphabet(text)
  {
    if text == "" then 0 else 32 * Base32Number(text[..|text| - 1]) + IndexOf(text[|text| - 1])
  }

  lemma {:induction false} ByteBitsAppend(bytes: seq<Byte>, byte: Byte)
    ensures ByteBits(bytes + [byte]) == ByteBits(bytes) + Bits(byte, 8)
  {
    if bytes == [] {
      assert bytes + [byte] == [byte] && [byte][1..] == [];
    } else {
      assert (bytes + [byte])[1..] == bytes[1..] + [byte];
      ByteBitsAppend(bytes[1..], byte);
    }
  }

  lemma {:induction false} CharBitsAppend(text: string, c: char)
    requires InAlphabet(text + [c]) && InAlphabet(text) && IndexOf(c) >= 0
    ensures CharBits(text + [c]) == CharBits(text) + Bits(IndexOf(c), 5)
  {
    if text == "" {
      assert text + [c] == [c] && [c][1..] == "";
    } else {
      assert (text + [c])[1..] == text[1..] + [c];
      CharBitsAppend(text[1..], c);
    }
  }

  lemma {:induction false} ValueOfMoreBits(bits: seq<bool>, v: nat)
    requires v < 32
    ensures Value(bits + Bits(v, 5)) == 32 * Value(bits) + v
  {
    assert Pow2(5) == 32;
    ValueOfConcat(bits, Bits(v, 5));
    ValueOfBits(v, 5);
  }

  lemma {:induction false} ValueOfCharBits(text: string)
    requires InAlphabet(text)
    ensures Value(CharBits(text)) == Base32Number(text)
  {
    if text != "" {
      var front, c := text[..|text| - 1], text[|text| - 1];
      assert text == front + [c];
      CharBitsAppend(front, c);
      ValueOfCharBits(front);
      ValueOfMoreBits(CharBits(front), IndexOf(c));
    }
  }

  lemma {:induction false} ToBytesAppend(bits: seq<bool>, group: seq<bool>, rest: seq<bool>)
    requires |bits| % 8 == 0 && |group| == 8 && |rest| < 8
    ensures Value(group) < 256
    ensures ToBytes(bits + group + rest) == ToBytes(bits) + [Value(group)]
    decreases |bits|
  {
    ValueBelow(group);
    if bits == [] {
      assert (bits + group + rest)[..8] == group && (bits + group + rest)[8..] == rest;
    } else {
      assert (bits + group + rest)[..8] == bits[..8];
      assert (bits + group + rest)[8..] == bits[8..] + group + rest;
      ToBytesAppend(bits[8..], group, rest);
    }
  }

  lemma {:induction false} ToBytesDropsRest(bits: seq<bool>, rest: seq<bool>)
    requires |bits| % 8 == 0 && |rest| < 8
    ensures ToBytes(bits + rest) == ToBytes(bits) && |ToBytes(bits)| == |bits| / 8
    decreases |bits|
  {
    if bits == [] {
      assert bits + rest == rest;
    } else {
      assert (bits + rest)[..8] == bits[..8] && (bits + rest)[8..] == bits[8..] + rest;
      ToBytesDropsRest(bits[8..], rest);
    }
  }

  lemma {:induction false} BigEndianOfBits(bits: seq<bool>)
    requires |bits| % 8 == 0
    ensures BigEndian(ToBytes(bits)) == Value(bits)
    decreases |bits|
  {
    if bits != [] {
      var front, group := bits[..|bits| - 8], bits[|bits| - 8..];
      assert bits == front + group + [];
      ToBytesAppend(front, group, []);
      BigEndianOfBits(front);
      assert front + group == bits;
      ValueOfConcat(front, group);
      assert Pow2(8) == 256;
      var bytes := ToBytes(bits);
      assert bytes[..|bytes| - 1] == ToBytes(front);
    }
  }

  lemma {:induction false} DroppedBitsDivide(front: seq<bool>, rest: seq<bool>)
    ensures Value(front) == Value(front + rest) / Pow2(|rest|)
  {
    ValueOfConcat(front, rest);
    ValueBelow(rest);
    QuotientIs(Value(front + rest), Value(front), Pow2(|rest|), Value(rest));
  }

  lemma {:induction false} QuotientIs(a: nat, q: nat, m: nat, r: nat)
    requires a == q * m + r && r < m
    ensures a / m == q
  {
    assert q * m == m * q;
    Remainder(a, m, q, r);
  }

  lemma {:induction false} WholeEighths(n: nat)
    ensures (n - n % 8) % 8 == 0 && (n - n % 8) / 8 == n / 8
  {}

  /**
   * On any text over the alphabet, n characters decode to 5n/8 bytes, and those are the big-endian
   * base-32 number of the text with its 5n mod 8 last bits shifted out.
   */
  lemma {:induction false} DecodeIsAShiftedNumber(text: string)
    requires InAlphabet(text)
    ensures |ToBytes(CharBits(text))| == 5 * |text| / 8
    ensures BigEndian(ToBytes(CharBits(text))) == Base32Number(text) / Pow2(5 * |text| % 8)
  {
    var bits := CharBits(text);
    CharBitsLength(text);
    var whole := |bits| - |bits| % 8;
    WholeEighths(|bits|);
    var front, rest := bits[..whole], bits[whole..];
    assert bits == front + rest;
    ToBytesDropsRest(front, rest);
    BigEndianOfBits(front);
    DroppedBitsDivide(front, rest);
    ValueOfCharBits(text);
  }

  // ---------------------------------------------------------------- the streaming encoder

  lemma {:induction false} BitsLow(n: nat, m: nat, width: nat)
    requires n % Pow2(width) == m % Pow2(width)
    ensures Bits(n, width) == Bits(m, width)
  {
    if width > 0 {
      var p := Pow2(width - 1);
      HalfMod(n, p);
      HalfMod(m, p);
      BitsLow(n / 2, m / 2, width - 1);
    }
  }

  function Quotient(n: nat, m: nat): nat
    requires m > 0
  {
    n / m
  }

  /** The a + b low bits of n are the a low bits of n / 2^b and then the b low bits of n. */
  lemma {:induction false} BitsSplit(n: nat, a: nat, b: nat)
    ensures Bits(n, a + b) == Bits(Quotient(n, Pow2(b)), a) + Bits(n, b)
    decreases b
  {
    if b == 0 {
      assert Bits(n, a) + [] == Bits(n, a);
    } else {
      var p := Pow2(b - 1);
      HalfMod(n, p);
      BitsSplit(n / 2, a, b - 1);
      assert Quotient(n / 2, p) == Quotient(n, 2 * p);
      JoinLast(n, a, b, Bits(Quotient(n / 2, p), a));
    }
  }

  lemma {:induction false} JoinLast(n: nat, a: nat, b: nat, high: seq<bool>)
    requires b > 0 && Bits(n / 2, a + b - 1) == high + Bits(n / 2, b - 1)
    ensures Bits(n, a + b) == high + Bits(n, b)
  {
    assert high + Bits(n / 2, b - 1) + [n % 2 == 1] == high + (Bits(n / 2, b - 1) + [n % 2 == 1]);
  }

  lemma {:induction false} ToCharsAppend(done: seq<bool>, group: seq<bool>)
    requires |done| % 5 == 0 && 0 < |group| <= 5
    ensures Value(group + Zeros(5 - |group|)) < 32
    ensures ToChars(done + group) == ToChars(done) + [Letter(Value(group + Zeros(5 - |group|)))]
    decreases |done|
  {
    ValueBelow(group + Zeros(5 - |group|));
    if done == [] {
      assert done + group == group;
      if |group| == 5 {
        assert group + Zeros(0) == group && group[..5] == group && group[5..] == [];
      }
    } else {
      assert (done + group)[..5] == done[..5] && (done + group)[5..] == done[5..] + group;
      ToCharsAppend(done[5..], group);
    }
  }
}
