/** Time-based one-time passwords: truncation, generator and verifier. */
module Totp {
  import opened Wrappers
  import opened Text
  import opened Int32
  import opened Base32

  // Dynamic truncation is section 5.3 of RFC 4226, here with JavaScript's 32-bit operators; generator and
  // verifier meet across a clock difference as in section 4 of RFC 6238. HMAC-SHA1 is a parameter.

  type Mac = m: seq<Byte> | |m| == 20 witness seq(20, i => 0)
  type Hmac = (seq<Byte>, seq<Byte>) -> Mac

  const STEP_SECONDS := 30
  const DIGIT_COUNT := 6

  // ---------------------------------------------------------------- truncation

  lemma {:induction false} LowFour(b: Byte)
    ensures And(b, 0x0f) == b % 16
  {
    Pow2Values();
    AndByte(b, 4, 0x0f);
  }

  lemma {:induction false} LowSeven(b: Byte)
    ensures And(b, 0x7f) == b % 128
  {
    Pow2Values();
    AndByte(b, 7, 0x7f);
  }

  lemma {:induction false} LowEight(b: Byte)
    ensures And(b, 0xff) == b
  {
    assert Pow2(8) == 256;
    AndByte(b, 8, 0xff);
  }

  function Offset(mac: Mac): (o: nat)
    ensures o < 16
  {
    LowFour(mac[19]);
    And(mac[19], 0x0f)
  }

  function Join(a: int, b: int, c: int, d: int): int {
    Or(Or(Or(Shl(a, 24), Shl(b, 16)), Shl(c, 8)), d)
  }

  function JoinMasked(mask: int, a: Byte, b: Byte, c: Byte, d: Byte): int {
    Join(And(a, mask), And(b, 0xff), And(c, 0xff), And(d, 0xff))
  }

  /** The code of `totp`. */
  function Truncated(mac: Mac): int {
    var o := Offset(mac);
    JoinMasked(0x7f, mac[o], mac[o + 1], mac[o + 2], mac[o + 3])
  }

  /** The same without the 0x7f mask on the leading byte. */
  function TruncatedUnmasked(mac: Mac): int {
    var o := Offset(mac);
    JoinMasked(0xff, mac[o], mac[o + 1], mac[o + 2], mac[o + 3])
  }

  /** Four bytes from a place on, as a big-endian number. */
  function Window(mac: Mac, o: nat): nat
    requires o < 16
  {
    BigEndian(mac[o..o + 4])
  }

  function Word32(a: nat, b: nat, c: nat, d: nat): nat {
    0x100_0000 * a + 0x1_0000 * b + 0x100 * c + d
  }

  lemma {:induction false} BigEndianOfFour(w: seq<Byte>)
    requires |w| == 4
    ensures BigEndian(w) == Word32(w[0], w[1], w[2], w[3])
  {
    assert w[..3][..2] == w[..2] && w[..2][..1] == w[..1] && w[..1][..0] == [];
    assert BigEndian(w[..1]) == w[0];
    assert BigEndian(w[..2]) == 256 * BigEndian(w[..1]) + w[1];
    assert BigEndian(w[..3]) == 256 * BigEndian(w[..2]) + w[2];
  }

  /** Or-ing into the free low bits of a 32-bit pattern is addition. */
  lemma {:induction false} OrIsSum(x: int, a: nat, b: nat, k: nat)
    requires Pattern(x) == a * Pow2(k) && b < Pow2(k) && a * Pow2(k) + b < WORD
    ensures Or(x, b) == Signed(a * Pow2(k) + b)
  {
    var high := Pattern(x);
    assert high + b < WORD;
    assert Pattern(b) == b;
    BitOrLow(a, b, k);
    assert BitOr(high, b) == high + b;
  }

  lemma {:induction false} ShlIsProduct(a: nat, k: nat)
    requires a * Pow2(k) < WORD
    ensures Shl(a, k) == Signed(a * Pow2(k))
  {
  }

  lemma {:induction false} JoinTwo(a: Byte, b: Byte)
    ensures Or(Shl(a, 24), Shl(b, 16)) == Signed(Word32(a, b, 0, 0))
  {
    Pow2Values();
    ShlIsProduct(a, 24);
    ShlIsProduct(b, 16);
    PatternOfSigned(Word32(a, 0, 0, 0));
    OrIsSum(Signed(Word32(a, 0, 0, 0)), a, b * 0x1_0000, 24);
  }

  lemma {:induction false} JoinThird(a: Byte, b: Byte, c: Byte)
    ensures Or(Signed(Word32(a, b, 0, 0)), Shl(c, 8)) == Signed(Word32(a, b, c, 0))
  {
    Pow2Values();
    ShlIsProduct(c, 8);
    PatternOfSigned(Word32(a, b, 0, 0));
    OrIsSum(Signed(Word32(a, b, 0, 0)), a * 0x100 + b, c * 0x100, 16);
  }

  lemma {:induction false} JoinLast(a: Byte, b: Byte, c: Byte, d: Byte)
    ensures Or(Signed(Word32(a, b, c, 0)), d) == Signed(Word32(a, b, c, d))
  {
    Pow2Values();
    PatternOfSigned(Word32(a, b, c, 0));
    OrIsSum(Signed(Word32(a, b, c, 0)), a * 0x1_0000 + b * 0x100 + c, d, 8);
  }

  /** The joined bytes are the four bytes as a signed 32-bit number. */
  lemma {:induction false} JoinIsWord(a: Byte, b: Byte, c: Byte, d: Byte)
    ensures Join(a, b, c, d) == Signed(Word32(a, b, c, d))
  {
    JoinTwo(a, b);
    JoinThird(a, b, c);
    JoinLast(a, b, c, d);
  }

  lemma {:induction false} LeadingBitOff(a: Byte, b: Byte, c: Byte, d: Byte)
    ensures Signed(Word32(a % 128, b, c, d)) == Word32(a, b, c, d) % 0x8000_0000
  {
    var low := Word32(a % 128, b, c, d);
    assert low < 0x8000_0000;
    if a < 128 {
      assert low == Word32(a, b, c, d);
    } else {
      assert Word32(a, b, c, d) == low + 0x8000_0000;
    }
  }

  lemma {:induction false} MaskedJoin(a: Byte, b: Byte, c: Byte, d: Byte)
    ensures JoinMasked(0x7f, a, b, c, d) == Join(a % 128, b, c, d)
    ensures JoinMasked(0xff, a, b, c, d) == Join(a, b, c, d)
  {
    LowSeven(a);
    LowEight(a);
    LowEight(b);
    LowEight(c);
    LowEight(d);
  }

  /**
   * The code is the big-endian window at the offset that the low four bits of the last byte give, modulo
   * 2^31; in particular it is never negative. */
  lemma {:induction false} TruncationIsTheWindow(mac: Mac)
    ensures Truncated(mac) == Window(mac, mac[19] % 16) % 0x8000_0000
    ensures TruncatedUnmasked(mac) == Signed(Window(mac, mac[19] % 16))
  {
    LowFour(mac[19]);
    var o := Offset(mac);
    MaskedJoin(mac[o], mac[o + 1], mac[o + 2], mac[o + 3]);
    JoinIsWord(mac[o] % 128, mac[o + 1], mac[o + 2], mac[o + 3]);
    LeadingBitOff(mac[o], mac[o + 1], mac[o + 2], mac[o + 3]);
    JoinIsWord(mac[o], mac[o + 1], mac[o + 2], mac[o + 3]);
    BigEndianOfFour(mac[o..o + 4]);
  }

  /** What the 0x7f mask is for: without it the code is negative exactly when the leading byte has its top bit. */
  lemma {:induction false} MaskKeepsTheSign(mac: Mac)
    ensures TruncatedUnmasked(mac) < 0 <==> mac[mac[19] % 16] >= 128
  {
    var o := mac[19] % 16;
    TruncationIsTheWindow(mac);
    BigEndianOfFour(mac[o..o + 4]);
  }

  function Printed(mac: Mac): string {
    TruncationIsTheWindow(mac);
    PadStart(Decimal(Truncated(mac) % 1_000_000), DIGIT_COUNT)
  }

  /** What is shown is six digits, and they are the window modulo 2^31 modulo 10^6. */
  lemma {:induction false} PrintedCode(mac: Mac)
    ensures |Printed(mac)| == 6 && forall c :: c in Printed(mac) ==> IsDigit(c)
    ensures NumberOf(Printed(mac)) == Window(mac, mac[19] % 16) % 0x8000_0000 % 1_000_000
  {
    TruncationIsTheWindow(mac);
    assert Pow10(3) == 1000 && Pow10(6) == 1_000_000;
    PaddedDecimal(Truncated(mac) % 1_000_000, 6);
  }

  // ---------------------------------------------------------------- the moving counter

  /** `writeBigUInt64BE(counter)`: the eight bytes, or the RangeError. */
  function CounterBytes(counter: int): Option<seq<Byte>> {
    if 0 <= counter < 0x1_0000_0000_0000_0000 then Some(Digits256(counter, 8)) else None
  }

  function Digits256(n: nat, k: nat): (bytes: seq<Byte>)
    ensures |bytes| == k
  {
    if k == 0 then [] else Digits256(n / 256, k - 1) + [n % 256]
  }

  function Pow256(k: nat): (p: nat)
    ensures p >= 1
  {
    if k == 0 then 1 else 256 * Pow256(k - 1)
  }

  lemma {:induction false} BigEndianOfDigits(n: nat, k: nat)
    requires n < Pow256(k)
    ensures BigEndian(Digits256(n, k)) == n
  {
    if k > 0 {
      BigEndianOfDigits(n / 256, k - 1);
      var bytes := Digits256(n, k);
      assert bytes[..|bytes| - 1] == Digits256(n / 256, k - 1);
    }
  }

  /** The message of the HMAC determines the counter. */
  lemma {:induction false} CounterBytesAreBigEndian(counter: int)
    ensures CounterBytes(counter).Some? <==> 0 <= counter < 0x1_0000_0000_0000_0000
    ensures CounterBytes(counter).Some? ==>
              |CounterBytes(counter).value| == 8 && BigEndian(CounterBytes(counter).value) == counter
  {
    assert Pow256(2) == 0x1_0000 && Pow256(4) == 0x1_0000_0000 && Pow256(6) == 0x1_0000_0000_0000;
    assert Pow256(8) == 0x1_0000_0000_0000_0000;
    if CounterBytes(counter).Some? { BigEndianOfDigits(counter, 8); }
  }

  /** `Math.floor(Date.now() / 1000 / 30)`. */
  function Counter(milliseconds: nat): nat {
    milliseconds / (1000 * STEP_SECONDS)
  }

  /** A counter stands for exactly the thirty seconds that begin at its multiple. */
  lemma {:induction false} CounterSpansThirtySeconds(milliseconds: nat, counter: nat)
    ensures Counter(milliseconds) == counter <==> 30_000 * counter <= milliseconds < 30_000 * (counter + 1)
  {
    var c := Counter(milliseconds);
    assert 30_000 * c <= milliseconds < 30_000 * (c + 1);
    if c < counter { assert c + 1 <= counter; }
  }

  // ---------------------------------------------------------------- generator and verifier

  /** The code for a key and a counter; None where the code throws. */
  function CodeFor(hmac: Hmac, key: seq<Byte>, counter: int): Option<string> {
    match CounterBytes(counter)
    case None => None
    case Some(message) => Some(Printed(hmac(key, message)))
  }

  /**
   * The code for a key and a counter: six digits, which are what the MAC under that key of the counter's
   * eight big-endian bytes shows at its offset; none exactly when the counter does not fit.
   */
  lemma {:induction false} CodeIs(hmac: Hmac, key: seq<Byte>, counter: int) returns (message: seq<Byte>)
    ensures CodeFor(hmac, key, counter).Some? <==> 0 <= counter < 0x1_0000_0000_0000_0000
    ensures CodeFor(hmac, key, counter).Some? ==>
              var code, mac := CodeFor(hmac, key, counter).value, hmac(key, message);
              && |message| == 8 && BigEndian(message) == counter
              && |code| == 6 && (forall c :: c in code ==> IsDigit(c))
              && NumberOf(code) == Window(mac, mac[19] % 16) % 0x8000_0000 % 1_000_000
  {
    CounterBytesAreBigEndian(counter);
    message := [];
    if CounterBytes(counter).Some? {
      message := CounterBytes(counter).value;
      PrintedCode(hmac(key, message));
    }
  }

  /** `totp` of the test script, with its lenient decoder. */
  method Generate(hmac: Hmac, secret: string, milliseconds: nat) returns (code: Option<string>)
    requires InAlphabet(Cleaned(secret))
    ensures code == CodeFor(hmac, ToBytes(CharBits(Cleaned(secret))), Counter(milliseconds))
  {
    var message := CounterBytes(Counter(milliseconds));
    if message.None? { return None; }
    var key := Decode(secret);
    code := Some(Printed(hmac(key, message.value)));
  }

  /** `totp` of the service, with its strict decoder. */
  function ServiceCode(hmac: Hmac, secret: string, counter: int): Option<string> {
    match Strict(secret)
    case None => None
    case Some(key) => CodeFor(hmac, key, counter)
  }

  predicate Separator(c: char) { IsSpace(c) || c == '-' }

  /** `[-1, 0, 1].some(...)` from a given offset on; None when a code asked for throws. */
  function Accepts(codes: int -> Option<string>, entered: string, current: int, ahead: int): Option<bool>
    decreases 2 - ahead
  {
    if ahead > 1 then Some(false) else
      match codes(current + ahead)
      case None => None
      case Some(code) => if code == entered then Some(true) else Accepts(codes, entered, current, ahead + 1)
  }

  function ServiceCodes(hmac: Hmac, secret: string): int -> Option<string> {
    counter => ServiceCode(hmac, secret, counter)
  }

  /** `verifyTotp`. */
  method Verify(hmac: Hmac, secret: string, typed: string, milliseconds: nat) returns (ok: Option<bool>)
    ensures ok == Accepts(ServiceCodes(hmac, secret), Without(typed, Separator), Counter(milliseconds), -1)
  {
    ok := VerifyWith(ServiceCodes(hmac, secret), Without(typed, Separator), Counter(milliseconds));
  }

  /** Its `some` over the three counters. */
  method VerifyWith(codes: int -> Option<string>, entered: string, current: int) returns (ok: Option<bool>)
    ensures ok == Accepts(codes, entered, current, -1)
  {
    var ahead: int := -1;
    while ahead <= 1
      invariant -1 <= ahead <= 2
      invariant Accepts(codes, entered, current, ahead) == Accepts(codes, entered, current, -1)
    {
      var code := codes(current + ahead);
      if code.None? { return None; }
      if code.value == entered { return Some(true); }
      ahead := ahead + 1;
    }
    ok := Some(false);
  }

  /** White space and hyphens in the entry are ignored wherever they stand, and digits are taken as they are. */
  lemma {:induction false} SeparatorsAreIgnored(a: string, c: char, b: string)
    ensures c == '-' || c == ' ' || c == '\t' || c == '\n' ==>
              Without(a + [c] + b, Separator) == Without(a + b, Separator)
    ensures (forall d :: d in a ==> IsDigit(d)) ==> Without(a, Separator) == a
  {
    if Separator(c) { WithoutInserted(a, c, b, Separator); }
    if forall d :: d in a ==> IsDigit(d) { WithoutNothing(a, Separator); }
  }

  /** Three counters that have codes: accepted exactly when the entry is one of the three codes. */
  lemma {:induction false} AcceptsExactlyTheWindow(codes: int -> Option<string>, entered: string, current: int)
    requires codes(current - 1).Some? && codes(current).Some? && codes(current + 1).Some?
    ensures Accepts(codes, entered, current, -1)
            == Some(Some(entered) in [codes(current - 1), codes(current), codes(current + 1)])
  {
    var three := [codes(current - 1), codes(current), codes(current + 1)];
    assert Accepts(codes, entered, current, 1) == Some(three[2] == Some(entered));
    assert Accepts(codes, entered, current, 0) == Some(three[1] == Some(entered) || three[2] == Some(entered));
  }

  lemma {:induction false} NearbyCodeIsAccepted(codes: int -> Option<string>, entered: string, current: int,
                                                counter: int)
    requires codes(current - 1).Some? && codes(current).Some? && codes(current + 1).Some?
    requires -1 <= counter - current <= 1 && codes(counter) == Some(entered)
    ensures Accepts(codes, entered, current, -1) == Some(true)
  {
    AcceptsExactlyTheWindow(codes, entered, current);
    assert [codes(current - 1), codes(current), codes(current + 1)][counter - current + 1] == codes(counter);
  }

  lemma {:induction false} CodesOfKey(hmac: Hmac, key: seq<Byte>, secret: string, counter: int)
    requires Strict(secret) == Some(key)
    ensures ServiceCodes(hmac, secret)(counter) == CodeFor(hmac, key, counter)
    ensures ServiceCodes(hmac, secret)(counter).Some? <==> 0 <= counter < 0x1_0000_0000_0000_0000
  {}

  lemma {:induction false} ThrowsAtOnce(codes: int -> Option<string>, entered: string, current: int)
    requires codes(current - 1) == None
    ensures Accepts(codes, entered, current, -1) == None
  {
    assert current + -1 == current - 1;
  }

  /** In the first thirty seconds of the epoch the verifier throws: it asks for the code of counter -1. */
  lemma {:induction false} NoVerdictInTheFirstStep(hmac: Hmac, key: seq<Byte>, secret: string, entered: string,
                                                  milliseconds: nat)
    requires Strict(secret) == Some(key) && milliseconds < 30_000
    ensures Accepts(ServiceCodes(hmac, secret), entered, Counter(milliseconds), -1) == None
  {
    CodesOfKey(hmac, key, secret, -1);
    assert Counter(milliseconds) == 0;
    ThrowsAtOnce(ServiceCodes(hmac, secret), entered, 0);
  }

  lemma {:induction false} VerdictLater(hmac: Hmac, key: seq<Byte>, secret: string, entered: string, current: int)
    requires Strict(secret) == Some(key) && 1 <= current < 0x1_0000_0000_0000_0000 - 1
    ensures Accepts(ServiceCodes(hmac, secret), entered, current, -1).Some?
  {
    CodesOfKey(hmac, key, secret, current - 1);
    CodesOfKey(hmac, key, secret, current);
    CodesOfKey(hmac, key, secret, current + 1);
    AcceptsExactlyTheWindow(ServiceCodes(hmac, secret), entered, current);
  }

  /** And only then, up to the last counter that has eight bytes. */
  lemma {:induction false} NoVerdictIffFirstStep(hmac: Hmac, key: seq<Byte>, secret: string, entered: string,
                                                milliseconds: nat)
    requires Strict(secret) == Some(key) && Counter(milliseconds) < 0x1_0000_0000_0000_0000 - 1
    ensures Accepts(ServiceCodes(hmac, secret), entered, Counter(milliseconds), -1) == None <==> milliseconds < 30_000
  {
    CounterSpansThirtySeconds(milliseconds, 0);
    if milliseconds < 30_000 {
      NoVerdictInTheFirstStep(hmac, key, secret, entered, milliseconds);
    } else {
      VerdictLater(hmac, key, secret, entered, Counter(milliseconds));
    }
  }

  /** For any stored key: the verifier throws exactly when the key cannot be decoded or in that first step. */
  lemma {:induction false} NoVerdictIff(hmac: Hmac, secret: string, entered: string, milliseconds: nat)
    requires Counter(milliseconds) < 0x1_0000_0000_0000_0000 - 1
    ensures Accepts(ServiceCodes(hmac, secret), entered, Counter(milliseconds), -1) == None <==>
              Strict(secret) == None || milliseconds < 30_000
  {
    match Strict(secret)
    case None => ThrowsAtOnce(ServiceCodes(hmac, secret), entered, Counter(milliseconds));
    case Some(key) => NoVerdictIffFirstStep(hmac, key, secret, entered, milliseconds);
  }

  lemma {:induction false} ClocksWithinAStep(generated: nat, checked: nat)
    requires -30_000 <= checked - generated <= 30_000
    ensures -1 <= Counter(generated) - Counter(checked) <= 1
  {
  }

  /**
   * The two ends meet: for every key, whatever letter case, spaces and padding the manual entry key is
   * typed with on either side, the code generated at one time is accepted at another, as long as the
   * clocks are at most thirty seconds apart and not in the first step of the epoch.
   */
  lemma {:induction false} GeneratedCodeIsAccepted(hmac: Hmac, key: seq<Byte>, atUser: string, stored: string, pad: nat,
                                                  typed: string, generated: nat, checked: nat)
    requires Upper(atUser) == Encoded(key) && Upper(Without(stored, IsSpace)) == Encoded(key)
    requires 1 <= Counter(checked) < 0x1_0000_0000_0000_0000 - 1
    requires -30_000 <= checked - generated <= 30_000
    ensures var secret := atUser + seq(pad, i => '=');
            InAlphabet(Cleaned(secret)) &&
            var code := CodeFor(hmac, ToBytes(CharBits(Cleaned(secret))), Counter(generated));
            code.Some? && (Without(typed, Separator) == code.value ==>
              Accepts(ServiceCodes(hmac, stored), Without(typed, Separator), Counter(checked), -1) == Some(true))
  {
    DecodeOfEncoded(key, atUser, pad);
    StoredKey(key, stored);
    ClocksWithinAStep(generated, checked);
    var entered := Without(typed, Separator);
    AcceptedAtAnyNearbyTime(hmac, key, stored, entered, Counter(checked), Counter(generated));
  }

  lemma {:induction false} AcceptedAtAnyNearbyTime(hmac: Hmac, key: seq<Byte>, secret: string, entered: string,
                                                  current: int, counter: int)
    requires Strict(secret) == Some(key) && -1 <= counter - current <= 1
    requires 1 <= current < 0x1_0000_0000_0000_0000 - 1
    ensures CodeFor(hmac, key, counter).Some?
    ensures CodeFor(hmac, key, counter) == Some(entered) ==>
              Accepts(ServiceCodes(hmac, secret), entered, current, -1) == Some(true)
  {
    var codes := ServiceCodes(hmac, secret);
    CodesOfKey(hmac, key, secret, current - 1);
    CodesOfKey(hmac, key, secret, current);
    CodesOfKey(hmac, key, secret, current + 1);
    if codes(counter) == Some(entered) {
      NearbyCodeIsAccepted(codes, entered, current, counter);
    }
  }

  lemma {:induction false} StoredKey(key: seq<Byte>, stored: string)
    requires Upper(Without(stored, IsSpace)) == Encoded(key)
    ensures Strict(stored) == Some(key)
  {
    StrictOfEncoded(key, stored, 0);
    assert stored + seq(0, i => '=') == stored;
  }
}
