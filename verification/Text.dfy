/**
 * String operations the scripts use. A string is a sequence of characters, and a character is a Unicode
 * scalar value; where JavaScript's own view of it as UTF-16 code units decides the result, as in sorting,
 * the code units are spelled out. Letter case is modelled as far as it can lead to ASCII letters, white
 * space as the pattern `\s` has it, and numbers are written and read in decimal, padded where asked.
 */
module Text {
  import opened Wrappers

  /** The UTF-16 code units of a character. */
  function Units(c: char): seq<int> {
    var n := c as int;
    if n < 0x1_0000 then [n] else [0xD800 + (n - 0x1_0000) / 0x400, 0xDC00 + (n - 0x1_0000) % 0x400]
  }

  function CodeUnits(s: string): seq<int> {
    if s == "" then [] else Units(s[0]) + CodeUnits(s[1..])
  }

  predicate UnitsLess(a: seq<int>, b: seq<int>) {
    if b == [] then false
    else if a == [] then true
    else if a[0] != b[0] then a[0] < b[0]
    else UnitsLess(a[1..], b[1..])
  }

  /** Where a character stands when strings are compared by code units: surrogate pairs come before U+E000. */
  function Rank(c: char): int {
    var n := c as int;
    if n < 0xD800 then n else if n < 0x1_0000 then n + 0x10_0000 else n - 0x2800
  }

  /** The order of JavaScript's default `sort`. */
  predicate Less(a: string, b: string) {
    if b == "" then false
    else if a == "" then true
    else if a[0] != b[0] then Rank(a[0]) < Rank(b[0])
    else Less(a[1..], b[1..])
  }

  /** It compares UTF-16 code unit by code unit, a proper prefix first. */
  lemma {:induction false} LessComparesCodeUnits(a: string, b: string)
    ensures Less(a, b) <==> UnitsLess(CodeUnits(a), CodeUnits(b))
  {
    if a != "" && b != "" {
      if a[0] == b[0] {
        LessComparesCodeUnits(a[1..], b[1..]);
      }
    }
  }

  lemma {:induction false} LessIsStrict(a: string, b: string)
    ensures Less(a, b) ==> a != b && !Less(b, a)
  {
    if a != "" && b != "" && a[0] == b[0] {
      LessIsStrict(a[1..], b[1..]);
    }
  }

  lemma {:induction false} LessIsTotal(a: string, b: string)
    ensures Less(a, b) || a == b || Less(b, a)
  {
    if a != "" && b != "" && a[0] == b[0] {
      LessIsTotal(a[1..], b[1..]);
      assert a == [a[0]] + a[1..] && b == [b[0]] + b[1..];
    }
  }

  lemma {:induction false} LessIsTransitive(a: string, b: string, c: string)
    requires Less(a, b) && Less(b, c)
    ensures Less(a, c)
  {
    if a != "" && b != "" && c != "" && a[0] == b[0] == c[0] {
      LessIsTransitive(a[1..], b[1..], c[1..]);
    }
  }

  function LowerChar(c: char): char {
    if 'A' <= c <= 'Z' then c + 32 as char else c
  }

  function Lower(s: string): (r: string)
    ensures |r| == |s|
  {
    seq(|s|, i requires 0 <= i < |s| => LowerChar(s[i]))
  }

  /** The word in any letter case: each letter as it stands or as its capital, thirty-two code points below. */
  predicate InAnyCase(s: string, word: string) {
    && |s| == |word|
    && forall i :: 0 <= i < |s| ==> s[i] == word[i] || ('A' <= s[i] <= 'Z' && s[i] as int + 32 == word[i] as int)
  }

  /** What comparing `toLowerCase` with a word of small letters means. */
  lemma {:induction false} LowerMeansAnyCase(s: string, word: string)
    requires forall i :: 0 <= i < |word| ==> 'a' <= word[i] <= 'z'
    ensures Lower(s) == word <==> InAnyCase(s, word)
  {
    if Lower(s) == word {
      forall i | 0 <= i < |s| ensures LowerChar(s[i]) == word[i] { assert Lower(s)[i] == word[i]; }
    }
  }

  /**
   * `toUpperCase` as far as it leads to the letters A to Z: besides a to z, dotless i, long s, sharp s
   * and the f and st ligatures do. Any other character stays outside them.
   */
  function UpperChar(c: char): string {
    if 'a' <= c <= 'z' then [c - 32 as char]
    else if c == '\U{0131}' then "I"
    else if c == '\U{017F}' then "S"
    else if c == '\U{00DF}' then "SS"
    else if c == '\U{FB00}' then "FF"
    else if c == '\U{FB01}' then "FI"
    else if c == '\U{FB02}' then "FL"
    else if c == '\U{FB03}' then "FFI"
    else if c == '\U{FB04}' then "FFL"
    else if c == '\U{FB05}' || c == '\U{FB06}' then "ST"
    else [c]
  }

  function Upper(s: string): string {
    if s == "" then "" else UpperChar(s[0]) + Upper(s[1..])
  }

  /** Capitals and digits typed in any letter case, read in capitals, are what they were. */
  lemma {:induction false} UpperOfAnyCase(typed: string, text: string)
    requires |typed| == |text| && forall i :: 0 <= i < |text| ==> 'A' <= text[i] <= 'Z' || IsDigit(text[i])
    requires forall i :: 0 <= i < |text| ==>
               typed[i] == text[i] || ('A' <= text[i] <= 'Z' && typed[i] as int == text[i] as int + 32)
    ensures Upper(typed) == text
  {
    if text != "" {
      UpperOfAnyCase(typed[1..], text[1..]);
      assert UpperChar(typed[0]) == [text[0]];
      assert text == [text[0]] + text[1..];
    }
  }

  /** `\s` of a regular expression, and what `trim` strips. */
  predicate IsSpace(c: char) {
    var n := c as int;
    n == 0x20 || 0x09 <= n <= 0x0D || n == 0xA0 || n == 0x1680 || 0x2000 <= n <= 0x200A
    || n == 0x2028 || n == 0x2029 || n == 0x202F || n == 0x205F || n == 0x3000 || n == 0xFEFF
  }

  /** `replace(pattern, '')` for a pattern that matches single characters. */
  function Without(s: string, dropped: char -> bool): string {
    if s == "" then "" else (if dropped(s[0]) then "" else [s[0]]) + Without(s[1..], dropped)
  }

  lemma {:induction false} WithoutNothing(s: string, dropped: char -> bool)
    requires forall c :: c in s ==> !dropped(c)
    ensures Without(s, dropped) == s
  {
    if s != "" {
      WithoutNothing(s[1..], dropped);
      assert s == [s[0]] + s[1..];
    }
  }

  lemma {:induction false} WithoutKeeps(s: string, dropped: char -> bool, c: char)
    ensures c in Without(s, dropped) <==> c in s && !dropped(c)
  {
    if s != "" {
      WithoutKeeps(s[1..], dropped, c);
      assert c in s <==> c == s[0] || c in s[1..];
    }
  }

  /** A dropped character may stand anywhere. */
  lemma {:induction false} WithoutInserted(a: string, c: char, b: string, dropped: char -> bool)
    requires dropped(c)
    ensures Without(a + [c] + b, dropped) == Without(a + b, dropped)
  {
    if a == "" {
      assert a + [c] + b == [c] + b && a + b == b && ([c] + b)[1..] == b;
    } else {
      assert (a + [c] + b)[0] == a[0] && (a + [c] + b)[1..] == a[1..] + [c] + b;
      assert (a + b)[0] == a[0] && (a + b)[1..] == a[1..] + b;
      WithoutInserted(a[1..], c, b, dropped);
    }
  }

  /** `trim`. */
  function Trim(s: string): string {
    if s == "" then ""
    else if IsSpace(s[0]) then Trim(s[1..])
    else if IsSpace(s[|s| - 1]) then Trim(s[..|s| - 1])
    else s
  }

  lemma {:induction false} TrimIsEmptyIffBlank(s: string)
    ensures Trim(s) == "" <==> forall c :: c in s ==> IsSpace(c)
  {
    if s != "" {
      if IsSpace(s[0]) {
        TrimIsEmptyIffBlank(s[1..]);
        assert s == [s[0]] + s[1..];
      } else if IsSpace(s[|s| - 1]) {
        TrimIsEmptyIffBlank(s[..|s| - 1]);
        assert s == s[..|s| - 1] + [s[|s| - 1]];
      }
    }
  }

  /** It is what is left between the white space at the two ends. */
  lemma {:induction false} TrimIsTheMiddle(s: string) returns (i: nat, j: nat)
    ensures i <= j <= |s| && Trim(s) == s[i..j]
    ensures forall k :: 0 <= k < i || j <= k < |s| ==> IsSpace(s[k])
    ensures i < j ==> !IsSpace(s[i]) && !IsSpace(s[j - 1])
  {
    if s == "" {
      i, j := 0, 0;
    } else if IsSpace(s[0]) {
      i, j := TrimIsTheMiddle(s[1..]);
      assert forall k :: 0 <= k < |s| - 1 ==> s[1..][k] == s[k + 1];
      assert s[1..][i..j] == s[i + 1..j + 1];
      i, j := i + 1, j + 1;
    } else if IsSpace(s[|s| - 1]) {
      i, j := TrimIsTheMiddle(s[..|s| - 1]);
      assert s[..|s| - 1][i..j] == s[i..j];
    } else {
      i, j := 0, |s|;
    }
  }

  /** `split(sep)` for a single character. */
  function Split(s: string, sep: char): (pieces: seq<string>)
    ensures |pieces| >= 1
  {
    if s == "" then [""] else
      var pieces := Split(s[1..], sep);
      if s[0] == sep then [""] + pieces else [[s[0]] + pieces[0]] + pieces[1..]
  }

  /** No piece holds the separator. */
  lemma {:induction false} PiecesHoldNoSeparator(s: string, sep: char)
    ensures forall i :: 0 <= i < |Split(s, sep)| ==> sep !in Split(s, sep)[i]
  {
    if s != "" { PiecesHoldNoSeparator(s[1..], sep); }
  }

  function Count(s: string, c: char): nat {
    if s == "" then 0 else (if s[0] == c then 1 else 0) + Count(s[1..], c)
  }

  lemma {:induction false} SplitCounts(s: string, sep: char)
    ensures |Split(s, sep)| == 1 + Count(s, sep)
  {
    if s != "" { SplitCounts(s[1..], sep); }
  }

  lemma {:induction false} CountConcat(s: string, t: string, c: char)
    ensures Count(s + t, c) == Count(s, c) + Count(t, c)
  {
    if s == "" {
      assert s + t == t;
    } else {
      assert (s + t)[0] == s[0] && (s + t)[1..] == s[1..] + t;
      CountConcat(s[1..], t, c);
    }
  }

  predicate OccursAt(s: string, needle: string, i: nat) {
    i + |needle| <= |s| && s[i..i + |needle|] == needle
  }

  /** `indexOf(needle, from)`. */
  function Find(s: string, needle: string, from: nat): (r: Option<nat>)
    ensures r.Some? ==> from <= r.value && OccursAt(s, needle, r.value)
    ensures forall i :: from <= i && (r.Some? ==> i < r.value) ==> !OccursAt(s, needle, i)
    decreases |s| - from
  {
    if from + |needle| > |s| then None
    else if OccursAt(s, needle, from) then Some(from)
    else Find(s, needle, from + 1)
  }

  const DIGITS := "0123456789"

  predicate IsDigit(c: char) { '0' <= c <= '9' }

  /** `String(n)` for a non-negative integer. */
  function Decimal(n: nat): (s: string)
    ensures s != "" && forall c :: c in s ==> IsDigit(c)
  {
    if n < 10 then [DIGITS[n]] else Decimal(n / 10) + [DIGITS[n % 10]]
  }

  function DigitValue(c: char): nat
    requires IsDigit(c)
  {
    c as int - '0' as int
  }

  /** `Number(s)` for a string of digits. */
  function NumberOf(s: string): nat
    requires forall c :: c in s ==> IsDigit(c)
  {
    if s == "" then 0 else 10 * NumberOf(s[..|s| - 1]) + DigitValue(s[|s| - 1])
  }

  lemma {:induction false} NumberOfDecimal(n: nat)
    ensures NumberOf(Decimal(n)) == n
  {
    var s := Decimal(n);
    if n < 10 {
      assert s[..|s| - 1] == "";
    } else {
      assert s[..|s| - 1] == Decimal(n / 10);
      NumberOfDecimal(n / 10);
    }
  }

  /** Distinct numbers print differently. */
  lemma {:induction false} DecimalIsInjective(m: nat, n: nat)
    requires Decimal(m) == Decimal(n)
    ensures m == n
  {
    NumberOfDecimal(m);
    NumberOfDecimal(n);
  }

  /** `padStart(width, '0')`. */
  function PadStart(s: string, width: nat): (r: string)
    ensures |s| <= width ==> |r| == width
  {
    if |s| < width then seq(width - |s|, i => '0') + s else s
  }

  function Pow10(k: nat): (p: nat)
    ensures p >= 1
  {
    if k == 0 then 1 else 10 * Pow10(k - 1)
  }

  lemma {:induction false} DecimalLength(n: nat, k: nat)
    requires k >= 1 && n < Pow10(k)
    ensures |Decimal(n)| <= k
  {
    if n >= 10 { DecimalLength(n / 10, k - 1); }
  }

  lemma {:induction false} LeadingZeros(z: nat, s: string)
    requires forall c :: c in s ==> IsDigit(c)
    ensures var r := seq(z, i => '0') + s; (forall c :: c in r ==> IsDigit(c)) && NumberOf(r) == NumberOf(s)
  {
    var r := seq(z, i => '0') + s;
    if s != "" {
      assert r[..|r| - 1] == seq(z, i => '0') + s[..|s| - 1];
      LeadingZeros(z, s[..|s| - 1]);
    } else if z > 0 {
      assert r[..|r| - 1] == seq(z - 1, i => '0') + s;
      LeadingZeros(z - 1, s);
    }
  }

  /** A number below 10^width, padded, is exactly `width` digits that read back as the number. */
  lemma {:induction false} PaddedDecimal(n: nat, width: nat)
    requires width >= 1 && n < Pow10(width)
    ensures var s := PadStart(Decimal(n), width);
            |s| == width && (forall c :: c in s ==> IsDigit(c)) && NumberOf(s) == n
  {
    DecimalLength(n, width);
    NumberOfDecimal(n);
    LeadingZeros(width - |Decimal(n)|, Decimal(n));
  }
}
