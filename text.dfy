/**
 * Byte strings as the library sees them.
 *
 * S9sString is a std::string, i.e. a sequence of C `char`s. Here a Dafny
 * `char` stands for one such byte, so a byte string is a `string`.
 * This module holds the helpers the value model and the RPC client share:
 * C-string truncation, whitespace trimming, ASCII case folding, the
 * lexicographic `<` of std::string, decimal formatting (`%d`, `%llu`)
 * and the C parsers `atoi` and `strtoull` (glibc behaviour).
 */
module Text {

  datatype Option<T> = None | Some(value: T)

  // ---------------------------------------------------------------------
  // Fixed-width integers of the C++ source
  // ---------------------------------------------------------------------

  const TwoTo32: int := 0x1_0000_0000
  const TwoTo64: int := 0x1_0000_0000_0000_0000

  type int32 = x: int | -0x8000_0000 <= x < 0x8000_0000
  type int64 = x: int | -0x8000_0000_0000_0000 <= x < 0x8000_0000_0000_0000
  type uint64 = x: int | 0 <= x < 0x1_0000_0000_0000_0000

  /** Two's-complement truncation to 32 bits: what `(int)` does to a wider integer. */
  function WrapInt32(x: int): (r: int32)
    ensures (r - x) % TwoTo32 == 0
    ensures -0x8000_0000 <= x < 0x8000_0000 ==> r == x
  {
    (x + 0x8000_0000) % TwoTo32 - 0x8000_0000
  }

  /** Two's-complement truncation to 64 bits: what a conversion to `time_t` does. */
  function WrapInt64(x: int): (r: int64)
    ensures (r - x) % TwoTo64 == 0
    ensures -0x8000_0000_0000_0000 <= x < 0x8000_0000_0000_0000 ==> r == x
  {
    (x + 0x8000_0000_0000_0000) % TwoTo64 - 0x8000_0000_0000_0000
  }

  /** Reduction modulo 2^64: what a conversion to `unsigned long long` does. */
  function WrapUInt64(x: int): (r: uint64)
    ensures (r - x) % TwoTo64 == 0
    ensures 0 <= x < TwoTo64 ==> r == x
  {
    x % TwoTo64
  }

  // ---------------------------------------------------------------------
  // Characters
  // ---------------------------------------------------------------------

  /** The C locale's isspace(): space, \t, \n, \v, \f, \r. */
  predicate IsSpace(c: char) {
    c == ' ' || c == '\t' || c == '\n' || c == 11 as char || c == 12 as char || c == '\r'
  }

  predicate IsDecimalDigit(c: char) {
    '0' <= c <= '9'
  }

  /** tolower() in the C locale: only A-Z change. */
  function ToLower(c: char): (r: char)
    ensures 'A' <= c <= 'Z' ==> 'a' <= r <= 'z'
    ensures !('A' <= c <= 'Z') ==> r == c
  {
    if 'A' <= c <= 'Z' then (c as int + 32) as char else c
  }

  function ToLowerString(s: string): (r: string)
    ensures |r| == |s|
    ensures forall i :: 0 <= i < |s| ==> r[i] == ToLower(s[i])
  {
    seq(|s|, i requires 0 <= i < |s| => ToLower(s[i]))
  }

  /** What a C function sees of a std::string through c_str(): the bytes before the first NUL. */
  function CStr(s: string): (r: string)
    ensures |r| <= |s| && r == s[..|r|]
    ensures '\0' !in r
    ensures |r| < |s| ==> s[|r|] == '\0'
  {
    if s == [] || s[0] == '\0' then [] else [s[0]] + CStr(s[1..])
  }

  // ---------------------------------------------------------------------
  // Trimming
  // ---------------------------------------------------------------------

  function TrimLeft(s: string): (r: string)
    ensures |r| <= |s| && r == s[|s| - |r|..]
    ensures r == [] || !IsSpace(r[0])
    ensures forall i :: 0 <= i < |s| - |r| ==> IsSpace(s[i])
  {
    if s != [] && IsSpace(s[0]) then TrimLeft(s[1..]) else s
  }

  function TrimRight(s: string): (r: string)
    ensures |r| <= |s| && r == s[..|r|]
    ensures r == [] || !IsSpace(r[|r| - 1])
    ensures forall i :: |r| <= i < |s| ==> IsSpace(s[i])
  {
    if s != [] && IsSpace(s[|s| - 1]) then TrimRight(s[..|s| - 1]) else s
  }

  /** Whitespace removed at both ends (S9sString::trim). */
  function Trim(s: string): (r: string)
    ensures |r| <= |s|
    ensures r == [] || (!IsSpace(r[0]) && !IsSpace(r[|r| - 1]))
    ensures (s == [] || (!IsSpace(s[0]) && !IsSpace(s[|s| - 1]))) ==> r == s
  {
    TrimRight(TrimLeft(s))
  }

  /** Number of leading whitespace characters. */
  function LeadingSpaces(s: string): (n: nat)
    ensures n <= |s|
    ensures forall i :: 0 <= i < n ==> IsSpace(s[i])
    ensures n < |s| ==> !IsSpace(s[n])
  {
    if s != [] && IsSpace(s[0]) then 1 + LeadingSpaces(s[1..]) else 0
  }

  // ---------------------------------------------------------------------
  // std::string operator<
  // ---------------------------------------------------------------------

  /** Lexicographic order of std::string: the shorter string wins on a common prefix. */
  predicate StrLess(a: string, b: string) {
    if a == [] then b != []
    else b != [] && (a[0] < b[0] || (a[0] == b[0] && StrLess(a[1..], b[1..])))
  }

  lemma {:induction false} StrLessIrreflexive(a: string)
    ensures !StrLess(a, a)
  {
    if a != [] {
      StrLessIrreflexive(a[1..]);
    }
  }

  lemma {:induction false} StrLessAsymmetric(a: string, b: string)
    requires StrLess(a, b)
    ensures !StrLess(b, a)
  {
    if a != [] && b != [] && a[0] == b[0] {
      StrLessAsymmetric(a[1..], b[1..]);
    }
  }

  lemma {:induction false} StrLessTransitive(a: string, b: string, c: string)
    requires StrLess(a, b) && StrLess(b, c)
    ensures StrLess(a, c)
  {
    if a != [] && a[0] == b[0] && b[0] == c[0] {
      StrLessTransitive(a[1..], b[1..], c[1..]);
    }
  }

  lemma {:induction false} StrLessTotal(a: string, b: string)
    requires a != b
    ensures StrLess(a, b) || StrLess(b, a)
  {
    if a != [] && b != [] && a[0] == b[0] {
      assert a == [a[0]] + a[1..];
      assert b == [b[0]] + b[1..];
      StrLessTotal(a[1..], b[1..]);
    }
  }

  // ---------------------------------------------------------------------
  // Digits
  // ---------------------------------------------------------------------

  /** The digit value strtoull gives a character: 0-9, then letters from 10; 36 for anything else. */
  function CharValue(c: char): (v: nat)
    ensures v <= 36
    ensures IsDecimalDigit(c) <==> v < 10
  {
    if '0' <= c <= '9' then c as int - '0' as int
    else if 'a' <= c <= 'z' then c as int - 'a' as int + 10
    else if 'A' <= c <= 'Z' then c as int - 'A' as int + 10
    else 36
  }

  predicate IsDigitIn(c: char, base: nat) {
    CharValue(c) < base
  }

  /** Length of the run of base-`base` digits at the front of s. */
  function DigitRun(s: string, base: nat): (n: nat)
    ensures n <= |s|
    ensures forall i :: 0 <= i < n ==> IsDigitIn(s[i], base)
    ensures n < |s| ==> !IsDigitIn(s[n], base)
  {
    if s != [] && IsDigitIn(s[0], base) then 1 + DigitRun(s[1..], base) else 0
  }

  /** The number a digit string denotes, most significant digit first. */
  function DigitsValue(s: string, base: nat): nat {
    if s == [] then 0 else base * DigitsValue(s[..|s| - 1], base) + CharValue(s[|s| - 1])
  }

  function DigitChar(d: nat): (c: char)
    requires d < 10
    ensures IsDecimalDigit(c) && CharValue(c) == d
  {
    ('0' as int + d) as char
  }

  /** `%llu`: the decimal digits of n, no leading zero. */
  function NatToDecimal(n: nat): (r: string)
    ensures |r| >= 1
    ensures forall i :: 0 <= i < |r| ==> IsDecimalDigit(r[i])
    ensures r[0] == '0' <==> n == 0
    decreases n
  {
    if n < 10 then [DigitChar(n)] else NatToDecimal(n / 10) + [DigitChar(n % 10)]
  }

  /** `%d`: an optional minus sign followed by the decimal digits of |n|. */
  function IntToDecimal(n: int): (r: string)
    ensures |r| >= 1
    ensures n < 0 <==> r[0] == '-'
    ensures forall i :: 0 < i < |r| ==> IsDecimalDigit(r[i])
    ensures n >= 0 ==> IsDecimalDigit(r[0])
  {
    if n < 0 then "-" + NatToDecimal(-n) else NatToDecimal(n)
  }

  lemma {:induction false} NatToDecimalValue(n: nat)
    ensures DigitsValue(NatToDecimal(n), 10) == n
    decreases n
  {
    var s := NatToDecimal(n);
    if n >= 10 {
      NatToDecimalValue(n / 10);
      assert s[..|s| - 1] == NatToDecimal(n / 10);
    }
  }

  lemma {:induction false} DigitRunOfDigits(s: string, base: nat)
    requires forall i :: 0 <= i < |s| ==> IsDigitIn(s[i], base)
    ensures DigitRun(s, base) == |s|
  {
    if s != [] {
      DigitRunOfDigits(s[1..], base);
    }
  }

  // ---------------------------------------------------------------------
  // atoi and strtoull (glibc)
  // ---------------------------------------------------------------------

  /**
   * The integer at the front of s as strtol(s, NULL, 10) reads it, before
   * range clamping: leading whitespace, an optional sign, decimal digits
   * (none gives 0).
   */
  function LeadingInteger(s: string): int {
    var i := LeadingSpaces(s);
    var negative := i < |s| && s[i] == '-';
    var j := if i < |s| && (s[i] == '-' || s[i] == '+') then i + 1 else i;
    var v: int := DigitsValue(s[j..][..DigitRun(s[j..], 10)], 10);
    if negative then -v else v
  }

  /** atoi(s) with glibc: (int) strtol(s, NULL, 10), strtol clamping to the range of a 64-bit long. */
  function Atoi(s: string): int32 {
    var v := LeadingInteger(s);
    var clamped := if v < -0x8000_0000_0000_0000 then -0x8000_0000_0000_0000
                   else if v > 0x7FFF_FFFF_FFFF_FFFF then 0x7FFF_FFFF_FFFF_FFFF
                   else v;
    WrapInt32(clamped)
  }

  /**
   * strtoull(s, NULL, 0): leading whitespace, an optional sign, then the base
   * is detected from the prefix ("0x"/"0X" before a hex digit is base 16, a
   * leading "0" is base 8, anything else base 10). A value above ULLONG_MAX
   * gives ULLONG_MAX; otherwise a minus sign negates modulo 2^64.
   */
  function Strtoull(s: string): uint64 {
    var i := LeadingSpaces(s);
    var negative := i < |s| && s[i] == '-';
    var j := if i < |s| && (s[i] == '-' || s[i] == '+') then i + 1 else i;
    var t := s[j..];
    var hex := |t| >= 3 && t[0] == '0' && (t[1] == 'x' || t[1] == 'X') && IsDigitIn(t[2], 16);
    var base := if hex then 16 else if t != [] && t[0] == '0' then 8 else 10;
    var digits := if hex then t[2..] else t;
    var v: int := DigitsValue(digits[..DigitRun(digits, base)], base);
    if v >= TwoTo64 then TwoTo64 - 1
    else if negative then WrapUInt64(-v)
    else v
  }

  /** The leading integer of a `%d` rendering is the number rendered. */
  lemma LeadingIntegerOfDecimal(n: int)
    ensures LeadingInteger(IntToDecimal(n)) == n
  {
    var s := IntToDecimal(n);
    assert LeadingSpaces(s) == 0;
    var m: nat := if n < 0 then -n else n;
    var j := if n < 0 then 1 else 0;
    assert s[j..] == NatToDecimal(m);
    DigitRunOfDigits(NatToDecimal(m), 10);
    NatToDecimalValue(m);
    assert s[j..][..DigitRun(s[j..], 10)] == NatToDecimal(m);
  }

  /** atoi reads back what `%d` writes. */
  lemma AtoiOfDecimal(n: int32)
    ensures Atoi(IntToDecimal(n)) == n
  {
    LeadingIntegerOfDecimal(n);
  }

  /** strtoull("0") reads a base-8 zero. */
  lemma StrtoullOfZero()
    ensures Strtoull("0") == 0
  {
    var s := "0";
    assert LeadingSpaces(s) == 0;
    assert s[0..] == s;
    assert DigitRun(s, 8) == 1;
    assert s[..1] == s;
    assert DigitsValue(s, 8) == 0 by {
      assert s[..0] == [];
    }
  }

  /** strtoull reads back what `%llu` writes. */
  lemma StrtoullOfDecimal(u: uint64)
    ensures Strtoull(NatToDecimal(u)) == u
  {
    var s := NatToDecimal(u);
    NatToDecimalValue(u);
    if u == 0 {
      StrtoullOfZero();
    } else {
      assert LeadingSpaces(s) == 0;
      assert s[0..] == s;
      DigitRunOfDigits(s, 10);
      assert s[..DigitRun(s, 10)] == s;
    }
  }
}
