/**
 * The fixed-width C and C++ types the program computes with, and the
 * wrap-around of unsigned arithmetic on them.
 */
module CTypes {
  type byte = x: int | 0 <= x < 256
  type int32 = x: int | -0x8000_0000 <= x < 0x8000_0000
  type u16 = x: int | 0 <= x < 0x1_0000
  type u32 = x: int | 0 <= x < 0x1_0000_0000
  type u64 = x: int | 0 <= x < 0x1_0000_0000_0000_0000

  const U32_MODULUS: int := 0x1_0000_0000
  const U64_MODULUS: int := 0x1_0000_0000_0000_0000

  /** A character of a std::string: one byte. */
  type CChar = c: char | c as int < 256 witness 'a'
  type CString = seq<CChar>

  /** `a + b` on uint32_t. */
  function AddU32(a: u32, b: u32): (r: u32)
    ensures a + b < U32_MODULUS ==> r == a + b
    ensures a + b >= U32_MODULUS ==> r == a + b - U32_MODULUS
  {
    (a + b) % U32_MODULUS
  }

  /** `a - b` on uint64_t: a negative difference wraps to a huge value. */
  function SubU64(a: u64, b: u64): (r: u64)
    ensures b <= a ==> r == a - b
    ensures a < b ==> r == a - b + U64_MODULUS
  {
    (a - b) % U64_MODULUS
  }

  /** `a + b` on uint64_t. */
  function AddU64(a: u64, b: u64): (r: u64)
    ensures a + b < U64_MODULUS ==> r == a + b
    ensures a + b >= U64_MODULUS ==> r == a + b - U64_MODULUS
  {
    (a + b) % U64_MODULUS
  }

  /**
   * An `int` result kept to 32 bits in two's complement.  Signed overflow
   * is undefined in C++; this is what the x86-64 target computes.
   */
  function WrapInt32(x: int): (r: int32)
    ensures -0x8000_0000 <= x < 0x8000_0000 ==> r == x
    ensures 0x8000_0000 <= x < U32_MODULUS ==> r == x - U32_MODULUS
  {
    (x + 0x8000_0000) % U32_MODULUS - 0x8000_0000
  }

  /** Adding a multiple of 2^32 does not change the wrapped value. */
  lemma {:induction false} WrapShift(x: int, k: int)
    ensures WrapInt32(x + k * U32_MODULUS) == WrapInt32(x)
  {
    var y := x + 0x8000_0000;
    var q, m := y / U32_MODULUS, y % U32_MODULUS;
    assert y == q * U32_MODULUS + m && 0 <= m < U32_MODULUS;
    assert y + k * U32_MODULUS == (q + k) * U32_MODULUS + m;
    ModUnique(y + k * U32_MODULUS, q + k, m);
  }

  lemma {:induction false} ModUnique(z: int, q: int, m: int)
    requires 0 <= m < U32_MODULUS && z == q * U32_MODULUS + m
    ensures z % U32_MODULUS == m
  {
    var q', m' := z / U32_MODULUS, z % U32_MODULUS;
    assert z == q' * U32_MODULUS + m';
    assert (q - q') * U32_MODULUS == m' - m;
  }

  /**
   * parseInt's `v = v * 10 + digit` on an `int` that has wrapped already
   * gives the wrap of the true value.
   */
  lemma {:induction false} WrapStep(a: int, d: int)
    ensures WrapInt32(WrapInt32(a) * 10 + d) == WrapInt32(a * 10 + d)
  {
    var y := a + 0x8000_0000;
    var q := y / U32_MODULUS;
    assert WrapInt32(a) == a - q * U32_MODULUS;
    assert WrapInt32(a) * 10 + d == (a * 10 + d) + (-10 * q) * U32_MODULUS;
    WrapShift(a * 10 + d, -10 * q);
  }

  /** std::tolower in the "C" locale: only 'A'..'Z' change. */
  function ToLower(c: char): (r: char)
    ensures 'A' <= c <= 'Z' ==> r as int == c as int + 32
    ensures !('A' <= c <= 'Z') ==> r == c
  {
    if 'A' <= c <= 'Z' then (c as int + 32) as char else c
  }

  /** A string with every character passed through ToLower. */
  function LowerString(s: string): (r: string)
    ensures |r| == |s| && forall k :: 0 <= k < |s| ==> r[k] == ToLower(s[k])
  {
    seq(|s|, k requires 0 <= k < |s| => ToLower(s[k]))
  }

  /** std::isspace in the "C" locale: space, tab, newline, vertical tab, form feed, carriage return. */
  predicate IsSpace(c: char)
  {
    c == ' ' || '\t' <= c <= '\r'
  }

  /** std::isdigit in the "C" locale. */
  predicate IsDigit(c: char)
  {
    '0' <= c <= '9'
  }

  function DigitChar(d: nat): (r: char)
    requires d < 10
    ensures IsDigit(r) && r as int - '0' as int == d
  {
    ('0' as int + d) as char
  }

  /** std::to_string of a non-negative number: its decimal digits, without leading zeros. */
  function DecimalString(n: nat): (r: string)
    ensures 1 <= |r|
    ensures forall k :: 0 <= k < |r| ==> IsDigit(r[k])
    decreases n
  {
    if n < 10 then [DigitChar(n)] else DecimalString(n / 10) + [DigitChar(n % 10)]
  }

  /** The number a run of decimal digits denotes (`v = v * 10 + (c - '0')` from left to right). */
  function DigitsValue(d: string): (v: nat)
    requires forall k :: 0 <= k < |d| ==> IsDigit(d[k])
  {
    if d == [] then 0
    else
      var c := d[|d| - 1];
      assert IsDigit(d[|d| - 1]);
      DigitsValue(d[..|d| - 1]) * 10 + (c as int - '0' as int)
  }

  /** Reading back the digits to_string writes gives the number. */
  lemma {:induction false} DecimalStringValue(n: nat)
    ensures DigitsValue(DecimalString(n)) == n
    decreases n
  {
    if n >= 10 {
      var d := DecimalString(n);
      assert d[..|d| - 1] == DecimalString(n / 10);
      DecimalStringValue(n / 10);
    }
  }
}
