/**
 * Byte strings as the SDK keeps them in `std::string`, and the two number
 * renderings several core files share: decimal text (`std::to_string`,
 * `std::strtoull`) and big-endian byte fields (the CBOR item heads).
 */
module Octets {

  /** One byte of a `std::string`. */
  type Octet = c: char | c as int < 256

  /** A `std::string`: any sequence of bytes, text or binary. */
  type Octets = seq<Octet>

  function Byte(n: int): (c: Octet)
    requires 0 <= n < 256
    ensures c as int == n
  {
    n as char
  }

  /** `n` copies of the byte `c`, as `std::string::append(n, c)` adds them. */
  function Repeat(c: Octet, n: nat): (s: Octets)
    ensures |s| == n
    ensures forall i :: 0 <= i < n ==> s[i] == c
  {
    if n == 0 then [] else Repeat(c, n - 1) + [c]
  }

  /** The concatenation of a sequence of byte strings, in order. */
  function Concat(parts: seq<Octets>): (s: Octets)
  {
    if parts == [] then [] else Concat(parts[..|parts| - 1]) + parts[|parts| - 1]
  }

  lemma {:induction false} ConcatAppend(parts: seq<Octets>, last: Octets)
    ensures Concat(parts + [last]) == Concat(parts) + last
  {
    assert (parts + [last])[..|parts|] == parts;
  }

  lemma {:induction false} ConcatOne(part: Octets)
    ensures Concat([part]) == part
  {
    assert [part][..0] == [];
  }

  // ---------------------------------------------------------------------
  // Decimal text

  predicate IsDigit(c: char) { '0' <= c <= '9' }

  function DigitChar(d: nat): (c: Octet)
    requires d < 10
    ensures IsDigit(c) && c as int - '0' as int == d
  {
    ('0' as int + d) as char
  }

  predicate AllDigits(s: seq<char>) { forall i :: 0 <= i < |s| ==> IsDigit(s[i]) }

  /** The value of a string of decimal digits, most significant first. */
  function DigitsValue(s: seq<char>): nat
    requires AllDigits(s)
  {
    if s == [] then 0
    else DigitsValue(s[..|s| - 1]) * 10 + (s[|s| - 1] as int - '0' as int)
  }

  /** `std::to_string` of a non-negative number: no sign, no leading zeros. */
  function Decimal(n: nat): (s: Octets)
    ensures 1 <= |s| && AllDigits(s)
    ensures |s| > 1 ==> s[0] != '0'
  {
    if n < 10 then [DigitChar(n)] else Decimal(n / 10) + [DigitChar(n % 10)]
  }

  /** Reading back the digits `Decimal` writes gives the number again. */
  lemma {:induction false} DecimalValue(n: nat)
    ensures DigitsValue(Decimal(n)) == n
  {
    if n >= 10 {
      var s := Decimal(n);
      assert s[..|s| - 1] == Decimal(n / 10);
      DecimalValue(n / 10);
    }
  }

  /** `std::to_string` of a signed number. */
  function SignedDecimal(i: int): (s: Octets)
    ensures i < 0 <==> (|s| > 0 && s[0] == '-')
  {
    if i < 0 then ['-'] + Decimal(-i) else Decimal(i)
  }

  // ---------------------------------------------------------------------
  // Big-endian byte fields

  function Pow256(k: nat): (p: nat)
    ensures p >= 1
  {
    if k == 0 then 1 else 256 * Pow256(k - 1)
  }

  /** `v` written in `k` bytes, most significant byte first. */
  function BigEndian(v: nat, k: nat): (s: Octets)
    requires v < Pow256(k)
    ensures |s| == k
  {
    if k == 0 then [] else BigEndian(v / 256, k - 1) + [Byte(v % 256)]
  }

  /** The number a big-endian byte field holds. */
  function BigEndianValue(s: Octets): (v: nat)
    ensures v < Pow256(|s|)
  {
    if s == [] then 0 else BigEndianValue(s[..|s| - 1]) * 256 + s[|s| - 1] as int
  }

  /** Writing a number big-endian and reading it back gives the number. */
  lemma {:induction false} BigEndianRoundTrip(v: nat, k: nat)
    requires v < Pow256(k)
    ensures BigEndianValue(BigEndian(v, k)) == v
  {
    if k > 0 {
      var s := BigEndian(v, k);
      assert s[..|s| - 1] == BigEndian(v / 256, k - 1);
      BigEndianRoundTrip(v / 256, k - 1);
    }
  }
}
