/**
 * `channel_position` (src/rtm_client.h): a channel's generation and
 * position, printed as "gen:pos" and read back with `strtoll`/`strtoull`.
 */
module ChannelPosition {
  import opened Octets

  const Uint32Max: nat := 0xFFFF_FFFF
  const Uint64Max: nat := 0xFFFF_FFFF_FFFF_FFFF
  const Int64Max: int := 0x7FFF_FFFF_FFFF_FFFF
  const Int64Min: int := -0x8000_0000_0000_0000

  /** `gen` is a `uint32_t`, `pos` a `uint64_t`. */
  datatype Position = Position(gen: nat, pos: nat)

  predicate InRange(p: Position) { p.gen <= Uint32Max && p.pos <= Uint64Max }

  /** The position `parse` gives for text it does not accept. */
  const Zero: Position := Position(0, 0)

  /** What `parse` gives: a position, or an abort of its `CHECK_LE` on a generation too large. */
  datatype Parsed = Parsed(position: Position) | Aborted

  /** `str()`: the two numbers in decimal, joined by ':'. */
  function Str(p: Position): (s: Octets)
    ensures |s| >= 3 && 0 as char !in s
    ensures forall k :: 0 <= k < |s| ==> IsDigit(s[k]) || s[k] == ':'
  {
    var g, q := Decimal(p.gen), Decimal(p.pos);
    assert forall k :: 0 <= k < |g| ==> IsDigit(g[k]);
    assert forall k :: 0 <= k < |q| ==> IsDigit(q[k]);
    g + [':'] + q
  }

  /** Where the two numbers and the ':' sit in the printed text. */
  lemma StrParts(p: Position)
    ensures var s, l := Str(p), |Decimal(p.gen)|;
      l + 1 < |s| && s[..l] == Decimal(p.gen) && s[l] == ':' && s[l + 1..] == Decimal(p.pos)
  {
  }

  // ---------------------------------------------------------------------
  // The C library's number readers

  /** `c_str()` seen as a C string: it ends at the first NUL. */
  function CString(s: Octets): (c: Octets)
    ensures |c| <= |s| && c == s[..|c|] && 0 as char !in c
    ensures |c| < |s| ==> s[|c|] == 0 as char
  {
    if s == [] || s[0] == 0 as char then [] else [s[0]] + CString(s[1..])
  }

  /** `isspace` in the C locale. */
  predicate IsSpace(c: char)
  {
    c == ' ' || c == '\t' || c == '\n' || c == '\r' || c == 11 as char || c == 12 as char
  }

  /** The index of the first character at or after `i` that is not white space. */
  function SkipSpace(s: Octets, i: nat): (r: nat)
    requires i <= |s|
    ensures i <= r <= |s| && (r < |s| ==> !IsSpace(s[r]))
    ensures forall k :: i <= k < r ==> IsSpace(s[k])
    decreases |s| - i
  {
    if i < |s| && IsSpace(s[i]) then SkipSpace(s, i + 1) else i
  }

  /** The end of the run of digits starting at `i`. */
  function DigitRun(s: Octets, i: nat): (r: nat)
    requires i <= |s|
    ensures i <= r <= |s| && AllDigits(s[i..r]) && (r < |s| ==> !IsDigit(s[r]))
    decreases |s| - i
  {
    if i < |s| && IsDigit(s[i]) then DigitRun(s, i + 1) else i
  }

  /** The run of digits from `i` is the one that ends at the first non-digit. */
  lemma {:induction false} DigitRunIs(s: Octets, i: nat, k: nat)
    requires i <= k <= |s| && AllDigits(s[i..k]) && (k < |s| ==> !IsDigit(s[k]))
    ensures DigitRun(s, i) == k
    decreases k - i
  {
    if i < k {
      assert IsDigit(s[i..k][0]);
      assert s[i + 1..k] == s[i..k][1..];
      DigitRunIs(s, i + 1, k);
    }
  }

  /** A number read: its value and the index where reading stopped (`endptr`). */
  datatype Read = Read(value: int, end: nat)

  /** Optional white space and an optional sign: whether it is '-', and where the digits start. */
  function SignEnd(s: Octets, start: nat): (r: (bool, nat))
    requires start <= |s|
    ensures start <= r.1 <= |s|
  {
    var i := SkipSpace(s, start);
    if i < |s| && (s[i] == '+' || s[i] == '-') then (s[i] == '-', i + 1) else (false, i)
  }

  /**
   * `strtoll(s + start, &end, 10)`: white space, a sign and digits; with
   * no digits nothing is converted, the value is 0 and `end` is `start`;
   * values beyond the 64-bit range saturate.
   */
  function StrToLL(s: Octets, start: nat): (r: Read)
    requires start <= |s|
    ensures r.end <= |s|
    ensures r.end == start || r.end == DigitRun(s, SignEnd(s, start).1)
    ensures Int64Min <= r.value <= Int64Max
  {
    var (neg, i) := SignEnd(s, start);
    var j := DigitRun(s, i);
    if j == i then Read(0, start)
    else
      var m := DigitsValue(s[i..j]) as int;
      var v := if neg then -m else m;
      Read(if v > Int64Max then Int64Max else if v < Int64Min then Int64Min else v, j)
  }

  /**
   * `strtoull(s + start, &end, 10)`: as `strtoll`, except that magnitudes
   * beyond 64 bits give the largest value, and a '-' negates modulo 2^64.
   */
  function StrToULL(s: Octets, start: nat): (r: Read)
    requires start <= |s|
    ensures r.end <= |s|
    ensures r.end == start || r.end == DigitRun(s, SignEnd(s, start).1)
    ensures 0 <= r.value <= Uint64Max
  {
    var (neg, i) := SignEnd(s, start);
    var j := DigitRun(s, i);
    if j == i then Read(0, start)
    else
      var m := DigitsValue(s[i..j]);
      Read(if m > Uint64Max then Uint64Max else if neg then (Uint64Max + 1 - m) % (Uint64Max + 1) else m, j)
  }

  // ---------------------------------------------------------------------
  // parse

  /**
   * `channel_position::parse`: the generation must be followed by ':' and
   * the position by the end of the C string, otherwise {0, 0}; a generation
   * above `uint32_t`'s range fails the `CHECK_LE`; a negative generation is
   * cast to `uint32_t`.
   */
  function Parse(str: Octets): (r: Parsed)
    ensures r.Parsed? ==> InRange(r.position)
  {
    var c := CString(str);
    var g := StrToLL(c, 0);
    if g.value > Uint32Max then Aborted
    else if g.end == 0 || g.end >= |c| || c[g.end] != ':' then Parsed(Zero)
    else
      var p := StrToULL(c, g.end + 1);
      if p.end != |c| then Parsed(Zero)
      else Parsed(Position(g.value % (Uint32Max + 1), p.value))
  }

  /** The decimal digits of `n` at `start`, followed by the end or a non-digit, are read as one run. */
  lemma ReadNumber(s: Octets, start: nat, n: nat, k: nat)
    requires k == start + |Decimal(n)| <= |s| && s[start..k] == Decimal(n)
    requires k < |s| ==> !IsDigit(s[k])
    ensures SignEnd(s, start) == (false, start)
    ensures DigitRun(s, start) == k && DigitsValue(s[start..k]) == n
  {
    assert IsDigit(s[start..k][0]);
    DigitRunIs(s, start, k);
    DecimalValue(n);
  }

  /** `strtoll` of such digits gives the number and stops after them. */
  lemma StrToLLNumber(s: Octets, start: nat, n: nat, k: nat)
    requires k == start + |Decimal(n)| <= |s| && s[start..k] == Decimal(n)
    requires k < |s| ==> !IsDigit(s[k])
    requires n <= Int64Max
    ensures StrToLL(s, start) == Read(n, k)
  {
    ReadNumber(s, start, n, k);
  }

  /** `strtoull` of such digits gives the number and stops after them. */
  lemma StrToULLNumber(s: Octets, start: nat, n: nat, k: nat)
    requires k == start + |Decimal(n)| <= |s| && s[start..k] == Decimal(n)
    requires k < |s| ==> !IsDigit(s[k])
    requires n <= Uint64Max
    ensures StrToULL(s, start) == Read(n, k)
  {
    ReadNumber(s, start, n, k);
  }

  /** Reading back what `str` prints gives the position again. */
  lemma ParsePrinted(p: Position)
    requires InRange(p)
    ensures Parse(Str(p)) == Parsed(p)
  {
    var s := Str(p);
    var l := |Decimal(p.gen)|;
    CStringPlain(s);
    StrParts(p);
    assert s[0..l] == s[..l];
    StrToLLNumber(s, 0, p.gen, l);
    StrToULLNumber(s, l + 1, p.pos, |s|);
    assert p.gen % (Uint32Max + 1) == p.gen;
  }

  /** Text without a NUL is its own C string. */
  lemma {:induction false} CStringPlain(s: Octets)
    requires 0 as char !in s
    ensures CString(s) == s
  {
    if s != [] {
      assert s == [s[0]] + s[1..];
      CStringPlain(s[1..]);
    }
  }

  /** Text that does not start with white space, a sign or a digit is not a position. */
  lemma NoLeadingDigits(str: Octets)
    requires |str| > 0 && !IsSpace(str[0]) && !IsDigit(str[0]) && str[0] != '+' && str[0] != '-'
    ensures Parse(str) == Parsed(Zero)
  {
  }

  /** A generation not followed by ':' is not a position. */
  lemma MissingColon(gen: nat, rest: Octets)
    requires gen <= Uint32Max
    requires rest == [] || (rest[0] != ':' && !IsDigit(rest[0]))
    ensures Parse(Decimal(gen) + rest) == Parsed(Zero)
  {
    var d := Decimal(gen);
    var c := CString(d + rest);
    CStringPrefix(d, rest);
    assert c[0..|d|] == d;
    StrToLLNumber(c, 0, gen, |d|);
  }

  /** The C string of a NUL-free prefix followed by more text starts with that prefix. */
  lemma {:induction false} CStringPrefix(d: Octets, rest: Octets)
    requires AllDigits(d) || 0 as char !in d
    ensures |d| <= |CString(d + rest)| && CString(d + rest)[..|d|] == d
    ensures |CString(d + rest)| > |d| ==> CString(d + rest)[|d|] == rest[0]
  {
    assert 0 as char !in d by {
      if AllDigits(d) {
        forall k | 0 <= k < |d| ensures d[k] != 0 as char { assert IsDigit(d[k]); }
      }
    }
    if d != [] {
      assert (d + rest)[1..] == d[1..] + rest;
      CStringPrefix(d[1..], rest);
    }
  }

  /** Anything but the end of the string after the position makes it no position. */
  lemma TrailingCharacters(p: Position, rest: Octets)
    requires InRange(p)
    requires |rest| > 0 && !IsDigit(rest[0]) && rest[0] != 0 as char
    ensures Parse(Str(p) + rest) == Parsed(Zero)
  {
    var t := Str(p);
    var l := |Decimal(p.gen)|;
    var c := CString(t + rest);
    CStringPrefix(t, rest);
    StrParts(p);
    assert |c| > |t|;
    assert c[0..l] == t[..l];
    StrToLLNumber(c, 0, p.gen, l);
    assert c[l + 1..|t|] == t[l + 1..];
    StrToULLNumber(c, l + 1, p.pos, |t|);
  }

  /** As written, a position may be missing after the ':': "5:" reads as {5, 0}. */
  lemma EmptyPositionAccepted()
    ensures Parse(['5', ':']) == Parsed(Position(5, 0))
  {
    var s: Octets := ['5', ':'];
    CStringPlain(s);
    assert s[0..1] == Decimal(5);
    StrToLLNumber(s, 0, 5, 1);
  }

  /** A generation above `uint32_t`'s range fails the check. */
  lemma LargeGenerationAborts(gen: nat, rest: Octets)
    requires Uint32Max < gen <= Int64Max
    requires rest == [] || !IsDigit(rest[0])
    ensures Parse(Decimal(gen) + rest) == Aborted
  {
    var d := Decimal(gen);
    var c := CString(d + rest);
    CStringPrefix(d, rest);
    assert c[0..|d|] == d;
    StrToLLNumber(c, 0, gen, |d|);
  }

  /** As written, a negative generation passes the check and is cast: "-1:0" reads as {4294967295, 0}. */
  lemma NegativeGenerationWraps()
    ensures Parse(['-', '1', ':', '0']) == Parsed(Position(Uint32Max, 0))
  {
    var s: Octets := ['-', '1', ':', '0'];
    CStringPlain(s);
    assert SignEnd(s, 0) == (true, 1);
    assert s[1..2] == Decimal(1);
    ReadNumber(s, 1, 1, 2);
    assert StrToLL(s, 0) == Read(-1, 2);
    assert s[3..4] == Decimal(0);
    StrToULLNumber(s, 3, 0, 4);
  }
}
