/**
 * `base64::encode` and `base64::decode` (src/base64.cpp), the alphabet and
 * padding of section 4 of RFC 4648, as the boost dataflow iterators the
 * source builds on produce and consume it.
 */
module Base64 {
  import opened Octets
  import opened Wrappers
  import opened ErrorOr

  /** The character of the base64 alphabet (RFC 4648, section 4, table 1) for a 6-bit value. */
  function SextetChar(v: nat): (c: Octet)
    requires v < 64
    ensures c != '='
  {
    if v < 26 then ('A' as int + v) as char
    else if v < 52 then ('a' as int + (v - 26)) as char
    else if v < 62 then ('0' as int + (v - 52)) as char
    else if v == 62 then '+'
    else '/'
  }

  /**
   * The lookup the decoding iterator applies to each character: the
   * alphabet, and '=' read as 0; any other character throws.
   */
  function SextetOf(c: Octet): (r: Option<nat>)
    ensures r.Some? ==> r.value < 64
  {
    if 'A' <= c <= 'Z' then Some(c as int - 'A' as int)
    else if 'a' <= c <= 'z' then Some(c as int - 'a' as int + 26)
    else if '0' <= c <= '9' then Some(c as int - '0' as int + 52)
    else if c == '+' then Some(62)
    else if c == '/' then Some(63)
    else if c == '=' then Some(0)
    else None
  }

  /** A character the decoder accepts: one of the alphabet, or the pad '='. */
  predicate Accepted(c: Octet) { SextetOf(c).Some? }

  lemma SextetCharRoundTrip(v: nat)
    requires v < 64
    ensures SextetOf(SextetChar(v)) == Some(v)
  {
  }

  type Sextet = v: nat | v < 64

  // ---------------------------------------------------------------------
  // Encoding

  /** Three bytes as four 6-bit groups, most significant bits first. */
  function SplitGroup(b0: nat, b1: nat, b2: nat): (g: seq<Sextet>)
    requires b0 < 256 && b1 < 256 && b2 < 256
    ensures |g| == 4
  {
    [b0 / 4, b0 % 4 * 16 + b1 / 16, b1 % 16 * 4 + b2 / 64, b2 % 64]
  }

  /**
   * The 6-bit groups the width-changing iterator produces from bytes: four
   * for every three bytes, and for a last group of one or two bytes the
   * groups that hold its bits, padded with zero bits.
   */
  function Sextets(s: Octets): (g: seq<Sextet>)
    ensures 8 * |s| <= 6 * |g| < 8 * |s| + 6
  {
    if |s| >= 3 then SplitGroup(s[0] as int, s[1] as int, s[2] as int) + Sextets(s[3..])
    else if |s| == 2 then SplitGroup(s[0] as int, s[1] as int, 0)[..3]
    else if |s| == 1 then SplitGroup(s[0] as int, 0, 0)[..2]
    else []
  }

  function Alphabet(g: seq<Sextet>): (t: Octets)
    ensures |t| == |g|
    ensures forall i :: 0 <= i < |g| ==> t[i] == SextetChar(g[i])
  {
    if g == [] then [] else [SextetChar(g[0])] + Alphabet(g[1..])
  }

  /** The number of '=' characters `encode` appends for `n` input bytes. */
  function Padding(n: nat): (p: nat)
    ensures p <= 2
    ensures (n + p) % 3 == 0
  {
    (3 - n % 3) % 3
  }

  /**
   * `encode`: the alphabet characters of the input's 6-bit groups, then
   * '=' up to a multiple of four characters.
   */
  function Encode(s: Octets): (r: Octets)
    ensures 3 * |r| == 4 * (|s| + Padding(|s|))
  {
    Alphabet(Sextets(s)) + Repeat('=', Padding(|s|))
  }

  /**
   * The output of `encode` is all base64 characters, and its '=' characters
   * are exactly the padding at its end.
   */
  lemma EncodeShape(s: Octets)
    ensures forall i :: 0 <= i < |Encode(s)| ==> (Encode(s)[i] == '=' <==> i >= |Encode(s)| - Padding(|s|))
    ensures forall i :: 0 <= i < |Encode(s)| ==> Accepted(Encode(s)[i])
  {
    var a := Alphabet(Sextets(s));
    var r := Encode(s);
    assert r == a + Repeat('=', Padding(|s|));
    forall i | 0 <= i < |r|
      ensures (r[i] == '=' <==> i >= |r| - Padding(|s|)) && Accepted(r[i])
    {
      if i < |a| {
        assert r[i] == SextetChar(Sextets(s)[i]);
        SextetCharRoundTrip(Sextets(s)[i]);
      } else {
        assert r[i] == '=';
      }
    }
  }

  // ---------------------------------------------------------------------
  // Decoding

  /** The 6-bit values of the characters, or None when one is not accepted. */
  function Lookup(t: Octets): (r: Option<seq<Sextet>>)
    ensures r.None? <==> exists i :: 0 <= i < |t| && !Accepted(t[i])
    ensures r.Some? ==> |r.value| == |t|
    ensures r.Some? ==> forall i :: 0 <= i < |t| ==> SextetOf(t[i]) == Some(r.value[i])
  {
    if t == [] then Some([])
    else
      match SextetOf(t[0])
      case None => None
      case Some(v) =>
        match Lookup(t[1..])
        case None => None
        case Some(rest) => Some([v as Sextet] + rest)
  }

  /** Four 6-bit values as the three bytes that hold their 24 bits. */
  function JoinGroup(c0: Sextet, c1: Sextet, c2: Sextet, c3: Sextet): (b: Octets)
    ensures |b| == 3
  {
    [Byte(c0 * 4 + c1 / 16), Byte(c1 % 16 * 16 + c2 / 4), Byte(c2 % 4 * 64 + c3)]
  }

  /**
   * The bytes the width-changing iterator produces from 6-bit values: every
   * complete byte their bits fill, left to right; leftover bits are dropped.
   * A lone last value (4k+1 values) makes the iterator read past the end of
   * the text; `Decode` rejects that case before joining.
   */
  function Join(g: seq<Sextet>): (b: Octets)
    ensures 8 * |b| <= 6 * |g| < 8 * |b| + 8
  {
    if |g| >= 4 then JoinGroup(g[0], g[1], g[2], g[3]) + Join(g[4..])
    else if |g| == 3 then JoinGroup(g[0], g[1], g[2], 0)[..2]
    else if |g| == 2 then JoinGroup(g[0], g[1], 0, 0)[..1]
    else []
  }

  /** `std::string::find`: the first index of `c`, or `|t|` (npos) when absent. */
  function Find(t: Octets, c: Octet): (i: nat)
    ensures i <= |t|
    ensures i < |t| ==> t[i] == c
    ensures forall j :: 0 <= j < i ==> t[j] != c
  {
    if t == [] then 0 else if t[0] == c then 0 else 1 + Find(t[1..], c)
  }

  const SizeMax: int := 0x1_0000_0000_0000_0000

  /**
   * `s.substr(0, count)` where `count` is a `size_t` difference: a negative
   * difference wraps to a huge count, and `substr` clamps the count to the
   * length.
   */
  function PrefixWrapped(s: Octets, count: int): (r: Octets)
    ensures 0 <= count < SizeMax ==> r == s[..if count < |s| then count else |s|]
    ensures |s| < SizeMax / 2 && -(SizeMax / 2) < count < 0 ==> r == s
  {
    var n := count % SizeMax;
    assert 0 <= count < SizeMax ==> n == count;
    assert -SizeMax <= count < 0 ==> n == count + SizeMax;
    s[..if n < |s| then n else |s|]
  }

  /**
   * Text `decode` rejects: a character outside the alphabet and '=', or a
   * length of 4k+1. In the latter case the width-changing iterator still
   * lacks two bits after the last character and reads one more, past the
   * end of the string; that is the terminating NUL, which is not in the
   * alphabet, so the conversion throws.
   */
  predicate Rejected(t: Octets)
  {
    |t| % 4 == 1 || exists i :: 0 <= i < |t| && !Accepted(t[i])
  }

  /**
   * `decode`: rejected text (see `Rejected`) is a bad message. Otherwise the bytes of all characters (6 bits each, '=' counting as
   * zero bits, so 6|t|/8 bytes rounded down), less as many bytes as there
   * are characters from the first '=' on; when that is more than there are
   * bytes, the unsigned count wraps and all the bytes are kept.
   */
  function Decode(t: Octets): (r: Outcome<Octets>)
    ensures r.Failure? <==> Rejected(t)
    ensures r.Failure? ==> r.error == BadMessage
    ensures r.Value? && Find(t, '=') == |t| ==> 8 * |r.value| <= 6 * |t| < 8 * |r.value| + 8
    ensures r.Value? && |t| < SizeMax / 2 && Find(t, '=') < |t| && 8 * (|t| - Find(t, '=')) <= 6 * |t| ==>
              var n := |r.value| + (|t| - Find(t, '=')); 8 * n <= 6 * |t| < 8 * n + 8
    ensures r.Value? && |t| < SizeMax / 2 && 8 * (|t| - Find(t, '=')) > 6 * |t| ==>
              8 * |r.value| <= 6 * |t| < 8 * |r.value| + 8
  {
    match Lookup(t)
    case None => Failure(BadMessage)
    case Some(g) =>
      if |t| % 4 == 1 then Failure(BadMessage) else
      var decoded := Join(g);
      var padding := Find(t, '=');
      if padding == |t| then Value(decoded)
      else Value(PrefixWrapped(decoded, |decoded| - (|t| - padding)))
  }

  // ---------------------------------------------------------------------
  // The round trip

  lemma GroupRoundTrip(b0: nat, b1: nat, b2: nat)
    requires b0 < 256 && b1 < 256 && b2 < 256
    ensures var g := SplitGroup(b0, b1, b2);
            JoinGroup(g[0], g[1], g[2], g[3]) == [Byte(b0), Byte(b1), Byte(b2)]
  {
  }

  function Zeros(n: nat): (z: seq<Sextet>)
    ensures |z| == n
    ensures forall i :: 0 <= i < n ==> z[i] == 0
  {
    if n == 0 then [] else Zeros(n - 1) + [0]
  }

  lemma JoinCons(head: seq<Sextet>, rest: seq<Sextet>)
    requires |head| == 4
    ensures Join(head + rest) == JoinGroup(head[0], head[1], head[2], head[3]) + Join(rest)
  {
    assert (head + rest)[4..] == rest;
  }

  /** The statement of `JoinSextets` for one input. */
  ghost predicate JoinsBack(s: Octets)
  {
    Join(Sextets(s) + Zeros(Padding(|s|))) == s + Repeat(Byte(0), Padding(|s|))
  }

  /** Joining the groups of three bytes, and whatever follows them, gives back the three bytes first. */
  lemma JoinGroupCons(s: Octets, w: seq<Sextet>)
    requires |s| >= 3
    ensures Join(Sextets(s) + w) == s[..3] + Join(Sextets(s[3..]) + w)
  {
    var head := SplitGroup(s[0] as int, s[1] as int, s[2] as int);
    assert Sextets(s) + w == head + (Sextets(s[3..]) + w);
    JoinCons(head, Sextets(s[3..]) + w);
    GroupRoundTrip(s[0] as int, s[1] as int, s[2] as int);
  }

  lemma ConsAppend<T>(x: seq<T>, r: seq<T>)
    requires |x| > 0
    ensures x + r == [x[0]] + (x[1..] + r)
  {
    assert x == [x[0]] + x[1..];
  }

  lemma SplitAppend<T>(s: seq<T>, k: nat, r: seq<T>)
    requires k <= |s|
    ensures s[..k] + (s[k..] + r) == s + r
  {
    assert s[..k] + s[k..] == s;
  }

  lemma PaddingShift(n: nat)
    ensures Padding(n + 3) == Padding(n)
  {
  }

  lemma JoinSextetsStep(s: Octets)
    requires |s| >= 3 && JoinsBack(s[3..])
    ensures JoinsBack(s)
  {
    var p := Padding(|s|);
    PaddingShift(|s| - 3);
    JoinGroupCons(s, Zeros(p));
    SplitAppend(s, 3, Repeat(Byte(0), p));
  }

  lemma JoinSextetsTwo(s: Octets)
    requires |s| == 2
    ensures JoinsBack(s)
  {
    GroupRoundTrip(s[0] as int, s[1] as int, 0);
    assert Sextets(s) + Zeros(1) == SplitGroup(s[0] as int, s[1] as int, 0)[..3] + [0];
  }

  lemma JoinSextetsOne(s: Octets)
    requires |s| == 1
    ensures JoinsBack(s)
  {
    GroupRoundTrip(s[0] as int, 0, 0);
    assert Sextets(s) + Zeros(2) == SplitGroup(s[0] as int, 0, 0)[..2] + [0, 0];
  }

  /**
   * Joining the 6-bit groups of `s`, followed by the zero groups the pad
   * characters stand for, gives `s` followed by one zero byte per pad.
   */
  lemma {:induction false} JoinSextets(s: Octets)
    ensures JoinsBack(s)
    decreases |s|
  {
    if |s| >= 3 {
      JoinSextets(s[3..]);
      JoinSextetsStep(s);
    } else if |s| == 2 {
      JoinSextetsTwo(s);
    } else if |s| == 1 {
      JoinSextetsOne(s);
    } else {
      assert Sextets(s) + Zeros(0) == [];
    }
  }

  lemma LookupCons(c: Octet, t: Octets, v: Sextet, rest: seq<Sextet>)
    requires SextetOf(c) == Some(v as nat) && Lookup(t) == Some(rest)
    ensures Lookup([c] + t) == Some([v] + rest)
  {
    assert ([c] + t)[1..] == t;
  }

  lemma RepeatCons(c: Octet, n: nat)
    requires n > 0
    ensures Repeat(c, n) == [c] + Repeat(c, n - 1)
  {
  }

  /** The pad characters read as zero groups. */
  lemma {:induction false} LookupPads(p: nat)
    ensures Lookup(Repeat('=', p)) == Some(Zeros(p))
  {
    if p > 0 {
      LookupPads(p - 1);
      RepeatCons('=', p);
      ZerosCons(p);
      LookupCons('=', Repeat('=', p - 1), 0, Zeros(p - 1));
    }
  }

  /** Looking up the characters `encode` writes gives back the groups, and zeros for the pads. */
  lemma {:induction false} LookupAlphabet(g: seq<Sextet>, p: nat)
    ensures Lookup(Alphabet(g) + Repeat('=', p)) == Some(g + Zeros(p))
  {
    if g == [] {
      assert Alphabet(g) + Repeat('=', p) == Repeat('=', p);
      assert g + Zeros(p) == Zeros(p);
      LookupPads(p);
    } else {
      var tail := Alphabet(g[1..]) + Repeat('=', p);
      ConsAppend(Alphabet(g), Repeat('=', p));
      LookupAlphabet(g[1..], p);
      SextetCharRoundTrip(g[0]);
      LookupCons(SextetChar(g[0]), tail, g[0], g[1..] + Zeros(p));
      ConsAppend(g, Zeros(p));
    }
  }

  lemma {:induction false} ZerosCons(p: nat)
    requires p > 0
    ensures Zeros(p) == [0] + Zeros(p - 1)
  {
    if p > 1 {
      ZerosCons(p - 1);
    }
  }

  /** The output of `encode` comes in whole groups of four characters. */
  lemma EncodeWholeGroups(s: Octets)
    ensures |Encode(s)| % 4 == 0
  {
    var n := |s|;
    var m := n / 3 + if n % 3 == 0 then 0 else 1;
    assert n + Padding(n) == 3 * m;
    assert |Encode(s)| == 4 * m;
  }

  /** Decoding what `encode` produced gives back the original bytes. */
  lemma RoundTrip(s: Octets)
    requires |s| < SizeMax / 4
    ensures Decode(Encode(s)) == Value(s)
  {
    var p := Padding(|s|);
    var t := Encode(s);
    EncodeWholeGroups(s);
    LookupAlphabet(Sextets(s), p);
    JoinSextets(s);
    var decoded := Join(Sextets(s) + Zeros(p));
    assert decoded == s + Repeat(Byte(0), p);
    var padding := Find(t, '=');
    if p == 0 {
      assert padding == |t|;
      assert decoded == s;
    } else {
      assert t[|t| - p] == '=';
      assert padding == |t| - p;
      assert decoded[..|s|] == s;
    }
  }

  // ---------------------------------------------------------------------
  // The unit tests' vectors

  /**
   * The H.264 sample of test/encoding_test.cpp, three bytes at a time:
   * 00 00 00, 01 'g' 'M', 00 ')' 80, 'K' 'p' 10, 10 1a ' ', 'A' 'D' 'T',
   * 00 00 00, 01 'h' '<'.
   */
  function H264Group(i: nat): (g: Octets)
    requires i < 8
    ensures |g| == 3
  {
    if i == 0 then "\0\0\0"
    else if i == 1 then "\U{1}gM"
    else if i == 2 then "\0)\U{80}"
    else if i == 3 then "Kp\U{10}"
    else if i == 4 then "\U{10}\U{1a} "
    else if i == 5 then "ADT"
    else if i == 6 then "\0\0\0"
    else "\U{1}h<"
  }

  /** The sample from group `i` on; the string's terminating NUL is its last byte. */
  function H264From(i: nat): (s: Octets)
    requires i <= 8
    ensures |s| == 3 * (8 - i) + 1
    decreases 8 - i
  {
    if i == 8 then "\0" else H264Group(i) + H264From(i + 1)
  }

  /** The characters the test expects for group `i`. */
  function H264Chars(i: nat): (t: Octets)
    requires i < 8
  {
    if i == 0 then "AAAA"
    else if i == 1 then "AWdN"
    else if i == 2 then "ACmA"
    else if i == 3 then "S3AQ"
    else if i == 4 then "EBog"
    else if i == 5 then "QURU"
    else if i == 6 then "AAAA"
    else "AWg8"
  }

  /** The characters the test expects from group `i` on: 'AA' for the NUL byte last. */
  function H264CharsFrom(i: nat): Octets
    requires i <= 8
    decreases 8 - i
  {
    if i == 8 then "AA" else H264Chars(i) + H264CharsFrom(i + 1)
  }

  lemma {:induction false} AlphabetAppend(x: seq<Sextet>, y: seq<Sextet>)
    ensures Alphabet(x + y) == Alphabet(x) + Alphabet(y)
  {
    if x != [] {
      assert (x + y)[1..] == x[1..] + y;
      AlphabetAppend(x[1..], y);
    } else {
      assert x + y == y;
    }
  }

  lemma SextetsCons(b0: nat, b1: nat, b2: nat, rest: Octets)
    requires b0 < 256 && b1 < 256 && b2 < 256
    ensures Sextets([Byte(b0), Byte(b1), Byte(b2)] + rest) == SplitGroup(b0, b1, b2) + Sextets(rest)
  {
    assert ([Byte(b0), Byte(b1), Byte(b2)] + rest)[3..] == rest;
  }

  /** Encoding a group followed by more bytes: its four characters, then those of the rest. */
  ghost predicate GroupEncodes(g: Octets, t: Octets, rest: Octets)
  {
    Alphabet(Sextets(g + rest)) == t + Alphabet(Sextets(rest))
  }

  lemma GroupChars(b0: nat, b1: nat, b2: nat, t: Octets, rest: Octets)
    requires b0 < 256 && b1 < 256 && b2 < 256
    requires Alphabet(SplitGroup(b0, b1, b2)) == t
    ensures GroupEncodes([Byte(b0), Byte(b1), Byte(b2)], t, rest)
  {
    SextetsCons(b0, b1, b2, rest);
    AlphabetAppend(SplitGroup(b0, b1, b2), Sextets(rest));
  }

  lemma H264Group0Bytes()
    ensures H264Group(0) == [Byte(0), Byte(0), Byte(0)]
    ensures Alphabet(SplitGroup(0, 0, 0)) == H264Chars(0)
  {
  }

  lemma H264Group0Chars(rest: Octets)
    ensures GroupEncodes(H264Group(0), H264Chars(0), rest)
  {
    H264Group0Bytes();
    GroupChars(0, 0, 0, H264Chars(0), rest);
  }

  lemma H264Group1Bytes()
    ensures H264Group(1) == [Byte(1), Byte(103), Byte(77)]
    ensures Alphabet(SplitGroup(1, 103, 77)) == H264Chars(1)
  {
  }

  lemma H264Group1Chars(rest: Octets)
    ensures GroupEncodes(H264Group(1), H264Chars(1), rest)
  {
    H264Group1Bytes();
    GroupChars(1, 103, 77, H264Chars(1), rest);
  }

  lemma H264Group2Bytes()
    ensures H264Group(2) == [Byte(0), Byte(41), Byte(128)]
    ensures Alphabet(SplitGroup(0, 41, 128)) == H264Chars(2)
  {
  }

  lemma H264Group2Chars(rest: Octets)
    ensures GroupEncodes(H264Group(2), H264Chars(2), rest)
  {
    H264Group2Bytes();
    GroupChars(0, 41, 128, H264Chars(2), rest);
  }

  lemma H264Group3Bytes()
    ensures H264Group(3) == [Byte(75), Byte(112), Byte(16)]
    ensures Alphabet(SplitGroup(75, 112, 16)) == H264Chars(3)
  {
  }

  lemma H264Group3Chars(rest: Octets)
    ensures GroupEncodes(H264Group(3), H264Chars(3), rest)
  {
    H264Group3Bytes();
    GroupChars(75, 112, 16, H264Chars(3), rest);
  }

  lemma H264Group4Bytes()
    ensures H264Group(4) == [Byte(16), Byte(26), Byte(32)]
    ensures Alphabet(SplitGroup(16, 26, 32)) == H264Chars(4)
  {
  }

  lemma H264Group4Chars(rest: Octets)
    ensures GroupEncodes(H264Group(4), H264Chars(4), rest)
  {
    H264Group4Bytes();
    GroupChars(16, 26, 32, H264Chars(4), rest);
  }

  lemma H264Group5Bytes()
    ensures H264Group(5) == [Byte(65), Byte(68), Byte(84)]
    ensures Alphabet(SplitGroup(65, 68, 84)) == H264Chars(5)
  {
  }

  lemma H264Group5Chars(rest: Octets)
    ensures GroupEncodes(H264Group(5), H264Chars(5), rest)
  {
    H264Group5Bytes();
    GroupChars(65, 68, 84, H264Chars(5), rest);
  }

  lemma H264Group6Bytes()
    ensures H264Group(6) == [Byte(0), Byte(0), Byte(0)]
    ensures Alphabet(SplitGroup(0, 0, 0)) == H264Chars(6)
  {
  }

  lemma H264Group6Chars(rest: Octets)
    ensures GroupEncodes(H264Group(6), H264Chars(6), rest)
  {
    H264Group6Bytes();
    GroupChars(0, 0, 0, H264Chars(6), rest);
  }

  lemma H264Group7Bytes()
    ensures H264Group(7) == [Byte(1), Byte(104), Byte(60)]
    ensures Alphabet(SplitGroup(1, 104, 60)) == H264Chars(7)
  {
  }

  lemma H264Group7Chars(rest: Octets)
    ensures GroupEncodes(H264Group(7), H264Chars(7), rest)
  {
    H264Group7Bytes();
    GroupChars(1, 104, 60, H264Chars(7), rest);
  }

  /** Each group of the sample encodes to the four characters the test expects for it. */
  lemma H264GroupChars(i: nat, rest: Octets)
    requires i < 8
    ensures GroupEncodes(H264Group(i), H264Chars(i), rest)
  {
    if i == 0 {
      H264Group0Chars(rest);
    } else if i == 1 {
      H264Group1Chars(rest);
    } else if i == 2 {
      H264Group2Chars(rest);
    } else if i == 3 {
      H264Group3Chars(rest);
    } else if i == 4 {
      H264Group4Chars(rest);
    } else if i == 5 {
      H264Group5Chars(rest);
    } else if i == 6 {
      H264Group6Chars(rest);
    } else {
      H264Group7Chars(rest);
    }
  }

  /** The sample from group `i` on encodes to the characters the test expects from there on. */
  ghost predicate H264TailEncodes(i: nat)
    requires i <= 8
  {
    Alphabet(Sextets(H264From(i))) == H264CharsFrom(i)
  }

  lemma H264LastByte()
    ensures H264TailEncodes(8)
  {
    var s := H264From(8);
    assert s[0] as int == 0;
    assert Sextets(s) == SplitGroup(0, 0, 0)[..2];
  }

  lemma H264CharsStep(i: nat)
    requires i < 8 && H264TailEncodes(i + 1)
    ensures H264TailEncodes(i)
  {
    H264GroupChars(i, H264From(i + 1));
  }

  lemma {:induction false} H264CharsFromGroup(i: nat)
    requires i <= 8
    ensures H264TailEncodes(i)
    decreases 8 - i
  {
    if i == 8 {
      H264LastByte();
    } else {
      H264CharsFromGroup(i + 1);
      H264CharsStep(i);
    }
  }

  /** A whole number of groups and one byte more take two pads. */
  lemma PaddingAfterGroups(k: nat)
    ensures Padding(3 * k + 1) == 2
  {
    assert (3 * k + 1) % 3 == 1;
  }

  /**
   * The vector of test/encoding_test.cpp: the 25 bytes of the sample encode
   * to "AAAAAWdNACmAS3AQEBogQURUAAAAAWg8AA==", that is the expected
   * characters group by group and then two pads; so does every tail of the
   * sample that starts at a group boundary.
   */
  lemma EncodeH264Sample(i: nat)
    requires i <= 8
    ensures Encode(H264From(i)) == H264CharsFrom(i) + "=="
  {
    H264CharsFromGroup(i);
    PaddingAfterGroups(8 - i);
    assert Repeat('=', 2) == "==";
  }
}
