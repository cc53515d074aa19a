/**
 * CBOR data items and their bytes, as src/cbor_json.cpp builds them with
 * libcbor, serializes them with `cbor_serialize_alloc` and reads them back
 * with `cbor_load`. The encoding is that of sections 2.1 and 2.2 of
 * RFC 7049: a head byte holding the major type in its top three bits and
 * the additional information in its low five, followed by the argument in
 * 0, 1, 2, 4 or 8 big-endian bytes.
 */
module Cbor {
  import opened Octets

  /** The width libcbor records for an integer or float item. */
  datatype Width = W8 | W16 | W32 | W64

  function WidthBytes(w: Width): (k: nat)
    ensures 1 <= k <= 8
  {
    match w
    case W8 => 1
    case W16 => 2
    case W32 => 4
    case W64 => 8
  }

  /** The additional information announcing an argument of width `w`. */
  function WidthInfo(w: Width): (info: nat)
    ensures 24 <= info <= 27
  {
    match w
    case W8 => 24
    case W16 => 25
    case W32 => 26
    case W64 => 27
  }

  /** One more than the largest argument of width `w`. */
  function Bound(w: Width): (b: nat)
    ensures b == Pow256(WidthBytes(w))
  {
    match w
    case W8 => assert Pow256(1) == 0x100; 0x100
    case W16 => assert Pow256(2) == 0x1_0000; 0x1_0000
    case W32 => assert Pow256(4) == 0x1_0000_0000; 0x1_0000_0000
    case W64 => assert Pow256(8) == 0x1_0000_0000_0000_0000; 0x1_0000_0000_0000_0000
  }

  const Uint64Bound: nat := 0x1_0000_0000_0000_0000

  /** The narrowest width that holds `v`: the choice `_cbor_encode_uint` makes for lengths. */
  function MinimalWidth(v: nat): (w: Width)
    requires v < Uint64Bound
    ensures v < Bound(w)
    ensures w != W8 ==> v >= 0x100
    ensures w == W32 || w == W64 ==> v >= 0x1_0000
    ensures w == W64 ==> v >= 0x1_0000_0000
  {
    if v < 0x100 then W8
    else if v < 0x1_0000 then W16
    else if v < 0x1_0000_0000 then W32
    else W64
  }

  datatype StringKind = ByteString | TextString

  function KindMajor(k: StringKind): nat
  {
    match k
    case ByteString => 2
    case TextString => 3
  }

  /** A libcbor item. */
  datatype Item =
    | UInt(width: Width, value: nat)          // major type 0
    | NegInt(width: Width, value: nat)        // major type 1: the integer -1 - value
    | Str(kind: StringKind, bytes: Octets)     // major types 2 and 3, definite length
    | IndefiniteStr(kind: StringKind, chunks: seq<Octets>)
    | Array(items: seq<Item>, definite: bool)  // major type 4
    | Map(entries: seq<Entry>, definite: bool) // major type 5
    | Tag(tag: nat, tagged: Item)              // major type 6
    | Ctrl(simple: nat)                        // major type 7, a simple value
    | Float(width: Width, bits: nat)           // major type 7, a half, single or double float

  datatype Entry = Entry(key: Item, value: Item)

  /** The simple values of section 2.3 of RFC 7049 that the JSON conversion uses. */
  const CtrlFalse: nat := 20
  const CtrlTrue: nat := 21
  const CtrlNull: nat := 22
  const CtrlUndefined: nat := 23

  /** The break byte that ends an indefinite-length item. */
  const BreakByte: Octet := 0xff as char

  /**
   * The items `cbor_serialize` can write and `cbor_load` reads back: every
   * argument fits its width, and a simple value is one of the four that
   * libcbor 0.5.0's decoder assigns (false, true, null and undefined).
   */
  predicate WellFormed(it: Item)
    decreases it
  {
    match it
    case UInt(w, v) => v < Bound(w)
    case NegInt(w, v) => v < Bound(w)
    case Str(_, b) => |b| < Uint64Bound
    case IndefiniteStr(_, chunks) => ChunksWellFormed(chunks)
    case Array(items, _) => |items| < Uint64Bound && ItemsWellFormed(items)
    case Map(entries, _) => |entries| < Uint64Bound && EntriesWellFormed(entries)
    case Tag(t, x) => t < Uint64Bound && WellFormed(x)
    case Ctrl(v) => CtrlFalse <= v <= CtrlUndefined
    case Float(w, bits) => w != W8 && bits < Bound(w)
  }

  predicate ItemsWellFormed(items: seq<Item>)
    decreases items
  {
    items == [] || (WellFormed(items[0]) && ItemsWellFormed(items[1..]))
  }

  predicate EntryWellFormed(e: Entry)
    decreases e
  {
    WellFormed(e.key) && WellFormed(e.value)
  }

  predicate EntriesWellFormed(entries: seq<Entry>)
    decreases entries
  {
    entries == [] || (EntryWellFormed(entries[0]) && EntriesWellFormed(entries[1..]))
  }

  /** Every chunk's length fits a head. */
  predicate ChunksWellFormed(chunks: seq<Octets>)
  {
    forall i :: 0 <= i < |chunks| ==> |chunks[i]| < Uint64Bound
  }

  // ---------------------------------------------------------------------
  // Serialization

  /**
   * The head of an item of major type `major` with argument `v` of width
   * `w`: the argument itself when it is below 24 and the width is one byte,
   * else the width's additional information and the argument's bytes.
   */
  function HeadBytes(major: nat, w: Width, v: nat): (h: Octets)
    requires major < 8 && v < Bound(w)
    ensures 1 <= |h| <= 9
    ensures h[0] as int == major * 32 + HeadInfo(w, v)
  {
    if w == W8 && v < 24 then [Byte(major * 32 + v)]
    else [Byte(major * 32 + WidthInfo(w))] + BigEndian(v, WidthBytes(w))
  }

  /** The additional information `HeadBytes` writes. */
  function HeadInfo(w: Width, v: nat): (info: nat)
    ensures info < 28 && InfoWidth(info) == w
  {
    if w == W8 && v < 24 then v else WidthInfo(w)
  }

  /** The fields of a head byte. */
  lemma HeadByteFields(major: nat, info: nat)
    requires major < 8 && info < 32
    ensures (major * 32 + info) / 32 == major && (major * 32 + info) % 32 == info
  {
  }

  /** The head of a length, count or tag: the narrowest one. */
  function LengthHead(major: nat, n: nat): (h: Octets)
    requires major < 8 && n < Uint64Bound
    ensures 1 <= |h| <= 9
  {
    HeadBytes(major, MinimalWidth(n), n)
  }

  /**
   * The shortest head holding `n`: the value itself in the head byte below
   * 24, else additional information 24, 25, 26 or 27 and the value in 1, 2,
   * 4 or 8 bytes, the fewest that hold it.
   */
  lemma ShortestHead(major: nat, n: nat)
    requires major < 8 && n < Uint64Bound
    ensures n < 24 ==> LengthHead(major, n) == [Byte(32 * major + n)]
    ensures 24 <= n < 0x100 ==> LengthHead(major, n) == [Byte(32 * major + 24)] + BigEndian(n, 1)
    ensures 0x100 <= n < 0x1_0000 ==> LengthHead(major, n) == [Byte(32 * major + 25)] + BigEndian(n, 2)
    ensures 0x1_0000 <= n < 0x1_0000_0000 ==> LengthHead(major, n) == [Byte(32 * major + 26)] + BigEndian(n, 4)
    ensures 0x1_0000_0000 <= n ==> LengthHead(major, n) == [Byte(32 * major + 27)] + BigEndian(n, 8)
  {
    if n < 24 {
      assert MinimalWidth(n) == W8;
    } else if n < 0x100 {
      assert MinimalWidth(n) == W8;
    } else if n < 0x1_0000 {
      assert MinimalWidth(n) == W16;
    } else if n < 0x1_0000_0000 {
      assert MinimalWidth(n) == W32;
    } else {
      assert MinimalWidth(n) == W64;
    }
  }

  /** The head byte of an indefinite-length item of major type `major`. */
  function IndefiniteHead(major: nat): Octet
    requires major < 8
  {
    Byte(major * 32 + 31)
  }

  /** `cbor_serialize`: the bytes of an item. */
  function Serialize(it: Item): (s: Octets)
    requires WellFormed(it)
    ensures |s| >= 1
    decreases it
  {
    match it
    case UInt(w, v) => HeadBytes(0, w, v)
    case NegInt(w, v) => HeadBytes(1, w, v)
    case Str(k, b) => LengthHead(KindMajor(k), |b|) + b
    case IndefiniteStr(k, chunks) =>
      [IndefiniteHead(KindMajor(k))] + SerializeChunks(k, chunks) + [BreakByte]
    case Array(items, definite) =>
      if definite then LengthHead(4, |items|) + SerializeItems(items)
      else [IndefiniteHead(4)] + SerializeItems(items) + [BreakByte]
    case Map(entries, definite) =>
      if definite then LengthHead(5, |entries|) + SerializeEntries(entries)
      else [IndefiniteHead(5)] + SerializeEntries(entries) + [BreakByte]
    case Tag(t, x) => LengthHead(6, t) + Serialize(x)
    case Ctrl(v) => HeadBytes(7, W8, v)
    case Float(w, bits) => HeadBytes(7, w, bits)
  }

  function SerializeItems(items: seq<Item>): Octets
    requires ItemsWellFormed(items)
    decreases items
  {
    if items == [] then [] else Serialize(items[0]) + SerializeItems(items[1..])
  }

  function SerializeEntry(e: Entry): Octets
    requires EntryWellFormed(e)
    decreases e
  {
    Serialize(e.key) + Serialize(e.value)
  }

  function SerializeEntries(entries: seq<Entry>): Octets
    requires EntriesWellFormed(entries)
    decreases entries
  {
    if entries == [] then [] else SerializeEntry(entries[0]) + SerializeEntries(entries[1..])
  }

  function SerializeChunks(k: StringKind, chunks: seq<Octets>): Octets
    requires ChunksWellFormed(chunks)
  {
    if chunks == [] then []
    else LengthHead(KindMajor(k), |chunks[0]|) + chunks[0] + SerializeChunks(k, chunks[1..])
  }

  // ---------------------------------------------------------------------
  // Decoding

  /** The error codes of `cbor_load`. */
  datatype LoadError = NotEnoughData | NoData | Malformed | SyntaxError

  /** A decoding step: a value and the position after it, or an error. */
  datatype Parse<T> = Done(value: T, next: nat) | Failed(error: LoadError)

  datatype Head = Head(major: nat, info: nat, arg: nat)

  /** The number of argument bytes additional information 24 to 27 announces. */
  function InfoBytes(info: nat): (k: nat)
    requires 24 <= info <= 27
    ensures 1 <= k <= 8
  {
    if info == 24 then 1 else if info == 25 then 2 else if info == 26 then 4 else 8
  }

  /** The width libcbor gives an integer or float by its additional information. */
  function InfoWidth(info: nat): Width
  {
    if info <= 24 then W8 else if info == 25 then W16 else if info == 26 then W32 else W64
  }

  /** Reads the head at `p`: a reserved additional information is malformed. */
  function ReadHead(d: Octets, p: nat): (r: Parse<Head>)
    requires p < |d|
    ensures r.Done? ==> p < r.next <= |d| && r.value.major < 8 && r.value.info < 32
    ensures r.Done? && r.value.info < 28 ==> r.value.arg < Uint64Bound
    ensures r.Failed? ==> r.error == NotEnoughData || r.error == Malformed
  {
    var b := d[p] as int;
    var major := b / 32;
    var info := b % 32;
    if info < 24 then Done(Head(major, info, info), p + 1)
    else if info < 28 then
      var k := InfoBytes(info);
      if p + 1 + k > |d| then Failed(NotEnoughData)
      else
        assert Pow256(k) <= Uint64Bound by { Pow256Monotonic(k, 8); }
        Done(Head(major, info, BigEndianValue(d[p + 1..p + 1 + k])), p + 1 + k)
    else if info < 31 then Failed(Malformed)
    else Done(Head(major, info, 0), p + 1)
  }

  lemma {:induction false} Pow256Monotonic(j: nat, k: nat)
    requires j <= k
    ensures Pow256(j) <= Pow256(k)
  {
    if j < k {
      Pow256Monotonic(j, k - 1);
    }
  }

  function KindOf(major: nat): StringKind
  {
    if major == 2 then ByteString else TextString
  }

  /** Decodes the item starting at `p`. */
  function ParseItem(d: Octets, p: nat): (r: Parse<Item>)
    requires p <= |d|
    ensures r.Done? ==> p < r.next <= |d|
    decreases |d| - p, 1
  {
    if p == |d| then Failed(NotEnoughData)
    else
      match ReadHead(d, p)
      case Failed(e) => Failed(e)
      case Done(h, q) =>
        if h.info == 31 then ParseIndefinite(d, q, h.major) else ParseDefinite(d, q, h)
  }

  /** The rest of an item whose head has additional information 31. */
  function ParseIndefinite(d: Octets, q: nat, major: nat): (r: Parse<Item>)
    requires 0 < q <= |d|
    ensures r.Done? ==> q <= r.next <= |d|
    decreases |d| - q + 1, 0
  {
    if major == 2 || major == 3 then
      match ParseChunks(d, q, KindOf(major))
      case Failed(e) => Failed(e)
      case Done(chunks, r) => Done(IndefiniteStr(KindOf(major), chunks), r)
    else if major == 4 then
      match ParseItemsUntilBreak(d, q)
      case Failed(e) => Failed(e)
      case Done(items, r) => Done(Array(items, false), r)
    else if major == 5 then
      match ParseEntriesUntilBreak(d, q)
      case Failed(e) => Failed(e)
      case Done(entries, r) => Done(Map(entries, false), r)
    else if major == 7 then Failed(SyntaxError)   // a break outside an indefinite item
    else Failed(Malformed)
  }

  /**
   * The rest of an item whose head `h` carries an argument. libcbor 0.5.0's
   * decoder refuses the unassigned simple values 0xe0 to 0xf3 and 0xf8 as
   * malformed.
   */
  function ParseDefinite(d: Octets, q: nat, h: Head): (r: Parse<Item>)
    requires 0 < q <= |d|
    ensures r.Done? ==> q <= r.next <= |d|
    decreases |d| - q + 1, 0
  {
    if h.major == 0 then Done(UInt(InfoWidth(h.info), h.arg), q)
    else if h.major == 1 then Done(NegInt(InfoWidth(h.info), h.arg), q)
    else if h.major == 2 || h.major == 3 then
      if h.arg > |d| - q then Failed(NotEnoughData)
      else Done(Str(KindOf(h.major), d[q..q + h.arg]), q + h.arg)
    else if h.major == 4 then
      match ParseItems(d, q, h.arg)
      case Failed(e) => Failed(e)
      case Done(items, r) => Done(Array(items, true), r)
    else if h.major == 5 then
      match ParseEntries(d, q, h.arg)
      case Failed(e) => Failed(e)
      case Done(entries, r) => Done(Map(entries, true), r)
    else if h.major == 6 then
      match ParseItem(d, q)
      case Failed(e) => Failed(e)
      case Done(x, r) => Done(Tag(h.arg, x), r)
    else if h.info < CtrlFalse || h.info == 24 then Failed(Malformed)  // unassigned simple values
    else if h.info < 24 then Done(Ctrl(h.info), q)
    else Done(Float(InfoWidth(h.info), h.arg), q)
  }

  /** Decodes `n` items in a row: the elements of a definite-length array. */
  function ParseItems(d: Octets, p: nat, n: nat): (r: Parse<seq<Item>>)
    requires p <= |d|
    ensures r.Done? ==> p <= r.next <= |d| && |r.value| == n
    decreases |d| - p, 2, n
  {
    if n == 0 then Done([], p)
    else
      match ParseItem(d, p)
      case Failed(e) => Failed(e)
      case Done(x, q) =>
        match ParseItems(d, q, n - 1)
        case Failed(e) => Failed(e)
        case Done(xs, r) => Done([x] + xs, r)
  }

  /** Decodes items up to a break byte: the elements of an indefinite-length array. */
  function ParseItemsUntilBreak(d: Octets, p: nat): (r: Parse<seq<Item>>)
    requires p <= |d|
    ensures r.Done? ==> p < r.next <= |d|
    decreases |d| - p, 2
  {
    if p == |d| then Failed(NotEnoughData)
    else if d[p] == BreakByte then Done([], p + 1)
    else
      match ParseItem(d, p)
      case Failed(e) => Failed(e)
      case Done(x, q) =>
        match ParseItemsUntilBreak(d, q)
        case Failed(e) => Failed(e)
        case Done(xs, r) => Done([x] + xs, r)
  }

  /** Decodes a key and a value. */
  function ParseEntry(d: Octets, p: nat): (r: Parse<Entry>)
    requires p <= |d|
    ensures r.Done? ==> p < r.next <= |d|
    decreases |d| - p, 2
  {
    match ParseItem(d, p)
    case Failed(e) => Failed(e)
    case Done(k, q) =>
      match ParseItem(d, q)
      case Failed(e) => Failed(e)
      case Done(v, r) => Done(Entry(k, v), r)
  }

  /** Decodes `n` key/value pairs: the entries of a definite-length map. */
  function ParseEntries(d: Octets, p: nat, n: nat): (r: Parse<seq<Entry>>)
    requires p <= |d|
    ensures r.Done? ==> p <= r.next <= |d| && |r.value| == n
    decreases |d| - p, 3, n
  {
    if n == 0 then Done([], p)
    else
      match ParseEntry(d, p)
      case Failed(e) => Failed(e)
      case Done(x, q) =>
        match ParseEntries(d, q, n - 1)
        case Failed(e) => Failed(e)
        case Done(xs, r) => Done([x] + xs, r)
  }

  /** Decodes key/value pairs up to a break byte: an indefinite-length map. */
  function ParseEntriesUntilBreak(d: Octets, p: nat): (r: Parse<seq<Entry>>)
    requires p <= |d|
    ensures r.Done? ==> p < r.next <= |d|
    decreases |d| - p, 3
  {
    if p == |d| then Failed(NotEnoughData)
    else if d[p] == BreakByte then Done([], p + 1)
    else
      match ParseEntry(d, p)
      case Failed(e) => Failed(e)
      case Done(x, q) =>
        match ParseEntriesUntilBreak(d, q)
        case Failed(e) => Failed(e)
        case Done(xs, r) => Done([x] + xs, r)
  }

  /**
   * Decodes the chunks of an indefinite-length string up to a break byte:
   * each chunk must be a definite-length string of the same kind.
   */
  function ParseChunks(d: Octets, p: nat, k: StringKind): (r: Parse<seq<Octets>>)
    requires p <= |d|
    ensures r.Done? ==> p < r.next <= |d|
    decreases |d| - p, 2
  {
    if p == |d| then Failed(NotEnoughData)
    else if d[p] == BreakByte then Done([], p + 1)
    else
      match ParseItem(d, p)
      case Failed(e) => Failed(e)
      case Done(x, q) =>
        if !(x.Str? && x.kind == k) then Failed(SyntaxError)
        else
          match ParseChunks(d, q, k)
          case Failed(e) => Failed(e)
          case Done(xs, r) => Done([x.bytes] + xs, r)
  }

  /** `cbor_load`: one item from the start of the buffer; bytes after it are not read. */
  function Load(d: Octets): (r: Parse<Item>)
    ensures |d| == 0 ==> r == Failed(NoData)
    ensures r.Done? ==> 0 < r.next <= |d|
  {
    if |d| == 0 then Failed(NoData) else ParseItem(d, 0)
  }

  // ---------------------------------------------------------------------
  // Decoding what was serialized

  /** `s` sits in `d` at position `p`. */
  predicate At(d: Octets, p: nat, s: Octets)
  {
    p + |s| <= |d| && d[p..p + |s|] == s
  }

  lemma AppendAssoc<T>(a: seq<T>, b: seq<T>, c: seq<T>)
    ensures a + b + c == a + (b + c)
  {
  }

  lemma AtSplit(d: Octets, p: nat, a: Octets, b: Octets)
    requires At(d, p, a + b)
    ensures At(d, p, a) && At(d, p + |a|, b)
  {
    assert d[p..p + |a|] == (a + b)[..|a|];
    assert d[p + |a|..p + |a| + |b|] == (a + b)[|a|..];
  }

  /** A head reads back as the major type, width and argument it was written with. */
  lemma ReadHeadBytes(d: Octets, p: nat, major: nat, w: Width, v: nat)
    requires major < 8 && v < Bound(w)
    requires At(d, p, HeadBytes(major, w, v))
    ensures ReadHead(d, p) == Done(Head(major, HeadInfo(w, v), v), p + |HeadBytes(major, w, v)|)
  {
    var h := HeadBytes(major, w, v);
    assert d[p] == h[0];
    HeadByteFields(major, HeadInfo(w, v));
    if !(w == W8 && v < 24) {
      var k := WidthBytes(w);
      assert d[p + 1..p + 1 + k] == h[1..] == BigEndian(v, k);
      BigEndianRoundTrip(v, k);
    }
  }

  /** No serialized item starts with the break byte. */
  lemma FirstByteNotBreak(it: Item)
    requires WellFormed(it)
    ensures Serialize(it)[0] != BreakByte
  {
    var s := Serialize(it);
    match it
    case Ctrl(v) =>
    case Float(w, bits) =>
    case _ => assert s[0] as int / 32 < 7;
  }

  // One decoding step each, so that the proofs below never unfold the decoder.

  lemma DefiniteStep(d: Octets, p: nat, h: Head, q: nat)
    requires p < |d| && ReadHead(d, p) == Done(h, q) && h.info != 31
    ensures ParseItem(d, p) == ParseDefinite(d, q, h)
  {
  }

  lemma IndefiniteStep(d: Octets, p: nat, major: nat)
    requires major < 8 && p < |d| && d[p] == IndefiniteHead(major)
    ensures ParseItem(d, p) == ParseIndefinite(d, p + 1, major)
  {
    HeadByteFields(major, 31);
  }

  lemma ItemsStep(d: Octets, p: nat, items: seq<Item>, q: nat, r: nat)
    requires items != [] && p <= |d| && ParseItem(d, p) == Done(items[0], q)
    requires q <= |d| && ParseItems(d, q, |items| - 1) == Done(items[1..], r)
    ensures ParseItems(d, p, |items|) == Done(items, r)
  {
    assert [items[0]] + items[1..] == items;
  }

  lemma ItemsUntilBreakStep(d: Octets, p: nat, items: seq<Item>, q: nat, r: nat)
    requires items != [] && p < |d| && d[p] != BreakByte && ParseItem(d, p) == Done(items[0], q)
    requires q <= |d| && ParseItemsUntilBreak(d, q) == Done(items[1..], r)
    ensures ParseItemsUntilBreak(d, p) == Done(items, r)
  {
    assert [items[0]] + items[1..] == items;
  }

  lemma EntryStep(d: Octets, p: nat, k: Item, q: nat, v: Item, r: nat)
    requires p <= |d| && ParseItem(d, p) == Done(k, q)
    requires q <= |d| && ParseItem(d, q) == Done(v, r)
    ensures ParseEntry(d, p) == Done(Entry(k, v), r)
  {
  }

  lemma EntriesStep(d: Octets, p: nat, entries: seq<Entry>, q: nat, r: nat)
    requires entries != [] && p <= |d| && ParseEntry(d, p) == Done(entries[0], q)
    requires q <= |d| && ParseEntries(d, q, |entries| - 1) == Done(entries[1..], r)
    ensures ParseEntries(d, p, |entries|) == Done(entries, r)
  {
    assert [entries[0]] + entries[1..] == entries;
  }

  lemma EntriesUntilBreakStep(d: Octets, p: nat, entries: seq<Entry>, q: nat, r: nat)
    requires entries != [] && p < |d| && d[p] != BreakByte && ParseEntry(d, p) == Done(entries[0], q)
    requires q <= |d| && ParseEntriesUntilBreak(d, q) == Done(entries[1..], r)
    ensures ParseEntriesUntilBreak(d, p) == Done(entries, r)
  {
    assert [entries[0]] + entries[1..] == entries;
  }

  lemma ChunksStep(d: Octets, p: nat, k: StringKind, chunks: seq<Octets>, q: nat, r: nat)
    requires chunks != [] && p < |d| && d[p] != BreakByte && ParseItem(d, p) == Done(Str(k, chunks[0]), q)
    requires q <= |d| && ParseChunks(d, q, k) == Done(chunks[1..], r)
    ensures ParseChunks(d, p, k) == Done(chunks, r)
  {
    assert [chunks[0]] + chunks[1..] == chunks;
  }

  /**
   * `cbor_load` inverts `cbor_serialize`: decoding the bytes of a well-formed
   * item, wherever they sit, gives the item back and stops right after them.
   */
  lemma {:induction false} ParseSerialized(it: Item, d: Octets, p: nat)
    requires WellFormed(it) && At(d, p, Serialize(it))
    ensures ParseItem(d, p) == Done(it, p + |Serialize(it)|)
    decreases it, 0
  {
    match it
    case UInt(w, v) => ParseHeadOnlySerialized(it, 0, w, v, d, p);
    case NegInt(w, v) => ParseHeadOnlySerialized(it, 1, w, v, d, p);
    case Str(k, b) =>
      assert Serialize(it) == LengthHead(KindMajor(k), |b|) + b;
      ParseStrSerialized(k, b, d, p);
    case IndefiniteStr(k, chunks) => ParseIndefiniteStrSerialized(k, chunks, d, p);
    case Array(items, definite) => ParseArraySerialized(items, definite, d, p);
    case Map(entries, definite) => ParseMapSerialized(entries, definite, d, p);
    case Tag(t, x) => ParseTagSerialized(t, x, d, p);
    case Ctrl(v) => ParseHeadOnlySerialized(it, 7, W8, v, d, p);
    case Float(w, bits) => ParseHeadOnlySerialized(it, 7, w, bits, d, p);
  }

  /** The items that are a head and nothing else. */
  lemma ParseHeadOnlySerialized(it: Item, major: nat, w: Width, v: nat, d: Octets, p: nat)
    requires WellFormed(it) && (it.UInt? || it.NegInt? || it.Ctrl? || it.Float?)
    requires major == (if it.UInt? then 0 else if it.NegInt? then 1 else 7)
    requires w == (if it.Ctrl? then W8 else it.width)
    requires v == (if it.UInt? || it.NegInt? then it.value else if it.Ctrl? then it.simple else it.bits)
    requires At(d, p, Serialize(it))
    ensures ParseItem(d, p) == Done(it, p + |Serialize(it)|)
  {
    assert Serialize(it) == HeadBytes(major, w, v);
    ReadHeadBytes(d, p, major, w, v);
    DefiniteStep(d, p, Head(major, HeadInfo(w, v), v), p + |Serialize(it)|);
  }

  lemma ParseStrSerialized(k: StringKind, b: Octets, d: Octets, p: nat)
    requires |b| < Uint64Bound && At(d, p, LengthHead(KindMajor(k), |b|) + b)
    ensures ParseItem(d, p) == Done(Str(k, b), p + |LengthHead(KindMajor(k), |b|)| + |b|)
  {
    var h := LengthHead(KindMajor(k), |b|);
    var w := MinimalWidth(|b|);
    AtSplit(d, p, h, b);
    ReadHeadBytes(d, p, KindMajor(k), w, |b|);
    DefiniteStep(d, p, Head(KindMajor(k), HeadInfo(w, |b|), |b|), p + |h|);
  }

  lemma ParseIndefiniteStrSerialized(k: StringKind, chunks: seq<Octets>, d: Octets, p: nat)
    requires WellFormed(IndefiniteStr(k, chunks)) && At(d, p, Serialize(IndefiniteStr(k, chunks)))
    ensures ParseItem(d, p) == Done(IndefiniteStr(k, chunks), p + |Serialize(IndefiniteStr(k, chunks))|)
  {
    var body := SerializeChunks(k, chunks) + [BreakByte];
    AppendAssoc([IndefiniteHead(KindMajor(k))], SerializeChunks(k, chunks), [BreakByte]);
    AtSplit(d, p, [IndefiniteHead(KindMajor(k))], body);
    IndefiniteStep(d, p, KindMajor(k));
    ParseChunksSerialized(k, chunks, d, p + 1);
    assert KindOf(KindMajor(k)) == k;
  }

  /** A definite-length array or map, or a tag: its head, then its body. */
  lemma CountedAt(major: nat, n: nat, body: Octets, d: Octets, p: nat) returns (q: nat)
    requires 4 <= major <= 6 && n < Uint64Bound
    requires At(d, p, LengthHead(major, n) + body)
    ensures q == p + |LengthHead(major, n)| && At(d, q, body)
    ensures ParseItem(d, p) == ParseDefinite(d, q, Head(major, HeadInfo(MinimalWidth(n), n), n))
  {
    var h := LengthHead(major, n);
    var w := MinimalWidth(n);
    AtSplit(d, p, h, body);
    ReadHeadBytes(d, p, major, w, n);
    DefiniteStep(d, p, Head(major, HeadInfo(w, n), n), p + |h|);
    q := p + |h|;
  }

  lemma {:induction false} ParseArraySerialized(items: seq<Item>, definite: bool, d: Octets, p: nat)
    requires WellFormed(Array(items, definite)) && At(d, p, Serialize(Array(items, definite)))
    ensures ParseItem(d, p) == Done(Array(items, definite), p + |Serialize(Array(items, definite))|)
    decreases items, 1
  {
    if definite {
      var q := CountedAt(4, |items|, SerializeItems(items), d, p);
      ParseItemsSerialized(items, d, q);
    } else {
      var body := SerializeItems(items) + [BreakByte];
      AppendAssoc([IndefiniteHead(4)], SerializeItems(items), [BreakByte]);
      AtSplit(d, p, [IndefiniteHead(4)], body);
      IndefiniteStep(d, p, 4);
      ParseItemsUntilBreakSerialized(items, d, p + 1);
    }
  }

  lemma {:induction false} ParseMapSerialized(entries: seq<Entry>, definite: bool, d: Octets, p: nat)
    requires WellFormed(Map(entries, definite)) && At(d, p, Serialize(Map(entries, definite)))
    ensures ParseItem(d, p) == Done(Map(entries, definite), p + |Serialize(Map(entries, definite))|)
    decreases entries, 1
  {
    if definite {
      var q := CountedAt(5, |entries|, SerializeEntries(entries), d, p);
      ParseEntriesSerialized(entries, d, q);
    } else {
      var body := SerializeEntries(entries) + [BreakByte];
      AppendAssoc([IndefiniteHead(5)], SerializeEntries(entries), [BreakByte]);
      AtSplit(d, p, [IndefiniteHead(5)], body);
      IndefiniteStep(d, p, 5);
      ParseEntriesUntilBreakSerialized(entries, d, p + 1);
    }
  }

  /** A serialized tag decodes, up to its content, to the tag's head. */
  lemma TagAt(t: nat, x: Item, d: Octets, p: nat) returns (q: nat)
    requires WellFormed(Tag(t, x)) && At(d, p, Serialize(Tag(t, x)))
    ensures q == p + |LengthHead(6, t)| && At(d, q, Serialize(x))
    ensures q + |Serialize(x)| == p + |Serialize(Tag(t, x))|
    ensures ParseItem(d, p) == match ParseItem(d, q) case Failed(e) => Failed(e) case Done(y, r) => Done(Tag(t, y), r)
  {
    assert Serialize(Tag(t, x)) == LengthHead(6, t) + Serialize(x);
    q := CountedAt(6, t, Serialize(x), d, p);
  }

  lemma {:induction false} ParseTagSerialized(t: nat, x: Item, d: Octets, p: nat)
    requires WellFormed(Tag(t, x)) && At(d, p, Serialize(Tag(t, x)))
    ensures ParseItem(d, p) == Done(Tag(t, x), p + |Serialize(Tag(t, x))|)
    decreases x, 1
  {
    var q := TagAt(t, x, d, p);
    ParseSerialized(x, d, q);
  }

  /** The first item of serialized items, and where the rest starts. */
  lemma ItemsPrefixAt(items: seq<Item>, d: Octets, p: nat) returns (q: nat)
    requires items != [] && ItemsWellFormed(items) && At(d, p, SerializeItems(items))
    ensures At(d, p, Serialize(items[0])) && q == p + |Serialize(items[0])|
    ensures At(d, q, SerializeItems(items[1..]))
    ensures q + |SerializeItems(items[1..])| == p + |SerializeItems(items)|
  {
    AtSplit(d, p, Serialize(items[0]), SerializeItems(items[1..]));
    q := p + |Serialize(items[0])|;
  }

  lemma {:induction false} ParseItemsSerialized(items: seq<Item>, d: Octets, p: nat)
    requires ItemsWellFormed(items)
    requires At(d, p, SerializeItems(items))
    ensures ParseItems(d, p, |items|) == Done(items, p + |SerializeItems(items)|)
    decreases items, 0
  {
    if items != [] {
      var q := ItemsPrefixAt(items, d, p);
      ParseSerialized(items[0], d, p);
      ParseItemsSerialized(items[1..], d, q);
      ItemsStep(d, p, items, q, p + |SerializeItems(items)|);
    }
  }

  /** The first item of a serialized indefinite array, and where the rest starts. */
  lemma ItemsAt(items: seq<Item>, d: Octets, p: nat) returns (q: nat)
    requires items != [] && ItemsWellFormed(items)
    requires At(d, p, SerializeItems(items) + [BreakByte])
    ensures At(d, p, Serialize(items[0])) && d[p] != BreakByte
    ensures q == p + |Serialize(items[0])|
    ensures At(d, q, SerializeItems(items[1..]) + [BreakByte])
    ensures q + |SerializeItems(items[1..])| == p + |SerializeItems(items)|
  {
    var s0 := Serialize(items[0]);
    var rest := SerializeItems(items[1..]) + [BreakByte];
    AppendAssoc(s0, SerializeItems(items[1..]), [BreakByte]);
    AtSplit(d, p, s0, rest);
    FirstByteNotBreak(items[0]);
    q := p + |s0|;
  }

  lemma {:induction false} ParseItemsUntilBreakSerialized(items: seq<Item>, d: Octets, p: nat)
    requires ItemsWellFormed(items)
    requires At(d, p, SerializeItems(items) + [BreakByte])
    ensures ParseItemsUntilBreak(d, p) == Done(items, p + |SerializeItems(items)| + 1)
    decreases items, 0
  {
    if items == [] {
      assert d[p] == BreakByte;
    } else {
      var q := ItemsAt(items, d, p);
      ParseSerialized(items[0], d, p);
      ParseItemsUntilBreakSerialized(items[1..], d, q);
      ItemsUntilBreakStep(d, p, items, q, p + |SerializeItems(items)| + 1);
    }
  }

  /** Where the key and the value of a serialized entry sit. */
  lemma EntryAt(e: Entry, d: Octets, p: nat) returns (q: nat)
    requires EntryWellFormed(e) && At(d, p, SerializeEntry(e))
    ensures At(d, p, Serialize(e.key)) && q == p + |Serialize(e.key)|
    ensures At(d, q, Serialize(e.value)) && q + |Serialize(e.value)| == p + |SerializeEntry(e)|
  {
    AtSplit(d, p, Serialize(e.key), Serialize(e.value));
    q := p + |Serialize(e.key)|;
  }

  lemma {:induction false} ParseEntrySerialized(e: Entry, d: Octets, p: nat)
    requires EntryWellFormed(e) && At(d, p, SerializeEntry(e))
    ensures ParseEntry(d, p) == Done(e, p + |SerializeEntry(e)|)
    decreases e, 0
  {
    var q := EntryAt(e, d, p);
    ParseSerialized(e.key, d, p);
    ParseSerialized(e.value, d, q);
    EntryStep(d, p, e.key, q, e.value, p + |SerializeEntry(e)|);
  }

  /** The first entry of serialized entries, and where the rest starts. */
  lemma EntriesPrefixAt(entries: seq<Entry>, d: Octets, p: nat) returns (q: nat)
    requires entries != [] && EntriesWellFormed(entries) && At(d, p, SerializeEntries(entries))
    ensures At(d, p, SerializeEntry(entries[0])) && q == p + |SerializeEntry(entries[0])|
    ensures At(d, q, SerializeEntries(entries[1..]))
    ensures q + |SerializeEntries(entries[1..])| == p + |SerializeEntries(entries)|
  {
    AtSplit(d, p, SerializeEntry(entries[0]), SerializeEntries(entries[1..]));
    q := p + |SerializeEntry(entries[0])|;
  }

  lemma {:induction false} ParseEntriesSerialized(entries: seq<Entry>, d: Octets, p: nat)
    requires EntriesWellFormed(entries)
    requires At(d, p, SerializeEntries(entries))
    ensures ParseEntries(d, p, |entries|) == Done(entries, p + |SerializeEntries(entries)|)
    decreases entries, 0
  {
    if entries != [] {
      var q := EntriesPrefixAt(entries, d, p);
      ParseEntrySerialized(entries[0], d, p);
      ParseEntriesSerialized(entries[1..], d, q);
      EntriesStep(d, p, entries, q, p + |SerializeEntries(entries)|);
    }
  }

  /** The first entry of a serialized indefinite map, and where the rest starts. */
  lemma EntriesAt(entries: seq<Entry>, d: Octets, p: nat) returns (q: nat)
    requires entries != [] && EntriesWellFormed(entries)
    requires At(d, p, SerializeEntries(entries) + [BreakByte])
    ensures At(d, p, SerializeEntry(entries[0])) && d[p] != BreakByte
    ensures q == p + |SerializeEntry(entries[0])|
    ensures At(d, q, SerializeEntries(entries[1..]) + [BreakByte])
    ensures q + |SerializeEntries(entries[1..])| == p + |SerializeEntries(entries)|
  {
    var sk := Serialize(entries[0].key);
    var s0 := SerializeEntry(entries[0]);
    var rest := SerializeEntries(entries[1..]) + [BreakByte];
    AppendAssoc(s0, SerializeEntries(entries[1..]), [BreakByte]);
    AtSplit(d, p, s0, rest);
    FirstByteNotBreak(entries[0].key);
    assert s0[0] == sk[0];
    q := p + |s0|;
  }

  lemma {:induction false} ParseEntriesUntilBreakSerialized(entries: seq<Entry>, d: Octets, p: nat)
    requires EntriesWellFormed(entries)
    requires At(d, p, SerializeEntries(entries) + [BreakByte])
    ensures ParseEntriesUntilBreak(d, p) == Done(entries, p + |SerializeEntries(entries)| + 1)
    decreases entries, 0
  {
    if entries == [] {
      assert d[p] == BreakByte;
    } else {
      var q := EntriesAt(entries, d, p);
      ParseEntrySerialized(entries[0], d, p);
      ParseEntriesUntilBreakSerialized(entries[1..], d, q);
      EntriesUntilBreakStep(d, p, entries, q, p + |SerializeEntries(entries)| + 1);
    }
  }

  /** The first chunk of a serialized indefinite string, and where the rest starts. */
  lemma ChunksAt(k: StringKind, chunks: seq<Octets>, d: Octets, p: nat) returns (q: nat)
    requires chunks != [] && ChunksWellFormed(chunks)
    requires At(d, p, SerializeChunks(k, chunks) + [BreakByte])
    ensures At(d, p, LengthHead(KindMajor(k), |chunks[0]|) + chunks[0]) && d[p] != BreakByte
    ensures q == p + |LengthHead(KindMajor(k), |chunks[0]|)| + |chunks[0]|
    ensures At(d, q, SerializeChunks(k, chunks[1..]) + [BreakByte])
    ensures q + |SerializeChunks(k, chunks[1..])| == p + |SerializeChunks(k, chunks)|
  {
    var c := chunks[0];
    var h := LengthHead(KindMajor(k), |c|);
    var s0 := h + c;
    var rest := SerializeChunks(k, chunks[1..]) + [BreakByte];
    AppendAssoc(s0, SerializeChunks(k, chunks[1..]), [BreakByte]);
    AtSplit(d, p, s0, rest);
    assert s0[0] == h[0];
    q := p + |s0|;
  }

  lemma {:induction false} ParseChunksSerialized(k: StringKind, chunks: seq<Octets>, d: Octets, p: nat)
    requires ChunksWellFormed(chunks)
    requires At(d, p, SerializeChunks(k, chunks) + [BreakByte])
    ensures ParseChunks(d, p, k) == Done(chunks, p + |SerializeChunks(k, chunks)| + 1)
  {
    if chunks == [] {
      assert d[p] == BreakByte;
    } else {
      var q := ChunksAt(k, chunks, d, p);
      ParseStrSerialized(k, chunks[0], d, p);
      ParseChunksSerialized(k, chunks[1..], d, q);
      ChunksStep(d, p, k, chunks, q, p + |SerializeChunks(k, chunks)| + 1);
    }
  }

  /** `cbor_load` of the whole output of `cbor_serialize` gives the item back. */
  lemma LoadSerialized(it: Item)
    requires WellFormed(it)
    ensures Load(Serialize(it)) == Done(it, |Serialize(it)|)
  {
    var s := Serialize(it);
    assert s[0..|s|] == s;
    ParseSerialized(it, s, 0);
  }

  /**
   * `cbor_load` refuses an unassigned simple value as malformed: a one-byte
   * head below false (0xe0 to 0xf3), and the one-byte-argument head 0xf8
   * whatever its argument.
   */
  lemma UnassignedSimpleMalformed(d: Octets)
    requires |d| > 0 && d[0] as int / 32 == 7
    requires d[0] as int % 32 < CtrlFalse || (d[0] as int % 32 == 24 && |d| > 1)
    ensures Load(d) == Failed(Malformed)
  {
    var h := ReadHead(d, 0);
    assert h.Done? && h.value.major == 7 && h.value.info == d[0] as int % 32;
    DefiniteStep(d, 0, h.value, h.next);
  }

  // ---------------------------------------------------------------------
  // A decode reads nothing past the item

  /** `d` and `e` hold the same first `n` bytes. */
  predicate Agree(d: Octets, e: Octets, n: nat)
  {
    n <= |d| && n <= |e| && d[..n] == e[..n]
  }

  lemma AgreeAt(d: Octets, e: Octets, n: nat, i: nat)
    requires Agree(d, e, n) && i < n
    ensures d[i] == e[i]
  {
    assert d[..n][i] == e[..n][i];
  }

  lemma AgreeShorter(d: Octets, e: Octets, n: nat, m: nat)
    requires Agree(d, e, n) && m <= n
    ensures Agree(d, e, m)
  {
    assert d[..m] == d[..n][..m];
    assert e[..m] == e[..n][..m];
  }

  lemma AgreeSlice(d: Octets, e: Octets, n: nat, i: nat, j: nat)
    requires Agree(d, e, n) && i <= j <= n
    ensures d[i..j] == e[i..j]
  {
    assert d[i..j] == d[..n][i..j];
    assert e[i..j] == e[..n][i..j];
  }

  lemma ReadHeadExt(d: Octets, e: Octets, p: nat)
    requires p < |d| && ReadHead(d, p).Done? && Agree(d, e, ReadHead(d, p).next)
    ensures p < |e| && ReadHead(e, p) == ReadHead(d, p)
  {
    AgreeAt(d, e, ReadHead(d, p).next, p);
    var info := d[p] as int % 32;
    if 24 <= info < 28 {
      AgreeSlice(d, e, ReadHead(d, p).next, p + 1, p + 1 + InfoBytes(info));
    }
  }

  lemma IndefiniteFromHead(d: Octets, p: nat, h: Head, q: nat)
    requires p < |d| && ReadHead(d, p) == Done(h, q) && h.info == 31
    ensures ParseItem(d, p) == ParseIndefinite(d, q, h.major)
  {
  }

  /**
   * A successful decode depends only on the bytes it consumed: any buffer
   * that agrees on them decodes to the same item and position.
   */
  lemma {:induction false} ParseItemExt(d: Octets, e: Octets, p: nat)
    requires p <= |d| && p <= |e| && ParseItem(d, p).Done? && Agree(d, e, ParseItem(d, p).next)
    ensures ParseItem(e, p) == ParseItem(d, p)
    decreases |d| - p, 1
  {
    var n := ParseItem(d, p).next;
    var h :| ReadHead(d, p).Done? && ReadHead(d, p).value == h;
    var q := ReadHead(d, p).next;
    AgreeShorter(d, e, n, q);
    ReadHeadExt(d, e, p);
    if h.info == 31 {
      IndefiniteFromHead(d, p, h, q);
      IndefiniteFromHead(e, p, h, q);
      ParseIndefiniteExt(d, e, q, h.major);
    } else {
      DefiniteStep(d, p, h, q);
      DefiniteStep(e, p, h, q);
      ParseDefiniteExt(d, e, q, h);
    }
  }

  lemma {:induction false} ParseIndefiniteExt(d: Octets, e: Octets, q: nat, major: nat)
    requires 0 < q <= |d| && q <= |e| && ParseIndefinite(d, q, major).Done?
    requires Agree(d, e, ParseIndefinite(d, q, major).next)
    ensures ParseIndefinite(e, q, major) == ParseIndefinite(d, q, major)
    decreases |d| - q + 1, 0
  {
    if major == 2 || major == 3 {
      ParseChunksExt(d, e, q, KindOf(major));
    } else if major == 4 {
      ParseItemsUntilBreakExt(d, e, q);
    } else {
      ParseEntriesUntilBreakExt(d, e, q);
    }
  }

  lemma {:induction false} ParseDefiniteExt(d: Octets, e: Octets, q: nat, h: Head)
    requires 0 < q <= |d| && q <= |e| && ParseDefinite(d, q, h).Done?
    requires Agree(d, e, ParseDefinite(d, q, h).next)
    ensures ParseDefinite(e, q, h) == ParseDefinite(d, q, h)
    decreases |d| - q + 1, 0
  {
    if h.major == 2 || h.major == 3 {
      AgreeSlice(d, e, q + h.arg, q, q + h.arg);
    } else if h.major == 4 {
      ParseItemsExt(d, e, q, h.arg);
    } else if h.major == 5 {
      ParseEntriesExt(d, e, q, h.arg);
    } else if h.major == 6 {
      ParseItemExt(d, e, q);
    }
  }

  lemma {:induction false} ParseItemsExt(d: Octets, e: Octets, p: nat, n: nat)
    requires p <= |d| && p <= |e| && ParseItems(d, p, n).Done? && Agree(d, e, ParseItems(d, p, n).next)
    ensures ParseItems(e, p, n) == ParseItems(d, p, n)
    decreases |d| - p, 2, n
  {
    if n > 0 {
      var q := ParseItem(d, p).next;
      AgreeShorter(d, e, ParseItems(d, p, n).next, q);
      ParseItemExt(d, e, p);
      ParseItemsExt(d, e, q, n - 1);
    }
  }

  lemma {:induction false} ParseItemsUntilBreakExt(d: Octets, e: Octets, p: nat)
    requires p <= |d| && p <= |e| && ParseItemsUntilBreak(d, p).Done?
    requires Agree(d, e, ParseItemsUntilBreak(d, p).next)
    ensures ParseItemsUntilBreak(e, p) == ParseItemsUntilBreak(d, p)
    decreases |d| - p, 2
  {
    AgreeAt(d, e, ParseItemsUntilBreak(d, p).next, p);
    if d[p] != BreakByte {
      var q := ParseItem(d, p).next;
      AgreeShorter(d, e, ParseItemsUntilBreak(d, p).next, q);
      ParseItemExt(d, e, p);
      ParseItemsUntilBreakExt(d, e, q);
    }
  }

  lemma {:induction false} ParseEntryExt(d: Octets, e: Octets, p: nat)
    requires p <= |d| && p <= |e| && ParseEntry(d, p).Done? && Agree(d, e, ParseEntry(d, p).next)
    ensures ParseEntry(e, p) == ParseEntry(d, p)
    decreases |d| - p, 2
  {
    var q := ParseItem(d, p).next;
    AgreeShorter(d, e, ParseEntry(d, p).next, q);
    ParseItemExt(d, e, p);
    AgreeShorter(d, e, ParseEntry(d, p).next, ParseItem(d, q).next);
    ParseItemExt(d, e, q);
  }

  lemma {:induction false} ParseEntriesExt(d: Octets, e: Octets, p: nat, n: nat)
    requires p <= |d| && p <= |e| && ParseEntries(d, p, n).Done? && Agree(d, e, ParseEntries(d, p, n).next)
    ensures ParseEntries(e, p, n) == ParseEntries(d, p, n)
    decreases |d| - p, 3, n
  {
    if n > 0 {
      var q := ParseEntry(d, p).next;
      AgreeShorter(d, e, ParseEntries(d, p, n).next, q);
      ParseEntryExt(d, e, p);
      ParseEntriesExt(d, e, q, n - 1);
    }
  }

  lemma {:induction false} ParseEntriesUntilBreakExt(d: Octets, e: Octets, p: nat)
    requires p <= |d| && p <= |e| && ParseEntriesUntilBreak(d, p).Done?
    requires Agree(d, e, ParseEntriesUntilBreak(d, p).next)
    ensures ParseEntriesUntilBreak(e, p) == ParseEntriesUntilBreak(d, p)
    decreases |d| - p, 3
  {
    AgreeAt(d, e, ParseEntriesUntilBreak(d, p).next, p);
    if d[p] != BreakByte {
      var q := ParseEntry(d, p).next;
      AgreeShorter(d, e, ParseEntriesUntilBreak(d, p).next, q);
      ParseEntryExt(d, e, p);
      ParseEntriesUntilBreakExt(d, e, q);
    }
  }

  lemma {:induction false} ParseChunksExt(d: Octets, e: Octets, p: nat, k: StringKind)
    requires p <= |d| && p <= |e| && ParseChunks(d, p, k).Done?
    requires Agree(d, e, ParseChunks(d, p, k).next)
    ensures ParseChunks(e, p, k) == ParseChunks(d, p, k)
    decreases |d| - p, 2
  {
    AgreeAt(d, e, ParseChunks(d, p, k).next, p);
    if d[p] != BreakByte {
      var q := ParseItem(d, p).next;
      AgreeShorter(d, e, ParseChunks(d, p, k).next, q);
      ParseItemExt(d, e, p);
      ParseChunksExt(d, e, q, k);
    }
  }

  /**
   * Truncated input is an error: `cbor_load` of any strict prefix of a
   * serialized item fails.
   */
  lemma LoadTruncated(it: Item, m: nat)
    requires WellFormed(it) && m < |Serialize(it)|
    ensures Load(Serialize(it)[..m]).Failed?
  {
    var s := Serialize(it);
    var t := s[..m];
    if m > 0 && ParseItem(t, 0).Done? {
      var q := ParseItem(t, 0).next;
      assert t[..q] == s[..q];
      ParseItemExt(t, s, 0);
      assert s[0..|s|] == s;
      ParseSerialized(it, s, 0);
      assert false;
    }
  }
}
