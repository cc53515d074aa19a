/**
 * src/cbor_json.cpp: `json_to_cbor` turns a JSON document into the bytes of
 * a CBOR item; `cbor_to_json` loads a CBOR item from bytes and turns it
 * back into a JSON document.
 */
module CborJson {
  import opened Octets
  import opened Cbor
  import opened Json
  import opened ErrorOr

  /**
   * How a conversion ends. `Aborted` is the end of the process: an `ABORT`,
   * a failed `CHECK`, or an exception of the JSON library that nothing
   * catches. `NotModelled` is a half or single float, whose widening to a
   * double this model does not compute. An abort anywhere in a document
   * wins over a float left unmodelled elsewhere.
   */
  datatype Conversion<T> = Converted(value: T) | Aborted | NotModelled

  /** The conversion of a head element and of the elements after it. */
  function Cons<T>(x: Conversion<T>, xs: Conversion<seq<T>>): (r: Conversion<seq<T>>)
    ensures r.Aborted? <==> x.Aborted? || xs.Aborted?
    ensures r.Converted? <==> x.Converted? && xs.Converted?
  {
    if x.Aborted? || xs.Aborted? then Aborted
    else if x.NotModelled? || xs.NotModelled? then NotModelled
    else Converted([x.value] + xs.value)
  }

  const Nul: Octet := 0 as char

  /**
   * What `cbor_build_string(s.c_str())` sees of `s`: the bytes before the
   * first NUL.
   */
  function CString(s: Octets): (r: Octets)
    ensures |r| <= |s| && r == s[..|r|]
    ensures Nul !in r
    ensures |r| < |s| ==> s[|r|] == Nul
  {
    if s == [] || s[0] == Nul then [] else [s[0]] + CString(s[1..])
  }

  // ---------------------------------------------------------------------
  // JSON to CBOR (`json_to_cbor_item`)

  /**
   * The integer branch for a signed 64-bit `i`: a non-negative value as an
   * unsigned integer, a negative one as a negative integer whose argument
   * is `-1 - i`, each in the narrowest width that holds it.
   */
  function SignedItem(i: int): (it: Item)
    requires Int64Min <= i < Int64Bound
    ensures WellFormed(it)
  {
    if i >= 0 then UInt(MinimalWidth(i), i) else NegInt(MinimalWidth(-1 - i), -1 - i)
  }

  /** The value `get<int64_t>()` reads from an integer number: an unsigned one is cast. */
  function AsInt64(j: Json): (i: int)
    requires (j.JInt? || j.JUnsigned?) && Valid(j)
    ensures Int64Min <= i < Int64Bound
    ensures j.JUnsigned? ==> i % Uint64Limit == j.u % Uint64Limit
  {
    if j.JInt? then j.i
    else if j.u < Int64Bound then j.u
    else j.u - Uint64Limit
  }

  /**
   * The integer branch as written: `is_number_integer()` holds for unsigned
   * numbers too, so every integer goes through `get<int64_t>()` and the
   * `is_number_unsigned()` branch is never reached.
   */
  function IntegerItemAsWritten(j: Json): (it: Item)
    requires (j.JInt? || j.JUnsigned?) && Valid(j)
    ensures WellFormed(it)
  {
    SignedItem(AsInt64(j))
  }

  /**
   * The integer branch as evidently intended: a signed number through
   * `get<int64_t>()`, an unsigned one through `get<uint64_t>()`.
   */
  function IntegerItem(j: Json): (it: Item)
    requires (j.JInt? || j.JUnsigned?) && Valid(j)
    ensures WellFormed(it)
  {
    if j.JInt? then SignedItem(j.i) else UInt(MinimalWidth(j.u), j.u)
  }

  /** `json_to_cbor_item`: the CBOR item built for a document. */
  function JsonToItem(j: Json): (it: Item)
    requires Valid(j)
    ensures it.Map? <==> j.JObject?
    ensures it.Map? ==> it.definite && |it.entries| == |j.members|
    ensures it.Array? <==> j.JArray?
    ensures it.Array? ==> it.definite && |it.items| == |j.elements|
    ensures it.Ctrl? <==> j.JNull? || j.JBool?
    ensures it.UInt? || it.NegInt? <==> j.JInt? || j.JUnsigned?
    ensures it.Str? <==> j.JString?
    decreases j
  {
    match j
    case JNull => Ctrl(CtrlNull)
    case JBool(b) => Ctrl(if b then CtrlTrue else CtrlFalse)
    case JInt(_) => IntegerItem(j)
    case JUnsigned(_) => IntegerItem(j)
    case JFloat(bits) => Float(W64, bits)
    case JString(s) => Str(TextString, CString(s))
    case JArray(xs) => Array(ElementsToItems(xs), true)
    case JObject(ms) => Map(MembersToEntries(ms), true)
  }

  /** The array's elements, each converted, in order. */
  function ElementsToItems(xs: seq<Json>): (items: seq<Item>)
    requires forall i :: 0 <= i < |xs| ==> Valid(xs[i])
    ensures |items| == |xs|
    decreases xs
  {
    if xs == [] then [] else [JsonToItem(xs[0])] + ElementsToItems(xs[1..])
  }

  /** The object's members in iteration order, each key as a text string. */
  function MembersToEntries(ms: seq<Member>): (entries: seq<Entry>)
    requires forall i :: 0 <= i < |ms| ==> Valid(ms[i].value)
    ensures |entries| == |ms|
    decreases ms
  {
    if ms == [] then []
    else [Entry(Str(TextString, CString(ms[0].key)), JsonToItem(ms[0].value))] + MembersToEntries(ms[1..])
  }

  /** Every item built for a document can be serialized: each count and length fits a head. */
  lemma {:induction false} JsonToItemWellFormed(j: Json)
    requires Valid(j) && Sized(j)
    ensures WellFormed(JsonToItem(j))
    decreases j, 1
  {
    match j
    case JArray(xs) => ElementsWellFormed(xs);
    case JObject(ms) => MembersWellFormed(ms);
    case _ =>
  }

  lemma {:induction false} ElementsWellFormed(xs: seq<Json>)
    requires forall i :: 0 <= i < |xs| ==> Valid(xs[i]) && Sized(xs[i])
    ensures ItemsWellFormed(ElementsToItems(xs))
    decreases xs
  {
    if xs != [] {
      JsonToItemWellFormed(xs[0]);
      ElementsWellFormed(xs[1..]);
      var items := ElementsToItems(xs);
      assert items[0] == JsonToItem(xs[0]) && items[1..] == ElementsToItems(xs[1..]);
    }
  }

  lemma MemberWellFormed(m: Member)
    requires Valid(m.value) && Sized(m.value) && |m.key| < Uint64Limit
    ensures EntryWellFormed(Entry(Str(TextString, CString(m.key)), JsonToItem(m.value)))
    decreases m
  {
    JsonToItemWellFormed(m.value);
  }

  lemma {:induction false} MembersWellFormed(ms: seq<Member>)
    requires forall i :: 0 <= i < |ms| ==> Valid(ms[i].value)
    requires forall i :: 0 <= i < |ms| ==> |ms[i].key| < Uint64Limit && Sized(ms[i].value)
    ensures EntriesWellFormed(MembersToEntries(ms))
    decreases ms
  {
    if ms != [] {
      MemberWellFormed(ms[0]);
      MembersWellFormed(ms[1..]);
      var es := MembersToEntries(ms);
      assert es[0] == Entry(Str(TextString, CString(ms[0].key)), JsonToItem(ms[0].value));
      assert es[1..] == MembersToEntries(ms[1..]);
    }
  }

  /** `json_to_cbor`: the serialized item. */
  function JsonToCbor(j: Json): (d: Octets)
    requires Valid(j) && Sized(j)
    ensures |d| >= 1
  {
    JsonToItemWellFormed(j);
    Serialize(JsonToItem(j))
  }

  // ---------------------------------------------------------------------
  // CBOR to JSON (`cbor_item_to_json`)

  /**
   * `cbor_item_to_json`: unsigned integers become unsigned numbers;
   * negative ones become `-1 - v`, after a `CHECK` that `v` fits an
   * `int64_t`; text strings (the chunks joined, when indefinite) become
   * strings; byte strings and tags abort; arrays keep their elements in
   * order; maps `emplace` their pairs in order; null, false and true become
   * their JSON values and any other simple value aborts.
   */
  function ItemToJson(it: Item): (r: Conversion<Json>)
    ensures it.Tag? || ((it.Str? || it.IndefiniteStr?) && it.kind != TextString) ==> r.Aborted?
    ensures it.NegInt? ==> (r.Aborted? <==> it.value >= Int64Bound)
    ensures r.Converted? ==> (r.value.JObject? <==> it.Map?) && (r.value.JArray? <==> it.Array?)
    ensures r.Converted? ==> (r.value.JString? <==> it.Str? || it.IndefiniteStr?)
    decreases it
  {
    match it
    case UInt(_, v) => Converted(JUnsigned(v))
    case NegInt(_, v) => if v < Int64Bound then Converted(JInt(-1 - v)) else Aborted
    case Str(k, b) => if k == TextString then Converted(JString(b)) else Aborted
    case IndefiniteStr(k, chunks) =>
      if k == TextString then Converted(JString(Concat(chunks))) else Aborted
    case Array(items, _) =>
      (match ItemsToJson(items)
       case Converted(xs) => Converted(JArray(xs))
       case Aborted => Aborted
       case NotModelled => NotModelled)
    case Map(entries, _) =>
      (match EntriesToPairs(entries)
       case Converted(pairs) => Converted(JObject(EmplaceAll([], pairs)))
       case Aborted => Aborted
       case NotModelled => NotModelled)
    case Tag(_, _) => Aborted
    case Ctrl(v) =>
      if v == CtrlNull then Converted(JNull)
      else if v == CtrlFalse || v == CtrlTrue then Converted(JBool(v == CtrlTrue))
      else Aborted
    case Float(w, bits) => if w == W64 then Converted(JFloat(bits)) else NotModelled
  }

  function ItemsToJson(items: seq<Item>): (r: Conversion<seq<Json>>)
    ensures r.Converted? ==> |r.value| == |items|
    decreases items
  {
    if items == [] then Converted([]) else Cons(ItemToJson(items[0]), ItemsToJson(items[1..]))
  }

  /**
   * The key of a map entry: only a string converts to an object key; any
   * other value makes the JSON library throw.
   */
  function KeyOf(c: Conversion<Json>): (r: Conversion<Octets>)
    ensures r.Converted? <==> c.Converted? && c.value.JString?
    ensures r.Converted? ==> r.value == c.value.s
    ensures !r.NotModelled?
  {
    if c.Converted? && c.value.JString? then Converted(c.value.s) else Aborted
  }

  /** An entry: both its key and its value are converted before the `emplace`. */
  function EntryToPair(e: Entry): (r: Conversion<Member>)
    decreases e
  {
    var k := KeyOf(ItemToJson(e.key));
    var v := ItemToJson(e.value);
    if !k.Converted? || v.Aborted? then Aborted
    else if v.NotModelled? then NotModelled
    else Converted(Member(k.value, v.value))
  }

  /** The entries' pairs, in the order `emplace` receives them. */
  function EntriesToPairs(entries: seq<Entry>): (r: Conversion<seq<Member>>)
    ensures r.Converted? ==> |r.value| == |entries|
    decreases entries
  {
    if entries == [] then Converted([]) else Cons(EntryToPair(entries[0]), EntriesToPairs(entries[1..]))
  }

  /**
   * `cbor_to_json`: a load error becomes the EBADMSG condition; otherwise
   * the loaded item is converted, and any bytes after it are ignored.
   */
  function CborToJson(d: Octets): (r: Conversion<Outcome<Json>>)
    ensures Load(d).Failed? ==> r == Converted(Failure(BadMessage))
  {
    match Load(d)
    case Failed(_) => Converted(Failure(BadMessage))
    case Done(it, _) =>
      match ItemToJson(it)
      case Converted(j) => Converted(Value(j))
      case Aborted => Aborted
      case NotModelled => NotModelled
  }

  // ---------------------------------------------------------------------
  // What a conversion gives back

  /** No string and no key holds a NUL byte. */
  predicate NulFree(j: Json)
    decreases j
  {
    match j
    case JString(s) => Nul !in s
    case JArray(xs) => forall i :: 0 <= i < |xs| ==> NulFree(xs[i])
    case JObject(ms) => forall i :: 0 <= i < |ms| ==> Nul !in ms[i].key && NulFree(ms[i].value)
    case _ => true
  }

  /**
   * The document as `cbor_to_json` rebuilds it: a non-negative signed
   * number comes back unsigned (the library compares the two as equal).
   */
  function Canonical(j: Json): (c: Json)
    decreases j
  {
    match j
    case JInt(i) => if i >= 0 then JUnsigned(i) else j
    case JArray(xs) => JArray(CanonicalElements(xs))
    case JObject(ms) => JObject(CanonicalMembers(ms))
    case _ => j
  }

  function CanonicalElements(xs: seq<Json>): (r: seq<Json>)
    ensures |r| == |xs|
    decreases xs
  {
    if xs == [] then [] else [Canonical(xs[0])] + CanonicalElements(xs[1..])
  }

  function CanonicalMembers(ms: seq<Member>): (r: seq<Member>)
    ensures |r| == |ms|
    ensures forall i :: 0 <= i < |ms| ==> r[i].key == ms[i].key
    decreases ms
  {
    if ms == [] then [] else [Member(ms[0].key, Canonical(ms[0].value))] + CanonicalMembers(ms[1..])
  }

  lemma CStringNulFree(s: Octets)
    requires Nul !in s
    ensures CString(s) == s
  {
  }

  /** An integer comes back as the same number. */
  lemma IntegerRoundTrip(j: Json)
    requires (j.JInt? || j.JUnsigned?) && Valid(j)
    ensures ItemToJson(IntegerItem(j)) == Converted(Canonical(j))
  {
  }

  /**
   * A NUL-free document converted to CBOR and back is the same document,
   * up to the signedness of its non-negative numbers.
   */
  lemma {:induction false} RoundTrip(j: Json)
    requires Valid(j) && NulFree(j)
    ensures ItemToJson(JsonToItem(j)) == Converted(Canonical(j))
    decreases j
  {
    match j
    case JInt(_) => IntegerRoundTrip(j);
    case JUnsigned(_) => IntegerRoundTrip(j);
    case JString(s) => CStringNulFree(s);
    case JArray(xs) => RoundTripArray(xs);
    case JObject(ms) => RoundTripObject(ms);
    case _ =>
  }

  lemma {:induction false} RoundTripArray(xs: seq<Json>)
    requires Valid(JArray(xs)) && NulFree(JArray(xs))
    ensures ItemToJson(JsonToItem(JArray(xs))) == Converted(Canonical(JArray(xs)))
    decreases JArray(xs), 0
  {
    RoundTripElements(xs);
  }

  lemma {:induction false} RoundTripObject(ms: seq<Member>)
    requires Valid(JObject(ms)) && NulFree(JObject(ms))
    ensures ItemToJson(JsonToItem(JObject(ms))) == Converted(Canonical(JObject(ms)))
    decreases JObject(ms), 0
  {
    RoundTripMembers(ms);
    var c := CanonicalMembers(ms);
    CanonicalSorted(ms);
    EmplaceAllInOrder(c);
    assert JsonToItem(JObject(ms)) == Map(MembersToEntries(ms), true);
  }

  lemma CanonicalSorted(ms: seq<Member>)
    requires Sorted(ms)
    ensures Sorted(CanonicalMembers(ms))
  {
  }

  lemma {:induction false} RoundTripElements(xs: seq<Json>)
    requires forall i :: 0 <= i < |xs| ==> Valid(xs[i]) && NulFree(xs[i])
    ensures ItemsToJson(ElementsToItems(xs)) == Converted(CanonicalElements(xs))
    decreases xs
  {
    if xs != [] {
      RoundTrip(xs[0]);
      RoundTripElements(xs[1..]);
      var items := ElementsToItems(xs);
      assert items[0] == JsonToItem(xs[0]) && items[1..] == ElementsToItems(xs[1..]);
    }
  }

  /** One member: its key passes through unchanged, its value round-trips. */
  lemma RoundTripEntry(key: Octets, value: Json)
    requires Valid(value) && Nul !in key
    requires ItemToJson(JsonToItem(value)) == Converted(Canonical(value))
    ensures EntryToPair(Entry(Str(TextString, CString(key)), JsonToItem(value)))
         == Converted(Member(key, Canonical(value)))
  {
    CStringNulFree(key);
  }

  lemma {:induction false} RoundTripMembers(ms: seq<Member>)
    requires forall i :: 0 <= i < |ms| ==> Valid(ms[i].value)
    requires forall i :: 0 <= i < |ms| ==> Nul !in ms[i].key && NulFree(ms[i].value)
    ensures EntriesToPairs(MembersToEntries(ms)) == Converted(CanonicalMembers(ms))
    decreases ms
  {
    if ms != [] {
      RoundTrip(ms[0].value);
      RoundTripEntry(ms[0].key, ms[0].value);
      RoundTripMembers(ms[1..]);
      var entries := MembersToEntries(ms);
      assert entries[0] == Entry(Str(TextString, CString(ms[0].key)), JsonToItem(ms[0].value));
      assert entries[1..] == MembersToEntries(ms[1..]);
    }
  }

  // ---------------------------------------------------------------------
  // Through the bytes

  /** `cbor_to_json(json_to_cbor(j))` is `j` again, up to the signedness of its numbers. */
  lemma JsonThroughCbor(j: Json)
    requires Valid(j) && Sized(j) && NulFree(j)
    ensures CborToJson(JsonToCbor(j)) == Converted(Value(Canonical(j)))
  {
    JsonToItemWellFormed(j);
    LoadSerialized(JsonToItem(j));
    RoundTrip(j);
  }

  /** Any strict prefix of `json_to_cbor`'s output is a bad message. */
  lemma TruncatedIsBadMessage(j: Json, m: nat)
    requires Valid(j) && Sized(j) && m < |JsonToCbor(j)|
    ensures CborToJson(JsonToCbor(j)[..m]) == Converted(Failure(BadMessage))
  {
    JsonToItemWellFormed(j);
    LoadTruncated(JsonToItem(j), m);
  }

  /**
   * An integer is written with the shortest head that holds its argument:
   * major type 0 and the number itself when it is non-negative, major type
   * 1 and `-1 - i` when it is negative.
   */
  lemma IntegerHead(i: int)
    requires Int64Min <= i < Int64Bound
    ensures i >= 0 ==> JsonToCbor(JInt(i)) == LengthHead(0, i)
    ensures i < 0 ==> JsonToCbor(JInt(i)) == LengthHead(1, -1 - i)
  {
  }

  /** An unsigned integer head decodes to its argument, whatever its width. */
  lemma UnsignedDecodes(w: Width, v: nat)
    requires v < Bound(w)
    ensures CborToJson(HeadBytes(0, w, v)) == Converted(Value(JUnsigned(v)))
  {
    LoadSerialized(UInt(w, v));
  }

  /**
   * A negative integer head with argument `v` decodes to `-1 - v` when `v`
   * fits an `int64_t`, and fails the `CHECK` otherwise.
   */
  lemma NegativeDecodes(w: Width, v: nat)
    requires v < Bound(w)
    ensures CborToJson(HeadBytes(1, w, v)) ==
              if v < Int64Bound then Converted(Value(JInt(-1 - v))) else Aborted
  {
    LoadSerialized(NegInt(w, v));
  }

  /**
   * As written, an unsigned number of 2^63 or more is cast to a negative
   * `int64_t` and written as a negative integer, which reads back as a
   * different, negative number.
   */
  lemma UnsignedAsWrittenFlipsSign(u: nat)
    requires Int64Bound <= u < Uint64Limit
    ensures IntegerItemAsWritten(JUnsigned(u)) == NegInt(MinimalWidth(Uint64Limit - 1 - u), Uint64Limit - 1 - u)
    ensures ItemToJson(IntegerItemAsWritten(JUnsigned(u))) == Converted(JInt(u - Uint64Limit))
  {
  }

  /**
   * With the unsigned branch reached, an unsigned integer read from CBOR
   * is written back as the same unsigned integer, in its shortest head.
   */
  lemma UnsignedReencodes(w: Width, v: nat)
    requires v < Bound(w)
    ensures CborToJson(HeadBytes(0, w, v)) == Converted(Value(JUnsigned(v)))
    ensures JsonToCbor(JUnsigned(v)) == HeadBytes(0, MinimalWidth(v), v)
  {
    UnsignedDecodes(w, v);
  }

  // ---------------------------------------------------------------------
  // What `cbor_item_to_json` builds

  /** The elements of an array come out one for one, in order. */
  lemma {:induction false} ItemsInOrder(items: seq<Item>)
    ensures ItemsToJson(items).Converted? <==>
              forall i :: 0 <= i < |items| ==> ItemToJson(items[i]).Converted?
    ensures ItemsToJson(items).Aborted? <==>
              exists i :: 0 <= i < |items| && ItemToJson(items[i]).Aborted?
    ensures ItemsToJson(items).Converted? ==>
              forall i :: 0 <= i < |items| ==> ItemsToJson(items).value[i] == ItemToJson(items[i]).value
    decreases items
  {
    if items != [] {
      ItemsInOrder(items[1..]);
      assert forall i :: 0 < i < |items| ==> items[i] == items[1..][i - 1];
      if exists i :: 0 <= i < |items| && ItemToJson(items[i]).Aborted? {
        var i :| 0 <= i < |items| && ItemToJson(items[i]).Aborted?;
        if i > 0 {
          assert ItemToJson(items[1..][i - 1]).Aborted?;
        }
      }
    }
  }

  /** The pairs of a map come out one for one, in order. */
  lemma {:induction false} PairsInOrder(entries: seq<Entry>)
    ensures EntriesToPairs(entries).Converted? <==>
              forall i :: 0 <= i < |entries| ==> EntryToPair(entries[i]).Converted?
    ensures EntriesToPairs(entries).Aborted? <==>
              exists i :: 0 <= i < |entries| && EntryToPair(entries[i]).Aborted?
    ensures EntriesToPairs(entries).Converted? ==>
              forall i :: 0 <= i < |entries| ==> EntriesToPairs(entries).value[i] == EntryToPair(entries[i]).value
    decreases entries
  {
    if entries != [] {
      PairsInOrder(entries[1..]);
      assert forall i :: 0 < i < |entries| ==> entries[i] == entries[1..][i - 1];
      if exists i :: 0 <= i < |entries| && EntryToPair(entries[i]).Aborted? {
        var i :| 0 <= i < |entries| && EntryToPair(entries[i]).Aborted?;
        if i > 0 {
          assert EntryToPair(entries[1..][i - 1]).Aborted?;
        }
      }
    }
  }

  /**
   * A map becomes an object in key order holding exactly the keys of its
   * entries, each with the value of the first entry that has it.
   */
  lemma MapToObject(entries: seq<Entry>, definite: bool)
    requires EntriesToPairs(entries).Converted?
    ensures var pairs := EntriesToPairs(entries).value;
            var r := ItemToJson(Map(entries, definite));
            r.Converted? && r.value.JObject? && Sorted(r.value.members) &&
            Keys(r.value.members) == Keys(pairs) &&
            forall k :: Find(r.value.members, k) == Find(pairs, k)
  {
    var pairs := EntriesToPairs(entries).value;
    var ms := EmplaceAll([], pairs);
    assert ItemToJson(Map(entries, definite)) == Converted(JObject(ms));
    EmplaceAllSorted([], pairs);
    forall k
      ensures Find(ms, k) == Find(pairs, k)
    {
      EmplaceAllFind([], pairs, k);
    }
    forall k
      ensures k in Keys(ms) <==> k in Keys(pairs)
    {
      assert Find(ms, k) == Find(pairs, k);
    }
  }

  /** What `cbor_item_to_json` returns is a value the library can hold. */
  lemma {:induction false} ItemToJsonValid(it: Item)
    requires WellFormed(it) && ItemToJson(it).Converted?
    ensures Valid(ItemToJson(it).value)
    decreases it, 1
  {
    match it
    case Array(items, _) => ItemsValid(items);
    case Map(entries, _) => MapValid(entries, it.definite);
    case _ =>
  }

  lemma {:induction false} ItemsValid(items: seq<Item>)
    requires ItemsWellFormed(items) && ItemsToJson(items).Converted?
    ensures forall i :: 0 <= i < |items| ==> Valid(ItemsToJson(items).value[i])
    decreases items
  {
    if items != [] {
      ItemToJsonValid(items[0]);
      ItemsValid(items[1..]);
      var xs := ItemsToJson(items).value;
      assert xs[0] == ItemToJson(items[0]).value && xs[1..] == ItemsToJson(items[1..]).value;
      assert forall i :: 0 < i < |xs| ==> xs[i] == xs[1..][i - 1];
    }
  }

  lemma {:induction false} PairsValid(entries: seq<Entry>)
    requires EntriesWellFormed(entries) && EntriesToPairs(entries).Converted?
    ensures forall i :: 0 <= i < |entries| ==> Valid(EntriesToPairs(entries).value[i].value)
    decreases entries
  {
    if entries != [] {
      EntryValueValid(entries[0]);
      PairsValid(entries[1..]);
      var ps := EntriesToPairs(entries).value;
      assert ps[0] == EntryToPair(entries[0]).value && ps[1..] == EntriesToPairs(entries[1..]).value;
      assert forall i :: 0 < i < |ps| ==> ps[i] == ps[1..][i - 1];
    }
  }

  lemma EntryValueValid(e: Entry)
    requires EntryWellFormed(e) && EntryToPair(e).Converted?
    ensures Valid(EntryToPair(e).value.value)
    decreases e
  {
    ItemToJsonValid(e.value);
  }

  lemma {:induction false} MapValid(entries: seq<Entry>, definite: bool)
    requires WellFormed(Map(entries, definite)) && ItemToJson(Map(entries, definite)).Converted?
    ensures Valid(ItemToJson(Map(entries, definite)).value)
    decreases Map(entries, definite), 0
  {
    var pairs := EntriesToPairs(entries).value;
    var ms := EmplaceAll([], pairs);
    assert ItemToJson(Map(entries, definite)) == Converted(JObject(ms));
    PairsValid(entries);
    EmplaceAllSorted([], pairs);
    forall i | 0 <= i < |ms|
      ensures Valid(ms[i].value)
    {
      EmplaceAllMembers([], pairs, ms[i]);
      var k :| 0 <= k < |pairs| && pairs[k] == ms[i];
    }
  }

  // ---------------------------------------------------------------------
  // The documents of json_to_cbor_test and cbor_to_json_test

  /** null, false and true are the one-byte simple values 22, 20 and 21. */
  lemma SimpleValueBytes()
    ensures JsonToCbor(JNull) == [Byte(0xf6)]
    ensures JsonToCbor(JBool(false)) == [Byte(0xf4)]
    ensures JsonToCbor(JBool(true)) == [Byte(0xf5)]
  {
  }

  /** 24, the first integer that needs an argument byte. */
  lemma Int24Bytes()
    ensures JsonToCbor(JInt(24)) == [Byte(0x18), Byte(24)]
  {
    IntegerHead(24);
    ShortestHead(0, 24);
    assert BigEndian(24, 1) == [Byte(24)];
  }

  /** 2^16, the first integer that needs four argument bytes. */
  lemma Int65536Bytes()
    ensures JsonToCbor(JInt(0x1_0000)) == [Byte(0x1a)] + [Byte(0), Byte(1), Byte(0), Byte(0)]
  {
    IntegerHead(0x1_0000);
    ShortestHead(0, 0x1_0000);
    assert BigEndian(0x1_0000, 4) == [Byte(0), Byte(1), Byte(0), Byte(0)];
  }

  /** -2^32 - 1, the first negative integer whose argument needs eight bytes. */
  lemma IntMinus4294967297Bytes()
    ensures JsonToCbor(JInt(-0x1_0000_0001)) ==
              [Byte(0x3b)] + [Byte(0), Byte(0), Byte(0), Byte(1), Byte(0), Byte(0), Byte(0), Byte(0)]
  {
    IntegerHead(-0x1_0000_0001);
    ShortestHead(1, 0x1_0000_0000);
    assert BigEndian(0x1_0000_0000, 8) == [Byte(0), Byte(0), Byte(0), Byte(1), Byte(0), Byte(0), Byte(0), Byte(0)];
  }

  lemma StringBytes()
    ensures JsonToCbor(JString("abcd")) == [Byte(0x64)] + "abcd"
  {
  }

  /** A short string is its length in the head byte, then its bytes. */
  lemma ShortStringBytes(t: Octets)
    requires |t| < 24
    ensures Serialize(Str(TextString, t)) == [Byte(0x60 + |t|)] + t
  {
  }

  lemma ElementsToItemsCons(x: Json, rest: seq<Json>)
    requires Valid(x) && forall i :: 0 <= i < |rest| ==> Valid(rest[i])
    ensures forall i :: 0 <= i < |[x] + rest| ==> Valid(([x] + rest)[i])
    ensures ElementsToItems([x] + rest) == [JsonToItem(x)] + ElementsToItems(rest)
  {
    assert ([x] + rest)[0] == x && ([x] + rest)[1..] == rest;
  }

  lemma ElementsToItemsThree(x: Json, y: Json, z: Json)
    requires Valid(x) && Valid(y) && Valid(z)
    ensures ElementsToItems([x, y, z]) == [JsonToItem(x), JsonToItem(y), JsonToItem(z)]
  {
    ElementsToItemsCons(z, []);
    assert [z] + [] == [z];
    ElementsToItemsCons(y, [z]);
    assert [y] + [z] == [y, z];
    ElementsToItemsCons(x, [y, z]);
    assert [x] + [y, z] == [x, y, z];
  }

  lemma SerializeItemsCons(x: Item, rest: seq<Item>)
    requires WellFormed(x) && ItemsWellFormed(rest)
    ensures ItemsWellFormed([x] + rest)
    ensures SerializeItems([x] + rest) == Serialize(x) + SerializeItems(rest)
  {
    assert ([x] + rest)[0] == x && ([x] + rest)[1..] == rest;
  }

  lemma SerializeThree(a: Item, b: Item, c: Item)
    requires WellFormed(a) && WellFormed(b) && WellFormed(c)
    ensures ItemsWellFormed([a, b, c])
    ensures Serialize(Array([a, b, c], true)) == LengthHead(4, 3) + (Serialize(a) + (Serialize(b) + Serialize(c)))
  {
    SerializeItemsCons(c, []);
    assert [c] + [] == [c];
    assert Serialize(c) + SerializeItems([]) == Serialize(c);
    SerializeItemsCons(b, [c]);
    assert [b] + [c] == [b, c];
    SerializeItemsCons(a, [b, c]);
    assert [a] + [b, c] == [a, b, c];
  }

  lemma ArrayItem()
    ensures JsonToItem(JArray([JString("a"), JString("b"), JString("c")])) ==
              Array([Str(TextString, "a"), Str(TextString, "b"), Str(TextString, "c")], true)
  {
    ElementsToItemsThree(JString("a"), JString("b"), JString("c"));
    CStringNulFree("a");
    CStringNulFree("b");
    CStringNulFree("c");
  }

  lemma ArrayBytes()
    ensures JsonToCbor(JArray([JString("a"), JString("b"), JString("c")])) ==
              [Byte(0x83)] + (([Byte(0x61)] + "a") + (([Byte(0x61)] + "b") + ([Byte(0x61)] + "c")))
  {
    ArrayItem();
    var a, b, c := Str(TextString, "a"), Str(TextString, "b"), Str(TextString, "c");
    ShortStringBytes("a");
    ShortStringBytes("b");
    ShortStringBytes("c");
    SerializeThree(a, b, c);
    assert LengthHead(4, 3) == [Byte(0x83)];
  }

  /** An indefinite-length text string reads as its chunks joined. */
  lemma IndefiniteStringReads()
    ensures CborToJson([Byte(0x7f)] + ([Byte(0x61)] + "a") + ([Byte(0x62)] + "bc") + [Byte(0xff)]) ==
              Converted(Value(JString("abc")))
  {
    var chunks: seq<Octets> := ["a", "bc"];
    assert chunks[1..] == ["bc"] && chunks[1..][1..] == [];
    assert SerializeChunks(TextString, chunks) == ([Byte(0x61)] + "a") + ([Byte(0x62)] + "bc");
    assert IndefiniteHead(3) == Byte(0x7f) && BreakByte == Byte(0xff);
    assert Serialize(IndefiniteStr(TextString, chunks)) ==
           [Byte(0x7f)] + ([Byte(0x61)] + "a") + ([Byte(0x62)] + "bc") + [Byte(0xff)];
    LoadSerialized(IndefiniteStr(TextString, chunks));
    assert Concat(chunks) == Concat(["a"]) + "bc";
    assert Concat(["a"]) == "a";
    assert "a" + "bc" == "abc";
    assert ItemToJson(IndefiniteStr(TextString, chunks)) == Converted(JString("abc"));
  }

  /** An array head announcing one element, with nothing after it, is a bad message. */
  lemma MissingElementIsBadMessage()
    ensures CborToJson([Byte(0x81)]) == Converted(Failure(BadMessage))
  {
    assert Load([Byte(0x81)]).Failed?;
  }

  /**
   * An unassigned simple value is a bad message, whether in one byte (0xe0)
   * or with a one-byte argument (0xf8 0x14, where 0x14 would be false).
   */
  lemma UnassignedSimpleIsBadMessage()
    ensures CborToJson([Byte(0xe0)]) == Converted(Failure(BadMessage))
    ensures CborToJson([Byte(0xf8), Byte(0x14)]) == Converted(Failure(BadMessage))
  {
    UnassignedSimpleMalformed([Byte(0xe0)]);
    UnassignedSimpleMalformed([Byte(0xf8), Byte(0x14)]);
  }
}
