/**
 * src/cbor_tools.cpp: `operator<<` on a CBOR item writes it as JSON-like
 * text, by a recursive `dump_as_json` that writes piece by piece to the
 * output stream. The text of a whole item is modelled here as a value; an
 * `ABORT` ends the process, so no partial text is ever observed.
 */
module CborTools {
  import opened Octets
  import opened Cbor
  import opened CborJson

  /** Writing `a` and then `b`: an abort in either ends the process. */
  function Then(a: Conversion<Octets>, b: Conversion<Octets>): (r: Conversion<Octets>)
    ensures r.Aborted? <==> a.Aborted? || b.Aborted?
    ensures r.Converted? <==> a.Converted? && b.Converted?
    ensures r.Converted? ==> r.value == a.value + b.value
  {
    if a.Aborted? || b.Aborted? then Aborted
    else if a.NotModelled? || b.NotModelled? then NotModelled
    else Converted(a.value + b.value)
  }

  /** A string between double quotes, written as it is, with no escaping. */
  function Quoted(s: Octets): (t: Octets)
    ensures |t| == |s| + 2 && t[0] == '"' && t[|t| - 1] == '"' && t[1..|t| - 1] == s
  {
    ['"'] + s + ['"']
  }

  /** The comma written before every element but the first. */
  function Separator(i: nat): (s: Octets)
    ensures i == 0 <==> s == []
  {
    if i > 0 then [','] else []
  }

  /**
   * A negative integer as written: `'-'` and then `cbor_get_int`, the
   * argument `v` itself rather than the magnitude `v + 1` of the value
   * `-1 - v`.
   */
  function NegativeTextAsWritten(v: nat): (t: Octets)
  {
    ['-'] + Decimal(v)
  }

  /** A negative integer as evidently intended: the decimal text of `-1 - v`. */
  function NegativeText(v: nat): (t: Octets)
    ensures t == SignedDecimal(-1 - v)
  {
    ['-'] + Decimal(v + 1)
  }

  /**
   * A boolean as written: `ostream << bool` without `std::boolalpha` writes
   * `1` or `0`.
   */
  function BoolTextAsWritten(b: bool): (t: Octets)
  {
    if b then "1" else "0"
  }

  /** A boolean as evidently intended in JSON text. */
  function BoolText(b: bool): (t: Octets)
  {
    if b then "true" else "false"
  }

  /**
   * `dump_as_json`: integers in decimal, text strings quoted (the chunks
   * joined, when indefinite), arrays in brackets and maps in braces with
   * their elements in stored order, null and booleans by name. Byte
   * strings, tags and simple values other than null, false and true abort;
   * floats are printed by the stream, which is not modelled.
   */
  function Dump(it: Item): (r: Conversion<Octets>)
    ensures it.Tag? || ((it.Str? || it.IndefiniteStr?) && it.kind != TextString) ==> r.Aborted?
    ensures it.Float? ==> r.NotModelled?
    decreases it
  {
    match it
    case UInt(_, v) => Converted(Decimal(v))
    case NegInt(_, v) => Converted(NegativeText(v))
    case Str(k, b) => if k == TextString then Converted(Quoted(b)) else Aborted
    case IndefiniteStr(k, chunks) => if k == TextString then Converted(Quoted(Concat(chunks))) else Aborted
    case Array(items, _) => Then(Then(Converted(['[']), DumpItems(items, 0)), Converted([']']))
    case Map(entries, _) => Then(Then(Converted(['{']), DumpEntries(entries, 0)), Converted(['}']))
    case Tag(_, _) => Aborted
    case Ctrl(v) =>
      if v == CtrlNull then Converted("null")
      else if v == CtrlFalse || v == CtrlTrue then Converted(BoolText(v == CtrlTrue))
      else Aborted
    case Float(_, _) => NotModelled
  }

  /** A written array stands between brackets and a written map between braces. */
  lemma Delimited(it: Item)
    ensures var r := Dump(it);
      r.Converted? && it.Array? ==> |r.value| >= 2 && r.value[0] == '[' && r.value[|r.value| - 1] == ']'
    ensures var r := Dump(it);
      r.Converted? && it.Map? ==> |r.value| >= 2 && r.value[0] == '{' && r.value[|r.value| - 1] == '}'
  {
  }

  /** The loop over an array from index `i`: a comma before all but the first, then the element. */
  function DumpItems(items: seq<Item>, i: nat): (r: Conversion<Octets>)
    requires i <= |items|
    decreases items, |items| - i
  {
    if i == |items| then Converted([])
    else Then(Then(Converted(Separator(i)), Dump(items[i])), DumpItems(items, i + 1))
  }

  /** A key, a colon and a value. */
  function DumpEntry(e: Entry): (r: Conversion<Octets>)
    decreases e
  {
    Then(Then(Dump(e.key), Converted([':'])), Dump(e.value))
  }

  /** The loop over a map from index `i`. */
  function DumpEntries(entries: seq<Entry>, i: nat): (r: Conversion<Octets>)
    requires i <= |entries|
    decreases entries, |entries| - i
  {
    if i == |entries| then Converted([])
    else Then(Then(Converted(Separator(i)), DumpEntry(entries[i])), DumpEntries(entries, i + 1))
  }

  /** Reference definition: parts separated by commas, built by appending one part at a time. */
  function Join(parts: seq<Octets>): (s: Octets)
  {
    if parts == [] then []
    else if |parts| == 1 then parts[0]
    else Join(parts[..|parts| - 1]) + [','] + parts[|parts| - 1]
  }

  /** The array loop aborts exactly when some element from `i` on aborts, and writes text exactly when all do. */
  lemma {:induction false} DumpItemsStatus(items: seq<Item>, i: nat)
    requires i <= |items|
    ensures DumpItems(items, i).Aborted? <==> exists j :: i <= j < |items| && Dump(items[j]).Aborted?
    ensures DumpItems(items, i).Converted? <==> forall j :: i <= j < |items| ==> Dump(items[j]).Converted?
    decreases |items| - i
  {
    if i < |items| {
      DumpItemsStatus(items, i + 1);
    }
  }

  /** The texts from index `i` on, each with the separator the loop writes before it. */
  function JoinFrom(ts: seq<Octets>, i: nat): (s: Octets)
    requires i <= |ts|
    decreases |ts| - i
  {
    if i == |ts| then [] else Separator(i) + ts[i] + JoinFrom(ts, i + 1)
  }

  /** The separator-before-all-but-the-first loop from `i >= 1` writes what `Join` adds after the first `i` texts. */
  lemma {:induction false} JoinFromRest(ts: seq<Octets>, i: nat)
    requires 1 <= i <= |ts|
    ensures Join(ts[..i]) + JoinFrom(ts, i) == Join(ts)
    decreases |ts| - i
  {
    if i == |ts| {
      assert ts[..i] == ts;
    } else {
      JoinFromRest(ts, i + 1);
      assert ts[..i + 1][..i] == ts[..i];
      assert Join(ts[..i + 1]) == Join(ts[..i]) + [','] + ts[i];
      AppendAssoc(Join(ts[..i]), [','], ts[i]);
      AppendAssoc(Join(ts[..i]), [','] + ts[i], JoinFrom(ts, i + 1));
    }
  }

  /** The loop from the first text writes exactly `Join`. */
  lemma JoinFromStart(ts: seq<Octets>)
    ensures JoinFrom(ts, 0) == Join(ts)
  {
    if ts != [] {
      JoinFromRest(ts, 1);
      assert ts[..1] == [ts[0]];
    }
  }

  /** When every element from `i` on writes text, the array loop writes those texts with their separators. */
  lemma {:induction false} DumpItemsFrom(items: seq<Item>, i: nat, ts: seq<Octets>)
    requires i <= |items| == |ts|
    requires forall j :: 0 <= j < |items| ==> Dump(items[j]) == Converted(ts[j])
    ensures DumpItems(items, i) == Converted(JoinFrom(ts, i))
    decreases |items| - i
  {
    if i < |items| {
      DumpItemsFrom(items, i + 1, ts);
    }
  }

  /** Text written between an opening and a closing mark. */
  lemma Enclosed(opening: Octets, inner: Conversion<Octets>, text: Octets, closing: Octets)
    requires inner == Converted(text)
    ensures Then(Then(Converted(opening), inner), Converted(closing)) == Converted(opening + text + closing)
  {
  }

  /** An array whose elements write `ts` is written as `ts` joined by commas, in brackets. */
  lemma ArrayText(items: seq<Item>, definite: bool, ts: seq<Octets>)
    requires |items| == |ts|
    requires forall j :: 0 <= j < |items| ==> Dump(items[j]) == Converted(ts[j])
    ensures Dump(Array(items, definite)) == Converted(['['] + Join(ts) + [']'])
  {
    DumpItemsFrom(items, 0, ts);
    JoinFromStart(ts);
    Enclosed(['['], DumpItems(items, 0), Join(ts), [']']);
  }

  /** The map loop aborts exactly when some entry from `i` on aborts, and writes text exactly when all do. */
  lemma {:induction false} DumpEntriesStatus(entries: seq<Entry>, i: nat)
    requires i <= |entries|
    ensures DumpEntries(entries, i).Aborted? <==> exists j :: i <= j < |entries| && DumpEntry(entries[j]).Aborted?
    ensures DumpEntries(entries, i).Converted? <==> forall j :: i <= j < |entries| ==> DumpEntry(entries[j]).Converted?
    decreases |entries| - i
  {
    if i < |entries| {
      DumpEntriesStatus(entries, i + 1);
    }
  }

  /** When every entry from `i` on writes text, the map loop writes those texts with their separators. */
  lemma {:induction false} DumpEntriesFrom(entries: seq<Entry>, i: nat, ts: seq<Octets>)
    requires i <= |entries| == |ts|
    requires forall j :: 0 <= j < |entries| ==> DumpEntry(entries[j]) == Converted(ts[j])
    ensures DumpEntries(entries, i) == Converted(JoinFrom(ts, i))
    decreases |entries| - i
  {
    if i < |entries| {
      DumpEntriesFrom(entries, i + 1, ts);
    }
  }

  /** A map whose entries write `ts` (key, colon, value) is written as `ts` joined by commas, in braces. */
  lemma MapText(entries: seq<Entry>, definite: bool, ts: seq<Octets>)
    requires |entries| == |ts|
    requires forall j :: 0 <= j < |entries| ==> DumpEntry(entries[j]) == Converted(ts[j])
    ensures Dump(Map(entries, definite)) == Converted(['{'] + Join(ts) + ['}'])
  {
    DumpEntriesFrom(entries, 0, ts);
    JoinFromStart(ts);
    Enclosed(['{'], DumpEntries(entries, 0), Join(ts), ['}']);
  }

  /** An entry whose key and value write `k` and `v` is written `k:v`. */
  lemma EntryText(e: Entry, k: Octets, v: Octets)
    requires Dump(e.key) == Converted(k) && Dump(e.value) == Converted(v)
    ensures DumpEntry(e) == Converted(k + [':'] + v)
  {
  }

  /** An unsigned integer is written as decimal digits that read back as its value. */
  lemma UnsignedText(w: Width, v: nat)
    ensures Dump(UInt(w, v)).Converted?
    ensures AllDigits(Dump(UInt(w, v)).value) && DigitsValue(Dump(UInt(w, v)).value) == v
  {
    DecimalValue(v);
  }

  /** A negative integer is written as a minus sign and digits whose value is `v + 1`, so the text denotes the value `-1 - v`. */
  lemma NegativeTextValue(w: Width, v: nat)
    ensures Dump(NegInt(w, v)).Converted?
    ensures var t := Dump(NegInt(w, v)).value;
      |t| >= 2 && t[0] == '-' && AllDigits(t[1..]) && DigitsValue(t[1..]) == v + 1
  {
    var t := NegativeText(v);
    assert t[1..] == Decimal(v + 1);
    DecimalValue(v + 1);
  }

  /** As written, the text of a negative integer denotes `-v` (digits with value `v`), one more than its value `-1 - v`; `-1` is written "-0". */
  lemma NegativeAsWrittenOffByOne(v: nat)
    ensures var t := NegativeTextAsWritten(v);
      t[0] == '-' && AllDigits(t[1..]) && DigitsValue(t[1..]) == v != v + 1
    ensures NegativeTextAsWritten(0) == "-0"
  {
    var t := NegativeTextAsWritten(v);
    assert t[1..] == Decimal(v);
    DecimalValue(v);
  }

  /** As written, a boolean is written as the number 1 or 0, not as a JSON literal. */
  lemma BoolAsWrittenIsNumber(b: bool)
    ensures BoolTextAsWritten(b) == Decimal(if b then 1 else 0)
    ensures AllDigits(BoolTextAsWritten(b))
  {
  }

  /** The simple values that are JSON literals are written by their JSON names. */
  lemma LiteralText(b: bool)
    ensures Dump(Ctrl(if b then CtrlTrue else CtrlFalse)) == Converted(if b then "true" else "false")
    ensures Dump(Ctrl(CtrlNull)) == Converted("null")
    ensures !AllDigits(BoolText(b))
  {
    assert !IsDigit(BoolText(b)[0]);
  }

  /** Every other simple value aborts, as do tags and byte strings. */
  lemma AbortedItems(simple: nat, tag: nat, inner: Item, w: Width, b: Octets, chunks: seq<Octets>)
    ensures simple != CtrlFalse && simple != CtrlTrue && simple != CtrlNull ==> Dump(Ctrl(simple)) == Aborted
    ensures Dump(Tag(tag, inner)) == Aborted
    ensures Dump(Str(ByteString, b)) == Aborted && Dump(IndefiniteStr(ByteString, chunks)) == Aborted
  {
  }

  /** The one entry of the map in test/cbor_tools_test.cpp. */
  lemma ConfigureEntryText()
    ensures DumpEntry(Entry(Str(TextString, "action"), Str(TextString, "configure")))
      == Converted("\"action\":\"configure\"")
  {
    var e := Entry(Str(TextString, "action"), Str(TextString, "configure"));
    ConfigureQuoted();
    EntryText(e, "\"action\"", "\"configure\"");
    ConfigureJoined();
  }

  lemma ConfigureQuoted()
    ensures Quoted("action") == "\"action\"" && Quoted("configure") == "\"configure\""
  {
  }

  lemma ConfigureJoined()
    ensures "\"action\"" + [':'] + "\"configure\"" == "\"action\":\"configure\""
  {
  }

  /** test/cbor_tools_test.cpp: an indefinite map from "action" to "configure". */
  lemma ConfigureMapText()
    ensures Dump(Map([Entry(Str(TextString, "action"), Str(TextString, "configure"))], false))
      == Converted("{\"action\":\"configure\"}")
  {
    var t := "\"action\":\"configure\"";
    ConfigureEntryText();
    MapText([Entry(Str(TextString, "action"), Str(TextString, "configure"))], false, [t]);
    assert Join([t]) == t;
    ConfigureBraced();
  }

  lemma ConfigureBraced()
    ensures ['{'] + "\"action\":\"configure\"" + ['}'] == "{\"action\":\"configure\"}"
  {
  }
}
