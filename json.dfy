/**
 * The `nlohmann::json` values the core files build and read: null, booleans,
 * the three number kinds, strings, arrays and objects. An object is a
 * `std::map` from strings to values, so its members are kept here in
 * ascending key order with no key twice, the order in which the library
 * iterates them.
 */
module Json {
  import opened Octets
  import opened Wrappers

  datatype Json =
    | JNull
    | JBool(b: bool)
    | JInt(i: int)            // number_integer, an int64_t
    | JUnsigned(u: nat)       // number_unsigned, a uint64_t
    | JFloat(bits: nat)       // number_float: the 64-bit pattern of the double
    | JString(s: Octets)
    | JArray(elements: seq<Json>)
    | JObject(members: seq<Member>)

  datatype Member = Member(key: Octets, value: Json)

  const Int64Min: int := -0x8000_0000_0000_0000
  const Int64Bound: int := 0x8000_0000_0000_0000
  const Uint64Limit: int := 0x1_0000_0000_0000_0000

  /**
   * The values the library can hold: numbers within their C++ types and
   * objects in key order.
   */
  predicate Valid(j: Json)
    decreases j
  {
    match j
    case JInt(i) => Int64Min <= i < Int64Bound
    case JUnsigned(u) => u < Uint64Limit
    case JFloat(bits) => bits < Uint64Limit
    case JArray(xs) => forall i :: 0 <= i < |xs| ==> Valid(xs[i])
    case JObject(ms) => Sorted(ms) && forall i :: 0 <= i < |ms| ==> Valid(ms[i].value)
    case _ => true
  }

  /** Every string, array and object has fewer than 2^64 elements: its `size()` is a `size_t`. */
  predicate Sized(j: Json)
    decreases j
  {
    match j
    case JString(s) => |s| < Uint64Limit
    case JArray(xs) => |xs| < Uint64Limit && forall i :: 0 <= i < |xs| ==> Sized(xs[i])
    case JObject(ms) =>
      |ms| < Uint64Limit &&
      forall i :: 0 <= i < |ms| ==> |ms[i].key| < Uint64Limit && Sized(ms[i].value)
    case _ => true
  }

  /**
   * `std::string`'s `operator<`: lexicographic, comparing bytes as unsigned
   * values, a proper prefix first.
   */
  predicate KeyLess(a: Octets, b: Octets)
  {
    if a == [] then b != []
    else b != [] && (a[0] < b[0] || (a[0] == b[0] && KeyLess(a[1..], b[1..])))
  }

  lemma {:induction false} KeyLessIrreflexive(a: Octets)
    ensures !KeyLess(a, a)
  {
    if a != [] {
      KeyLessIrreflexive(a[1..]);
    }
  }

  lemma {:induction false} KeyLessTransitive(a: Octets, b: Octets, c: Octets)
    requires KeyLess(a, b) && KeyLess(b, c)
    ensures KeyLess(a, c)
  {
    if a != [] && a[0] == b[0] && b[0] == c[0] {
      KeyLessTransitive(a[1..], b[1..], c[1..]);
    }
  }

  /** Two different keys are ordered one way or the other. */
  lemma {:induction false} KeyLessTotal(a: Octets, b: Octets)
    requires a != b
    ensures KeyLess(a, b) || KeyLess(b, a)
  {
    if a != [] && b != [] && a[0] == b[0] {
      assert a == [a[0]] + a[1..] && b == [b[0]] + b[1..];
      KeyLessTotal(a[1..], b[1..]);
    }
  }

  /** The members' keys strictly ascend: the iteration order of a `std::map`. */
  predicate Sorted(ms: seq<Member>)
  {
    forall i, j :: 0 <= i < j < |ms| ==> KeyLess(ms[i].key, ms[j].key)
  }

  /** Three members with ascending keys are in key order. */
  lemma SortedThree(a: Member, b: Member, c: Member)
    requires KeyLess(a.key, b.key) && KeyLess(b.key, c.key) && KeyLess(a.key, c.key)
    ensures Sorted([a, b, c])
  {
  }

  /** Four members with ascending keys are in key order. */
  lemma SortedFour(a: Member, b: Member, c: Member, d: Member)
    requires KeyLess(a.key, b.key) && KeyLess(b.key, c.key) && KeyLess(c.key, d.key)
    requires KeyLess(a.key, c.key) && KeyLess(a.key, d.key) && KeyLess(b.key, d.key)
    ensures Sorted([a, b, c, d])
  {
  }

  function Keys(ms: seq<Member>): (ks: set<Octets>)
    ensures forall i :: 0 <= i < |ms| ==> ms[i].key in ks
    ensures forall k :: k in ks ==> exists i :: 0 <= i < |ms| && ms[i].key == k
  {
    if ms == [] then {} else {ms[0].key} + Keys(ms[1..])
  }

  /** `find(key)` on an object: the value stored under `key`, if any. */
  function Find(ms: seq<Member>, key: Octets): (r: Option<Json>)
    ensures r.Some? <==> key in Keys(ms)
  {
    if ms == [] then None
    else if ms[0].key == key then Some(ms[0].value)
    else Find(ms[1..], key)
  }

  /** What `find` returns is the value of a member with that key. */
  lemma {:induction false} FindIsMember(ms: seq<Member>, key: Octets)
    requires Find(ms, key).Some?
    ensures Member(key, Find(ms, key).value) in ms
  {
    if ms[0].key != key {
      FindIsMember(ms[1..], key);
    }
  }

  /**
   * `emplace(key, value)` on an object: the member goes in at its place in
   * key order, unless the key is already present, in which case the object
   * is left as it was.
   */
  function Emplace(ms: seq<Member>, key: Octets, value: Json): (r: seq<Member>)
    ensures |ms| <= |r| <= |ms| + 1
    ensures forall m :: m in ms ==> m in r
  {
    if ms == [] then [Member(key, value)]
    else if ms[0].key == key then ms
    else if KeyLess(key, ms[0].key) then [Member(key, value)] + ms
    else [ms[0]] + Emplace(ms[1..], key, value)
  }

  /** A key below every key of `ms`. */
  predicate Below(key: Octets, ms: seq<Member>)
  {
    forall i :: 0 <= i < |ms| ==> KeyLess(key, ms[i].key)
  }

  lemma SortedTail(ms: seq<Member>)
    requires ms != [] && Sorted(ms)
    ensures Sorted(ms[1..]) && Below(ms[0].key, ms[1..])
  {
  }

  lemma SortedCons(m: Member, ms: seq<Member>)
    requires Sorted(ms) && Below(m.key, ms)
    ensures Sorted([m] + ms)
  {
  }

  /** After `emplace` the key is present, and no other key was added. */
  lemma {:induction false} EmplaceKeys(ms: seq<Member>, key: Octets, value: Json)
    ensures Keys(Emplace(ms, key, value)) == Keys(ms) + {key}
  {
    if ms != [] && ms[0].key != key && !KeyLess(key, ms[0].key) {
      EmplaceKeys(ms[1..], key, value);
    }
  }

  /** A new key is stored with the given value, and the object grows by one member. */
  lemma {:induction false} EmplaceNew(ms: seq<Member>, key: Octets, value: Json)
    requires key !in Keys(ms)
    ensures Find(Emplace(ms, key, value), key) == Some(value)
    ensures |Emplace(ms, key, value)| == |ms| + 1
  {
    if ms != [] && !KeyLess(key, ms[0].key) {
      EmplaceNew(ms[1..], key, value);
    }
  }

  lemma SortedAsymmetric(a: Octets, b: Octets)
    requires KeyLess(a, b)
    ensures !KeyLess(b, a)
  {
    if KeyLess(b, a) {
      KeyLessTransitive(a, b, a);
      KeyLessIrreflexive(a);
    }
  }

  lemma {:induction false} EmplaceAt(ms: seq<Member>, i: nat, value: Json)
    requires Sorted(ms) && i < |ms|
    ensures Emplace(ms, ms[i].key, value) == ms
  {
    if i > 0 {
      var key := ms[i].key;
      SortedAsymmetric(ms[0].key, key);
      KeyLessIrreflexive(ms[0].key);
      SortedTail(ms);
      assert ms[1..][i - 1].key == key;
      EmplaceAt(ms[1..], i - 1, value);
      assert Emplace(ms, key, value) == [ms[0]] + Emplace(ms[1..], key, value);
      assert [ms[0]] + ms[1..] == ms;
    }
  }

  /** A key already present leaves the object as it was: `emplace` does not overwrite. */
  lemma EmplacePresent(ms: seq<Member>, key: Octets, value: Json)
    requires Sorted(ms) && key in Keys(ms)
    ensures Emplace(ms, key, value) == ms
  {
    var i :| 0 <= i < |ms| && ms[i].key == key;
    EmplaceAt(ms, i, value);
  }

  lemma BelowAll(key: Octets, ms: seq<Member>)
    requires ms != [] && Sorted(ms) && KeyLess(key, ms[0].key)
    ensures Below(key, ms)
  {
    forall i | 0 < i < |ms|
      ensures KeyLess(key, ms[i].key)
    {
      KeyLessTransitive(key, ms[0].key, ms[i].key);
    }
  }

  lemma BelowEmplaced(k: Octets, ms: seq<Member>, key: Octets, value: Json)
    requires Below(k, ms) && KeyLess(k, key)
    ensures Below(k, Emplace(ms, key, value))
  {
    var r := Emplace(ms, key, value);
    EmplaceKeys(ms, key, value);
    forall i | 0 <= i < |r|
      ensures KeyLess(k, r[i].key)
    {
      assert r[i].key in Keys(r);
      if r[i].key != key {
        var j :| 0 <= j < |ms| && ms[j].key == r[i].key;
      }
    }
  }

  /** Emplacing into a sorted object keeps it sorted. */
  lemma {:induction false} EmplaceSorted(ms: seq<Member>, key: Octets, value: Json)
    requires Sorted(ms)
    ensures Sorted(Emplace(ms, key, value))
  {
    if ms == [] {
    } else if ms[0].key == key {
    } else if KeyLess(key, ms[0].key) {
      BelowAll(key, ms);
      SortedCons(Member(key, value), ms);
    } else {
      KeyLessTotal(key, ms[0].key);
      SortedTail(ms);
      EmplaceSorted(ms[1..], key, value);
      BelowEmplaced(ms[0].key, ms[1..], key, value);
      SortedCons(ms[0], Emplace(ms[1..], key, value));
    }
  }

  /** Emplacing a key above every key present appends it. */
  lemma {:induction false} EmplaceAbove(ms: seq<Member>, key: Octets, value: Json)
    requires forall i :: 0 <= i < |ms| ==> KeyLess(ms[i].key, key)
    ensures Emplace(ms, key, value) == ms + [Member(key, value)]
  {
    if ms != [] {
      KeyLessIrreflexive(key);
      if KeyLess(key, ms[0].key) {
        KeyLessTransitive(key, ms[0].key, key);
      }
      EmplaceAbove(ms[1..], key, value);
      assert [ms[0]] + (ms[1..] + [Member(key, value)]) == ms + [Member(key, value)];
    }
  }

  /** `emplace` of each pair in turn, starting from the members `acc`. */
  function EmplaceAll(acc: seq<Member>, pairs: seq<Member>): (r: seq<Member>)
    decreases pairs
  {
    if pairs == [] then acc
    else EmplaceAll(Emplace(acc, pairs[0].key, pairs[0].value), pairs[1..])
  }

  /** `emplace` adds no member other than the one it is given. */
  lemma {:induction false} EmplaceMembers(ms: seq<Member>, key: Octets, value: Json, m: Member)
    requires m in Emplace(ms, key, value)
    ensures m in ms || m == Member(key, value)
  {
    if ms != [] && ms[0].key != key && !KeyLess(key, ms[0].key) && m != ms[0] {
      EmplaceMembers(ms[1..], key, value, m);
    }
  }

  /** `emplace` under one key leaves what is stored under every other key. */
  lemma {:induction false} EmplaceFindOther(ms: seq<Member>, key: Octets, value: Json, k: Octets)
    requires k != key
    ensures Find(Emplace(ms, key, value), k) == Find(ms, k)
  {
    if ms != [] && ms[0].key != key && !KeyLess(key, ms[0].key) {
      EmplaceFindOther(ms[1..], key, value, k);
    }
  }

  /** Emplacing pairs one after the other keeps a sorted object sorted. */
  lemma {:induction false} EmplaceAllSorted(acc: seq<Member>, pairs: seq<Member>)
    requires Sorted(acc)
    ensures Sorted(EmplaceAll(acc, pairs))
    decreases pairs
  {
    if pairs != [] {
      EmplaceSorted(acc, pairs[0].key, pairs[0].value);
      EmplaceAllSorted(Emplace(acc, pairs[0].key, pairs[0].value), pairs[1..]);
    }
  }

  /** Every member of the result was already there or is one of the pairs. */
  lemma {:induction false} EmplaceAllMembers(acc: seq<Member>, pairs: seq<Member>, m: Member)
    requires m in EmplaceAll(acc, pairs)
    ensures m in acc || m in pairs
    decreases pairs
  {
    if pairs != [] {
      var next := Emplace(acc, pairs[0].key, pairs[0].value);
      EmplaceAllMembers(next, pairs[1..], m);
      if m in next {
        EmplaceMembers(acc, pairs[0].key, pairs[0].value, m);
      }
    }
  }

  /**
   * The first value given for a key wins: later pairs with a key already
   * present are dropped, as `std::map::emplace` drops them.
   */
  lemma {:induction false} EmplaceAllFind(acc: seq<Member>, pairs: seq<Member>, k: Octets)
    requires Sorted(acc)
    ensures Find(EmplaceAll(acc, pairs), k) == if k in Keys(acc) then Find(acc, k) else Find(pairs, k)
    decreases pairs
  {
    if pairs != [] {
      var key, value := pairs[0].key, pairs[0].value;
      var next := Emplace(acc, key, value);
      EmplaceSorted(acc, key, value);
      EmplaceAllFind(next, pairs[1..], k);
      EmplaceKeys(acc, key, value);
      if k == key {
        if key in Keys(acc) {
          EmplacePresent(acc, key, value);
        } else {
          EmplaceNew(acc, key, value);
        }
      } else {
        EmplaceFindOther(acc, key, value, k);
      }
    }
  }

  /** Pairs in ascending key order, above every key present, are appended as they are. */
  lemma {:induction false} EmplaceAllAscending(acc: seq<Member>, pairs: seq<Member>)
    requires Sorted(acc + pairs)
    ensures EmplaceAll(acc, pairs) == acc + pairs
    decreases pairs
  {
    if pairs != [] {
      var key, value := pairs[0].key, pairs[0].value;
      forall i | 0 <= i < |acc|
        ensures KeyLess(acc[i].key, key)
      {
        assert (acc + pairs)[i] == acc[i] && (acc + pairs)[|acc|] == pairs[0];
      }
      EmplaceAbove(acc, key, value);
      assert acc + pairs == (acc + [pairs[0]]) + pairs[1..];
      EmplaceAllAscending(acc + [pairs[0]], pairs[1..]);
    }
  }

  /** Building an object from pairs already in ascending key order gives those pairs. */
  lemma EmplaceAllInOrder(pairs: seq<Member>)
    requires Sorted(pairs)
    ensures EmplaceAll([], pairs) == pairs
  {
    assert [] + pairs == pairs;
    EmplaceAllAscending([], pairs);
  }
}
