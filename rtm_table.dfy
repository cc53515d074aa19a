/**
 * The subscription table of the RTM client (src/rtm_client.cpp): a
 * `std::map` from channel name to subscription, kept here as its entries in
 * ascending key order, the order in which the client's loops visit them.
 */
module RtmTable {
  import opened Octets
  import opened Wrappers
  import Json

  /** `subscription_status`. */
  datatype Status = PendingSubscribe | Current | PendingUnsubscribe

  /** `pending_request_id` when no request is pending: `UINT64_MAX`. */
  const NoRequest: nat := 0xFFFF_FFFF_FFFF_FFFF

  /**
   * `subscription_impl`: the channel, the caller's `subscription` object
   * (identified here by a number), the status and the pending request id.
   */
  datatype Subscription = Subscription(channel: Octets, sub: nat, status: Status, pendingRequestId: nat)

  datatype Entry = Entry(key: Octets, value: Subscription)

  /** Keys strictly ascend: a `std::map`. */
  predicate Sorted(es: seq<Entry>)
  {
    forall i, j :: 0 <= i < j < |es| ==> Json.KeyLess(es[i].key, es[j].key)
  }

  /** `find(key)`. */
  function Find(es: seq<Entry>, key: Octets): (r: Option<Subscription>)
    ensures r.Some? <==> exists i :: 0 <= i < |es| && es[i].key == key
  {
    if es == [] then None
    else if es[0].key == key then Some(es[0].value)
    else
      var r := Find(es[1..], key);
      assert r.Some? ==> exists i :: 1 <= i < |es| && es[i].key == key by {
        if r.Some? {
          var i :| 0 <= i < |es[1..]| && es[1..][i].key == key;
          assert es[i + 1].key == key;
        }
      }
      r
  }

  /** In a sorted table, the entry at `i` is what `find` of its key gives. */
  lemma {:induction false} FindAt(es: seq<Entry>, i: nat)
    requires Sorted(es) && i < |es|
    ensures Find(es, es[i].key) == Some(es[i].value)
  {
    if i > 0 {
      if es[0].key == es[i].key {
        Json.KeyLessIrreflexive(es[0].key);
      }
      assert es[1..][i - 1] == es[i];
      FindAt(es[1..], i - 1);
    }
  }

  /** `emplace(key, value)`: inserted at its place in key order, unless the key is present, in which case nothing changes. */
  function Emplace(es: seq<Entry>, key: Octets, value: Subscription): (r: seq<Entry>)
    ensures |es| <= |r| <= |es| + 1
    ensures |r| == |es| + 1 ==> Entry(key, value) in r
  {
    if es == [] then [Entry(key, value)]
    else if es[0].key == key then es
    else if Json.KeyLess(key, es[0].key) then [Entry(key, value)] + es
    else [es[0]] + Emplace(es[1..], key, value)
  }

  /** The entries of `emplace`: the old ones, and the new one unless its key was present. */
  lemma {:induction false} EmplaceEntries(es: seq<Entry>, key: Octets, value: Subscription)
    ensures forall e :: e in Emplace(es, key, value) ==> e in es || e == Entry(key, value)
    ensures forall e :: e in es ==> e in Emplace(es, key, value)
    ensures Entry(key, value) in Emplace(es, key, value) || exists i :: 0 <= i < |es| && es[i].key == key
  {
    if es != [] && es[0].key != key && !Json.KeyLess(key, es[0].key) {
      EmplaceEntries(es[1..], key, value);
      assert forall e :: e in es ==> e == es[0] || e in es[1..];
    }
  }

  lemma KeyLessAsymmetric(a: Octets, b: Octets)
    requires Json.KeyLess(a, b)
    ensures !Json.KeyLess(b, a) && a != b
  {
    Json.KeyLessIrreflexive(a);
    if Json.KeyLess(b, a) {
      Json.KeyLessTransitive(a, b, a);
    }
  }

  /** Emplacing into a sorted table keeps it sorted. */
  lemma {:induction false} EmplaceSorted(es: seq<Entry>, key: Octets, value: Subscription)
    requires Sorted(es)
    ensures Sorted(Emplace(es, key, value))
  {
    if es == [] || es[0].key == key {
    } else if Json.KeyLess(key, es[0].key) {
      forall i | 0 < i < |es| ensures Json.KeyLess(key, es[i].key) {
        Json.KeyLessTransitive(key, es[0].key, es[i].key);
      }
    } else {
      Json.KeyLessTotal(key, es[0].key);
      EmplaceSorted(es[1..], key, value);
      EmplaceEntries(es[1..], key, value);
      var r := Emplace(es[1..], key, value);
      forall j | 0 <= j < |r| ensures Json.KeyLess(es[0].key, r[j].key) {
        assert r[j] in r;
      }
    }
  }

  /** A new key is found with its subscription, every other key as before. */
  lemma EmplaceFind(es: seq<Entry>, key: Octets, value: Subscription, k: Octets)
    requires Sorted(es) && Find(es, key).None?
    ensures Find(Emplace(es, key, value), k) == if k == key then Some(value) else Find(es, k)
  {
    EmplaceFindRec(es, key, value, k);
  }

  lemma {:induction false} EmplaceFindRec(es: seq<Entry>, key: Octets, value: Subscription, k: Octets)
    requires Find(es, key).None?
    ensures Find(Emplace(es, key, value), k) == if k == key then Some(value) else Find(es, k)
  {
    if es != [] && !Json.KeyLess(key, es[0].key) {
      EmplaceFindRec(es[1..], key, value, k);
    }
  }

  /** The index of the first entry, in key order, whose pending request id is `id`; `|es|` if none. */
  function FirstPending(es: seq<Entry>, id: nat): (i: nat)
    ensures i <= |es| && (i < |es| ==> es[i].value.pendingRequestId == id)
    ensures forall j :: 0 <= j < i ==> es[j].value.pendingRequestId != id
  {
    if es == [] then 0
    else if es[0].value.pendingRequestId == id then 0
    else 1 + FirstPending(es[1..], id)
  }

  /** The index of the first entry, in key order, for the caller's subscription `sub`; `|es|` if none. */
  function FirstOfSub(es: seq<Entry>, sub: nat): (i: nat)
    ensures i <= |es| && (i < |es| ==> es[i].value.sub == sub)
    ensures forall j :: 0 <= j < i ==> es[j].value.sub != sub
  {
    if es == [] then 0
    else if es[0].value.sub == sub then 0
    else 1 + FirstOfSub(es[1..], sub)
  }

  /** `erase(it)`. */
  function RemoveAt(es: seq<Entry>, i: nat): (r: seq<Entry>)
    requires i < |es|
    ensures |r| == |es| - 1
  {
    es[..i] + es[i + 1..]
  }

  /** Erasing from a sorted table keeps it sorted. */
  lemma RemoveAtSorted(es: seq<Entry>, i: nat)
    requires Sorted(es) && i < |es|
    ensures Sorted(RemoveAt(es, i))
  {
    var r := RemoveAt(es, i);
    assert forall j :: 0 <= j < |r| ==> r[j] == if j < i then es[j] else es[j + 1];
  }

  /** After erasing, the key is gone and every other key is found as before. */
  lemma RemoveAtFind(es: seq<Entry>, i: nat, k: Octets)
    requires Sorted(es) && i < |es|
    ensures Sorted(RemoveAt(es, i))
    ensures Find(RemoveAt(es, i), k) == if k == es[i].key then None else Find(es, k)
  {
    var r := RemoveAt(es, i);
    RemoveAtSorted(es, i);
    if k == es[i].key {
      forall j | 0 <= j < |r| ensures r[j].key != k {
        if j < i {
          assert r[j] == es[j];
          KeyLessAsymmetric(es[j].key, es[i].key);
        } else {
          assert r[j] == es[j + 1];
          KeyLessAsymmetric(es[i].key, es[j + 1].key);
        }
      }
    } else if Find(es, k).Some? {
      var j :| 0 <= j < |es| && es[j].key == k;
      FindAt(es, j);
      var j' := if j < i then j else j - 1;
      assert r[j'] == es[j];
      FindAt(r, j');
    } else {
      forall j | 0 <= j < |r| ensures r[j].key != k {
        if j < i {
          assert r[j] == es[j];
        } else {
          assert r[j] == es[j + 1];
        }
      }
    }
  }

  /** The entry at `i` with its subscription replaced. */
  function UpdateAt(es: seq<Entry>, i: nat, v: Subscription): (r: seq<Entry>)
    requires i < |es|
    ensures |r| == |es|
  {
    es[i := Entry(es[i].key, v)]
  }

  /** Replacing a subscription keeps the table sorted; its key finds the new one and every other key as before. */
  lemma UpdateAtFind(es: seq<Entry>, i: nat, v: Subscription, k: Octets)
    requires Sorted(es) && i < |es|
    ensures Sorted(UpdateAt(es, i, v))
    ensures Find(UpdateAt(es, i, v), k) == if k == es[i].key then Some(v) else Find(es, k)
  {
    var r := UpdateAt(es, i, v);
    assert forall j :: 0 <= j < |r| ==> r[j].key == es[j].key;
    FindAt(r, i);
    if k != es[i].key {
      if Find(es, k).Some? {
        var j :| 0 <= j < |es| && es[j].key == k;
        FindAt(es, j);
        FindAt(r, j);
      }
    }
  }
}
