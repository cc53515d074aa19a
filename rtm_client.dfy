/**
 * The RTM client's bookkeeping (src/rtm_client.cpp, `secure_client`): its
 * running state, the request id counter, the subscription table, the
 * publish requests awaiting confirmation, and what it does with each PDU
 * the server sends. The network itself is left to parameters: whether a
 * connection succeeds, and the PDUs that arrive.
 */
module RtmClient {
  import opened Octets
  import opened Wrappers
  import opened J = Json
  import opened RtmTable

  /** `client_state`. */
  datatype ClientState = Stopped | Running | PendingStopped

  /** `client_error` (src/rtm_client.h). */
  datatype ClientError =
    | UnknownError | NotConnected | ResponseParsingError | InvalidResponse | SubscriptionError
    | SubscribeError | UnsubscribeError | AsioError | InvalidMessage | PublishError

  /** A request written to the server, with the id it carries. */
  datatype Sent = Sent(id: nat, document: J.Json)

  /**
   * The client's fields: `_client_state`, `_request_id`, `_subscriptions`
   * and `_publish_times`, with three records of what went out: the requests
   * written, the errors reported to the error callbacks, and the messages
   * handed to subscription callbacks, with the caller's subscription; and
   * whether a read is outstanding on the socket.
   */
  datatype Tables = Tables(
    state: ClientState,
    requestId: nat,
    subscriptions: seq<Entry>,
    publishTimes: map<nat, int>,
    sent: seq<Sent>,
    errors: seq<ClientError>,
    delivered: seq<(nat, J.Json)>,
    reading: bool)

  /** A newly made client. */
  const Fresh: Tables := Tables(Stopped, 0, [], map[], [], [], [], false)

  /** What a step leads to: the new tables, or the end of the process at a failed check. */
  datatype Next = Continue(t: Tables) | Aborted | NotModelled

  // ---------------------------------------------------------------------
  // Request documents

  /** The "history" object of a subscribe request: the age and the count that were given. */
  function History(age: Option<nat>, count: Option<nat>): (ms: seq<Member>)
  {
    (if age.Some? then [Member("age", JUnsigned(age.value))] else []) +
    (if count.Some? then [Member("count", JUnsigned(count.value))] else [])
  }

  /** The body of a subscribe request, with "history" only when an age or a count is given. */
  function SubscribeBody(channel: Octets, age: Option<nat>, count: Option<nat>): (ms: seq<Member>)
  {
    [Member("channel", JString(channel))] +
    (if age.Some? || count.Some? then [Member("history", JObject(History(age, count)))] else []) +
    [Member("subscription_id", JString(channel))]
  }

  /** `subscribe_request::to_json`. */
  function SubscribeRequest(id: nat, channel: Octets, age: Option<nat>, count: Option<nat>): (j: J.Json)
    ensures j.JObject? && |j.members| == 3
  {
    JObject([
      Member("action", JString("rtm/subscribe")),
      Member("body", JObject(SubscribeBody(channel, age, count))),
      Member("id", JUnsigned(id))])
  }

  /** `unsubscribe_request::to_json`. */
  function UnsubscribeRequest(id: nat, channel: Octets): (j: J.Json)
    ensures j.JObject? && |j.members| == 3
  {
    JObject([
      Member("action", JString("rtm/unsubscribe")),
      Member("body", JObject([Member("subscription_id", JString(channel))])),
      Member("id", JUnsigned(id))])
  }

  /** The document `publish` writes. */
  function PublishRequest(id: nat, channel: Octets, message: J.Json): (j: J.Json)
    ensures j.JObject? && |j.members| == 3
  {
    JObject([
      Member("action", JString("rtm/publish")),
      Member("body", JObject([Member("channel", JString(channel)), Member("message", message)])),
      Member("id", JUnsigned(id))])
  }

  /** The "body" of a request document. */
  function Body(j: J.Json): (ms: seq<Member>)
  {
    if j.JObject? then
      match J.Find(j.members, "body")
      case Some(JObject(ms)) => ms
      case _ => []
    else []
  }

  /** The history holds the age exactly when one is given, and the count likewise. */
  lemma HistoryFind(age: Option<nat>, count: Option<nat>)
    ensures J.Find(History(age, count), "age") == (if age.Some? then Some(JUnsigned(age.value)) else None)
    ensures J.Find(History(age, count), "count") == (if count.Some? then Some(JUnsigned(count.value)) else None)
    ensures J.Sorted(History(age, count))
  {
    assert KeyLess("age", "count");
    if age.Some? {
      assert History(age, count)[0].key == "age";
    }
  }

  /** The subscribe request holds its id and the subscribe body. */
  lemma SubscribeRequestFinds(id: nat, channel: Octets, age: Option<nat>, count: Option<nat>)
    ensures Body(SubscribeRequest(id, channel, age, count)) == SubscribeBody(channel, age, count)
    ensures J.Find(SubscribeRequest(id, channel, age, count).members, "id") == Some(JUnsigned(id))
  {
    var ms := SubscribeRequest(id, channel, age, count).members;
    assert J.Find(ms[2..], "id") == Some(JUnsigned(id));
    assert J.Find(ms[1..], "body") == Some(JObject(SubscribeBody(channel, age, count)));
  }

  /** The subscribe body names the channel twice and has "history" exactly when an age or a count is given. */
  lemma SubscribeBodyFinds(channel: Octets, age: Option<nat>, count: Option<nat>)
    ensures J.Find(SubscribeBody(channel, age, count), "channel") == Some(JString(channel))
    ensures J.Find(SubscribeBody(channel, age, count), "subscription_id") == Some(JString(channel))
    ensures J.Find(SubscribeBody(channel, age, count), "history") ==
      (if age.Some? || count.Some? then Some(JObject(History(age, count))) else None)
  {
    var body := SubscribeBody(channel, age, count);
    var last := [Member("subscription_id", JString(channel))];
    assert J.Find(last, "subscription_id") == Some(JString(channel));
    assert J.Find(last, "history") == None by {
      assert J.Find(last[1..], "history") == None;
    }
    if age.Some? || count.Some? {
      assert body[1..] == [Member("history", JObject(History(age, count)))] + last;
      assert body[1..][1..] == last;
    } else {
      assert body[1..] == last;
    }
  }

  /**
   * The subscribe request names the channel as channel and as subscription
   * id, and has "history" exactly when an age or a count is given.
   */
  lemma SubscribeHistory(id: nat, channel: Octets, age: Option<nat>, count: Option<nat>)
    ensures Body(SubscribeRequest(id, channel, age, count)) == SubscribeBody(channel, age, count)
    ensures J.Find(SubscribeBody(channel, age, count), "channel") == Some(JString(channel))
    ensures J.Find(SubscribeBody(channel, age, count), "subscription_id") == Some(JString(channel))
    ensures J.Find(SubscribeBody(channel, age, count), "history") ==
      (if age.Some? || count.Some? then Some(JObject(History(age, count))) else None)
    ensures J.Find(SubscribeRequest(id, channel, age, count).members, "id") == Some(JUnsigned(id))
  {
    SubscribeRequestFinds(id, channel, age, count);
    SubscribeBodyFinds(channel, age, count);
  }

  /** The order of the keys the requests use. */
  lemma KeyOrder()
    ensures KeyLess("action", "body") && KeyLess("body", "id") && KeyLess("action", "id")
    ensures KeyLess("channel", "history") && KeyLess("history", "subscription_id")
    ensures KeyLess("channel", "subscription_id") && KeyLess("channel", "message")
  {
  }

  /** The request documents are objects in key order, as the library keeps them. */
  lemma RequestsSorted(id: nat, channel: Octets, age: Option<nat>, count: Option<nat>, message: J.Json)
    ensures J.Sorted(SubscribeRequest(id, channel, age, count).members)
    ensures J.Sorted(UnsubscribeRequest(id, channel).members)
    ensures J.Sorted(PublishRequest(id, channel, message).members)
  {
    KeyOrder();
    J.SortedThree(Member("action", JString("rtm/subscribe")), Member("body", JObject(SubscribeBody(channel, age, count))), Member("id", JUnsigned(id)));
    J.SortedThree(Member("action", JString("rtm/unsubscribe")), Member("body", JObject([Member("subscription_id", JString(channel))])), Member("id", JUnsigned(id)));
    J.SortedThree(Member("action", JString("rtm/publish")), Member("body", JObject([Member("channel", JString(channel)), Member("message", message)])), Member("id", JUnsigned(id)));
  }

  /** The bodies are in key order too. */
  lemma BodiesSorted(channel: Octets, age: Option<nat>, count: Option<nat>, message: J.Json)
    ensures J.Sorted(SubscribeBody(channel, age, count))
    ensures J.Sorted([Member("channel", JString(channel)), Member("message", message)])
  {
    KeyOrder();
    var ch := Member("channel", JString(channel));
    var si := Member("subscription_id", JString(channel));
    if age.Some? || count.Some? {
      J.SortedThree(ch, Member("history", JObject(History(age, count))), si);
    } else {
      assert SubscribeBody(channel, age, count) == [ch, si];
    }
  }

  // ---------------------------------------------------------------------
  // Requests

  /**
   * `publish`: while stopping, nothing happens; otherwise the client must be
   * running. The next request id goes on the document, which is written
   * whatever the write's outcome, and the id waits for its confirmation with
   * the time `now` unless it already does.
   */
  function Publish(t: Tables, channel: Octets, message: J.Json, now: int): (r: Next)
    ensures r.Aborted? <==> t.state.Stopped?
    ensures t.state == PendingStopped ==> r == Continue(t)
    ensures t.state == Running ==>
      r.Continue? && r.t.state == Running && r.t.requestId == t.requestId + 1 &&
      |r.t.sent| == |t.sent| + 1 && r.t.sent[..|t.sent|] == t.sent &&
      r.t.subscriptions == t.subscriptions &&
      r.t.publishTimes.Keys == t.publishTimes.Keys + {r.t.requestId} &&
      (forall id :: id in t.publishTimes ==> r.t.publishTimes[id] == t.publishTimes[id])
  {
    if t.state == PendingStopped then Continue(t)
    else if t.state != Running then Aborted
    else
      var id := t.requestId + 1;
      Continue(t.(
        requestId := id,
        sent := t.sent + [Sent(id, PublishRequest(id, channel, message))],
        publishTimes := if id in t.publishTimes then t.publishTimes else t.publishTimes[id := now]))
  }

  /**
   * `subscribe_channel`: while stopping, nothing happens; otherwise the
   * client must be running. The channel is entered as pending subscribe
   * with the next request id, unless it is already in the table, which is
   * then left as it was; the request is written either way.
   */
  function Subscribe(t: Tables, channel: Octets, sub: nat, age: Option<nat>, count: Option<nat>): (r: Next)
    ensures r.Aborted? <==> t.state.Stopped?
    ensures t.state == PendingStopped ==> r == Continue(t)
    ensures t.state == Running ==>
      r.Continue? && r.t.state == Running && r.t.requestId == t.requestId + 1 &&
      |r.t.sent| == |t.sent| + 1 && r.t.sent[..|t.sent|] == t.sent &&
      r.t.publishTimes == t.publishTimes &&
      |t.subscriptions| <= |r.t.subscriptions| <= |t.subscriptions| + 1 &&
      (|r.t.subscriptions| == |t.subscriptions| + 1 ==>
        Entry(channel, Subscription(channel, sub, PendingSubscribe, r.t.requestId)) in r.t.subscriptions)
  {
    if t.state == PendingStopped then Continue(t)
    else if t.state != Running then Aborted
    else
      var id := t.requestId + 1;
      Continue(t.(
        requestId := id,
        subscriptions := RtmTable.Emplace(t.subscriptions, channel, Subscription(channel, sub, PendingSubscribe, id)),
        sent := t.sent + [Sent(id, SubscribeRequest(id, channel, age, count))]))
  }

  /**
   * `unsubscribe`: while stopping, nothing happens; otherwise the client
   * must be running. The first entry in key order for the caller's
   * subscription gets the next request id and turns pending unsubscribe,
   * and the request names its key; a subscription not in the table ends
   * the process.
   */
  function Unsubscribe(t: Tables, sub: nat): (r: Next)
    ensures t.state == PendingStopped ==> r == Continue(t)
    ensures r.Aborted? <==> t.state.Stopped? || (t.state == Running && forall e :: e in t.subscriptions ==> e.value.sub != sub)
    ensures t.state == Running && r.Continue? ==>
      r.t.requestId == t.requestId + 1 &&
      |r.t.sent| == |t.sent| + 1 && r.t.sent[..|t.sent|] == t.sent &&
      |r.t.subscriptions| == |t.subscriptions| && r.t.publishTimes == t.publishTimes
  {
    if t.state == PendingStopped then Continue(t)
    else if t.state != Running then Aborted
    else
      var i := FirstOfSub(t.subscriptions, sub);
      if i == |t.subscriptions| then
        assert forall e :: e in t.subscriptions ==> e.value.sub != sub;
        Aborted
      else
        assert t.subscriptions[i] in t.subscriptions;
        var id := t.requestId + 1;
        var e := t.subscriptions[i];
        Continue(t.(
          requestId := id,
          subscriptions := UpdateAt(t.subscriptions, i, e.value.(pendingRequestId := id, status := PendingUnsubscribe)),
          sent := t.sent + [Sent(id, UnsubscribeRequest(id, e.key))]))
  }

  /** What `start` and `stop` return, or the end of the process at a failed check. */
  datatype Returned = Returned(t: Tables, error: Option<ClientError>) | AbortedCall

  /**
   * `start`: the client must be stopped. When the connection is made
   * (resolve, connect, TLS and websocket handshakes, all as the one
   * parameter `connected`) it runs and reads; otherwise it stays stopped
   * and returns the asio error.
   */
  function Start(t: Tables, connected: bool): (r: Returned)
    ensures r.AbortedCall? <==> t.state != Stopped
    ensures r.Returned? ==>
      (r.error.None? <==> connected) && (r.t.state == Running <==> connected) && (connected ==> r.t.reading) &&
      r.t.subscriptions == t.subscriptions && r.t.sent == t.sent && r.t.requestId == t.requestId
  {
    if t.state != Stopped then AbortedCall
    else if connected then Returned(t.(state := Running, reading := true), None)
    else Returned(t, Some(AsioError))
  }

  /**
   * `stop`: the client must be running, and becomes pending stopped; a
   * failure to cancel the ping timer or to close the socket is returned as
   * an asio error.
   */
  function Stop(t: Tables, timerCancelled: bool, closed: bool): (r: Returned)
    ensures r.AbortedCall? <==> t.state != Running
    ensures r.Returned? ==>
      r.t.state == PendingStopped && (r.error.None? <==> timerCancelled && closed) &&
      r.t.subscriptions == t.subscriptions && r.t.sent == t.sent && r.t.reading == t.reading
  {
    if t.state != Running then AbortedCall
    else Returned(t.(state := PendingStopped), if timerCancelled && closed then None else Some(AsioError))
  }

  // ---------------------------------------------------------------------
  // Reading

  /**
   * A read that completes with an error: a cancelled read (the socket was
   * closed by `stop`) requires a pending stop and stops the client,
   * forgetting every subscription; another error is reported while
   * running and ignored otherwise. No further read is asked for.
   */
  function ReadFailed(t: Tables, cancelled: bool): (r: Next)
    ensures r.Aborted? <==> cancelled && t.state != PendingStopped
    ensures r.Continue? ==> !r.t.reading && r.t.sent == t.sent && r.t.requestId == t.requestId && r.t.delivered == t.delivered
    ensures r.Continue? && cancelled ==> r.t.state == Stopped && r.t.subscriptions == []
    ensures !cancelled ==>
      r.Continue? && r.t.state == t.state && r.t.subscriptions == t.subscriptions &&
      r.t.errors == t.errors + (if t.state == Running then [AsioError] else [])
  {
    if cancelled then
      if t.state != PendingStopped then Aborted
      else Continue(t.(state := Stopped, subscriptions := [], reading := false))
    else if t.state == Running then Continue(t.(errors := t.errors + [AsioError], reading := false))
    else Continue(t.(reading := false))
  }

  /**
   * What handling input may do to the client: the state, the request
   * counter and what was sent stay; subscriptions and publish times may
   * only go; deliveries and errors are only appended to.
   */
  predicate Extends(t: Tables, u: Tables)
  {
    && u.state == t.state && u.requestId == t.requestId && u.sent == t.sent
    && |u.subscriptions| <= |t.subscriptions|
    && u.publishTimes.Keys <= t.publishTimes.Keys
    && |t.delivered| <= |u.delivered| && u.delivered[..|t.delivered|] == t.delivered
    && |t.errors| <= |u.errors| && u.errors[..|t.errors|] == t.errors
  }

  /**
   * A read that completes with a message, `None` when the message does not
   * parse: then it is dropped and no further read is asked for; otherwise
   * it is processed (and a further read asked for).
   */
  function OnMessage(t: Tables, parsed: Option<J.Json>): (r: Next)
    ensures parsed.None? ==> r.Continue? && !r.t.reading
    ensures r.Continue? ==> Extends(t, r.t)
  {
    match parsed
    case None => Continue(t.(reading := false))
    case Some(pdu) => Process(t, pdu)
  }

  /**
   * The "id" of a PDU read as a `uint64_t`: unsigned numbers as they are,
   * signed ones modulo 2^64, floating point and booleans are conversions
   * not modelled, and anything else is a type error that ends the process.
   */
  datatype IdField = Id(n: nat) | IdMissing | IdNotNumber | IdNotModelled

  const Uint64Modulus: nat := 0x1_0000_0000_0000_0000

  function IdOf(members: seq<Member>): (r: IdField)
    ensures r.Id? ==> r.n < Uint64Modulus || J.Find(members, "id") == Some(JUnsigned(r.n))
  {
    match J.Find(members, "id")
    case None => IdMissing
    case Some(JUnsigned(u)) => Id(u)
    case Some(JInt(i)) => Id(i % Uint64Modulus)
    case Some(JFloat(_)) => IdNotModelled
    case Some(JBool(_)) => IdNotModelled
    case Some(_) => IdNotNumber
  }

  /** The responses answered by looking up the pending request id. */
  datatype Answer = SubscribeOk | SubscribeFailed | UnsubscribeOk | UnsubscribeFailed

  /**
   * A PDU as `process_input` reads it, up to the point where the tables
   * decide: for data, the subscription id and the "messages" member if any;
   * for the rest, the id. `Malformed` is a failed check on the PDU alone.
   */
  datatype Pdu =
    | Data(subscriptionId: Octets, messages: Option<J.Json>)
    | SubscriptionFailed
    | PublishConfirmation(id: IdField, failed: bool)
    | Response(answer: Answer, id: IdField)
    | Malformed

  function Classify(pdu: J.Json): (p: Pdu)
    ensures !pdu.JObject? ==> p.Malformed?
    ensures !p.Malformed? ==> pdu.JObject? && J.Find(pdu.members, "action").Some? && J.Find(pdu.members, "action").value.JString?
    ensures p.PublishConfirmation? ==>
      (p.id == IdOf(pdu.members) && p.failed == (J.Find(pdu.members, "action").value.s == "rtm/publish/error"))
    ensures p.Response? ==> p.id == IdOf(pdu.members)
  {
    if !pdu.JObject? then Malformed
    else match J.Find(pdu.members, "action")
      case None => Malformed
      case Some(a) =>
        if !a.JString? then Malformed
        else if a.s == "rtm/subscription/data" then ClassifyData(pdu.members)
        else if a.s == "rtm/subscription/error" then SubscriptionFailed
        else if a.s == "rtm/publish/ok" then PublishConfirmation(IdOf(pdu.members), false)
        else if a.s == "rtm/publish/error" then PublishConfirmation(IdOf(pdu.members), true)
        else if a.s == "rtm/subscribe/ok" then Response(SubscribeOk, IdOf(pdu.members))
        else if a.s == "rtm/subscribe/error" then Response(SubscribeFailed, IdOf(pdu.members))
        else if a.s == "rtm/unsubscribe/ok" then Response(UnsubscribeOk, IdOf(pdu.members))
        else if a.s == "rtm/unsubscribe/error" then Response(UnsubscribeFailed, IdOf(pdu.members))
        else Malformed
  }

  /** The body of a data PDU must be an object with a string "subscription_id". */
  function ClassifyData(members: seq<Member>): (p: Pdu)
    ensures p.Data? || p.Malformed?
  {
    match J.Find(members, "body")
    case Some(JObject(body)) =>
      (match J.Find(body, "subscription_id")
       case Some(JString(sid)) => Data(sid, J.Find(body, "messages"))
       case _ => Malformed)
    case _ => Malformed
  }

  /** The pairs handed to the data callback: each message with the caller's subscription. */
  function Deliveries(sub: nat, messages: seq<J.Json>): (ds: seq<(nat, J.Json)>)
    ensures |ds| == |messages|
    ensures forall i :: 0 <= i < |messages| ==> ds[i] == (sub, messages[i])
  {
    seq(|messages|, i requires 0 <= i < |messages| => (sub, messages[i]))
  }

  /** `process_input`. */
  function Process(t: Tables, pdu: J.Json): (r: Next)
    ensures !pdu.JObject? ==> r.Aborted?
    ensures r.Continue? ==> Extends(t, r.t)
  {
    Apply(t, Classify(pdu))
  }

  function Apply(t: Tables, p: Pdu): (r: Next)
    ensures p.Malformed? ==> r.Aborted?
    ensures r.Continue? ==> Extends(t, r.t)
    ensures r.Continue? && !p.Data? ==> r.t.delivered == t.delivered
  {
    match p
    case Malformed => Aborted
    case Data(sid, messages) =>
      (match RtmTable.Find(t.subscriptions, sid)
       case None => Aborted
       case Some(sub) =>
         if sub.status == PendingSubscribe then Aborted
         else if sub.status == PendingUnsubscribe then Continue(t)
         else match messages
           case Some(JArray(ms)) => Continue(t.(delivered := t.delivered + Deliveries(sub.sub, ms)))
           case _ => Aborted)
    case SubscriptionFailed => Continue(t.(errors := t.errors + [SubscriptionError]))
    case PublishConfirmation(id, failed) =>
      (match id
       case Id(n) =>
         if n !in t.publishTimes then Aborted
         else Continue(t.(
           publishTimes := t.publishTimes - {n},
           errors := if failed then t.errors + [PublishError] else t.errors))
       case IdNotModelled => NotModelled
       case _ => Aborted)
    case Response(answer, id) =>
      (match id
       case Id(n) => Answered(t, answer, n)
       case IdNotModelled => NotModelled
       case _ => Aborted)
  }

  /**
   * A subscribe or unsubscribe response for request `n`: the first entry in
   * key order waiting for `n` must be in the matching pending state. A
   * confirmed subscribe makes it current and idle; a failed one reports the
   * error and removes it; an unsubscribe response removes it, reporting the
   * error if it failed. No entry waiting for `n` ends the process.
   */
  function Answered(t: Tables, answer: Answer, n: nat): (r: Next)
    ensures FirstPending(t.subscriptions, n) == |t.subscriptions| ==> r.Aborted?
    ensures r.Continue? ==> Extends(t, r.t) && r.t.delivered == t.delivered && r.t.publishTimes == t.publishTimes
    ensures r.Continue? ==> (|r.t.subscriptions| == |t.subscriptions| <==> answer == SubscribeOk)
  {
    var i := FirstPending(t.subscriptions, n);
    if i == |t.subscriptions| then Aborted
    else
      var sub := t.subscriptions[i].value;
      var expected := if answer == SubscribeOk || answer == SubscribeFailed then PendingSubscribe else PendingUnsubscribe;
      if sub.status != expected then Aborted
      else if answer == SubscribeOk then
        Continue(t.(subscriptions := UpdateAt(t.subscriptions, i, sub.(pendingRequestId := NoRequest, status := Current))))
      else
        var reported := match answer
          case SubscribeFailed => [SubscribeError]
          case UnsubscribeFailed => [UnsubscribeError]
          case _ => [];
        Continue(t.(subscriptions := RemoveAt(t.subscriptions, i), errors := t.errors + reported))
  }

  // ---------------------------------------------------------------------
  // The client's invariant

  /** An entry is kept under its own channel, waits for no request beyond the last id, and waits for none once current. */
  predicate EntryOk(e: Entry, requestId: nat)
  {
    e.value.channel == e.key &&
    (e.value.pendingRequestId == NoRequest || e.value.pendingRequestId <= requestId) &&
    (e.value.status == Current ==> e.value.pendingRequestId == NoRequest)
  }

  /** No two entries wait for the same request. */
  predicate PendingDistinct(es: seq<Entry>)
  {
    forall e1, e2 ::
      (e1 in es && e2 in es && e1.value.pendingRequestId == e2.value.pendingRequestId &&
       e1.value.pendingRequestId != NoRequest) ==> e1 == e2
  }

  /**
   * What the client keeps true between events: a sorted table of good
   * entries, no request id awaited twice, publish confirmations and written
   * requests for ids already handed out, the ids written in strictly
   * increasing order, and no subscriptions while stopped.
   */
  predicate Inv(t: Tables)
  {
    RtmTable.Sorted(t.subscriptions) &&
    (forall e :: e in t.subscriptions ==> EntryOk(e, t.requestId)) &&
    PendingDistinct(t.subscriptions) &&
    (forall n :: n in t.publishTimes ==> n <= t.requestId) &&
    (forall i, j :: 0 <= i < j < |t.sent| ==> t.sent[i].id < t.sent[j].id) &&
    (forall i :: 0 <= i < |t.sent| ==> t.sent[i].id <= t.requestId) &&
    (t.state == Stopped ==> t.subscriptions == [])
  }

  lemma FreshInv()
    ensures Inv(Fresh)
  {
  }

  /** Writing a request with the next id keeps the written ids increasing and handed out. */
  lemma SentStep(sent: seq<Sent>, requestId: nat, d: J.Json)
    requires forall i, j :: 0 <= i < j < |sent| ==> sent[i].id < sent[j].id
    requires forall i :: 0 <= i < |sent| ==> sent[i].id <= requestId
    ensures var s := sent + [Sent(requestId + 1, d)];
      (forall i, j :: 0 <= i < j < |s| ==> s[i].id < s[j].id) &&
      (forall i :: 0 <= i < |s| ==> s[i].id <= requestId + 1)
  {
  }

  /** Entries stay good when the last id grows. */
  lemma EntriesGrow(es: seq<Entry>, requestId: nat, next: nat)
    requires requestId <= next
    requires forall e :: e in es ==> EntryOk(e, requestId)
    ensures forall e :: e in es ==> EntryOk(e, next)
  {
  }

  lemma PublishInv(t: Tables, channel: Octets, message: J.Json, now: int)
    requires Inv(t)
    ensures Publish(t, channel, message, now).Continue? ==> Inv(Publish(t, channel, message, now).t)
  {
    if t.state == Running {
      SentStep(t.sent, t.requestId, PublishRequest(t.requestId + 1, channel, message));
      EntriesGrow(t.subscriptions, t.requestId, t.requestId + 1);
    }
  }

  lemma SubscribeInv(t: Tables, channel: Octets, sub: nat, age: Option<nat>, count: Option<nat>)
    requires Inv(t)
    ensures Subscribe(t, channel, sub, age, count).Continue? ==> Inv(Subscribe(t, channel, sub, age, count).t)
  {
    if t.state == Running {
      SentStep(t.sent, t.requestId, SubscribeRequest(t.requestId + 1, channel, age, count));
      EmplaceTableOk(t.subscriptions, t.requestId, channel, sub);
    }
  }

  /** Entering a channel with the next request id keeps the table good. */
  lemma EmplaceTableOk(es: seq<Entry>, requestId: nat, channel: Octets, sub: nat)
    requires RtmTable.Sorted(es) && PendingDistinct(es)
    requires forall e :: e in es ==> EntryOk(e, requestId)
    ensures var r := RtmTable.Emplace(es, channel, Subscription(channel, sub, PendingSubscribe, requestId + 1));
      RtmTable.Sorted(r) && PendingDistinct(r) && forall e :: e in r ==> EntryOk(e, requestId + 1)
  {
    var id := requestId + 1;
    var v := Subscription(channel, sub, PendingSubscribe, id);
    var r := RtmTable.Emplace(es, channel, v);
    EntriesGrow(es, requestId, id);
    RtmTable.EmplaceSorted(es, channel, v);
    RtmTable.EmplaceEntries(es, channel, v);
    assert forall e :: e in r ==> EntryOk(e, id);
    forall e1, e2 | e1 in r && e2 in r && e1.value.pendingRequestId == e2.value.pendingRequestId &&
      e1.value.pendingRequestId != NoRequest
      ensures e1 == e2
    {
    }
  }

  lemma RemoveAtEntries(es: seq<Entry>, i: nat)
    requires i < |es|
    ensures forall e :: e in RemoveAt(es, i) ==> e in es
  {
    assert forall e :: e in RemoveAt(es, i) ==> e in es[..i] || e in es[i + 1..];
  }

  lemma UpdateAtEntries(es: seq<Entry>, i: nat, v: Subscription)
    requires i < |es|
    ensures forall e :: e in UpdateAt(es, i, v) ==> e in es || e == Entry(es[i].key, v)
  {
    var r := UpdateAt(es, i, v);
    forall e | e in r ensures e in es || e == Entry(es[i].key, v) {
      var j :| 0 <= j < |r| && r[j] == e;
      if j != i {
        assert r[j] == es[j];
      }
    }
  }

  lemma UnsubscribeInv(t: Tables, sub: nat)
    requires Inv(t)
    ensures Unsubscribe(t, sub).Continue? ==> Inv(Unsubscribe(t, sub).t)
  {
    if t.state == Running {
      var i := FirstOfSub(t.subscriptions, sub);
      if i < |t.subscriptions| {
        SentStep(t.sent, t.requestId, UnsubscribeRequest(t.requestId + 1, t.subscriptions[i].key));
        MarkTableOk(t.subscriptions, t.requestId, i);
      }
    }
  }

  /** Marking one entry pending unsubscribe with the next request id keeps the table good. */
  lemma MarkTableOk(es: seq<Entry>, requestId: nat, i: nat)
    requires i < |es|
    requires RtmTable.Sorted(es) && PendingDistinct(es)
    requires forall e :: e in es ==> EntryOk(e, requestId)
    ensures var r := UpdateAt(es, i, es[i].value.(pendingRequestId := requestId + 1, status := PendingUnsubscribe));
      RtmTable.Sorted(r) && PendingDistinct(r) && forall e :: e in r ==> EntryOk(e, requestId + 1)
  {
    var id := requestId + 1;
    var e := es[i];
    var v := e.value.(pendingRequestId := id, status := PendingUnsubscribe);
    var r := UpdateAt(es, i, v);
    assert e in es;
    EntriesGrow(es, requestId, id);
    UpdateAtEntries(es, i, v);
    RtmTable.UpdateAtFind(es, i, v, e.key);
    assert forall e' :: e' in r ==> EntryOk(e', id);
  }

  lemma StartInv(t: Tables, connected: bool)
    requires Inv(t)
    ensures Start(t, connected).Returned? ==> Inv(Start(t, connected).t)
  {
  }

  lemma StopInv(t: Tables, timerCancelled: bool, closed: bool)
    requires Inv(t)
    ensures Stop(t, timerCancelled, closed).Returned? ==> Inv(Stop(t, timerCancelled, closed).t)
  {
  }

  lemma ReadFailedInv(t: Tables, cancelled: bool)
    requires Inv(t)
    ensures ReadFailed(t, cancelled).Continue? ==> Inv(ReadFailed(t, cancelled).t)
  {
  }

  lemma AnsweredInv(t: Tables, answer: Answer, n: nat)
    requires Inv(t)
    ensures Answered(t, answer, n).Continue? ==> Inv(Answered(t, answer, n).t)
  {
    var i := FirstPending(t.subscriptions, n);
    if i < |t.subscriptions| {
      var sub := t.subscriptions[i].value;
      assert t.subscriptions[i] in t.subscriptions;
      if answer == SubscribeOk {
        var v := sub.(pendingRequestId := NoRequest, status := Current);
        UpdateAtEntries(t.subscriptions, i, v);
        RtmTable.UpdateAtFind(t.subscriptions, i, v, t.subscriptions[i].key);
      } else {
        RemoveAtEntries(t.subscriptions, i);
        RtmTable.RemoveAtSorted(t.subscriptions, i);
      }
    }
  }

  lemma ProcessInv(t: Tables, pdu: J.Json)
    requires Inv(t)
    ensures Process(t, pdu).Continue? ==> Inv(Process(t, pdu).t)
  {
    match Classify(pdu)
    case Response(answer, Id(n)) => AnsweredInv(t, answer, n);
    case _ =>
  }

  lemma OnMessageInv(t: Tables, parsed: Option<J.Json>)
    requires Inv(t)
    ensures OnMessage(t, parsed).Continue? ==> Inv(OnMessage(t, parsed).t)
  {
    if parsed.Some? {
      ProcessInv(t, parsed.value);
    }
  }

  // ---------------------------------------------------------------------
  // What the client promises

  /** The three-member documents find their "id". */
  lemma IdOfThree(a: Member, b: Member, x: J.Json)
    requires a.key != "id" && b.key != "id"
    ensures J.Find([a, b, Member("id", x)], "id") == Some(x)
  {
    var m := Member("id", x);
    assert J.Find([m], "id") == Some(x);
    assert [b, m][1..] == [m];
    assert [a, b, m][1..] == [b, m];
  }

  /** `t2` is `t1` after writing one request that carries the next request id. */
  predicate WritesNext(t1: Tables, t2: Tables)
  {
    t2.requestId == t1.requestId + 1 &&
    |t2.sent| == |t1.sent| + 1 && t2.sent[..|t1.sent|] == t1.sent &&
    t2.sent[|t1.sent|].id == t2.requestId &&
    t2.sent[|t1.sent|].document.JObject? &&
    J.Find(t2.sent[|t1.sent|].document.members, "id") == Some(JUnsigned(t2.requestId))
  }

  /**
   * While running, publish, subscribe and (when it does not abort)
   * unsubscribe each write one request with the next id, so the ids written
   * strictly increase.
   */
  lemma PublishTakesNextId(t: Tables, channel: Octets, message: J.Json, now: int)
    requires t.state == Running
    ensures Publish(t, channel, message, now).Continue? && WritesNext(t, Publish(t, channel, message, now).t)
  {
    var id := t.requestId + 1;
    var d := PublishRequest(id, channel, message);
    IdOfThree(d.members[0], d.members[1], JUnsigned(id));
    var sent := t.sent + [Sent(id, d)];
    assert sent[..|t.sent|] == t.sent;
    assert Publish(t, channel, message, now).t.sent == sent;
  }

  lemma SubscribeTakesNextId(t: Tables, channel: Octets, sub: nat, age: Option<nat>, count: Option<nat>)
    requires t.state == Running
    ensures Subscribe(t, channel, sub, age, count).Continue? && WritesNext(t, Subscribe(t, channel, sub, age, count).t)
  {
    var id := t.requestId + 1;
    var d := SubscribeRequest(id, channel, age, count);
    IdOfThree(d.members[0], d.members[1], JUnsigned(id));
    var sent := t.sent + [Sent(id, d)];
    assert sent[..|t.sent|] == t.sent;
    assert Subscribe(t, channel, sub, age, count).t.sent == sent;
  }

  lemma UnsubscribeTakesNextId(t: Tables, sub: nat)
    requires t.state == Running
    ensures Unsubscribe(t, sub).Continue? ==> WritesNext(t, Unsubscribe(t, sub).t)
  {
    var id := t.requestId + 1;
    var i := FirstOfSub(t.subscriptions, sub);
    if i < |t.subscriptions| {
      var u := UnsubscribeRequest(id, t.subscriptions[i].key);
      IdOfThree(u.members[0], u.members[1], JUnsigned(id));
    }
  }

  /** While stopping, publish, subscribe and unsubscribe change nothing; while stopped they end the process. */
  lemma RequestsWhileNotRunning(t: Tables, channel: Octets, message: J.Json, now: int, sub: nat, age: Option<nat>, count: Option<nat>)
    requires t.state != Running
    ensures t.state == PendingStopped ==>
      Publish(t, channel, message, now) == Continue(t) &&
      Subscribe(t, channel, sub, age, count) == Continue(t) &&
      Unsubscribe(t, sub) == Continue(t)
    ensures t.state == Stopped ==>
      Publish(t, channel, message, now) == Aborted &&
      Subscribe(t, channel, sub, age, count) == Aborted &&
      Unsubscribe(t, sub) == Aborted
  {
  }

  /**
   * Subscribing to a channel not in the table enters it as pending
   * subscribe with the new request id, and leaves every other channel as it
   * was; subscribing to one already there leaves the table unchanged.
   */
  lemma SubscribeEnters(t: Tables, channel: Octets, sub: nat, age: Option<nat>, count: Option<nat>, k: Octets)
    requires Inv(t) && t.state == Running
    ensures var t2 := Subscribe(t, channel, sub, age, count).t;
      if RtmTable.Find(t.subscriptions, channel).None? then
        RtmTable.Find(t2.subscriptions, k) ==
          if k == channel then Some(Subscription(channel, sub, PendingSubscribe, t2.requestId))
          else RtmTable.Find(t.subscriptions, k)
      else t2.subscriptions == t.subscriptions
  {
    if RtmTable.Find(t.subscriptions, channel).None? {
      SubscribeAbsent(t, channel, sub, age, count, k);
    } else {
      SubscribePresent(t, channel, sub, age, count);
    }
  }

  /** Subscribing to a channel not in the table enters it and no other key. */
  lemma SubscribeAbsent(t: Tables, channel: Octets, sub: nat, age: Option<nat>, count: Option<nat>, k: Octets)
    requires RtmTable.Sorted(t.subscriptions) && t.state == Running
    requires RtmTable.Find(t.subscriptions, channel).None?
    ensures var t2 := Subscribe(t, channel, sub, age, count).t;
      t2.requestId == t.requestId + 1 &&
      RtmTable.Find(t2.subscriptions, k) ==
        if k == channel then Some(Subscription(channel, sub, PendingSubscribe, t.requestId + 1))
        else RtmTable.Find(t.subscriptions, k)
  {
    RtmTable.EmplaceFind(t.subscriptions, channel, Subscription(channel, sub, PendingSubscribe, t.requestId + 1), k);
  }

  lemma {:induction false} EmplacePresent(es: seq<Entry>, key: Octets, v: Subscription, j: nat)
    requires RtmTable.Sorted(es) && j < |es| && es[j].key == key
    ensures RtmTable.Emplace(es, key, v) == es
  {
    if j > 0 {
      assert es[0].key != key by {
        RtmTable.KeyLessAsymmetric(es[0].key, es[j].key);
      }
      assert !J.KeyLess(key, es[0].key) by {
        RtmTable.KeyLessAsymmetric(es[0].key, es[j].key);
      }
      assert es[1..][j - 1] == es[j];
      EmplacePresent(es[1..], key, v, j - 1);
      assert es == [es[0]] + es[1..];
    }
  }

  /** In a table kept by the invariant, the first entry waiting for an entry's pending id is that entry. */
  lemma PendingFound(es: seq<Entry>, i: nat)
    requires RtmTable.Sorted(es) && PendingDistinct(es) && i < |es|
    requires es[i].value.pendingRequestId != NoRequest
    ensures FirstPending(es, es[i].value.pendingRequestId) == i
  {
    var k := FirstPending(es, es[i].value.pendingRequestId);
    assert es[i] in es;
    if k != i {
      assert es[k] in es;
      assert es[k] == es[i];
      if k < i {
        RtmTable.KeyLessAsymmetric(es[k].key, es[i].key);
      }
    }
  }

  /** A server response carrying just an action and an id. */
  function Reply(action: Octets, n: nat): (j: J.Json)
    ensures j.JObject? && |j.members| == 2
  {
    JObject([Member("action", JString(action)), Member("id", JUnsigned(n))])
  }

  /** The action a response of each kind carries. */
  function ActionOf(answer: Answer): (a: Octets)
  {
    match answer
    case SubscribeOk => "rtm/subscribe/ok"
    case SubscribeFailed => "rtm/subscribe/error"
    case UnsubscribeOk => "rtm/unsubscribe/ok"
    case UnsubscribeFailed => "rtm/unsubscribe/error"
  }

  /** A reply's action and id are read back as sent. */
  lemma ReplyFields(action: Octets, n: nat)
    ensures J.Find(Reply(action, n).members, "action") == Some(JString(action))
    ensures IdOf(Reply(action, n).members) == Id(n)
  {
    var ms := Reply(action, n).members;
    assert J.Find([Member("id", JUnsigned(n))], "id") == Some(JUnsigned(n));
    assert ms[1..] == [Member("id", JUnsigned(n))];
    assert J.Find(ms, "id") == Some(JUnsigned(n));
  }

  /** A response is classified by its action, with its id. */
  lemma ReplyClassified(answer: Answer, n: nat)
    ensures Classify(Reply(ActionOf(answer), n)) == Response(answer, Id(n))
    ensures forall t :: Process(t, Reply(ActionOf(answer), n)) == Answered(t, answer, n)
  {
    ReplyFields(ActionOf(answer), n);
  }

  /** The status an entry must have for a response of each kind. */
  function Awaiting(answer: Answer): (st: Status)
    ensures st != Current
  {
    if answer == SubscribeOk || answer == SubscribeFailed then PendingSubscribe else PendingUnsubscribe
  }

  /** The error a response of each kind reports. */
  function Reported(answer: Answer): (es: seq<ClientError>)
    ensures |es| <= 1
  {
    match answer
    case SubscribeFailed => [SubscribeError]
    case UnsubscribeFailed => [UnsubscribeError]
    case _ => []
  }

  /**
   * A response for the request an entry awaits reaches exactly that entry:
   * in the awaited state, a confirmed subscribe makes it current and idle,
   * and any other response removes it and reports the failure, if one; every
   * other channel is as before. In any other state the process ends.
   */
  lemma ResponseReachesEntry(t: Tables, answer: Answer, key: Octets, k: Octets)
    requires Inv(t)
    requires RtmTable.Find(t.subscriptions, key).Some?
    requires RtmTable.Find(t.subscriptions, key).value.pendingRequestId != NoRequest
    ensures var s := RtmTable.Find(t.subscriptions, key).value;
      var r := Process(t, Reply(ActionOf(answer), s.pendingRequestId));
      if s.status != Awaiting(answer) then r == Aborted
      else
        r.Continue? && r.t.state == t.state && r.t.requestId == t.requestId &&
        r.t.publishTimes == t.publishTimes && r.t.sent == t.sent && r.t.delivered == t.delivered &&
        r.t.errors == t.errors + Reported(answer) &&
        RtmTable.Find(r.t.subscriptions, k) ==
          if k != key then RtmTable.Find(t.subscriptions, k)
          else if answer == SubscribeOk then Some(s.(pendingRequestId := NoRequest, status := Current))
          else None
  {
    var i :| 0 <= i < |t.subscriptions| && t.subscriptions[i].key == key;
    assert RtmTable.Find(t.subscriptions, key) == Some(t.subscriptions[i].value) by {
      RtmTable.FindAt(t.subscriptions, i);
    }
    var n := t.subscriptions[i].value.pendingRequestId;
    assert FirstPending(t.subscriptions, n) == i by {
      PendingFound(t.subscriptions, i);
    }
    assert Process(t, Reply(ActionOf(answer), n)) == Answered(t, answer, n) by {
      ReplyClassified(answer, n);
    }
    AnsweredAt(t, answer, i, k);
  }

  /** `Answered` for the id the entry at `i` awaits, when that entry is the first to await it. */
  lemma AnsweredAt(t: Tables, answer: Answer, i: nat, k: Octets)
    requires RtmTable.Sorted(t.subscriptions) && i < |t.subscriptions|
    requires FirstPending(t.subscriptions, t.subscriptions[i].value.pendingRequestId) == i
    ensures var s := t.subscriptions[i].value;
      var r := Answered(t, answer, s.pendingRequestId);
      if s.status != Awaiting(answer) then r == Aborted
      else
        r.Continue? && r.t.state == t.state && r.t.requestId == t.requestId &&
        r.t.publishTimes == t.publishTimes && r.t.sent == t.sent && r.t.delivered == t.delivered &&
        r.t.errors == t.errors + Reported(answer) &&
        RtmTable.Find(r.t.subscriptions, k) ==
          if k != t.subscriptions[i].key then RtmTable.Find(t.subscriptions, k)
          else if answer == SubscribeOk then Some(s.(pendingRequestId := NoRequest, status := Current))
          else None
  {
    var s := t.subscriptions[i].value;
    if s.status == Awaiting(answer) {
      if answer == SubscribeOk {
        RtmTable.UpdateAtFind(t.subscriptions, i, s.(pendingRequestId := NoRequest, status := Current), k);
      } else {
        RtmTable.RemoveAtFind(t.subscriptions, i, k);
      }
    }
  }

  /** A response for a request no entry awaits ends the process. */
  lemma UnexpectedResponse(t: Tables, answer: Answer, n: nat)
    requires forall e :: e in t.subscriptions ==> e.value.pendingRequestId != n
    ensures Process(t, Reply(ActionOf(answer), n)) == Aborted
  {
    ReplyClassified(answer, n);
  }

  /**
   * A publish confirmation, good or failed, forgets exactly its id among
   * the publishes awaiting one, a failed one also reporting a publish
   * error; a confirmation for an id not awaited ends the process.
   */
  lemma PublishConfirmed(t: Tables, n: nat, failed: bool)
    ensures var r := Process(t, Reply(if failed then "rtm/publish/error" else "rtm/publish/ok", n));
      if n !in t.publishTimes then r == Aborted
      else r == Continue(t.(publishTimes := t.publishTimes - {n}, errors := t.errors + if failed then [PublishError] else []))
  {
    ReplyFields(if failed then "rtm/publish/error" else "rtm/publish/ok", n);
  }

  /** A publish followed by its confirmation leaves the awaited publishes as they were. */
  lemma PublishThenConfirm(t: Tables, channel: Octets, message: J.Json, now: int)
    requires Inv(t) && t.state == Running
    ensures var t1 := Publish(t, channel, message, now).t;
      Process(t1, Reply("rtm/publish/ok", t1.requestId)) == Continue(t1.(publishTimes := t.publishTimes))
  {
    var t1 := Publish(t, channel, message, now).t;
    PublishConfirmed(t1, t1.requestId, false);
    assert t1.publishTimes - {t1.requestId} == t.publishTimes;
  }

  /** A data PDU for subscription id `sid` with the given messages. */
  function DataPdu(sid: Octets, messages: seq<J.Json>): (j: J.Json)
    ensures j.JObject? && |j.members| == 2
  {
    JObject([
      Member("action", JString("rtm/subscription/data")),
      Member("body", JObject([Member("messages", JArray(messages)), Member("subscription_id", JString(sid))]))])
  }

  lemma DataPduClassified(sid: Octets, messages: seq<J.Json>)
    ensures Classify(DataPdu(sid, messages)) == Data(sid, Some(JArray(messages)))
  {
    var ms := DataPdu(sid, messages).members;
    var body := [Member("messages", JArray(messages)), Member("subscription_id", JString(sid))];
    assert ms[1..] == [Member("body", JObject(body))];
    assert J.Find(ms, "body") == Some(JObject(body));
    assert body[1..] == [Member("subscription_id", JString(sid))];
    assert J.Find(body, "subscription_id") == Some(JString(sid));
  }

  /**
   * Data for a current subscription is handed to its callback, each message
   * in order with the caller's subscription; for one being unsubscribed it
   * is dropped; for one still being subscribed, or an unknown one, the
   * process ends.
   */
  lemma DataDelivered(t: Tables, sid: Octets, messages: seq<J.Json>)
    ensures var r := Process(t, DataPdu(sid, messages));
      match RtmTable.Find(t.subscriptions, sid)
      case None => r == Aborted
      case Some(s) =>
        if s.status == Current then r == Continue(t.(delivered := t.delivered + Deliveries(s.sub, messages)))
        else if s.status == PendingUnsubscribe then r == Continue(t)
        else r == Aborted
  {
    DataPduClassified(sid, messages);
  }

  /** Only data for a current subscription reaches a data callback, whatever the PDU. */
  lemma OnlyCurrentDelivers(t: Tables, pdu: J.Json)
    requires Process(t, pdu).Continue? && Process(t, pdu).t.delivered != t.delivered
    ensures Classify(pdu).Data?
    ensures var s := RtmTable.Find(t.subscriptions, Classify(pdu).subscriptionId);
      s.Some? && s.value.status == Current &&
      exists ms :: Classify(pdu).messages == Some(JArray(ms)) &&
        Process(t, pdu).t.delivered == t.delivered + Deliveries(s.value.sub, ms)
  {
    var p := Classify(pdu);
    if p.Data? {
      var ms := p.messages.value.elements;
      assert p.messages == Some(JArray(ms));
    }
  }

  /**
   * Subscribing again to a channel already in the table writes a request
   * that no entry awaits, so the server's confirmation of it ends the
   * process.
   */
  lemma ResubscribeAbortsOnConfirmation(t: Tables, channel: Octets, sub: nat, age: Option<nat>, count: Option<nat>)
    requires Inv(t) && t.state == Running && t.requestId + 1 != NoRequest
    requires RtmTable.Find(t.subscriptions, channel).Some?
    ensures var t1 := Subscribe(t, channel, sub, age, count).t;
      Process(t1, Reply(ActionOf(SubscribeOk), t1.requestId)) == Aborted
  {
    var id := t.requestId + 1;
    var t1 := t.(requestId := id, sent := t.sent + [Sent(id, SubscribeRequest(id, channel, age, count))]);
    assert Subscribe(t, channel, sub, age, count).t == t1 by {
      SubscribePresent(t, channel, sub, age, count);
    }
    assert Process(t1, Reply(ActionOf(SubscribeOk), id)) == Aborted by {
      NoneAwaitsNext(t.subscriptions, t.requestId);
      UnexpectedResponse(t1, SubscribeOk, id);
    }
  }

  /** Subscribing to a channel already in the table only writes the request. */
  lemma SubscribePresent(t: Tables, channel: Octets, sub: nat, age: Option<nat>, count: Option<nat>)
    requires RtmTable.Sorted(t.subscriptions) && t.state == Running
    requires RtmTable.Find(t.subscriptions, channel).Some?
    ensures var id := t.requestId + 1;
      Subscribe(t, channel, sub, age, count)
        == Continue(t.(requestId := id, sent := t.sent + [Sent(id, SubscribeRequest(id, channel, age, count))]))
  {
    var id := t.requestId + 1;
    var v := Subscription(channel, sub, PendingSubscribe, id);
    assert RtmTable.Emplace(t.subscriptions, channel, v) == t.subscriptions by {
      var j :| 0 <= j < |t.subscriptions| && t.subscriptions[j].key == channel;
      EmplacePresent(t.subscriptions, channel, v, j);
    }
  }

  /** Entries good for the last request id await none of the ids after it. */
  lemma NoneAwaitsNext(es: seq<Entry>, requestId: nat)
    requires requestId + 1 != NoRequest
    requires forall e :: e in es ==> EntryOk(e, requestId)
    ensures forall e :: e in es ==> e.value.pendingRequestId != requestId + 1
  {
    forall e | e in es ensures e.value.pendingRequestId != requestId + 1 {
      assert EntryOk(e, requestId);
    }
  }

  /**
   * Unsubscribing marks the first entry in key order for the caller's
   * subscription as pending unsubscribe with the new request id, leaves
   * every other channel as it was, and names the entry's key in the
   * request; a subscription not in the table ends the process.
   */
  lemma UnsubscribeMarks(t: Tables, sub: nat, k: Octets)
    requires Inv(t) && t.state == Running
    ensures var r := Unsubscribe(t, sub);
      if forall e :: e in t.subscriptions ==> e.value.sub != sub then r == Aborted
      else
        var e := t.subscriptions[FirstOfSub(t.subscriptions, sub)];
        r.Continue? &&
        RtmTable.Find(r.t.subscriptions, k) ==
          (if k == e.key then Some(e.value.(pendingRequestId := r.t.requestId, status := PendingUnsubscribe))
           else RtmTable.Find(t.subscriptions, k)) &&
        r.t.sent[|t.sent|].document == UnsubscribeRequest(r.t.requestId, e.key)
  {
    var i := FirstOfSub(t.subscriptions, sub);
    if i < |t.subscriptions| {
      var e := t.subscriptions[i];
      var id := t.requestId + 1;
      var v := e.value.(pendingRequestId := id, status := PendingUnsubscribe);
      assert e in t.subscriptions;
      assert Unsubscribe(t, sub) == Continue(t.(
        requestId := id,
        subscriptions := UpdateAt(t.subscriptions, i, v),
        sent := t.sent + [Sent(id, UnsubscribeRequest(id, e.key))]));
      RtmTable.UpdateAtFind(t.subscriptions, i, v, k);
    } else {
      forall e | e in t.subscriptions ensures e.value.sub != sub {
      }
    }
  }

  /**
   * Stopping, then the cancelled read that follows, stops the client with
   * no subscriptions and no read outstanding; a cancelled read while
   * running ends the process.
   */
  lemma StopThenCancelledRead(t: Tables, timerCancelled: bool, closed: bool)
    requires t.state == Running
    ensures var t1 := Stop(t, timerCancelled, closed).t;
      ReadFailed(t1, true) == Continue(t.(state := Stopped, subscriptions := [], reading := false))
    ensures ReadFailed(t, true) == Aborted
  {
  }

  /** A message that does not parse is dropped, and no further read is asked for. */
  lemma BadMessageStopsReading(t: Tables)
    ensures OnMessage(t, None) == Continue(t.(reading := false))
  {
  }

  lemma {:induction false} FirstPendingIs(es: seq<Entry>, id: nat, i: nat)
    requires i <= |es| && (i < |es| ==> es[i].value.pendingRequestId == id)
    requires forall j :: 0 <= j < i ==> es[j].value.pendingRequestId != id
    ensures FirstPending(es, id) == i
  {
    if es != [] && i > 0 {
      FirstPendingIs(es[1..], id, i - 1);
    }
  }

  lemma {:induction false} FirstOfSubIs(es: seq<Entry>, sub: nat, i: nat)
    requires i <= |es| && (i < |es| ==> es[i].value.sub == sub)
    requires forall j :: 0 <= j < i ==> es[j].value.sub != sub
    ensures FirstOfSub(es, sub) == i
  {
    if es != [] && i > 0 {
      FirstOfSubIs(es[1..], sub, i - 1);
    }
  }

  /** How handling an event ended: the client goes on, the process ends, or a conversion not modelled was met. */
  datatype Verdict = Ran | Ended | Unmodelled

  /** The verdict of a step. */
  function VerdictOf(r: Next): (v: Verdict)
    ensures (v == Ran) == r.Continue? && (v == Ended) == r.Aborted?
  {
    match r
    case Continue(_) => Ran
    case Aborted => Ended
    case NotModelled => Unmodelled
  }
}
