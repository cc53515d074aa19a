/**
 * `secure_client` as an object whose fields its methods update in place,
 * each method proved to take the client's tables where the corresponding
 * step of `RtmClient` does.
 */
module RtmSecureClient {
  import opened Octets
  import opened Wrappers
  import J = Json
  import opened RtmTable
  import opened RtmClient

  /** `secure_client`: its state as fields the methods update in place. */
  class SecureClient {
    var state: ClientState
    var requestId: nat
    var subscriptions: seq<Entry>
    var publishTimes: map<nat, int>
    var sent: seq<Sent>
    var errors: seq<ClientError>
    var delivered: seq<(nat, J.Json)>
    var reading: bool

    function Snapshot(): (t: Tables)
      reads this
      ensures t.subscriptions == subscriptions && t.state == state
    {
      RtmClient.Tables(state, requestId, subscriptions, publishTimes, sent, errors, delivered, reading)
    }

    constructor()
      ensures Snapshot() == Fresh
    {
      state, requestId, subscriptions, publishTimes := Stopped, 0, [], map[];
      sent, errors, delivered, reading := [], [], [], false;
    }

    method Start(connected: bool) returns (error: Option<ClientError>)
      requires state == Stopped
      modifies this
      ensures RtmClient.Start(old(Snapshot()), connected) == Returned(Snapshot(), error)
    {
      if !connected {
        return Some(AsioError);
      }
      state, reading := Running, true;
      error := None;
    }

    method Stop(timerCancelled: bool, closed: bool) returns (error: Option<ClientError>)
      requires state == Running
      modifies this
      ensures RtmClient.Stop(old(Snapshot()), timerCancelled, closed) == Returned(Snapshot(), error)
    {
      state := PendingStopped;
      if !timerCancelled || !closed {
        return Some(AsioError);
      }
      error := None;
    }

    method Publish(channel: Octets, message: J.Json, now: int)
      requires state != Stopped
      modifies this
      ensures RtmClient.Publish(old(Snapshot()), channel, message, now) == Continue(Snapshot())
    {
      if state == PendingStopped {
        return;
      }
      requestId := requestId + 1;
      sent := sent + [Sent(requestId, PublishRequest(requestId, channel, message))];
      if requestId !in publishTimes {
        publishTimes := publishTimes[requestId := now];
      }
    }

    method Subscribe(channel: Octets, sub: nat, age: Option<nat>, count: Option<nat>)
      requires state != Stopped
      modifies this
      ensures RtmClient.Subscribe(old(Snapshot()), channel, sub, age, count) == Continue(Snapshot())
    {
      if state == PendingStopped {
        return;
      }
      requestId := requestId + 1;
      subscriptions := RtmTable.Emplace(subscriptions, channel, Subscription(channel, sub, PendingSubscribe, requestId));
      sent := sent + [Sent(requestId, SubscribeRequest(requestId, channel, age, count))];
    }

    /** The first entry in key order for the caller's subscription, by walking the table. */
    method FindSub(sub: nat) returns (i: nat)
      ensures i == FirstOfSub(subscriptions, sub)
    {
      i := 0;
      while i < |subscriptions| && subscriptions[i].value.sub != sub
        invariant i <= |subscriptions|
        invariant forall j :: 0 <= j < i ==> subscriptions[j].value.sub != sub
      {
        i := i + 1;
      }
      FirstOfSubIs(subscriptions, sub, i);
    }

    /** The first entry in key order awaiting request `id`, by walking the table. */
    method FindPending(id: nat) returns (i: nat)
      ensures i == FirstPending(subscriptions, id)
    {
      i := 0;
      while i < |subscriptions| && subscriptions[i].value.pendingRequestId != id
        invariant i <= |subscriptions|
        invariant forall j :: 0 <= j < i ==> subscriptions[j].value.pendingRequestId != id
      {
        i := i + 1;
      }
      FirstPendingIs(subscriptions, id, i);
    }

    method Unsubscribe(sub: nat) returns (verdict: Verdict)
      requires state != Stopped
      modifies this
      ensures var r := RtmClient.Unsubscribe(old(Snapshot()), sub);
        verdict == VerdictOf(r) && (r.Continue? ==> Snapshot() == r.t)
    {
      if state == PendingStopped {
        return Ran;
      }
      var i := FindSub(sub);
      if i == |subscriptions| {
        return Ended;
      }
      requestId := requestId + 1;
      var e := subscriptions[i];
      sent := sent + [Sent(requestId, UnsubscribeRequest(requestId, e.key))];
      subscriptions := UpdateAt(subscriptions, i, e.value.(pendingRequestId := requestId, status := PendingUnsubscribe));
      verdict := Ran;
    }

    method ReadFailed(cancelled: bool) returns (verdict: Verdict)
      modifies this
      ensures var r := RtmClient.ReadFailed(old(Snapshot()), cancelled);
        verdict == VerdictOf(r) && (r.Continue? ==> Snapshot() == r.t)
    {
      if cancelled {
        if state != PendingStopped {
          return Ended;
        }
        state, subscriptions := Stopped, [];
      } else if state == Running {
        errors := errors + [AsioError];
      }
      reading := false;
      verdict := Ran;
    }

    /** A response for request `n`, handled by walking the table for the entry awaiting it. */
    method Respond(answer: Answer, n: nat) returns (verdict: Verdict)
      modifies this
      ensures var r := Answered(old(Snapshot()), answer, n);
        verdict == VerdictOf(r) && (r.Continue? ==> Snapshot() == r.t)
    {
      var i := FindPending(n);
      if i == |subscriptions| {
        return Ended;
      }
      var sub := subscriptions[i].value;
      if sub.status != Awaiting(answer) {
        return Ended;
      }
      if answer == SubscribeOk {
        subscriptions := UpdateAt(subscriptions, i, sub.(pendingRequestId := NoRequest, status := Current));
      } else {
        errors := errors + Reported(answer);
        subscriptions := RemoveAt(subscriptions, i);
      }
      verdict := Ran;
    }

    /** A message read from the socket, `None` when it does not parse. */
    method Receive(parsed: Option<J.Json>) returns (verdict: Verdict)
      modifies this
      ensures var r := OnMessage(old(Snapshot()), parsed);
        verdict == VerdictOf(r) && (r.Continue? ==> Snapshot() == r.t)
    {
      if parsed.None? {
        reading := false;
        return Ran;
      }
      var p := Classify(parsed.value);
      match p {
        case Malformed =>
          verdict := Ended;
        case Data(sid, messages) =>
          var found := RtmTable.Find(subscriptions, sid);
          if found.None? || found.value.status == PendingSubscribe {
            return Ended;
          }
          if found.value.status == PendingUnsubscribe {
            return Ran;
          }
          if messages.None? || !messages.value.JArray? {
            return Ended;
          }
          delivered := delivered + Deliveries(found.value.sub, messages.value.elements);
          verdict := Ran;
        case SubscriptionFailed =>
          errors := errors + [SubscriptionError];
          verdict := Ran;
        case PublishConfirmation(id, failed) =>
          if id.IdNotModelled? {
            return Unmodelled;
          }
          if !id.Id? || id.n !in publishTimes {
            return Ended;
          }
          publishTimes := publishTimes - {id.n};
          if failed {
            errors := errors + [PublishError];
          }
          verdict := Ran;
        case Response(answer, id) =>
          if id.IdNotModelled? {
            return Unmodelled;
          }
          if !id.Id? {
            return Ended;
          }
          verdict := Respond(answer, id.n);
      }
    }
  }
}
