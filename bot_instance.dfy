/**
 * A bot's message buffer: messages the bot queues are stamped with the
 * frame ids ("i") and the bot id ("from") and handed to the environment in
 * one batch after each frame or addressed control message. Control
 * messages are CBOR items: arrays are processed element by element, and
 * only maps whose "to" names this bot reach the bot's control callback.
 */
module BotInstance {
  import opened Octets
  import opened Wrappers
  import opened Cbor
  import Data

  /** `bot_message_kind`. */
  datatype MessageKind = Analysis | Debug | Control

  /** `bot_message`: a map payload (its entries), its kind and the frame
    * ids it refers to; {0, 0} stands for the current frame. */
  datatype BotMessage = BotMessage(data: seq<Entry>, kind: MessageKind, id: Data.FrameId)

  /** `MAX_IMAGE_PLANES`. */
  const MaxImagePlanes: nat := 4

  /** `image_metadata`: the frame size the bot last saw. */
  datatype ImageMetadata = ImageMetadata(width: int, height: int, strides: seq<int>)

  /** The parts of `owned_image_frame` the instance reads. */
  datatype ImageFrame = ImageFrame(id: Data.FrameId, width: int, height: int, strides: seq<int>)

  function Text(s: Octets): Item
  {
    Str(TextString, s)
  }

  /** The value stored under the first entry whose key is the text `key`. */
  function Lookup(entries: seq<Entry>, key: Octets): (r: Option<Item>)
    ensures r.None? <==> forall k :: 0 <= k < |entries| ==> entries[k].key != Text(key)
    ensures r.Some? ==> exists k :: 0 <= k < |entries| && entries[k] == Entry(Text(key), r.value)
  {
    if entries == [] then None
    else if entries[0].key == Text(key) then Some(entries[0].value)
    else
      var r := Lookup(entries[1..], key);
      assert forall k :: 0 < k < |entries| ==> entries[k] == entries[1..][k - 1];
      r
  }

  lemma LookupAppend(a: seq<Entry>, b: seq<Entry>, key: Octets)
    requires Lookup(a, key).None?
    ensures Lookup(a + b, key) == Lookup(b, key)
  {
    if a != [] {
      assert a[0].key != Text(key);
      assert forall k :: 0 <= k < |a[1..]| ==> a[1..][k] == a[k + 1];
      assert (a + b)[0] == a[0] && (a + b)[1..] == a[1..] + b;
      assert Lookup(a + b, key) == Lookup(a[1..] + b, key);
      LookupAppend(a[1..], b, key);
    } else {
      assert a + b == b;
    }
  }

  /** `static_cast<uint64_t>` of a signed 64-bit id. */
  function Uint64(x: int): (r: nat)
    ensures r < Uint64Bound
    ensures 0 <= x < Uint64Bound ==> r == x
    ensures -(Uint64Bound as int) <= x < 0 ==> r == x + Uint64Bound
  {
    x % Uint64Bound
  }

  /** The first id: the message's own unless it is 0, then the frame's. */
  function EffectiveI1(msg: Data.FrameId, current: Data.FrameId): int
  {
    if msg.i1 == 0 then current.i1 else msg.i1
  }

  /** The second id: the message's own unless it is 0, then the frame's
    * FIRST id. */
  function EffectiveI2(msg: Data.FrameId, current: Data.FrameId): int
  {
    if msg.i2 == 0 then current.i1 else msg.i2
  }

  /** The ids stamped on a message: `[ei1, ei2]` as unsigned 64-bit items. */
  function IdsItem(msg: Data.FrameId, current: Data.FrameId): Item
  {
    Array([UInt(W64, Uint64(EffectiveI1(msg, current))), UInt(W64, Uint64(EffectiveI2(msg, current)))], true)
  }

  /** A payload as it leaves: "i" appended when the first id is not
    * negative, then "from" when the bot has an id. */
  function Stamp(data: seq<Entry>, msg: Data.FrameId, current: Data.FrameId, botId: Octets): (r: seq<Entry>)
    ensures |r| == |data| + (if EffectiveI1(msg, current) >= 0 then 1 else 0) + (if |botId| > 0 then 1 else 0)
    ensures r[..|data|] == data
  {
    data
    + (if EffectiveI1(msg, current) >= 0 then [Entry(Text("i"), IdsItem(msg, current))] else [])
    + (if |botId| > 0 then [Entry(Text("from"), Text(botId))] else [])
  }

  /** A stamped message keeps its kind and id and carries the ids and the
    * sender exactly under the stated conditions. */
  lemma StampedFields(data: seq<Entry>, msg: Data.FrameId, current: Data.FrameId, botId: Octets)
    requires Lookup(data, "i").None? && Lookup(data, "from").None?
    ensures var r := Stamp(data, msg, current, botId);
      && (Lookup(r, "i").Some? <==> EffectiveI1(msg, current) >= 0)
      && (EffectiveI1(msg, current) >= 0 ==> Lookup(r, "i") == Some(IdsItem(msg, current)))
      && (Lookup(r, "from").Some? <==> |botId| > 0)
      && (|botId| > 0 ==> Lookup(r, "from") == Some(Text(botId)))
  {
    var idPart := if EffectiveI1(msg, current) >= 0 then [Entry(Text("i"), IdsItem(msg, current))] else [];
    var fromPart := if |botId| > 0 then [Entry(Text("from"), Text(botId))] else [];
    assert Stamp(data, msg, current, botId) == data + (idPart + fromPart);
    LookupAppend(data, idPart + fromPart, "i");
    LookupAppend(data, idPart + fromPart, "from");
    assert Text("i") != Text("from");
    if idPart == [] {
      assert idPart + fromPart == fromPart;
    } else {
      assert (idPart + fromPart)[1..] == fromPart;
    }
  }

  /** The second id falls back to the frame's first id, which is the
    * frame's second id too for the single frames the image callback sees. */
  lemma SecondIdFallback(msg: Data.FrameId, current: Data.FrameId)
    requires msg.i2 == 0
    ensures EffectiveI2(msg, current) == current.i1
    ensures current.i1 == current.i2 ==> EffectiveI2(msg, current) == current.i2
  {
  }

  /** A message with its own first id but no second one, flushed by a
    * control message (frame id {-1, -1}), carries 2^64 - 1 as second id. */
  lemma ControlFlushWrapsSecondId()
    ensures IdsItem(Data.FrameId(7, 0), Data.NoFrame)
      == Array([UInt(W64, 7), UInt(W64, 0xffff_ffff_ffff_ffff)], true)
  {
  }

  function StampOne(m: BotMessage, current: Data.FrameId, botId: Octets): BotMessage
  {
    BotMessage(Stamp(m.data, m.id, current, botId), m.kind, m.id)
  }

  /** The batch handed to the environment: every buffered message stamped, in order. */
  function StampAll(buffer: seq<BotMessage>, current: Data.FrameId, botId: Octets): (r: seq<BotMessage>)
    ensures |r| == |buffer|
    ensures forall k :: 0 <= k < |buffer| ==> r[k] == StampOne(buffer[k], current, botId)
  {
    if buffer == [] then []
    else StampAll(buffer[..|buffer| - 1], current, botId) + [StampOne(buffer[|buffer| - 1], current, botId)]
  }

  /** The message buffer and the batches sent so far. */
  datatype Outbox = Outbox(buffer: seq<BotMessage>, sent: seq<seq<BotMessage>>)

  /** `send_messages(id)`: the stamped buffer goes out as one batch and the buffer empties. */
  function Send(o: Outbox, current: Data.FrameId, botId: Octets): (r: Outbox)
    ensures r.buffer == [] && |r.sent| == |o.sent| + 1 && r.sent[..|o.sent|] == o.sent
  {
    Outbox([], o.sent + [StampAll(o.buffer, current, botId)])
  }

  /** Whether a control map is for this bot: the bot has an id and the
    * map's "to" is that id as a text string. */
  predicate Addressed(entries: seq<Entry>, botId: Octets)
  {
    |botId| > 0 && Lookup(entries, "to") == Some(Text(botId))
  }

  /** The response with the request's "request_id" appended, if it has one. */
  function WithRequestId(response: seq<Entry>, request: seq<Entry>): seq<Entry>
  {
    match Lookup(request, "request_id")
    case Some(v) => response + [Entry(Text("request_id"), v)]
    case None => response
  }

  /** An addressed control map: the callback's response, if any, is queued
    * as CONTROL with id {0, 0}; then the buffer is sent with id {-1, -1}. */
  function Answer(o: Outbox, entries: seq<Entry>, response: Option<seq<Entry>>, botId: Octets): (r: Outbox)
    ensures r.buffer == [] && |r.sent| == |o.sent| + 1 && r.sent[..|o.sent|] == o.sent
    ensures |r.sent[|o.sent|]| == |o.buffer| + (if response.Some? then 1 else 0)
  {
    var queued := match response
      case Some(resp) => o.buffer + [BotMessage(WithRequestId(resp, entries), Control, Data.FrameId(0, 0))]
      case None => o.buffer;
    Send(Outbox(queued, o.sent), Data.NoFrame, botId)
  }

  /** The effect of one control item; `respond` stands for the bot's
    * control callback (None for a null response). */
  function ControlEffect(o: Outbox, msg: Item, respond: Item -> Option<seq<Entry>>, botId: Octets): (r: Outbox)
    ensures r == o || r.buffer == []
    decreases msg, 1
  {
    match msg
    case Array(items, _) => ControlEffects(o, items, respond, botId)
    case Map(entries, _) =>
      if Addressed(entries, botId) then Answer(o, entries, respond(msg), botId) else o
    case _ => o
  }

  /** Control items processed in order. */
  function ControlEffects(o: Outbox, items: seq<Item>, respond: Item -> Option<seq<Entry>>, botId: Octets): (r: Outbox)
    ensures r == o || r.buffer == []
    decreases items, 0
  {
    if items == [] then o
    else ControlEffect(ControlEffects(o, items[..|items| - 1], respond, botId), items[|items| - 1], respond, botId)
  }

  /** The addressed maps in a control item, arrays flattened. */
  function AddressedCount(msg: Item, botId: Octets): nat
    decreases msg, 1
  {
    match msg
    case Array(items, _) => AddressedCountAll(items, botId)
    case Map(entries, _) => if Addressed(entries, botId) then 1 else 0
    case _ => 0
  }

  function AddressedCountAll(items: seq<Item>, botId: Octets): nat
    decreases items, 0
  {
    if items == [] then 0
    else AddressedCountAll(items[..|items| - 1], botId) + AddressedCount(items[|items| - 1], botId)
  }

  /** Every addressed map sends exactly one batch, and nothing else does;
    * batches already sent are kept. */
  lemma {:induction false} ControlSendsPerAddressed(o: Outbox, msg: Item, respond: Item -> Option<seq<Entry>>, botId: Octets)
    ensures var r := ControlEffect(o, msg, respond, botId);
      |r.sent| == |o.sent| + AddressedCount(msg, botId) && r.sent[..|o.sent|] == o.sent
    decreases msg, 1
  {
    match msg
    case Array(items, _) => ControlSendsPerAddressedAll(o, items, respond, botId);
    case _ =>
  }

  lemma {:induction false} ControlSendsPerAddressedAll(o: Outbox, items: seq<Item>, respond: Item -> Option<seq<Entry>>, botId: Octets)
    ensures var r := ControlEffects(o, items, respond, botId);
      |r.sent| == |o.sent| + AddressedCountAll(items, botId) && r.sent[..|o.sent|] == o.sent
    decreases items, 0
  {
    if items != [] {
      var mid := ControlEffects(o, items[..|items| - 1], respond, botId);
      ControlSendsPerAddressedAll(o, items[..|items| - 1], respond, botId);
      ControlSendsPerAddressed(mid, items[|items| - 1], respond, botId);
      assert mid.sent[..|o.sent|] == o.sent;
    }
  }

  /** A bot without an id ignores every control message. */
  lemma {:induction false} NoIdIgnoresControl(o: Outbox, msg: Item, respond: Item -> Option<seq<Entry>>)
    ensures ControlEffect(o, msg, respond, []) == o
    decreases msg, 1
  {
    match msg
    case Array(items, _) => NoIdIgnoresControlAll(o, items, respond);
    case _ =>
  }

  lemma {:induction false} NoIdIgnoresControlAll(o: Outbox, items: seq<Item>, respond: Item -> Option<seq<Entry>>)
    ensures ControlEffects(o, items, respond, []) == o
    decreases items, 0
  {
    if items != [] {
      NoIdIgnoresControlAll(o, items[..|items| - 1], respond);
      NoIdIgnoresControl(o, items[|items| - 1], respond);
    }
  }

  /** A response to an addressed request goes out last in the batch, as
    * CONTROL with id {0, 0}, carrying the request's request_id and the
    * bot's id but no "i" (the flush id -1 is negative). */
  lemma ControlResponseSent(o: Outbox, entries: seq<Entry>, definite: bool, respond: Item -> Option<seq<Entry>>,
                            botId: Octets, requestId: Item)
    requires Addressed(entries, botId)
    requires respond(Map(entries, definite)).Some?
    requires Lookup(entries, "request_id") == Some(requestId)
    ensures var r := ControlEffect(o, Map(entries, definite), respond, botId);
      var batch := r.sent[|r.sent| - 1];
      && r.buffer == []
      && |batch| == |o.buffer| + 1
      && batch[|batch| - 1] == BotMessage(
           respond(Map(entries, definite)).value
             + [Entry(Text("request_id"), requestId), Entry(Text("from"), Text(botId))],
           Control, Data.FrameId(0, 0))
  {
    var resp := respond(Map(entries, definite)).value;
    var m := BotMessage(WithRequestId(resp, entries), Control, Data.FrameId(0, 0));
    var queued := o.buffer + [m];
    var r := ControlEffect(o, Map(entries, definite), respond, botId);
    assert r == Send(Outbox(queued, o.sent), Data.NoFrame, botId);
    assert r.sent[|r.sent| - 1] == StampAll(queued, Data.NoFrame, botId);
    StampedResponse(resp, requestId, botId);
  }

  /** The stamp a flushed response gets: the sender, and no "i". */
  lemma StampedResponse(resp: seq<Entry>, requestId: Item, botId: Octets)
    requires |botId| > 0
    ensures Stamp(resp + [Entry(Text("request_id"), requestId)], Data.FrameId(0, 0), Data.NoFrame, botId)
      == resp + [Entry(Text("request_id"), requestId), Entry(Text("from"), Text(botId))]
  {
  }

  /** `_image_metadata` after a frame: replaced only when the width changed. */
  function NextMetadata(md: ImageMetadata, frame: ImageFrame): (r: ImageMetadata)
    ensures r.width == frame.width
    ensures frame.width == md.width ==> r == md
    ensures frame.width != md.width ==> r.height == frame.height && r.strides == frame.strides
  {
    if frame.width != md.width then ImageMetadata(frame.width, frame.height, frame.strides) else md
  }

  /** A frame that changes only the height leaves the recorded size as it was. */
  lemma HeightOnlyChangeIgnored(md: ImageMetadata, frame: ImageFrame)
    requires frame.width == md.width && frame.height != md.height
    ensures NextMetadata(md, frame).height != frame.height
  {
  }

  /** A message queued through `bot_message` from the image callback. */
  datatype Queued = Queued(kind: MessageKind, data: seq<Entry>, id: Data.FrameId)

  function Messages(calls: seq<Queued>): (r: seq<BotMessage>)
    ensures |r| == |calls|
    ensures forall k :: 0 <= k < |calls| ==> r[k] == BotMessage(calls[k].data, calls[k].kind, calls[k].id)
  {
    if calls == [] then [] else Messages(calls[..|calls| - 1]) + [BotMessage(calls[|calls| - 1].data, calls[|calls| - 1].kind, calls[|calls| - 1].id)]
  }

  class Bot {
    const botId: Octets
    var buffer: seq<BotMessage>
    var sent: seq<seq<BotMessage>>
    var metadata: ImageMetadata

    constructor (id: Octets)
      ensures botId == id && buffer == [] && sent == []
      ensures metadata == ImageMetadata(0, 0, [0, 0, 0, 0])
    {
      botId := id;
      buffer := [];
      sent := [];
      metadata := ImageMetadata(0, 0, [0, 0, 0, 0]);
    }

    /** `queue_message`: one message appended with the given kind and id. */
    method QueueMessage(kind: MessageKind, data: seq<Entry>, id: Data.FrameId)
      modifies this
      ensures buffer == old(buffer) + [BotMessage(data, kind, id)]
      ensures sent == old(sent) && metadata == old(metadata)
    {
      buffer := buffer + [BotMessage(data, kind, id)];
    }

    /** `send_messages`: stamps each buffered message in turn and hands the
      * buffer to the environment, leaving it empty. */
    method SendMessages(current: Data.FrameId)
      modifies this
      ensures Outbox(buffer, sent) == Send(Outbox(old(buffer), old(sent)), current, botId)
      ensures metadata == old(metadata)
    {
      var batch: seq<BotMessage> := [];
      var i := 0;
      while i < |buffer|
        invariant 0 <= i <= |buffer|
        invariant batch == StampAll(buffer[..i], current, botId)
      {
        assert buffer[..i + 1][..i] == buffer[..i];
        batch := batch + [StampOne(buffer[i], current, botId)];
        i := i + 1;
      }
      assert buffer[..i] == buffer;
      sent := sent + [batch];
      buffer := [];
    }

    /** The image-frame visitor: records a new size when the width changed,
      * lets the bot's image callback queue its messages (`calls`), then
      * sends the buffer stamped with the frame's id. */
    method ProcessFrame(frame: ImageFrame, calls: seq<Queued>)
      requires |frame.strides| == MaxImagePlanes
      modifies this
      ensures metadata == NextMetadata(old(metadata), frame)
      ensures Outbox(buffer, sent) == Send(Outbox(old(buffer) + Messages(calls), old(sent)), frame.id, botId)
    {
      if frame.width != metadata.width {
        metadata := ImageMetadata(frame.width, frame.height, frame.strides);
      }
      var i := 0;
      while i < |calls|
        invariant 0 <= i <= |calls|
        invariant buffer == old(buffer) + Messages(calls[..i])
        invariant sent == old(sent) && metadata == NextMetadata(old(metadata), frame)
      {
        assert calls[..i + 1][..i] == calls[..i];
        QueueMessage(calls[i].kind, calls[i].data, calls[i].id);
        i := i + 1;
      }
      assert calls[..i] == calls;
      SendMessages(frame.id);
    }

    /** The control-message visitor: arrays element by element; maps
      * addressed to this bot are answered through `respond` and flush the
      * buffer; anything else is ignored. */
    method ProcessControl(msg: Item, respond: Item -> Option<seq<Entry>>)
      modifies this
      ensures Outbox(buffer, sent) == ControlEffect(Outbox(old(buffer), old(sent)), msg, respond, botId)
      ensures metadata == old(metadata)
      decreases msg
    {
      match msg
      case Array(items, _) =>
        var i := 0;
        while i < |items|
          invariant 0 <= i <= |items|
          invariant Outbox(buffer, sent) == ControlEffects(Outbox(old(buffer), old(sent)), items[..i], respond, botId)
          invariant metadata == old(metadata)
        {
          assert items[..i + 1][..i] == items[..i];
          ProcessControl(items[i], respond);
          i := i + 1;
        }
        assert items[..i] == items;
      case Map(entries, _) =>
        if |botId| == 0 || Lookup(entries, "to") != Some(Text(botId)) {
          return;
        }
        var response := respond(msg);
        if response.Some? {
          QueueMessage(Control, WithRequestId(response.value, entries), Data.FrameId(0, 0));
        }
        SendMessages(Data.NoFrame);
      case _ =>
    }
  }
}
