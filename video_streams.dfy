/**
 * The packet visitor of `decode_network_stream` (src/video_streams.cpp):
 * metadata is decoded and passed on at once; frame chunks are collected in
 * order and the frame is decoded and passed on at its last chunk.
 */
module VideoStreams {
  import opened Octets
  import opened ErrorOr
  import opened Data
  import Base64

  /** The fields `_chunk`, `_id` and `_aggregated_data`. */
  datatype VisitorState = VisitorState(chunk: nat, id: FrameId, data: Octets)

  /** A fresh visitor: chunk 1 expected and nothing collected; `_id` is not initialised, so it is any id. */
  function Fresh(id: FrameId): (s: VisitorState)
    ensures s.chunk == 1 && s.data == []
  {
    VisitorState(1, id, [])
  }

  /** The state after a packet and the packets passed on. */
  datatype Step = Step(state: VisitorState, out: seq<EncodedPacket>)

  /**
   * One packet, with the chunk counter of width `w`. Metadata is decoded
   * and passed on, leaving the state alone. A chunk other than the expected
   * one resets the counter and the text (not the id) and passes nothing on.
   * Otherwise the text is appended, chunk 1 sets the id, and the last chunk
   * passes on the decoded frame with the time of that chunk and resets.
   */
  function VisitPacket(w: CounterWidth, s: VisitorState, p: NetworkPacket): (r: Step)
    ensures |r.out| <= 1
    ensures p.MetadataPacket? ==> r.state == s && |r.out| == 1
    ensures p.FramePacket? ==> (r.out != [] <==> s.chunk == p.frame.chunk && p.frame.chunk == p.frame.chunks)
    ensures p.FramePacket? && s.chunk != p.frame.chunk ==> r.state == VisitorState(1, s.id, [])
    ensures p.FramePacket? && s.chunk == p.frame.chunk && p.frame.chunk != p.frame.chunks ==>
      r.state.data == s.data + p.frame.base64Data
  {
    match p
    case MetadataPacket(nm) =>
      Step(s, [MetadataOut(EncodedMetadata(nm.codecName, Base64.Decode(nm.base64Data)))])
    case FramePacket(nf) =>
      if s.chunk != nf.chunk then Step(VisitorState(1, s.id, []), [])
      else
        var data := s.data + nf.base64Data;
        var id := if nf.chunk == 1 then nf.id else s.id;
        if nf.chunk == nf.chunks then
          Step(VisitorState(1, id, []), [FrameOut(EncodedFrame(Base64.Decode(data), id, nf.t))])
        else Step(VisitorState(Narrow(w, s.chunk + 1), id, data), [])
  }

  /** The packets `ps` one after the other, with everything passed on in order. */
  function Feed(w: CounterWidth, s: VisitorState, ps: seq<NetworkPacket>): (r: Step)
  {
    if ps == [] then Step(s, [])
    else
      var before := Feed(w, s, ps[..|ps| - 1]);
      var last := VisitPacket(w, before.state, ps[|ps| - 1]);
      Step(last.state, before.out + last.out)
  }

  /** Metadata passes through as exactly one packet, whatever chunks are being collected. */
  lemma MetadataPassesThrough(w: CounterWidth, s: VisitorState, nm: NetworkMetadata)
    ensures VisitPacket(w, s, MetadataPacket(nm)).state == s
    ensures |VisitPacket(w, s, MetadataPacket(nm)).out| == 1
    ensures VisitPacket(w, s, MetadataPacket(nm)).out[0].MetadataOut?
    ensures VisitPacket(w, s, MetadataPacket(nm)).out[0].metadata.codecName == nm.codecName
    ensures VisitPacket(w, s, MetadataPacket(nm)).out[0].metadata.codecData.Failure? <==>
      |nm.base64Data| % 4 == 1 || exists i :: 0 <= i < |nm.base64Data| && !Base64.Accepted(nm.base64Data[i])
  {
  }

  /** Metadata as the sender puts it on the network comes out with the codec data that was sent. */
  lemma MetadataReceived(w: CounterWidth, s: VisitorState, codecName: Octets, codecData: Octets)
    requires |codecData| < Base64.SizeMax / 4
    ensures VisitPacket(w, s, MetadataPacket(MetadataToNetwork(codecName, codecData)))
      == Step(s, [MetadataOut(EncodedMetadata(codecName, Value(codecData)))])
  {
    MetadataRoundTrip(codecName, codecData);
  }

  /** A chunk other than the expected one resets the collection and passes nothing on. */
  lemma MismatchResets(w: CounterWidth, s: VisitorState, nf: NetworkFrame)
    requires s.chunk != nf.chunk
    ensures VisitPacket(w, s, FramePacket(nf)) == Step(Fresh(s.id), [])
  {
  }

  /** After a frame is passed on, chunk 1 is expected and nothing is collected. */
  lemma ResetAfterEmission(w: CounterWidth, s: VisitorState, nf: NetworkFrame)
    requires VisitPacket(w, s, FramePacket(nf)).out != []
    ensures VisitPacket(w, s, FramePacket(nf)).state.chunk == 1
    ensures VisitPacket(w, s, FramePacket(nf)).state.data == []
    ensures nf.chunk == nf.chunks == s.chunk
  {
  }

  /** The chunks of one frame numbered 1 to `|fs|`; unlike the sender's, their ids need not agree. */
  predicate Consecutive(fs: seq<NetworkFrame>)
  {
    forall j :: 0 <= j < |fs| ==> fs[j].chunk == j + 1 && fs[j].chunks == |fs|
  }

  /** The chunks as packets. */
  function Packets(fs: seq<NetworkFrame>): (ps: seq<NetworkPacket>)
    ensures |ps| == |fs|
    ensures forall j :: 0 <= j < |fs| ==> ps[j] == FramePacket(fs[j])
  {
    if fs == [] then [] else Packets(fs[..|fs| - 1]) + [FramePacket(fs[|fs| - 1])]
  }

  lemma FeedPrefix(w: CounterWidth, s: VisitorState, fs: seq<NetworkFrame>, k: nat)
    requires k < |fs|
    ensures Feed(w, s, Packets(fs[..k + 1])).state == VisitPacket(w, Feed(w, s, Packets(fs[..k])).state, FramePacket(fs[k])).state
    ensures Feed(w, s, Packets(fs[..k + 1])).out
      == Feed(w, s, Packets(fs[..k])).out + VisitPacket(w, Feed(w, s, Packets(fs[..k])).state, FramePacket(fs[k])).out
  {
    var ps := Packets(fs[..k + 1]);
    assert ps[..k] == Packets(fs[..k]);
  }

  /** The state while a frame is collected, after its first `k` chunks. */
  function Collecting(w: CounterWidth, fs: seq<NetworkFrame>, k: nat): VisitorState
    requires 1 <= k <= |fs|
  {
    VisitorState(Narrow(w, k + 1), fs[0].id, Concat(Payloads(fs[..k])))
  }

  /** Chunk `k + 1` of a frame, after the chunks before it, when the counter held `k + 1`. */
  lemma NextChunk(w: CounterWidth, fs: seq<NetworkFrame>, k: nat, id: FrameId, data: Octets)
    requires Consecutive(fs) && 1 <= k < |fs|
    ensures var r := VisitPacket(w, VisitorState(k + 1, id, data), FramePacket(fs[k]));
      if k + 1 == |fs| then
        r == Step(VisitorState(1, id, []), [FrameOut(EncodedFrame(Base64.Decode(data + fs[k].base64Data), id, fs[k].t))])
      else r == Step(VisitorState(Narrow(w, k + 2), id, data + fs[k].base64Data), [])
  {
  }

  /** Chunk 1 of a frame, at a visitor expecting chunk 1 with nothing collected. */
  lemma FirstChunk(w: CounterWidth, s: VisitorState, fs: seq<NetworkFrame>)
    requires Consecutive(fs) && 1 <= |fs| && s.chunk == 1 && s.data == []
    ensures var r := VisitPacket(w, s, FramePacket(fs[0]));
      if |fs| == 1 then
        r == Step(VisitorState(1, fs[0].id, []), [FrameOut(EncodedFrame(Base64.Decode(fs[0].base64Data), fs[0].id, fs[0].t))])
      else r == Step(VisitorState(Narrow(w, 2), fs[0].id, fs[0].base64Data), [])
  {
    assert s.data + fs[0].base64Data == fs[0].base64Data;
  }

  /** No packet leaves a visitor's state alone and passes nothing on. */
  lemma FeedNothing(w: CounterWidth, s: VisitorState, fs: seq<NetworkFrame>)
    ensures Feed(w, s, Packets(fs[..0])) == Step(s, [])
  {
    assert fs[..0] == [];
  }

  /** The frame passed on for the chunks `fs`: the decoded join of their text, with the id of chunk 1 and the time of the last chunk. */
  function Reassembled(fs: seq<NetworkFrame>): (p: EncodedPacket)
    requires |fs| > 0
    ensures p.FrameOut? && p.frame.id == fs[0].id && p.frame.t == fs[|fs| - 1].t
  {
    FrameOut(EncodedFrame(Base64.Decode(Concat(Payloads(fs))), fs[0].id, fs[|fs| - 1].t))
  }

  /** What the visitor holds or has passed on after the first `k` chunks of a frame in order. */
  function AfterChunks(w: CounterWidth, fs: seq<NetworkFrame>, k: nat): Step
    requires 1 <= k <= |fs|
  {
    if k == |fs| then Step(Fresh(fs[0].id), [Reassembled(fs)]) else Step(Collecting(w, fs, k), [])
  }

  lemma Start(w: CounterWidth, s: VisitorState, fs: seq<NetworkFrame>)
    requires Consecutive(fs) && 1 <= |fs| && s.chunk == 1 && s.data == []
    ensures Feed(w, s, Packets(fs[..1])) == AfterChunks(w, fs, 1)
  {
    FeedPrefix(w, s, fs, 0);
    FeedNothing(w, s, fs);
    FirstChunk(w, s, fs);
    ConcatPayloadsFirst(fs);
    var r := VisitPacket(w, s, FramePacket(fs[0]));
    assert Feed(w, s, Packets(fs[..1])) == Step(r.state, [] + r.out);
    if |fs| == 1 {
      assert fs[..1] == fs;
      assert r == Step(Fresh(fs[0].id), [Reassembled(fs)]);
    } else {
      assert r == Step(Collecting(w, fs, 1), []);
    }
  }

  lemma Advance(w: CounterWidth, s: VisitorState, fs: seq<NetworkFrame>, k: nat)
    requires Consecutive(fs) && 1 <= k < |fs|
    requires w == Unbounded || k + 1 < 256
    requires Feed(w, s, Packets(fs[..k])) == Step(Collecting(w, fs, k), [])
    ensures Feed(w, s, Packets(fs[..k + 1])) == AfterChunks(w, fs, k + 1)
  {
    FeedPrefix(w, s, fs, k);
    NarrowSmall(w, k + 1);
    NextChunk(w, fs, k, fs[0].id, Concat(Payloads(fs[..k])));
    ConcatPayloadsPrefix(fs, k);
    var r := VisitPacket(w, Collecting(w, fs, k), FramePacket(fs[k]));
    assert Feed(w, s, Packets(fs[..k + 1])) == Step(r.state, [] + r.out);
    if k + 1 == |fs| {
      assert fs[..k + 1] == fs;
      assert Concat(Payloads(fs[..k])) + fs[k].base64Data == Concat(Payloads(fs));
      assert r == Step(Fresh(fs[0].id), [Reassembled(fs)]);
    } else {
      assert r == Step(Collecting(w, fs, k + 1), []);
    }
  }

  /**
   * While the first `k < n` chunks of a frame of `n` chunks arrive in order
   * at a visitor expecting chunk 1, nothing is passed on, the text is
   * collected and the id is that of chunk 1. With an 8-bit counter this
   * holds only while the chunk numbers stay below 256.
   */
  lemma {:induction false} CollectsPrefix(w: CounterWidth, s: VisitorState, fs: seq<NetworkFrame>, k: nat)
    requires Consecutive(fs) && 1 <= k < |fs| && s.chunk == 1 && s.data == []
    requires w == Unbounded || k < 256
    ensures Feed(w, s, Packets(fs[..k])) == Step(Collecting(w, fs, k), [])
  {
    if k == 1 {
      Start(w, s, fs);
    } else {
      CollectsPrefix(w, s, fs, k - 1);
      Advance(w, s, fs, k - 1);
    }
  }

  /**
   * A whole frame, in order, makes exactly one frame go out, at the last
   * chunk; then chunk 1 is expected and nothing is collected. With an 8-bit
   * counter this holds for frames of fewer than 256 chunks.
   */
  lemma EmitsOnceAtLast(w: CounterWidth, s: VisitorState, fs: seq<NetworkFrame>)
    requires Consecutive(fs) && 1 <= |fs| && s.chunk == 1 && s.data == []
    requires w == Unbounded || |fs| < 256
    ensures Feed(w, s, Packets(fs)) == Step(Fresh(fs[0].id), [Reassembled(fs)])
  {
    var n := |fs|;
    assert fs[..n] == fs;
    if n == 1 {
      Start(w, s, fs);
    } else {
      CollectsPrefix(w, s, fs, n - 1);
      Advance(w, s, fs, n - 1);
    }
  }

  /**
   * As written, with the `uint8_t` counter: after chunk 255 of a frame of
   * 256 chunks the counter wraps to 0, so chunk 256 is a mismatch and the
   * frame is never passed on.
   */
  lemma NeverEmitsAsWritten(s: VisitorState, fs: seq<NetworkFrame>)
    requires Consecutive(fs) && |fs| == 256 && s.chunk == 1 && s.data == []
    ensures Feed(Uint8, s, Packets(fs)) == Step(Fresh(fs[0].id), [])
  {
    FeedPrefix(Uint8, s, fs, 255);
    CollectsPrefix(Uint8, s, fs, 255);
    assert Narrow(Uint8, 256) == 0;
    assert fs[..256] == fs;
  }

  /** `packet_visitor`: the collection fields, updated in place. */
  class PacketVisitor {
    var chunk: nat
    var id: FrameId
    var aggregatedData: Octets

    function State(): VisitorState
      reads this
    {
      VisitorState(chunk, id, aggregatedData)
    }

    /** A fresh visitor; `_id` starts out indeterminate, here the given id. */
    constructor(initialId: FrameId)
      ensures State() == Fresh(initialId)
    {
      chunk, id, aggregatedData := 1, initialId, [];
    }

    /** `reset`: chunk 1 expected, nothing collected; the id stays. */
    method Reset()
      modifies this
      ensures State() == Fresh(old(id))
    {
      chunk := 1;
      aggregatedData := [];
    }

    /** The visitor's `operator()`, with a counter wide enough for every chunk number; returns what is passed on. */
    method Visit(p: NetworkPacket) returns (out: seq<EncodedPacket>)
      modifies this
      ensures Step(State(), out) == VisitPacket(Unbounded, old(State()), p)
    {
      match p
      case MetadataPacket(nm) =>
        out := [MetadataOut(EncodedMetadata(nm.codecName, Base64.Decode(nm.base64Data)))];
      case FramePacket(nf) =>
        if chunk != nf.chunk {
          Reset();
          return [];
        }
        aggregatedData := aggregatedData + nf.base64Data;
        if nf.chunk == 1 {
          id := nf.id;
        }
        if nf.chunk == nf.chunks {
          out := [FrameOut(EncodedFrame(Base64.Decode(aggregatedData), id, nf.t))];
          Reset();
          return;
        }
        chunk := chunk + 1;
        out := [];
    }
  }
}
