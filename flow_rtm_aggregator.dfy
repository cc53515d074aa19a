/**
 * `flow_rtm_aggregator` (src/flow_rtm_aggregator.cpp): collects the chunks
 * of one frame, in order, and hands the decoded frame to its sinks when the
 * last chunk arrives.
 */
module FlowRtmAggregator {
  import opened Octets
  import opened ErrorOr
  import opened Data
  import Base64

  /** The fields `_expected_chunk`, `_chunks`, `_frame_id` and `_aggregated_data`. */
  datatype AggregatorState = AggregatorState(expected: nat, chunks: nat, id: FrameId, data: Octets)

  /** What `reset` leaves. */
  const Initial: AggregatorState := AggregatorState(1, 1, NoFrame, [])

  /** The state after a chunk and the frames handed to the sinks. */
  datatype Step = Step(state: AggregatorState, out: seq<EncodedFrame>)

  /** The frame handed to the sinks: the decoded text and the id, with the time left at zero. */
  function Emitted(s: AggregatorState): (f: EncodedFrame)
  {
    EncodedFrame(Base64.Decode(s.data), s.id, 0)
  }

  /**
   * `on_frame` with counters of width `w`: a chunk of another frame first
   * resets; a chunk other than the expected one resets and is dropped;
   * otherwise the payload is appended, the count and id are taken from
   * chunk 1, and on the last chunk the frame goes out and the state resets.
   */
  function OnFrame(w: CounterWidth, s: AggregatorState, f: NetworkFrame): (r: Step)
    ensures |r.out| <= 1
    ensures r.state == Initial || (r.state.id == f.id && r.state.data == (if s.id == f.id then s.data else []) + f.base64Data)
    ensures r.out != [] ==> r.state == Initial && r.out[0].id == f.id && r.out[0].t == 0
  {
    var s1 := if s.id != f.id then Initial else s;
    if s1.expected != f.chunk then Step(Initial, [])
    else
      var chunks := if f.chunk == 1 then Narrow(w, f.chunks) else s1.chunks;
      var id := if f.chunk == 1 then f.id else s1.id;
      var s2 := AggregatorState(Narrow(w, s1.expected + 1), chunks, id, s1.data + f.base64Data);
      if f.chunk == chunks then Step(Initial, [Emitted(s2)]) else Step(s2, [])
  }

  /** `on_metadata`: the codec name is kept and the base64 parameters are decoded for the sinks. */
  function OnMetadata(m: NetworkMetadata): (e: EncodedMetadata)
    ensures e.codecName == m.codecName
  {
    EncodedMetadata(m.codecName, Base64.Decode(m.base64Data))
  }

  /** The metadata a sender's `to_network` produces reaches the sinks as it was sent. */
  lemma MetadataReachesSinks(name: Octets, data: Octets)
    requires |data| < Base64.SizeMax / 4
    ensures OnMetadata(MetadataToNetwork(name, data)) == EncodedMetadata(name, Value(data))
  {
    MetadataRoundTrip(name, data);
  }

  /** The chunks `fs` one after the other, with everything handed out on the way. */
  function Feed(w: CounterWidth, s: AggregatorState, fs: seq<NetworkFrame>): (r: Step)
  {
    if fs == [] then Step(s, [])
    else
      var before := Feed(w, s, fs[..|fs| - 1]);
      var last := OnFrame(w, before.state, fs[|fs| - 1]);
      Step(last.state, before.out + last.out)
  }

  /** The last chunk of `fs` is handled after the ones before it. */
  lemma FeedLast(w: CounterWidth, s: AggregatorState, fs: seq<NetworkFrame>)
    requires fs != []
    ensures var before := Feed(w, s, fs[..|fs| - 1]);
      var last := OnFrame(w, before.state, fs[|fs| - 1]);
      Feed(w, s, fs) == Step(last.state, before.out + last.out)
  {
  }

  lemma FeedPrefix(w: CounterWidth, s: AggregatorState, fs: seq<NetworkFrame>, k: nat)
    requires k < |fs|
    ensures Feed(w, s, fs[..k + 1]).state == OnFrame(w, Feed(w, s, fs[..k]).state, fs[k]).state
    ensures Feed(w, s, fs[..k + 1]).out == Feed(w, s, fs[..k]).out + OnFrame(w, Feed(w, s, fs[..k]).state, fs[k]).out
  {
    assert fs[..k + 1][..k] == fs[..k];
  }

  /** The state while a frame of `n` chunks is collected, after its first `k < n` chunks. */
  function Collecting(w: CounterWidth, fs: seq<NetworkFrame>, id: FrameId, k: nat): AggregatorState
    requires 1 <= k <= |fs|
  {
    AggregatorState(Narrow(w, k + 1), |fs|, id, Concat(Payloads(fs[..k])))
  }

  /** Chunk 1 of a frame in order, at a reset aggregator. */
  lemma FirstChunk(w: CounterWidth, fs: seq<NetworkFrame>, id: FrameId)
    requires InOrder(fs, id) && 1 <= |fs|
    requires w == Unbounded || |fs| < 256
    ensures var r := OnFrame(w, Initial, fs[0]);
      if |fs| == 1 then r == Step(Initial, [EncodedFrame(Base64.Decode(fs[0].base64Data), id, 0)])
      else r == Step(AggregatorState(Narrow(w, 2), |fs|, id, fs[0].base64Data), [])
  {
    assert Initial.data + fs[0].base64Data == fs[0].base64Data;
  }

  /** Chunk `k + 1` of a frame in order, after the chunks before it. */
  lemma NextChunk(w: CounterWidth, fs: seq<NetworkFrame>, id: FrameId, k: nat, data: Octets)
    requires InOrder(fs, id) && 1 <= k < |fs|
    requires w == Unbounded || |fs| < 256
    ensures var r := OnFrame(w, AggregatorState(Narrow(w, k + 1), |fs|, id, data), fs[k]);
      if k + 1 == |fs| then r == Step(Initial, [EncodedFrame(Base64.Decode(data + fs[k].base64Data), id, 0)])
      else r == Step(AggregatorState(Narrow(w, k + 2), |fs|, id, data + fs[k].base64Data), [])
  {
  }

  /**
   * While the first `k < n` chunks of a frame of `n` chunks arrive in order
   * at a reset aggregator, nothing goes out and the payloads are collected.
   * With 8-bit counters this holds for frames of fewer than 256 chunks.
   */
  lemma {:induction false} CollectsPrefix(w: CounterWidth, fs: seq<NetworkFrame>, id: FrameId, k: nat)
    requires InOrder(fs, id) && 1 <= k < |fs|
    requires w == Unbounded || |fs| < 256
    ensures Feed(w, Initial, fs[..k]) == Step(Collecting(w, fs, id, k), [])
  {
    FeedPrefix(w, Initial, fs, k - 1);
    if k == 1 {
      assert fs[..0] == [];
      FirstChunk(w, fs, id);
      ConcatPayloadsFirst(fs);
    } else {
      CollectsPrefix(w, fs, id, k - 1);
      NextChunk(w, fs, id, k - 1, Concat(Payloads(fs[..k - 1])));
      ConcatPayloadsPrefix(fs, k - 1);
    }
  }

  /** Before the last chunk of a frame in order nothing has gone out, and the last chunk completes it. */
  lemma LastChunk(w: CounterWidth, fs: seq<NetworkFrame>, id: FrameId)
    requires InOrder(fs, id) && 1 <= |fs|
    requires w == Unbounded || |fs| < 256
    ensures Feed(w, Initial, fs[..|fs| - 1]).out == []
    ensures OnFrame(w, Feed(w, Initial, fs[..|fs| - 1]).state, fs[|fs| - 1])
      == Step(Initial, [Emitted(Collecting(w, fs, id, |fs|))])
  {
    var n := |fs|;
    if n == 1 {
      assert fs[..0] == [];
      FirstChunk(w, fs, id);
      ConcatPayloadsFirst(fs);
    } else {
      CollectsPrefix(w, fs, id, n - 1);
      NextChunk(w, fs, id, n - 1, Concat(Payloads(fs[..n - 1])));
      ConcatPayloadsPrefix(fs, n - 1);
    }
  }

  /**
   * A whole frame, in order, makes exactly one frame go out, at the last
   * chunk: the decoded join of its payloads with its id; the aggregator is
   * then reset.
   */
  lemma EmitsOnceAtLast(w: CounterWidth, fs: seq<NetworkFrame>, id: FrameId)
    requires InOrder(fs, id) && 1 <= |fs|
    requires w == Unbounded || |fs| < 256
    ensures Feed(w, Initial, fs) == Step(Initial, [EncodedFrame(Base64.Decode(Concat(Payloads(fs))), id, 0)])
  {
    var n := |fs|;
    LastChunk(w, fs, id);
    FeedLast(w, Initial, fs);
    var c := Collecting(w, fs, id, n);
    assert fs[..n] == fs;
    assert c.data == Concat(Payloads(fs)) && c.id == id;
  }

  /** A chunk of another frame or an unexpected chunk resets; nothing goes out unless the chunk completes a frame. */
  lemma ChangedFrameResets(w: CounterWidth, s: AggregatorState, f: NetworkFrame)
    ensures f.id != s.id ==> OnFrame(w, s, f) == OnFrame(w, Initial, f)
    ensures (f.id != s.id && f.chunk != 1) || (f.id == s.id && s.expected != f.chunk) ==>
      OnFrame(w, s, f) == Step(Initial, [])
  {
  }

  /** The count of chunks is taken from chunk 1 only: later chunks' counts are ignored. */
  lemma CountFromFirstChunk(w: CounterWidth, s: AggregatorState, f: NetworkFrame, n: nat)
    requires f.id == s.id && s.expected == f.chunk && f.chunk != 1
    ensures OnFrame(w, s, f) == OnFrame(w, s, f.(chunks := n))
  {
  }

  /**
   * As written, with `uint8_t` counters: chunk 1 of a frame of 257 chunks
   * stores the count as 1, so a frame holding only that chunk's payload
   * goes out at once.
   */
  lemma EmitsTooEarlyAsWritten(p: Octets, id: FrameId, t: int)
    ensures OnFrame(Uint8, Initial, NetworkFrame(p, id, t, 1, 257)).out == [EncodedFrame(Base64.Decode(p), id, 0)]
    ensures OnFrame(Unbounded, Initial, NetworkFrame(p, id, t, 1, 257)).out == []
  {
    assert Narrow(Uint8, 257) == 1;
    assert Initial.data + p == p;
  }

  /** `flow_rtm_aggregator`: the aggregation fields, updated in place. */
  class Aggregator {
    var expectedChunk: nat
    var chunks: nat
    var frameId: FrameId
    var aggregatedData: Octets

    function State(): AggregatorState
      reads this
    {
      AggregatorState(expectedChunk, chunks, frameId, aggregatedData)
    }

    /** The constructor resets. */
    constructor()
      ensures State() == Initial
    {
      expectedChunk, chunks, frameId, aggregatedData := 1, 1, NoFrame, [];
    }

    /** `reset`. */
    method Reset()
      modifies this
      ensures State() == Initial
    {
      expectedChunk := 1;
      chunks := 1;
      frameId := NoFrame;
      aggregatedData := [];
    }

    /** `on_frame`, with counters wide enough for every chunk number; returns what goes to the sinks. */
    method OnFrameUpdate(f: NetworkFrame) returns (out: seq<EncodedFrame>)
      modifies this
      ensures Step(State(), out) == OnFrame(Unbounded, old(State()), f)
    {
      out := [];
      if frameId != f.id {
        Reset();
      }
      if expectedChunk != f.chunk {
        Reset();
        return;
      }
      expectedChunk := expectedChunk + 1;
      if f.chunk == 1 {
        chunks := f.chunks;
        frameId := f.id;
      }
      aggregatedData := aggregatedData + f.base64Data;
      if f.chunk == chunks {
        out := [Emitted(State())];
        Reset();
      }
    }
  }
}
