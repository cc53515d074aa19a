/**
 * `frame_aggregator` (src/frame_aggregator.cpp): collects the chunks of one
 * frame, in order, until the last one has arrived, and then holds the
 * frame's base64 text until it is reset.
 */
module FrameAggregator {
  import opened Octets
  import opened Data
  import opened ErrorOr
  import Base64

  /** The fields `_ready`, `_expected_chunk`, `_chunks`, `_frame_id` and `_aggregated_data`. */
  datatype AggregatorState = AggregatorState(ready: bool, expected: nat, chunks: nat, id: FrameId, data: Octets)

  /** What `reset` leaves. */
  const Initial: AggregatorState := AggregatorState(false, 1, 1, NoFrame, [])

  /**
   * `send_frame` with counters of width `w`: a chunk of another frame first
   * resets; a ready aggregator ignores the chunk; a chunk other than the
   * expected one resets and is dropped; otherwise the payload is appended,
   * the count and id are taken from chunk 1, and the aggregator is ready when
   * the chunk is the last.
   */
  function Send(w: CounterWidth, s: AggregatorState, f: NetworkFrame): (r: AggregatorState)
    ensures r == Initial || r.id == f.id
    ensures s.ready && s.id == f.id ==> r == s
    ensures r.ready && !(s.ready && s.id == f.id) ==> f.chunk == r.chunks
    ensures r != Initial && !(s.ready && s.id == f.id) ==>
      r.data == (if s.id == f.id then s.data else []) + f.base64Data
  {
    var s1 := if s.id != f.id then Initial else s;
    if s1.ready then s1
    else if s1.expected != f.chunk then Initial
    else
      var chunks := if f.chunk == 1 then Narrow(w, f.chunks) else s1.chunks;
      var id := if f.chunk == 1 then f.id else s1.id;
      AggregatorState(f.chunk == chunks, Narrow(w, s1.expected + 1), chunks, id, s1.data + f.base64Data)
  }

  /** The chunks `fs` sent one after the other. */
  function Feed(w: CounterWidth, s: AggregatorState, fs: seq<NetworkFrame>): (r: AggregatorState)
  {
    if fs == [] then s else Send(w, Feed(w, s, fs[..|fs| - 1]), fs[|fs| - 1])
  }

  /** One chunk more is one step more. */
  lemma FeedPrefix(w: CounterWidth, s: AggregatorState, fs: seq<NetworkFrame>, k: nat)
    requires k < |fs|
    ensures Feed(w, s, fs[..k + 1]) == Send(w, Feed(w, s, fs[..k]), fs[k])
  {
    assert fs[..k + 1][..k] == fs[..k];
  }

  /** The first chunk of a frame, sent to a reset aggregator. */
  lemma FirstChunk(w: CounterWidth, fs: seq<NetworkFrame>, id: FrameId)
    requires InOrder(fs, id) && 1 <= |fs|
    requires w == Unbounded || |fs| < 256
    ensures Send(w, Initial, fs[0]) == AggregatorState(1 == |fs|, Narrow(w, 2), |fs|, id, fs[0].base64Data)
  {
  }

  /** Chunk `k + 1` of a frame, sent after the first `k`. */
  lemma NextChunk(w: CounterWidth, fs: seq<NetworkFrame>, id: FrameId, k: nat, data: Octets)
    requires InOrder(fs, id) && 1 <= k < |fs|
    requires w == Unbounded || |fs| < 256
    ensures Send(w, AggregatorState(false, Narrow(w, k + 1), |fs|, id, data), fs[k])
      == AggregatorState(k + 1 == |fs|, Narrow(w, k + 2), |fs|, id, data + fs[k].base64Data)
  {
  }

  /**
   * After the first `k` chunks of a frame of `n` chunks, sent in order to a
   * reset aggregator, it holds their payloads joined, and it is ready
   * exactly when all `n` have arrived. With 8-bit counters this holds for
   * frames of fewer than 256 chunks.
   */
  lemma {:induction false} InOrderPrefix(w: CounterWidth, fs: seq<NetworkFrame>, id: FrameId, k: nat)
    requires InOrder(fs, id) && 1 <= k <= |fs|
    requires w == Unbounded || |fs| < 256
    ensures Feed(w, Initial, fs[..k])
      == AggregatorState(k == |fs|, Narrow(w, k + 1), |fs|, id, Concat(Payloads(fs[..k])))
  {
    if k == 1 {
      FeedPrefix(w, Initial, fs, 0);
      assert fs[..0] == [];
      FirstChunk(w, fs, id);
      ConcatPayloadsFirst(fs);
    } else {
      InOrderPrefix(w, fs, id, k - 1);
      InOrderStep(w, fs, id, k, Concat(Payloads(fs[..k - 1])));
      ConcatPayloadsPrefix(fs, k - 1);
    }
  }

  /** Chunk `k` of a frame, fed after the first `k - 1` have left the aggregator waiting. */
  lemma InOrderStep(w: CounterWidth, fs: seq<NetworkFrame>, id: FrameId, k: nat, data: Octets)
    requires InOrder(fs, id) && 2 <= k <= |fs|
    requires w == Unbounded || |fs| < 256
    requires Feed(w, Initial, fs[..k - 1]) == AggregatorState(false, Narrow(w, k), |fs|, id, data)
    ensures Feed(w, Initial, fs[..k])
      == AggregatorState(k == |fs|, Narrow(w, k + 1), |fs|, id, data + fs[k - 1].base64Data)
  {
    FeedPrefix(w, Initial, fs, k - 1);
    NextChunk(w, fs, id, k - 1, data);
  }

  /** A frame's chunks, sent in order, make the aggregator ready exactly at the last one. */
  lemma ReadyExactlyAtLast(fs: seq<NetworkFrame>, id: FrameId, k: nat)
    requires InOrder(fs, id) && 1 <= |fs| && k <= |fs|
    ensures Feed(Unbounded, Initial, fs[..k]).ready <==> k == |fs|
    ensures Feed(Unbounded, Initial, fs).data == Concat(Payloads(fs))
    ensures Feed(Unbounded, Initial, fs).id == id
  {
    if k == 0 {
      assert fs[..0] == [];
    } else {
      InOrderPrefix(Unbounded, fs, id, k);
    }
    InOrderPrefix(Unbounded, fs, id, |fs|);
    assert fs[..|fs|] == fs;
  }

  /** Once ready, more chunks of the same frame change nothing. */
  lemma ReadyIgnoresChunks(w: CounterWidth, s: AggregatorState, f: NetworkFrame)
    requires s.ready && f.id == s.id
    ensures Send(w, s, f) == s
  {
  }

  /** A chunk of another frame discards what was collected: it is taken as if by a reset aggregator. */
  lemma OtherFrameDiscards(w: CounterWidth, s: AggregatorState, f: NetworkFrame)
    requires f.id != s.id
    ensures Send(w, s, f) == Send(w, Initial, f)
    ensures Send(w, s, f).data == if f.chunk == 1 then f.base64Data else []
  {
  }

  /** A chunk other than the expected one resets the aggregator and is dropped. */
  lemma UnexpectedChunkResets(w: CounterWidth, s: AggregatorState, f: NetworkFrame)
    requires (f.id == s.id && !s.ready && s.expected != f.chunk) || (f.id != s.id && f.chunk != 1)
    ensures Send(w, s, f) == Initial
  {
  }

  /**
   * As written, with `uint8_t` counters: chunk 1 of a frame of 257 chunks
   * stores the count as 1, so the aggregator is ready after that one chunk,
   * holding only its payload.
   */
  lemma ReadyTooEarlyAsWritten(p: Octets, id: FrameId, t: int)
    ensures Send(Uint8, Initial, NetworkFrame(p, id, t, 1, 257)) == AggregatorState(true, 2, 1, id, p)
    ensures Send(Unbounded, Initial, NetworkFrame(p, id, t, 1, 257)) == AggregatorState(false, 2, 257, id, p)
  {
  }

  /** The frame a sender chunks, fed in order, is ready and decodes to the sent bytes. */
  lemma ReassemblesSentFrame(fs: seq<NetworkFrame>, id: FrameId, data: Octets)
    requires InOrder(fs, id) && fs != []
    requires Concat(Payloads(fs)) == Base64.Encode(data) && |data| < Base64.SizeMax / 4
    ensures Feed(Unbounded, Initial, fs).ready
    ensures Base64.Decode(Feed(Unbounded, Initial, fs).data) == Value(data)
  {
    ReadyExactlyAtLast(fs, id, |fs|);
    assert fs[..|fs|] == fs;
    Base64.RoundTrip(data);
  }

  /** `frame_aggregator`: the aggregation fields, updated in place. */
  class Aggregator {
    var ready: bool
    var expectedChunk: nat
    var chunks: nat
    var frameId: FrameId
    var aggregatedData: Octets

    function State(): AggregatorState
      reads this
    {
      AggregatorState(ready, expectedChunk, chunks, frameId, aggregatedData)
    }

    /** The constructor resets. */
    constructor()
      ensures State() == Initial
    {
      ready, expectedChunk, chunks, frameId, aggregatedData := false, 1, 1, NoFrame, [];
    }

    /** `reset`. */
    method Reset()
      modifies this
      ensures State() == Initial
    {
      ready := false;
      expectedChunk := 1;
      chunks := 1;
      frameId := NoFrame;
      aggregatedData := [];
    }

    /** `send_frame`, with counters wide enough for every chunk number. */
    method SendFrame(f: NetworkFrame)
      modifies this
      ensures State() == Send(Unbounded, old(State()), f)
    {
      if frameId != f.id {
        Reset();
      }
      if ready {
        return;
      }
      if expectedChunk != f.chunk {
        Reset();
        return;
      }
      expectedChunk := expectedChunk + 1;
      if f.chunk == 1 {
        chunks := f.chunks;
        frameId := f.id;
      }
      aggregatedData := aggregatedData + f.base64Data;
      if f.chunk == chunks {
        ready := true;
      }
    }

    /** `ready`. */
    function Ready(): bool
      reads this
    {
      ready
    }

    /** `get_data`. */
    function GetData(): Octets
      reads this
    {
      aggregatedData
    }

    /** `get_id`. */
    function GetId(): FrameId
      reads this
    {
      frameId
    }
  }
}
