/**
 * The chunk buffer of `flow_json_decoder` (src/flow_json_decoder.cpp): the
 * base64 text of a frame that arrives in several chunks is collected in
 * `_chunk_buffer` and decoded when the chunk numbered `chunks` arrives.
 */
module FlowJsonDecoder {
  import opened Octets
  import opened ErrorOr
  import opened Data
  import Base64

  /** `process_frame`: the frame handed to the sinks, with the time left at zero. */
  function Processed(id: FrameId, encoded: Octets): (f: EncodedFrame)
    ensures f.id == id && f.t == 0
    ensures |encoded| < Base64.SizeMax / 2 && f.data.Value? ==> 8 * |f.data.value| <= 6 * |encoded|
  {
    EncodedFrame(Base64.Decode(encoded), id, 0)
  }

  /** The buffer after a chunk and the frames handed to the sinks. */
  datatype Step = Step(buffer: Octets, out: seq<EncodedFrame>)

  /**
   * `process_frame_part`: a frame of one chunk is processed at once and the
   * buffer is left alone; otherwise chunk 1 clears the buffer, the chunk is
   * appended, and at chunk `chunks` the buffer is processed and cleared.
   */
  function FramePart(buffer: Octets, id: FrameId, data: Octets, chunk: nat, chunks: nat): (r: Step)
    ensures |r.out| <= 1
    ensures r.out != [] <==> chunks == 1 || chunk == chunks
    ensures r.out != [] ==> r.out[0].id == id && r.out[0].t == 0
    ensures chunks == 1 ==> r.buffer == buffer
    ensures chunks != 1 && r.out != [] ==> r.buffer == []
    ensures chunks != 1 && r.out == [] ==> r.buffer == (if chunk == 1 then [] else buffer) + data
  {
    if chunks == 1 then Step(buffer, [Processed(id, data)])
    else
      var b := (if chunk == 1 then [] else buffer) + data;
      if chunk != chunks then Step(b, []) else Step([], [Processed(id, b)])
  }

  /** `on_frame` for a network frame. */
  function OnFrame(buffer: Octets, f: NetworkFrame): (r: Step)
    ensures |r.out| <= 1
    ensures r.out != [] <==> f.chunks == 1 || f.chunk == f.chunks
    ensures r.out != [] ==> r.out[0].id == f.id
  {
    FramePart(buffer, f.id, f.base64Data, f.chunk, f.chunks)
  }

  /** The chunks `fs` one after the other, with everything handed out on the way. */
  function Feed(buffer: Octets, fs: seq<NetworkFrame>): (r: Step)
  {
    if fs == [] then Step(buffer, [])
    else
      var before := Feed(buffer, fs[..|fs| - 1]);
      var last := OnFrame(before.buffer, fs[|fs| - 1]);
      Step(last.buffer, before.out + last.out)
  }

  /** A frame of one chunk is decoded at once, whatever its number, and the buffer is untouched. */
  lemma SingleChunkAtOnce(buffer: Octets, id: FrameId, data: Octets, chunk: nat)
    ensures FramePart(buffer, id, data, chunk, 1) == Step(buffer, [EncodedFrame(Base64.Decode(data), id, 0)])
  {
  }

  /** Chunk 1 of a frame of several chunks starts the buffer afresh with its own text. */
  lemma FirstChunkClears(buffer: Octets, id: FrameId, data: Octets, chunks: nat)
    requires chunks != 1
    ensures FramePart(buffer, id, data, 1, chunks) == Step(data, [])
  {
    assert [] + data == data;
  }

  /** Nothing is handed out before the chunk numbered `chunks`; until then the text is appended. */
  lemma NothingBeforeLast(buffer: Octets, id: FrameId, data: Octets, chunk: nat, chunks: nat)
    requires chunks != 1
    ensures FramePart(buffer, id, data, chunk, chunks).out == [] <==> chunk != chunks
    ensures chunk != chunks && chunk != 1 ==> FramePart(buffer, id, data, chunk, chunks).buffer == buffer + data
  {
  }

  /** After a frame of several chunks is handed out, the buffer is empty. */
  lemma EmptyAfterLast(buffer: Octets, id: FrameId, data: Octets, chunk: nat, chunks: nat)
    requires chunks != 1 && FramePart(buffer, id, data, chunk, chunks).out != []
    ensures FramePart(buffer, id, data, chunk, chunks).buffer == []
    ensures |FramePart(buffer, id, data, chunk, chunks).out| == 1
  {
  }

  /**
   * There is no check of order: a last chunk whose predecessors never came
   * is decoded together with whatever the buffer held.
   */
  lemma LastChunkTakesBuffer(buffer: Octets, id: FrameId, data: Octets, chunks: nat)
    requires chunks > 1
    ensures FramePart(buffer, id, data, chunks, chunks) == Step([], [EncodedFrame(Base64.Decode(buffer + data), id, 0)])
  {
  }

  lemma FeedPrefix(buffer: Octets, fs: seq<NetworkFrame>, k: nat)
    requires k < |fs|
    ensures Feed(buffer, fs[..k + 1]).buffer == OnFrame(Feed(buffer, fs[..k]).buffer, fs[k]).buffer
    ensures Feed(buffer, fs[..k + 1]).out == Feed(buffer, fs[..k]).out + OnFrame(Feed(buffer, fs[..k]).buffer, fs[k]).out
  {
    assert fs[..k + 1][..k] == fs[..k];
  }

  /**
   * While the first `k < n` chunks of a frame of `n > 1` chunks arrive in
   * order, nothing goes out and the buffer holds their text, whatever it
   * held before.
   */
  lemma {:induction false} CollectsPrefix(buffer: Octets, fs: seq<NetworkFrame>, id: FrameId, k: nat)
    requires InOrder(fs, id) && 1 <= k < |fs|
    ensures Feed(buffer, fs[..k]) == Step(Concat(Payloads(fs[..k])), [])
  {
    FeedPrefix(buffer, fs, k - 1);
    if k == 1 {
      assert fs[..0] == [];
      FirstChunkClears(buffer, id, fs[0].base64Data, |fs|);
      ConcatPayloadsFirst(fs);
    } else {
      CollectsPrefix(buffer, fs, id, k - 1);
      ConcatPayloadsPrefix(fs, k - 1);
    }
  }

  /**
   * A whole frame of several chunks, in order, makes exactly one frame go
   * out, at the last chunk: the decoded join of its payloads with its id;
   * the buffer is then empty.
   */
  lemma EmitsOnceAtLast(buffer: Octets, fs: seq<NetworkFrame>, id: FrameId)
    requires InOrder(fs, id) && 1 < |fs|
    ensures Feed(buffer, fs) == Step([], [EncodedFrame(Base64.Decode(Concat(Payloads(fs))), id, 0)])
  {
    var n := |fs|;
    FeedPrefix(buffer, fs, n - 1);
    CollectsPrefix(buffer, fs, id, n - 1);
    ConcatPayloadsPrefix(fs, n - 1);
    assert fs[..n] == fs;
  }

  /** What a sender's chunks of a frame become at the receiver: the frame's bytes, with its id. */
  lemma ReceivesSentFrame(buffer: Octets, data: Octets, fs: seq<NetworkFrame>, id: FrameId)
    requires InOrder(fs, id) && 1 < |fs|
    requires Concat(Payloads(fs)) == Base64.Encode(data) && |data| < Base64.SizeMax / 4
    ensures Feed(buffer, fs) == Step([], [EncodedFrame(Value(data), id, 0)])
  {
    EmitsOnceAtLast(buffer, fs, id);
    Base64.RoundTrip(data);
  }

  /** `flow_json_decoder`'s chunk buffer, updated in place. */
  class ChunkBuffer {
    var chunkBuffer: Octets

    constructor()
      ensures chunkBuffer == []
    {
      chunkBuffer := [];
    }

    /** `process_frame_part`; returns what goes to the sinks. */
    method ProcessFramePart(id: FrameId, data: Octets, chunk: nat, chunks: nat) returns (out: seq<EncodedFrame>)
      modifies this
      ensures Step(chunkBuffer, out) == FramePart(old(chunkBuffer), id, data, chunk, chunks)
    {
      if chunks == 1 {
        out := [Processed(id, data)];
        return;
      }
      if chunk == 1 {
        chunkBuffer := [];
      }
      chunkBuffer := chunkBuffer + data;
      if chunk != chunks {
        out := [];
        return;
      }
      out := [Processed(id, chunkBuffer)];
      chunkBuffer := [];
    }

    /** `on_frame` for a network frame. */
    method OnNetworkFrame(f: NetworkFrame) returns (out: seq<EncodedFrame>)
      modifies this
      ensures Step(chunkBuffer, out) == OnFrame(old(chunkBuffer), f)
    {
      out := ProcessFramePart(f.id, f.base64Data, f.chunk, f.chunks);
    }
  }
}
