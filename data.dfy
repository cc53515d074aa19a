/**
 * The network form of video data (src/data.h, src/data.cpp): binary codec
 * parameters and encoded frames travel as base64 text, and a frame whose
 * text is longer than one message payload is split into numbered chunks.
 */
module Data {
  import opened Octets
  import opened ErrorOr
  import Base64

  /** `max_payload_size`: the most base64 characters one network frame carries. */
  const MaxPayloadSize: nat := 65000

  /** `frame_id`: two signed 64-bit numbers. */
  datatype FrameId = FrameId(i1: int, i2: int)

  /** The id the aggregators hold when no frame is in progress. */
  const NoFrame: FrameId := FrameId(-1, -1)

  /**
   * `network_frame`: one chunk of a frame's base64 text, with the frame's
   * id and time, its 1-based number and the number of chunks. The time is
   * a clock count.
   */
  datatype NetworkFrame = NetworkFrame(base64Data: Octets, id: FrameId, t: int, chunk: nat, chunks: nat)

  /** `network_metadata`: the codec name and its parameters in base64. */
  datatype NetworkMetadata = NetworkMetadata(codecName: Octets, base64Data: Octets)

  /** `network_packet`: metadata or a frame chunk. */
  datatype NetworkPacket = MetadataPacket(metadata: NetworkMetadata) | FramePacket(frame: NetworkFrame)

  /**
   * `encoded_frame`: the frame bytes, here as the outcome of decoding the
   * reassembled base64 text, which fails on text that is not base64.
   */
  datatype EncodedFrame = EncodedFrame(data: Outcome<Octets>, id: FrameId, t: int)

  /** `encoded_metadata`: the codec name and the outcome of decoding its parameters. */
  datatype EncodedMetadata = EncodedMetadata(codecName: Octets, codecData: Outcome<Octets>)

  /** `encoded_packet`: metadata or a whole frame. */
  datatype EncodedPacket = MetadataOut(metadata: EncodedMetadata) | FrameOut(frame: EncodedFrame)

  /** Joining the payloads of one chunk more appends its payload. */
  lemma ConcatPayloadsPrefix(fs: seq<NetworkFrame>, k: nat)
    requires k < |fs|
    ensures Concat(Payloads(fs[..k + 1])) == Concat(Payloads(fs[..k])) + fs[k].base64Data
  {
    assert fs[..k + 1] == fs[..k] + [fs[k]];
    PayloadsAppend(fs[..k], fs[k]);
    ConcatAppend(Payloads(fs[..k]), fs[k].base64Data);
  }

  /** The payload of the first chunk alone. */
  lemma ConcatPayloadsFirst(fs: seq<NetworkFrame>)
    requires 0 < |fs|
    ensures Concat(Payloads(fs[..1])) == fs[0].base64Data
  {
    assert fs[..1] == [fs[0]];
    assert Payloads([fs[0]]) == [fs[0].base64Data];
    ConcatOne(fs[0].base64Data);
  }

  /** The chunks of one frame as the sender numbers them: all with `id`, numbered 1 to `|fs|`. */
  predicate InOrder(fs: seq<NetworkFrame>, id: FrameId)
  {
    forall j :: 0 <= j < |fs| ==> fs[j].id == id && fs[j].chunk == j + 1 && fs[j].chunks == |fs|
  }

  /**
   * The chunk counters of the receiving side: declared `uint8_t` in the
   * source, so that storing or incrementing wraps modulo 256, or unbounded
   * as the 32-bit chunk numbers of `network_frame` evidently call for.
   */
  datatype CounterWidth = Uint8 | Unbounded

  /** A chunk number stored in a counter of width `w`. */
  function Narrow(w: CounterWidth, n: nat): (r: nat)
    ensures w == Unbounded ==> r == n
    ensures w == Uint8 ==> r < 256 && r % 256 == n % 256
  {
    if w == Uint8 then n % 256 else n
  }

  /** A chunk number below 256 fits either counter. */
  lemma NarrowSmall(w: CounterWidth, n: nat)
    requires w == Unbounded || n < 256
    ensures Narrow(w, n) == n
  {
  }

  /**
   * `encoded_metadata::to_network`: the name is kept; the parameters are
   * encoded only when there are some, and otherwise the text stays empty.
   */
  function MetadataToNetwork(codecName: Octets, codecData: Octets): (nm: NetworkMetadata)
    ensures nm.codecName == codecName
    ensures |nm.base64Data| == 4 * ((|codecData| + 2) / 3)
    ensures codecData == [] <==> nm.base64Data == []
  {
    NetworkMetadata(codecName, if |codecData| > 0 then Base64.Encode(codecData) else [])
  }

  /** What a receiver decodes from the metadata is the codec data that was sent. */
  lemma MetadataRoundTrip(codecName: Octets, codecData: Octets)
    requires |codecData| < Base64.SizeMax / 4
    ensures Base64.Decode(MetadataToNetwork(codecName, codecData).base64Data) == Value(codecData)
  {
    if |codecData| > 0 {
      Base64.RoundTrip(codecData);
    } else {
      Base64.RoundTrip([]);
    }
  }

  function Min(a: nat, b: nat): nat { if a < b then a else b }

  /** `s.substr(pos, n)`: at most `n` characters from `pos`, fewer at the end. */
  function Substr(s: Octets, pos: nat, n: nat): (r: Octets)
    requires pos <= |s|
    ensures |r| == Min(n, |s| - pos)
    ensures r == s[pos..Min(pos + n, |s|)]
  {
    s[pos..Min(pos + n, |s|)]
  }

  /** The payloads of a sequence of chunks, in order. */
  function Payloads(frames: seq<NetworkFrame>): (ps: seq<Octets>)
    ensures |ps| == |frames|
    ensures forall i :: 0 <= i < |frames| ==> ps[i] == frames[i].base64Data
  {
    if frames == [] then []
    else Payloads(frames[..|frames| - 1]) + [frames[|frames| - 1].base64Data]
  }

  /** The number of chunks, `ceil(len / MaxPayloadSize)`, covers the text and no more. */
  lemma ChunkCount(len: nat)
    ensures var chunks := (len + MaxPayloadSize - 1) / MaxPayloadSize;
      len <= chunks * MaxPayloadSize && (chunks > 0 ==> (chunks - 1) * MaxPayloadSize < len)
  {
  }

  /** Appending the next piece to the text sent so far gives the next prefix. */
  lemma PrefixStep(encoded: Octets, pos: nat)
    requires pos < |encoded|
    ensures encoded[..pos] + Substr(encoded, pos, MaxPayloadSize) == encoded[..Min(pos + MaxPayloadSize, |encoded|)]
  {
  }

  /** The payloads of one more chunk are the payloads so far and its own. */
  lemma PayloadsAppend(frames: seq<NetworkFrame>, frame: NetworkFrame)
    ensures Payloads(frames + [frame]) == Payloads(frames) + [frame.base64Data]
  {
    assert (frames + [frame])[..|frames|] == frames;
  }

  /**
   * The chunks so far of a frame of `chunks` chunks: numbered from 1, with
   * the frame's id and time, none empty, none longer than a payload, and all
   * but the last of the frame exactly one payload long.
   */
  predicate Numbered(frames: seq<NetworkFrame>, chunks: nat, id: FrameId, t: int)
  {
    forall j :: 0 <= j < |frames| ==>
      frames[j].id == id && frames[j].t == t && frames[j].chunk == j + 1 && frames[j].chunks == chunks &&
      0 < |frames[j].base64Data| <= MaxPayloadSize &&
      (j < chunks - 1 ==> |frames[j].base64Data| == MaxPayloadSize)
  }

  lemma NumberedAppend(frames: seq<NetworkFrame>, frame: NetworkFrame, chunks: nat, id: FrameId, t: int)
    requires Numbered(frames, chunks, id, t)
    requires frame.id == id && frame.t == t && frame.chunk == |frames| + 1 && frame.chunks == chunks
    requires 0 < |frame.base64Data| <= MaxPayloadSize
    requires |frames| < chunks - 1 ==> |frame.base64Data| == MaxPayloadSize
    ensures Numbered(frames + [frame], chunks, id, t)
  {
  }

  /**
   * The loop of `encoded_frame::to_network`: the text cut into pieces of
   * `MaxPayloadSize` characters (the last one shorter), each numbered from
   * 1 and carrying the count, the frame's id and the time.
   */
  method Split(encoded: Octets, id: FrameId, t: int) returns (frames: seq<NetworkFrame>)
    ensures |frames| == (|encoded| + MaxPayloadSize - 1) / MaxPayloadSize
    ensures Concat(Payloads(frames)) == encoded
    ensures forall i :: 0 <= i < |frames| ==>
      frames[i].id == id && frames[i].t == t && frames[i].chunk == i + 1 && frames[i].chunks == |frames|
    ensures forall i :: 0 <= i < |frames| ==> 0 < |frames[i].base64Data| <= MaxPayloadSize
    ensures forall i :: 0 <= i < |frames| - 1 ==> |frames[i].base64Data| == MaxPayloadSize
  {
    var chunks := (|encoded| + MaxPayloadSize - 1) / MaxPayloadSize;
    ChunkCount(|encoded|);
    frames := [];
    var i, pos := 0, 0;
    while i < chunks
      invariant 0 <= i <= chunks && |frames| == i && pos == i * MaxPayloadSize
      invariant i < chunks ==> pos < |encoded|
      invariant i == chunks ==> pos >= |encoded|
      invariant Concat(Payloads(frames)) == encoded[..Min(pos, |encoded|)]
      invariant Numbered(frames, chunks, id, t)
    {
      var piece := Substr(encoded, pos, MaxPayloadSize);
      var frame := NetworkFrame(piece, id, t, i + 1, chunks);
      PayloadsAppend(frames, frame);
      ConcatAppend(Payloads(frames), piece);
      PrefixStep(encoded, pos);
      NumberedAppend(frames, frame, chunks, id, t);
      frames := frames + [frame];
      i, pos := i + 1, pos + MaxPayloadSize;
    }
    assert encoded[..|encoded|] == encoded;
  }

  /**
   * `encoded_frame::to_network`: the chunks of the frame's base64 text.
   * An empty frame has empty text and no chunks at all; joining the
   * payloads and decoding them gives the frame's bytes back.
   */
  method ToNetwork(data: Octets, id: FrameId, t: int) returns (frames: seq<NetworkFrame>)
    ensures |frames| == (|Base64.Encode(data)| + MaxPayloadSize - 1) / MaxPayloadSize
    ensures Concat(Payloads(frames)) == Base64.Encode(data)
    ensures forall i :: 0 <= i < |frames| ==>
      frames[i].id == id && frames[i].t == t && frames[i].chunk == i + 1 && frames[i].chunks == |frames|
    ensures forall i :: 0 <= i < |frames| ==> 0 < |frames[i].base64Data| <= MaxPayloadSize
    ensures forall i :: 0 <= i < |frames| - 1 ==> |frames[i].base64Data| == MaxPayloadSize
    ensures data == [] <==> frames == []
    ensures |data| < Base64.SizeMax / 4 ==> Base64.Decode(Concat(Payloads(frames))) == Value(data)
  {
    frames := Split(Base64.Encode(data), id, t);
    if |data| < Base64.SizeMax / 4 {
      Base64.RoundTrip(data);
    }
  }
}
