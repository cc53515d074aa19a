/**
 * The file sink for encoded video: the first metadata packet sets up a
 * stream decoder, which is fed frames until it reports the image size;
 * from the first key frame on, frames are written to a temporary file.
 * With a segment duration, a key frame at least that long after the
 * file's first frame closes the file, renames it after its first and last
 * timestamps, and starts a new one.
 */
module VideoFileSink {
  import opened Octets
  import opened Wrappers

  /** `image_size` as the decoder reports it. */
  datatype ImageSize = ImageSize(width: int, height: int)

  /** `encoded_metadata`: codec name and codec parameters. */
  datatype Metadata = Metadata(codecName: Octets, codecData: Octets)

  /** The parts of `encoded_frame` the sink reads; `timestamp` counts clock ticks. */
  datatype Frame = Frame(data: Octets, timestamp: int, keyFrame: bool)

  /** `encoded_packet`. */
  datatype Packet = MetadataPacket(metadata: Metadata) | FramePacket(frame: Frame)

  /** `stream_decoder`: the metadata and the image size once known. */
  datatype Decoder = Decoder(metadata: Metadata, size: Option<ImageSize>)

  /** `video_file_writer`: its temporary file, its first and latest
    * timestamps once a frame was written, and the frames written. */
  datatype Writer = Writer(filename: Octets, started: bool, startTs: int, lastTs: int, written: seq<Frame>)

  /** A temporary file renamed to its final name. */
  datatype Rename = Rename(from: Octets, to: Octets)

  /** The output path split as boost::filesystem splits it. */
  datatype FilePath = FilePath(parent: Octets, stem: Octets, extension: Octets)

  /** Everything the sink changes. */
  datatype SinkState = SinkState(decoder: Option<Decoder>, writer: Option<Writer>, renames: seq<Rename>)

  /** Clock ticks per millisecond of `system_clock`. */
  const TicksPerMilli: nat := 1_000_000

  /** `duration_cast<milliseconds>`: division truncating toward zero. */
  function Millis(ticks: int): (ms: int)
    ensures ticks >= 0 ==> 0 <= ms && ms * TicksPerMilli <= ticks < (ms + 1) * TicksPerMilli
    ensures ticks < 0 ==> ms <= 0 && -ms == (-ticks) / TicksPerMilli
  {
    if ticks >= 0 then ticks / TicksPerMilli else -((-ticks) / TicksPerMilli)
  }

  /** `parent / name`: boost inserts a separator only between a non-empty
    * parent that does not already end in one and the name. */
  function Join(parent: Octets, name: Octets): Octets
  {
    if parent == [] then name
    else if parent[|parent| - 1] == '/' then parent + name
    else parent + "/" + name
  }

  function PathString(p: FilePath): Octets
  {
    Join(p.parent, p.stem + p.extension)
  }

  /** `current_filename`: the path itself without segmenting, otherwise
    * parent/stem-<first ms>-<last ms>.ext. */
  function CurrentFilename(p: FilePath, segment: Option<int>, w: Writer): (name: Octets)
    ensures segment.None? ==> name == PathString(p)
  {
    if segment.None? then PathString(p)
    else Join(p.parent, p.stem + "-" + SignedDecimal(Millis(w.startTs)) + "-" + SignedDecimal(Millis(w.lastTs)) + p.extension)
  }

  /** A segment's name spells out its first and last timestamps, in the
    * parent folder, with exactly one separator before it. */
  lemma SegmentName(p: FilePath, d: int, w: Writer)
    ensures var file := p.stem + "-" + SignedDecimal(Millis(w.startTs)) + "-"
                        + SignedDecimal(Millis(w.lastTs)) + p.extension;
            CurrentFilename(p, Some(d), w)
              == if p.parent == [] then file
                 else if p.parent[|p.parent| - 1] == '/' then p.parent + file
                 else p.parent + "/" + file
  {
  }

  /** An output path in the root folder: "/out.mkv" stays "/out.mkv", and its
    * segments are "/out-<first ms>-<last ms>.mkv", with a single '/'. */
  lemma RootOutputPath(d: int, w: Writer)
    ensures CurrentFilename(FilePath("/", "out", ".mkv"), None, w) == "/out.mkv"
    ensures CurrentFilename(FilePath("/", "out", ".mkv"), Some(d), w)
      == "/out-" + SignedDecimal(Millis(w.startTs)) + "-" + SignedDecimal(Millis(w.lastTs)) + ".mkv"
  {
    var file := "out" + "-" + SignedDecimal(Millis(w.startTs)) + "-" + SignedDecimal(Millis(w.lastTs)) + ".mkv";
    assert "/" + file == "/out-" + SignedDecimal(Millis(w.startTs)) + "-" + SignedDecimal(Millis(w.lastTs)) + ".mkv";
  }

  /** `write_frame`: the first frame fixes the start timestamp; every frame
    * moves the last one. */
  function WriteFrame(w: Writer, f: Frame): (r: Writer)
    ensures r.started && r.lastTs == f.timestamp && r.written == w.written + [f]
    ensures r.startTs == (if w.started then w.startTs else f.timestamp)
    ensures r.filename == w.filename
  {
    Writer(w.filename, true, if w.started then w.startTs else f.timestamp, f.timestamp, w.written + [f])
  }

  /** A writer's timestamps are those of its first and latest frames. */
  predicate WriterOk(w: Writer)
  {
    w.started == (|w.written| > 0)
    && (w.started ==> w.startTs == w.written[0].timestamp && w.lastTs == w.written[|w.written| - 1].timestamp)
  }

  lemma WriteFrameOk(w: Writer, f: Frame)
    requires WriterOk(w)
    ensures WriterOk(WriteFrame(w, f))
  {
    var r := WriteFrame(w, f);
    if w.started {
      assert r.written[0] == w.written[0];
    }
  }

  /** The metadata visitor: only the first metadata creates the decoder. */
  function MetadataStep(s: SinkState, md: Metadata): (r: SinkState)
    ensures s.decoder.Some? ==> r == s
    ensures s.decoder.None? ==> r == s.(decoder := Some(Decoder(md, None)))
  {
    if s.decoder.Some? then s else s.(decoder := Some(Decoder(md, None)))
  }

  /** Whether a key frame closes the current segment. */
  predicate SegmentDue(segment: Option<int>, w: Option<Writer>, f: Frame)
    ensures !f.keyFrame || segment.None? || w.None? ==> !SegmentDue(segment, w, f)
    ensures SegmentDue(segment, w, f) ==> f.timestamp - w.value.startTs >= segment.value
  {
    f.keyFrame && segment.Some? && w.Some? && f.timestamp >= w.value.startTs + segment.value
  }

  /** `release_writer`: the temporary file is renamed to its final name. */
  function Release(s: SinkState, p: FilePath, segment: Option<int>): (r: SinkState)
    requires s.writer.Some?
    ensures r.writer.None? && r.decoder == s.decoder
    ensures |r.renames| == |s.renames| + 1 && r.renames[..|s.renames|] == s.renames
    ensures r.renames[|s.renames|].from == s.writer.value.filename
  {
    var w := s.writer.value;
    s.(writer := None, renames := s.renames + [Rename(w.filename, CurrentFilename(p, segment, w))])
  }

  /** The frame visitor. `decoded` is the size the decoder reports after
    * this frame is fed to it (FFmpeg's answer), and `tempName` the unique
    * temporary name a new file would get. */
  function FrameStep(s: SinkState, p: FilePath, segment: Option<int>, f: Frame,
                   decoded: Option<ImageSize>, tempName: Octets): (r: SinkState)
    ensures s.decoder.None? ==> r == s
    ensures r.decoder.Some? <==> s.decoder.Some?
    ensures |s.renames| <= |r.renames| <= |s.renames| + 1 && r.renames[..|s.renames|] == s.renames
    ensures f.keyFrame && r.decoder.Some? && r.decoder.value.size.Some? ==> r.writer.Some?
  {
    if s.decoder.None? then s
    else
      var dec := if s.decoder.value.size.None? then s.decoder.value.(size := decoded) else s.decoder.value;
      var s1 := s.(decoder := Some(dec));
      if dec.size.None? then s1
      else
        var s2 := if SegmentDue(segment, s1.writer, f) then Release(s1, p, segment) else s1;
        var s3 := if f.keyFrame && s2.writer.None?
          then s2.(writer := Some(Writer(tempName, false, 0, 0, []))) else s2;
        if s3.writer.Some? then s3.(writer := Some(WriteFrame(s3.writer.value, f))) else s3
  }

  /** Frames arriving before the decoder knows the image size are dropped
    * and open no file. */
  lemma NoSizeNoWrite(s: SinkState, p: FilePath, segment: Option<int>, f: Frame, tempName: Octets)
    requires s.decoder.Some? && s.decoder.value.size.None?
    ensures FrameStep(s, p, segment, f, None, tempName) == s
  {
  }

  /** Until a key frame opened a file, frames are not written. */
  lemma NoKeyFrameNoFile(s: SinkState, p: FilePath, segment: Option<int>, f: Frame,
                         decoded: Option<ImageSize>, tempName: Octets)
    requires s.writer.None? && !f.keyFrame
    ensures FrameStep(s, p, segment, f, decoded, tempName).writer.None?
    ensures FrameStep(s, p, segment, f, decoded, tempName).renames == s.renames
  {
  }

  /** A due key frame closes the file under its segment name and starts a
    * new file that holds just this frame. */
  lemma DueKeyFrameStartsSegment(s: SinkState, p: FilePath, d: int, f: Frame,
                                 decoded: Option<ImageSize>, tempName: Octets)
    requires s.decoder.Some? && s.decoder.value.size.Some?
    requires s.writer.Some? && f.keyFrame && f.timestamp >= s.writer.value.startTs + d
    ensures var r := FrameStep(s, p, Some(d), f, decoded, tempName);
      && r.renames == s.renames + [Rename(s.writer.value.filename, CurrentFilename(p, Some(d), s.writer.value))]
      && r.writer == Some(Writer(tempName, true, f.timestamp, f.timestamp, [f]))
  {
    assert [] + [f] == [f];
  }

  /** A frame that is not a due key frame goes to the current file. */
  lemma FrameExtendsFile(s: SinkState, p: FilePath, segment: Option<int>, f: Frame,
                         decoded: Option<ImageSize>, tempName: Octets)
    requires s.decoder.Some? && s.decoder.value.size.Some? && s.writer.Some?
    requires !SegmentDue(segment, s.writer, f)
    ensures var r := FrameStep(s, p, segment, f, decoded, tempName);
      r.renames == s.renames && r.writer == Some(WriteFrame(s.writer.value, f))
  {
  }

  /** Without a segment duration the stream never renames a file: one
    * file holds the whole stream. */
  lemma {:induction false} NoSegmentOneFile(s: SinkState, p: FilePath, packets: seq<Packet>,
                                            decoded: seq<Option<ImageSize>>, names: seq<Octets>)
    requires |decoded| == |packets| == |names|
    ensures Run(s, p, None, packets, decoded, names).renames == s.renames
    ensures s.writer.Some? ==>
      (Run(s, p, None, packets, decoded, names).writer.Some?
       && Run(s, p, None, packets, decoded, names).writer.value.filename == s.writer.value.filename)
    decreases |packets|
  {
    if packets != [] {
      var k := |packets| - 1;
      NoSegmentOneFile(s, p, packets[..k], decoded[..k], names[..k]);
    }
  }

  /** The sink's state after a stream of packets. */
  function Run(s: SinkState, p: FilePath, segment: Option<int>, packets: seq<Packet>,
               decoded: seq<Option<ImageSize>>, names: seq<Octets>): SinkState
    requires |decoded| == |packets| == |names|
  {
    if packets == [] then s
    else
      var k := |packets| - 1;
      var prev := Run(s, p, segment, packets[..k], decoded[..k], names[..k]);
      match packets[k]
      case MetadataPacket(md) => MetadataStep(prev, md)
      case FramePacket(f) => FrameStep(prev, p, segment, f, decoded[k], names[k])
  }

  /** Every packet keeps the writer's timestamps those of its first and latest frame. */
  lemma OnFrameKeepsWriterOk(s: SinkState, p: FilePath, segment: Option<int>, f: Frame,
                             decoded: Option<ImageSize>, tempName: Octets)
    requires s.writer.Some? ==> WriterOk(s.writer.value)
    ensures var r := FrameStep(s, p, segment, f, decoded, tempName);
      r.writer.Some? ==> WriterOk(r.writer.value)
  {
    if s.decoder.Some? && s.writer.Some? {
      WriteFrameOk(s.writer.value, f);
    }
    WriteFrameOk(Writer(tempName, false, 0, 0, []), f);
  }

  class Sink {
    const path: FilePath
    const segment: Option<int>
    var decoder: Option<Decoder>
    var writer: Option<Writer>
    var renames: seq<Rename>

    function State(): SinkState
      reads this
    {
      SinkState(decoder, writer, renames)
    }

    ghost predicate Valid()
      reads this
    {
      writer.Some? ==> WriterOk(writer.value)
    }

    /** The output path must have an extension (the temporary directory sits beside it). */
    constructor (p: FilePath, segmentDuration: Option<int>)
      requires p.extension != []
      ensures path == p && segment == segmentDuration
      ensures State() == SinkState(None, None, []) && Valid()
    {
      path := p;
      segment := segmentDuration;
      decoder := None;
      writer := None;
      renames := [];
    }

    method OnMetadata(md: Metadata)
      requires Valid()
      modifies this
      ensures Valid() && State() == MetadataStep(old(State()), md)
    {
      if decoder.Some? {
        return;
      }
      decoder := Some(Decoder(md, None));
    }

    method ReleaseWriter()
      requires writer.Some?
      modifies this
      ensures State() == Release(old(State()), path, segment)
    {
      var name := CurrentFilename(path, segment, writer.value);
      renames := renames + [Rename(writer.value.filename, name)];
      writer := None;
    }

    method OnFrame(f: Frame, decoded: Option<ImageSize>, tempName: Octets)
      requires Valid()
      modifies this
      ensures Valid() && State() == FrameStep(old(State()), path, segment, f, decoded, tempName)
    {
      OnFrameKeepsWriterOk(State(), path, segment, f, decoded, tempName);
      if decoder.None? {
        return;
      }
      if decoder.value.size.None? {
        decoder := Some(decoder.value.(size := decoded));
      }
      if decoder.value.size.None? {
        return;
      }
      if f.keyFrame {
        if segment.Some? && writer.Some? && f.timestamp >= writer.value.startTs + segment.value {
          ReleaseWriter();
        }
        if writer.None? {
          writer := Some(Writer(tempName, false, 0, 0, []));
        }
      }
      if writer.Some? {
        writer := Some(WriteFrame(writer.value, f));
      }
    }

    /** The destructor: an open file is closed and renamed. */
    method Close()
      modifies this
      ensures State() == if old(writer).Some? then Release(old(State()), path, segment) else old(State())
    {
      if writer.Some? {
        ReleaseWriter();
      }
    }
  }
}
