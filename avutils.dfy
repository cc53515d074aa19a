/**
 * The name and format mappings of src/avutils.cpp: the encoder name FFmpeg
 * knows a codec by, the two pixel formats shared with FFmpeg, image sizes
 * parsed from option text, and codec ids.
 */
module AvUtils {
  import opened Octets
  import opened Wrappers
  import opened ErrorOr

  /** `to_av_codec_name`: FFmpeg's VP9 encoder is "libvpx-vp9"; other names pass unchanged. */
  function ToAvCodecName(codecName: Octets): (r: Octets)
    ensures codecName == "vp9" ==> r == "libvpx-vp9"
    ensures codecName != "vp9" ==> r == codecName
  {
    if codecName == "vp9" then "libvpx-vp9" else codecName
  }

  /** Mapping a name twice maps it once: "libvpx-vp9" is not "vp9". */
  lemma ToAvCodecNameIdempotent(codecName: Octets)
    ensures ToAvCodecName(ToAvCodecName(codecName)) == ToAvCodecName(codecName)
  {
    assert |"libvpx-vp9"| != |"vp9"|;
  }

  /**
   * `image_pixel_format`: the two formats of the SDK, and any other value
   * the enumeration can be cast from.
   */
  datatype ImagePixelFormat = Rgb0 | Bgr | OtherImageFormat(code: int)

  /** FFmpeg's `AVPixelFormat`: the two formats the SDK uses, and the rest. */
  datatype AvPixelFormat = AvBgr24 | AvRgb0 | OtherAvFormat(name: Octets)

  /** A conversion that throws `std::runtime_error` on a format it does not know. */
  datatype Conversion<T> = Converted(value: T) | Unsupported

  /** The formats the mappings are defined on. */
  predicate KnownImageFormat(f: ImagePixelFormat)
  {
    f == Rgb0 || f == Bgr
  }

  predicate KnownAvFormat(f: AvPixelFormat)
  {
    f == AvBgr24 || f == AvRgb0
  }

  /** `to_av_pixel_format`: BGR is BGR24, RGB0 is RGB0; anything else throws. */
  function ToAvPixelFormat(f: ImagePixelFormat): (r: Conversion<AvPixelFormat>)
    ensures r.Converted? <==> KnownImageFormat(f)
    ensures r.Converted? ==> KnownAvFormat(r.value)
  {
    match f
    case Bgr => Converted(AvBgr24)
    case Rgb0 => Converted(AvRgb0)
    case OtherImageFormat(_) => Unsupported
  }

  /** `to_image_pixel_format`: the inverse mapping; anything else throws. */
  function ToImagePixelFormat(f: AvPixelFormat): (r: Conversion<ImagePixelFormat>)
    ensures r.Converted? <==> KnownAvFormat(f)
    ensures r.Converted? ==> KnownImageFormat(r.value)
  {
    match f
    case AvBgr24 => Converted(Bgr)
    case AvRgb0 => Converted(Rgb0)
    case OtherAvFormat(_) => Unsupported
  }

  /** The two mappings undo each other on the formats they know. */
  lemma PixelFormatsInverse(f: ImagePixelFormat, a: AvPixelFormat)
    ensures KnownImageFormat(f) ==> ToImagePixelFormat(ToAvPixelFormat(f).value) == Converted(f)
    ensures KnownAvFormat(a) ==> ToAvPixelFormat(ToImagePixelFormat(a).value) == Converted(a)
  {
  }

  /** `image_size`: two `int16_t`. */
  datatype ImageSize = ImageSize(width: int, height: int)

  /** `original_image_width` and `original_image_height`: keep the source's size. */
  const Original: ImageSize := ImageSize(-1, -1)

  /** The conversion of an `int` to `int16_t`: modulo 2^16 into [-2^15, 2^15). */
  function Int16(n: int): (r: int)
    ensures -0x8000 <= r < 0x8000
    ensures (r - n) % 0x1_0000 == 0
  {
    (n + 0x8000) % 0x1_0000 - 0x8000
  }

  /**
   * `parse_image_size`: "original" is the original size; any other text is
   * parsed by FFmpeg, whose answer is the parameter `avParsed` (`None` when
   * it fails), a failure being a bad-message error and a success kept as two
   * `int16_t`.
   */
  function ParseImageSize(str: Octets, avParsed: Option<(int, int)>): (r: Outcome<ImageSize>)
    ensures str == "original" ==> r == Value(Original)
    ensures str != "original" && avParsed.None? ==> r == Failure(BadMessage)
  {
    if str == "original" then Value(Original)
    else match avParsed
      case None => Failure(BadMessage)
      case Some((w, h)) => Value(ImageSize(Int16(w), Int16(h)))
  }

  /** A size FFmpeg gives within `int16_t` is kept as it is, as "137x245" gives 137 by 245. */
  lemma ParsedSizeKept(str: Octets, w: int, h: int)
    requires str != "original"
    requires -0x8000 <= w < 0x8000 && -0x8000 <= h < 0x8000
    ensures ParseImageSize(str, Some((w, h))) == Value(ImageSize(w, h))
  {
    Int16Small(w);
    Int16Small(h);
  }

  lemma Int16Small(n: int)
    requires -0x8000 <= n < 0x8000
    ensures Int16(n) == n
  {
    assert 0 <= n + 0x8000 < 0x1_0000;
  }

  /** A width FFmpeg gives beyond `int16_t` wraps: 40000 becomes -25536. */
  lemma WideSizeWraps(str: Octets)
    requires str != "original"
    ensures ParseImageSize(str, Some((40000, 240))) == Value(ImageSize(-25536, 240))
  {
    Int16Small(240);
  }

  /** The codecs the SDK handles. */
  datatype CodecId = Vp8 | Vp9 | H264

  /** `codec_id`: defined for "vp8", "vp9" and "h264"; any other name ends the process. */
  function CodecIdOf(codecName: Octets): (r: Option<CodecId>)
    ensures r.Some? <==> codecName == "vp8" || codecName == "vp9" || codecName == "h264"
  {
    if codecName == "vp8" then Some(Vp8)
    else if codecName == "vp9" then Some(Vp9)
    else if codecName == "h264" then Some(H264)
    else None
  }

  /** The name of each codec, as `codec_id` reads it. */
  function CodecName(c: CodecId): (name: Octets)
    ensures CodecIdOf(name) == Some(c)
  {
    match c
    case Vp8 => "vp8"
    case Vp9 => "vp9"
    case H264 => "h264"
  }

  /** Each codec's name maps back to it. */
  lemma CodecIdOfName(c: CodecId)
    ensures CodecIdOf(CodecName(c)) == Some(c)
  {
  }
}
