/**
  The parts of libwebp that the Paint.NET bridge talks to, seen from the bridge.

  libwebp itself is not modelled. Its entry points appear here only as oracles:
  function values that the bridge's callers supply and that say what a call
  returns (a status code, and where the bridge reads one, a payload). The
  constants are the values of libwebp's public enumerations that the bridge
  compares against or returns; a few more members are listed so that each
  enumeration is complete.
 */
module Libwebp {

  newtype uint8 = x: int | 0 <= x < 0x100

  datatype Option<+T> = None | Some(value: T)

  /** A chunk tag of the RIFF container: four characters, case and space sensitive. */
  type FourCC = s: string | |s| == 4 witness "    "

  const IccpTag: FourCC := "ICCP"
  const ExifTag: FourCC := "EXIF"
  const XmpTag: FourCC := "XMP "

  /** 2^32: `uint32_t` results wrap modulo this. */
  const Uint32Modulus: int := 0x1_0000_0000

  // WebPEncodingError values the bridge returns itself.
  const EncOk: int := 0
  const EncErrorOutOfMemory: int := 1
  const EncErrorNullParameter: int := 3

  /** The bridge's own code for a failed WebPConfigPreset or WebPPictureInit. */
  const ErrVersionMismatch: int := -1

  // WebPPreset, in libwebp's enumeration order.
  const PresetDefault: int := 0
  const PresetPicture: int := 1
  const PresetPhoto: int := 2
  const PresetDrawing: int := 3
  const PresetIcon: int := 4
  const PresetText: int := 5

  // WebPImageHint.
  const HintDefault: int := 0
  const HintPicture: int := 1
  const HintPhoto: int := 2
  const HintGraph: int := 3

  // WebPMuxError.
  const MuxOk: int := 1
  const MuxNotFound: int := 0
  const MuxInvalidArgument: int := -1
  const MuxBadData: int := -2
  const MuxMemoryError: int := -3
  const MuxNotEnoughData: int := -4

  // WebPFeatureFlags: the bits of the VP8X flags byte
  // (section 2.7 of RFC 9649, "Extended File Format").
  const AnimationFlag: bv32 := 0x02
  const XmpFlag: bv32 := 0x04
  const ExifFlag: bv32 := 0x08
  const AlphaFlag: bv32 := 0x10
  const IccpFlag: bv32 := 0x20

  /** The fields of libwebp's WebPConfig that the bridge reads or writes. */
  datatype WebPConfig = WebPConfig(
    quality: int,
    lossless: int,
    effort: int,  // `method`: speed/quality trade-off, 0..6
    imageHint: int,
    targetSize: int,
    filterStrength: int,
    filterType: int,
    filterSharpness: int,
    snsStrength: int,
    threadLevel: int)

  /** Which of WebPPictureImportBGRA and WebPPictureImportBGRX is called. */
  datatype ImportMode = Bgra | Bgrx

  /** The identity of the host's progress callback (a function pointer in the bridge). */
  type ProgressFn = nat

  /**
    The fields of libwebp's WebPPicture that the bridge writes, plus `planes`,
    the pixel data an import leaves in the picture.
   */
  datatype WebPPicture = WebPPicture(
    useArgb: int,
    width: int,
    height: int,
    memoryWriter: bool,
    planes: seq<uint8>,
    userData: Option<ProgressFn>,
    progressHook: bool)

  /** What WebPPictureInit leaves: every field zero or null. */
  const InitialPicture := WebPPicture(0, 0, 0, false, [], None, false)

  /** Outcome of WebPEncode: the bytes the memory writer collected, or `pic.error_code`. */
  datatype EncodeOutcome = Encoded(bytes: seq<uint8>) | EncodeFailed(errorCode: int)

  /** The encoder entry points WebPSave calls. */
  datatype Encoder = Encoder(
    configPreset: (int, int) -> Option<WebPConfig>,  // WebPConfigPreset(preset, quality); None when it returns 0
    pictureInit: bool,                                // WebPPictureInit succeeds
    importPixels: (ImportMode, WebPPicture, seq<uint8>, int) -> Option<seq<uint8>>,  // import(mode, pic, bitmap, stride)
    encode: (WebPConfig, WebPPicture) -> EncodeOutcome)

  /** The host's allocation callback: whether a request of that many bytes yields a buffer. */
  type Allocator = nat -> bool

  /** What a `void**` out-parameter holds when the bridge returns. */
  datatype OutputSlot = Untouched | Null | Buffer(bytes: seq<uint8>)

  /**
    A container that WebPDemux accepted: the VP8X format flags
    (WebPDemuxGetI with WEBP_FF_FORMAT_FLAGS) and, per tag, the payload of the
    first chunk with that tag (WebPDemuxGetChunk with chunk number 1).
   */
  datatype Demuxer = Demuxer(formatFlags: bv32, firstChunk: FourCC -> Option<seq<uint8>>)

  /** The calls SetMetaData makes on a mux object after WebPMuxNew. */
  datatype MuxCall = SetImage(image: seq<uint8>) | SetChunk(tag: FourCC, payload: seq<uint8>) | Assemble

  /**
    The mux entry points. `reply(before, call)` is the WebPMuxError status of
    `call` on a mux that has already seen the calls `before`; `assembled(before)`
    is what WebPMuxAssemble writes after those calls.
   */
  datatype Muxer = Muxer(
    newOk: bool,
    reply: (seq<MuxCall>, MuxCall) -> int,
    assembled: seq<MuxCall> -> seq<uint8>)
}
