/**
  WebPSave: turns the host's encoding options into a libwebp configuration,
  imports the bitmap in the mode the transparency scan picks, runs the
  encoder and hands the result to the host's allocator.
 */
module Encoder {
  import opened Libwebp
  import opened Transparency

  /** The options the host passes (the `EncodeParams` record WebP.cpp reads). */
  datatype EncodeParams = EncodeParams(
    quality: int,
    preset: int,
    effort: int,  // `method`
    fileSize: int,
    filterStrength: int,
    filterType: int,
    sharpness: int,
    noiseShaping: int)

  /** A libwebp call WebPSave makes, with the arguments that matter. */
  datatype EncoderCall =
    | ConfigPresetCall(preset: int, quality: int)
    | PictureInitCall
    | ImportCall(mode: ImportMode, picture: WebPPicture, stride: int)
    | EncodeCall(config: WebPConfig, picture: WebPPicture)

  /**
    The configuration WebPSave hands to the encoder, given the one
    WebPConfigPreset produced. Quality 100 forces lossless mode and picks an
    image hint from the preset; any other quality applies the lossy options,
    except that Icon and Text presets keep their own filter strength.
   */
  function Configure(base: WebPConfig, p: EncodeParams): (c: WebPConfig)
    ensures c.effort == p.effort && c.threadLevel == 1
    ensures c.quality == base.quality
    ensures p.quality == 100 ==> c.lossless == 1
    ensures p.quality == 100 && p.preset == PresetPhoto ==> c.imageHint == HintPhoto
    ensures p.quality == 100 && p.preset == PresetPicture ==> c.imageHint == HintPicture
    ensures p.quality == 100 && p.preset == PresetDrawing ==> c.imageHint == HintGraph
    ensures p.quality == 100 && p.preset != PresetPhoto && p.preset != PresetPicture && p.preset != PresetDrawing ==>
      c.imageHint == base.imageHint
    ensures p.quality == 100 ==>
      c.targetSize == base.targetSize && c.filterStrength == base.filterStrength &&
      c.filterType == base.filterType && c.filterSharpness == base.filterSharpness &&
      c.snsStrength == base.snsStrength
    ensures p.quality != 100 ==> c.lossless == base.lossless && c.imageHint == base.imageHint
    ensures p.quality != 100 ==> (c.targetSize == if p.fileSize > 0 then p.fileSize else base.targetSize)
    ensures p.quality != 100 ==>
      (c.filterStrength == if p.preset < PresetIcon then p.filterStrength else base.filterStrength)
    ensures p.quality != 100 ==>
      c.filterType == p.filterType && c.filterSharpness == p.sharpness && c.snsStrength == p.noiseShaping
  {
    var c := base.(effort := p.effort, threadLevel := 1);
    if p.quality == 100 then
      var hint :=
        if p.preset == PresetPhoto then HintPhoto
        else if p.preset == PresetPicture then HintPicture
        else if p.preset == PresetDrawing then HintGraph
        else c.imageHint;
      c.(lossless := 1, imageHint := hint)
    else
      c.(targetSize := if p.fileSize > 0 then p.fileSize else c.targetSize,
         filterStrength := if p.preset < PresetIcon then p.filterStrength else c.filterStrength,
         filterType := p.filterType,
         filterSharpness := p.sharpness,
         snsStrength := p.noiseShaping)
  }

  /**
    The picture WebPSave hands to the import: a fresh picture with ARGB
    storage requested exactly for lossless encoding, the bitmap's size and
    the memory writer installed.
   */
  function PictureFor(p: EncodeParams, width: int, height: int): (pic: WebPPicture)
    ensures pic.useArgb == 1 <==> p.quality == 100
    ensures pic.useArgb == 0 <==> p.quality != 100
    ensures pic.width == width && pic.height == height && pic.memoryWriter
    ensures pic.planes == [] && pic.userData == None && !pic.progressHook
  {
    InitialPicture.(useArgb := if p.quality == 100 then 1 else 0, width := width, height := height, memoryWriter := true)
  }

  /**
    The option handling of WebPSave (WebP.cpp:82-117), one field at a time:
    the result is `Configure` of the preset configuration, and the picture
    asks for ARGB storage at quality 100.
   */
  method ApplyOptions(base: WebPConfig, basePic: WebPPicture, params: EncodeParams)
    returns (config: WebPConfig, pic: WebPPicture)
    ensures config == Configure(base, params)
    ensures pic == if params.quality == 100 then basePic.(useArgb := 1) else basePic
  {
    config, pic := base, basePic;
    config := config.(effort := params.effort);
    config := config.(threadLevel := 1);

    if params.quality == 100 {
      config := config.(lossless := 1);
      pic := pic.(useArgb := 1);
      if params.preset == PresetPhoto {
        config := config.(imageHint := HintPhoto);
      } else if params.preset == PresetPicture {
        config := config.(imageHint := HintPicture);
      } else if params.preset == PresetDrawing {
        config := config.(imageHint := HintGraph);
      }
    } else {
      if params.fileSize > 0 {
        config := config.(targetSize := params.fileSize);
      }
      if params.preset < PresetIcon {
        config := config.(filterStrength := params.filterStrength);
      }
      config := config.(filterType := params.filterType);
      config := config.(filterSharpness := params.sharpness);
      config := config.(snsStrength := params.noiseShaping);
    }
  }

  /**
    WebPSave (WebP.cpp:58-169). `trace` lists the libwebp calls made, in
    order; the run stops at the first failing step, whose failure decides
    the status:
      - no allocator: VP8_ENC_ERROR_NULL_PARAMETER, before any libwebp call;
      - WebPConfigPreset or WebPPictureInit fails: the bridge's version-mismatch code;
      - the import fails: VP8_ENC_ERROR_OUT_OF_MEMORY;
      - the encode fails: the picture's error code, unchanged;
      - the allocator refuses the output size: VP8_ENC_ERROR_OUT_OF_MEMORY;
      - otherwise 0, with the encoded bytes in `*output`.
   */
  method WebPSave(
    lib: Encoder, allocator: Option<Allocator>, bitmap: array<uint8>,
    width: int, height: int, stride: int, params: EncodeParams, callback: Option<ProgressFn>)
    returns (status: int, output: OutputSlot, trace: seq<EncoderCall>)
    requires Layout(bitmap.Length, width, height, stride)
    ensures trace == [] <==> allocator.None?
    ensures allocator.None? ==> status == EncErrorNullParameter && output == Untouched
    ensures |trace| <= 4
    ensures |trace| >= 1 ==> trace[0] == ConfigPresetCall(params.preset, params.quality)
    ensures |trace| == 1 <==> allocator.Some? && lib.configPreset(params.preset, params.quality).None?
    ensures |trace| >= 2 ==> trace[1] == PictureInitCall
    ensures |trace| == 2 <==> allocator.Some? && lib.configPreset(params.preset, params.quality).Some? && !lib.pictureInit
    ensures |trace| == 1 || |trace| == 2 ==> status == ErrVersionMismatch && output == Untouched
    ensures |trace| >= 3 ==>
      trace[2] == ImportCall(ImportModeFor(bitmap[..], width, height, stride), PictureFor(params, width, height), stride)
    ensures |trace| == 3 <==>
      allocator.Some? && lib.configPreset(params.preset, params.quality).Some? && lib.pictureInit &&
      lib.importPixels(ImportModeFor(bitmap[..], width, height, stride), PictureFor(params, width, height), bitmap[..], stride).None?
    ensures |trace| == 3 ==> status == EncErrorOutOfMemory && output == Untouched
    ensures |trace| == 4 ==>
      var planes := lib.importPixels(trace[2].mode, trace[2].picture, bitmap[..], stride);
      planes.Some? &&
      trace[3] == EncodeCall(
        Configure(lib.configPreset(params.preset, params.quality).value, params),
        PictureFor(params, width, height).(planes := planes.value, userData := callback, progressHook := callback.Some?))
    ensures |trace| == 4 ==>
      match lib.encode(trace[3].config, trace[3].picture)
      case EncodeFailed(code) => status == code && output == Untouched
      case Encoded(bytes) =>
        if allocator.value(|bytes|) then status == EncOk && output == Buffer(bytes)
        else status == EncErrorOutOfMemory && output == Null
  {
    output := Untouched;
    trace := [];
    if allocator.None? {
      return EncErrorNullParameter, output, trace;
    }

    trace := trace + [ConfigPresetCall(params.preset, params.quality)];
    var preset := lib.configPreset(params.preset, params.quality);
    if preset.None? {
      return ErrVersionMismatch, output, trace;
    }
    trace := trace + [PictureInitCall];
    if !lib.pictureInit {
      return ErrVersionMismatch, output, trace;
    }
    var config := preset.value;
    var pic := InitialPicture;

    config, pic := ApplyOptions(config, pic, params);

    pic := pic.(width := width, height := height);
    pic := pic.(memoryWriter := true);

    var transparent := HasTransparency(bitmap, width, height, stride);
    var mode := if transparent then Bgra else Bgrx;
    trace := trace + [ImportCall(mode, pic, stride)];
    var planes := lib.importPixels(mode, pic, bitmap[..], stride);
    if planes.None? {
      return EncErrorOutOfMemory, output, trace;
    }
    pic := pic.(planes := planes.value);

    if callback.Some? {
      pic := pic.(userData := callback, progressHook := true);
    }

    trace := trace + [EncodeCall(config, pic)];
    match lib.encode(config, pic) {
      case Encoded(bytes) =>
        if allocator.value(|bytes|) {
          output := Buffer(bytes);
          status := EncOk;
        } else {
          output := Null;
          status := EncErrorOutOfMemory;
        }
      case EncodeFailed(code) =>
        status := code;
    }
  }

  /**
    Lossless mode ignores the lossy options: at quality 100 the target size,
    filter strength, type and sharpness and the noise shaping the host asks
    for make no difference to the configuration.
   */
  lemma LosslessIgnoresLossyOptions(base: WebPConfig, p: EncodeParams, q: EncodeParams)
    requires p.quality == 100 && q.quality == 100
    requires p.preset == q.preset && p.effort == q.effort
    ensures Configure(base, p) == Configure(base, q)
  {
  }
}
