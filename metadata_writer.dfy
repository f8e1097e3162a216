/**
  SetMetaData: wraps an encoded WebP image and its ICC profile, EXIF and XMP
  blobs into one container with libwebp's mux, and hands the assembled bytes
  to the host's allocator.
 */
module MetadataWriter {
  import opened Libwebp
  import MetadataReader

  /** The metadata blobs the host passes; an empty blob stands for size 0. */
  datatype MetaDataParams = MetaDataParams(iccProfile: seq<uint8>, exif: seq<uint8>, xmp: seq<uint8>)

  /** Position of a metadata tag in the order SetMetaData adds chunks. */
  function TagRank(tag: FourCC): int {
    if tag == IccpTag then 0 else if tag == ExifTag then 1 else 2
  }

  /** The chunk call for one blob: none when the blob is empty. */
  function ChunkFor(tag: FourCC, blob: seq<uint8>): seq<MuxCall> {
    if |blob| > 0 then [SetChunk(tag, blob)] else []
  }

  /** The chunks SetMetaData adds, in the order it adds them. */
  function ChunkPlan(meta: MetaDataParams): seq<MuxCall> {
    ChunkFor(IccpTag, meta.iccProfile) + ChunkFor(ExifTag, meta.exif) + ChunkFor(XmpTag, meta.xmp)
  }

  /**
    SetMetaData adds a chunk for every non-empty blob and for no other, at
    most one per tag, in the order ICCP, EXIF, XMP.
   */
  lemma ChunkPlanShape(meta: MetaDataParams)
    ensures |ChunkPlan(meta)| <= 3
    ensures forall c :: c in ChunkPlan(meta) ==> c.SetChunk? && |c.payload| > 0
    ensures SetChunk(IccpTag, meta.iccProfile) in ChunkPlan(meta) <==> |meta.iccProfile| > 0
    ensures SetChunk(ExifTag, meta.exif) in ChunkPlan(meta) <==> |meta.exif| > 0
    ensures SetChunk(XmpTag, meta.xmp) in ChunkPlan(meta) <==> |meta.xmp| > 0
    ensures forall i, j :: 0 <= i < j < |ChunkPlan(meta)| ==>
      TagRank(ChunkPlan(meta)[i].tag) < TagRank(ChunkPlan(meta)[j].tag)
  {
  }

  /** Every call SetMetaData makes on the mux when nothing fails. */
  function Plan(image: seq<uint8>, meta: MetaDataParams): seq<MuxCall> {
    [SetImage(image)] + ChunkPlan(meta) + [Assemble]
  }

  /** The status of the `i`-th call, given the calls made before it on the same mux. */
  function Reply(mux: Muxer, calls: seq<MuxCall>, i: nat): int
    requires i < |calls|
  {
    mux.reply(calls[..i], calls[i])
  }

  /**
    `calls` is what an error-threading run of `plan` makes: the plan's calls
    in order, every one but the last succeeding, and the last one either
    failing or completing the plan.
   */
  predicate StopsAtFirstFailure(mux: Muxer, plan: seq<MuxCall>, calls: seq<MuxCall>) {
    && 0 < |calls| <= |plan|
    && calls == plan[..|calls|]
    && (forall i :: 0 <= i < |calls| - 1 ==> Reply(mux, calls, i) == MuxOk)
    && (|calls| < |plan| ==> Reply(mux, calls, |calls| - 1) != MuxOk)
  }

  /** Partway through a run of `plan`: the steps so far all succeeded but the last, whose status is `error`. */
  ghost predicate Running(mux: Muxer, plan: seq<MuxCall>, calls: seq<MuxCall>, error: int) {
    && 0 < |calls| <= |plan|
    && calls == plan[..|calls|]
    && (forall i :: 0 <= i < |calls| - 1 ==> Reply(mux, calls, i) == MuxOk)
    && error == Reply(mux, calls, |calls| - 1)
  }

  /** Making the plan's first call starts a run. */
  lemma RunStart(mux: Muxer, plan: seq<MuxCall>)
    requires 0 < |plan|
    ensures Running(mux, plan, [plan[0]], mux.reply([], plan[0]))
  {
    assert [plan[0]] == plan[..1];
    assert [plan[0]][..0] == [];
  }

  /** A run that hit a failure, or made every call, is over. */
  lemma RunStops(mux: Muxer, plan: seq<MuxCall>, calls: seq<MuxCall>, error: int)
    requires Running(mux, plan, calls, error) && (error != MuxOk || |calls| == |plan|)
    ensures StopsAtFirstFailure(mux, plan, calls)
  {
  }

  /** After a successful step, making the plan's next call keeps the run going. */
  lemma RunStep(mux: Muxer, plan: seq<MuxCall>, calls: seq<MuxCall>, error: int)
    requires Running(mux, plan, calls, error) && error == MuxOk && |calls| < |plan|
    ensures Running(mux, plan, calls + [plan[|calls|]], mux.reply(calls, plan[|calls|]))
  {
    AppendKeepsReplies(mux, calls, plan[|calls|]);
    assert calls + [plan[|calls|]] == plan[..|calls| + 1];
  }

  /**
    SetMetaData (WebP.cpp:260-336). `calls` lists the calls made on the mux
    after WebPMuxNew, in order. No allocator is an invalid argument; a failed
    WebPMuxNew is a memory error; after that the image is set, the non-empty
    blobs are added as ICCP, EXIF and XMP chunks and the container is
    assembled, stopping at the first status that is not WEBP_MUX_OK, which is
    returned. On success `*outImage` holds exactly the assembled bytes; an
    allocator that refuses their size is a memory error.
   */
  method SetMetaData(mux: Muxer, image: seq<uint8>, allocator: Option<Allocator>, meta: MetaDataParams)
    returns (status: int, output: OutputSlot, calls: seq<MuxCall>)
    ensures allocator.None? ==> status == MuxInvalidArgument && output == Untouched && calls == []
    ensures allocator.Some? && !mux.newOk ==> status == MuxMemoryError && output == Untouched && calls == []
    ensures allocator.Some? && mux.newOk ==> StopsAtFirstFailure(mux, Plan(image, meta), calls)
    ensures calls != [] && Reply(mux, calls, |calls| - 1) != MuxOk ==>
      status == Reply(mux, calls, |calls| - 1) && output == Untouched
    ensures allocator.Some? && calls != [] && Reply(mux, calls, |calls| - 1) == MuxOk ==>
      var bytes := mux.assembled(calls[..|calls| - 1]);
      calls == Plan(image, meta) &&
      if allocator.value(|bytes|) then status == MuxOk && output == Buffer(bytes)
      else status == MuxMemoryError && output == Null
  {
    output := Untouched;
    calls := [];
    if allocator.None? {
      return MuxInvalidArgument, output, calls;
    }
    if !mux.newOk {
      return MuxMemoryError, output, calls;
    }

    ghost var plan := Plan(image, meta);
    var error := mux.reply(calls, SetImage(image));
    RunStart(mux, plan);
    calls := calls + [SetImage(image)];

    if error == MuxOk {
      calls, error := AddChunks(mux, plan, image, meta, calls);
      if error == MuxOk {
        calls, status, output := AssembleInto(mux, plan, calls, allocator.value);
        return;
      }
    }
    RunStops(mux, plan, calls, error);
    status := error;
  }

  /**
    The three chunk blocks of SetMetaData (WebP.cpp:283-305) after the image
    was set: each non-empty blob is added in turn while every step so far
    succeeded. When all succeed, only the assembly is left of the plan.
   */
  method AddChunks(mux: Muxer, ghost plan: seq<MuxCall>, image: seq<uint8>, meta: MetaDataParams, calls: seq<MuxCall>)
    returns (calls': seq<MuxCall>, error: int)
    requires plan == Plan(image, meta) && calls == [SetImage(image)]
    requires Running(mux, plan, calls, MuxOk)
    ensures Running(mux, plan, calls', error) && |calls'| < |plan|
    ensures error == MuxOk ==> plan == calls' + [Assemble]
  {
    ghost var icc, exif, xmp := ChunkFor(IccpTag, meta.iccProfile), ChunkFor(ExifTag, meta.exif), ChunkFor(XmpTag, meta.xmp);
    assert plan == [SetImage(image)] + icc + exif + xmp + [Assemble];
    calls', error := AddChunk(mux, plan, calls, MuxOk, IccpTag, meta.iccProfile);
    assert error == MuxOk ==> calls' == [SetImage(image)] + icc;
    calls', error := AddChunk(mux, plan, calls', error, ExifTag, meta.exif);
    assert error == MuxOk ==> calls' == [SetImage(image)] + icc + exif;
    calls', error := AddChunk(mux, plan, calls', error, XmpTag, meta.xmp);
    assert error == MuxOk ==> calls' == [SetImage(image)] + icc + exif + xmp;
  }

  /**
    The tail of SetMetaData (WebP.cpp:307-331): assemble the container and,
    when that succeeds, copy the bytes into a buffer from the host's
    allocator. The run is then complete.
   */
  method AssembleInto(mux: Muxer, ghost plan: seq<MuxCall>, calls: seq<MuxCall>, allocator: Allocator)
    returns (calls': seq<MuxCall>, status: int, output: OutputSlot)
    requires Running(mux, plan, calls, MuxOk) && plan == calls + [Assemble]
    ensures calls' == plan && StopsAtFirstFailure(mux, plan, calls')
    ensures mux.reply(calls, Assemble) != MuxOk ==> status == mux.reply(calls, Assemble) && output == Untouched
    ensures mux.reply(calls, Assemble) == MuxOk ==>
      if allocator(|mux.assembled(calls)|) then status == MuxOk && output == Buffer(mux.assembled(calls))
      else status == MuxMemoryError && output == Null
  {
    output := Untouched;
    var assembled := mux.assembled(calls);
    status := mux.reply(calls, Assemble);
    RunStep(mux, plan, calls, MuxOk);
    calls' := calls + [Assemble];
    RunStops(mux, plan, calls', status);
    if status == MuxOk {
      if allocator(|assembled|) {
        output := Buffer(assembled);
      } else {
        output := Null;
        status := MuxMemoryError;
      }
    }
  }

  /**
    One `if (error == WEBP_MUX_OK && size > 0)` block of SetMetaData: a
    non-empty blob is added as a chunk only while every earlier step has
    succeeded, and the status becomes that call's.
   */
  method AddChunk(mux: Muxer, ghost plan: seq<MuxCall>, calls: seq<MuxCall>, error: int, tag: FourCC, blob: seq<uint8>)
    returns (calls': seq<MuxCall>, error': int)
    requires Running(mux, plan, calls, error)
    requires error == MuxOk && |blob| > 0 ==> |calls| < |plan| && plan[|calls|] == SetChunk(tag, blob)
    ensures Running(mux, plan, calls', error')
    ensures error == MuxOk && |blob| > 0 ==>
      calls' == calls + [SetChunk(tag, blob)] && error' == mux.reply(calls, SetChunk(tag, blob))
    ensures error != MuxOk || |blob| == 0 ==> calls' == calls && error' == error
  {
    calls', error' := calls, error;
    if error == MuxOk && |blob| > 0 {
      error' := mux.reply(calls, SetChunk(tag, blob));
      RunStep(mux, plan, calls, error);
      calls' := calls + [SetChunk(tag, blob)];
    }
  }

  /**
    The run is determined by the mux's replies: two call sequences that both
    stop at the first failure of the same plan are the same sequence.
   */
  lemma {:induction false} FirstFailureUnique(mux: Muxer, plan: seq<MuxCall>, c1: seq<MuxCall>, c2: seq<MuxCall>)
    requires StopsAtFirstFailure(mux, plan, c1) && StopsAtFirstFailure(mux, plan, c2)
    ensures c1 == c2
  {
    if |c1| < |c2| {
      SharedPrefixSameReply(mux, plan, c1, c2, |c1| - 1);
      assert false;
    } else if |c2| < |c1| {
      SharedPrefixSameReply(mux, plan, c2, c1, |c2| - 1);
      assert false;
    }
  }

  /** Two runs of one plan see the same reply at a step both of them make. */
  lemma SharedPrefixSameReply(mux: Muxer, plan: seq<MuxCall>, c1: seq<MuxCall>, c2: seq<MuxCall>, k: nat)
    requires |c1| <= |plan| && c1 == plan[..|c1|]
    requires |c2| <= |plan| && c2 == plan[..|c2|]
    requires k < |c1| && k < |c2|
    ensures Reply(mux, c1, k) == Reply(mux, c2, k)
  {
    assert c1[..k] == plan[..k] == c2[..k];
  }

  /** Appending a call leaves the replies to the earlier calls as they were. */
  lemma AppendKeepsReplies(mux: Muxer, calls: seq<MuxCall>, c: MuxCall)
    ensures forall i :: 0 <= i < |calls| ==> Reply(mux, calls + [c], i) == Reply(mux, calls, i)
    ensures Reply(mux, calls + [c], |calls|) == mux.reply(calls, c)
  {
    forall i | 0 <= i < |calls|
      ensures Reply(mux, calls + [c], i) == Reply(mux, calls, i)
    {
      assert (calls + [c])[..i] == calls[..i];
    }
    assert (calls + [c])[..|calls|] == calls;
  }

  /** The blob the host passes for a metadata kind. */
  function Blob(meta: MetaDataParams, kind: int): seq<uint8> {
    if kind == MetadataReader.ColorProfile then meta.iccProfile
    else if kind == MetadataReader.Exif then meta.exif
    else if kind == MetadataReader.Xmp then meta.xmp
    else []
  }

  /**
    Writing and reading agree on tags: a kind's blob is added exactly when it
    is non-empty, under the tag GetMetaDataSize and ExtractMetaData look up
    for that kind.
   */
  lemma WriterUsesReaderTags(meta: MetaDataParams, kind: int)
    requires MetadataReader.ChunkTag(kind).Some?
    ensures SetChunk(MetadataReader.ChunkTag(kind).value, Blob(meta, kind)) in ChunkPlan(meta) <==> |Blob(meta, kind)| > 0
  {
  }
}
