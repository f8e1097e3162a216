/**
  GetMetaDataSize and ExtractMetaData: find the ICC profile, EXIF or XMP
  chunk of a WebP container, report its size, copy it out.
 */
module MetadataReader {
  import opened Libwebp

  // MetaDataType.
  const ColorProfile: int := 0
  const Exif: int := 1
  const Xmp: int := 2

  /** The chunk tag for a metadata kind; other values of the enumeration have none. */
  function ChunkTag(kind: int): (tag: Option<FourCC>)
    ensures tag.Some? <==> kind == ColorProfile || kind == Exif || kind == Xmp
  {
    if kind == ColorProfile then Some(IccpTag)
    else if kind == Exif then Some(ExifTag)
    else if kind == Xmp then Some(XmpTag)
    else None
  }

  /**
    Whether VP8X flags announce a chunk of this kind: the flag test in each
    case of the `switch (type)`. A kind without a chunk tag is never
    announced.
   */
  predicate FlagSet(flags: bv32, kind: int)
    ensures FlagSet(flags, kind) ==> ChunkTag(kind).Some?
  {
    if kind == ColorProfile then flags & IccpFlag != 0
    else if kind == Exif then flags & ExifFlag != 0
    else if kind == Xmp then flags & XmpFlag != 0
    else false
  }

  /** The container announces a chunk of this kind in its VP8X flags. */
  predicate Announced(d: Demuxer, kind: int) {
    FlagSet(d.formatFlags, kind)
  }

  /**
    The bytes the chunk iterator holds after the lookup: the first chunk of
    the kind's tag when the kind is known and its flag is set, nothing
    otherwise. Both GetMetaDataSize and ExtractMetaData make this one choice.
   */
  function Located(d: Demuxer, kind: int): (bytes: seq<uint8>)
    ensures !Announced(d, kind) ==> bytes == []
    ensures Announced(d, kind) && d.firstChunk(ChunkTag(kind).value).Some? ==>
      bytes == d.firstChunk(ChunkTag(kind).value).value
    ensures Announced(d, kind) && d.firstChunk(ChunkTag(kind).value).None? ==> bytes == []
  {
    if Announced(d, kind) then
      match d.firstChunk(ChunkTag(kind).value)
      case Some(payload) => payload
      case None => []
    else []
  }

  /**
    The `switch (type)` both GetMetaDataSize and ExtractMetaData run: read
    the format flags, and fetch the first chunk of the kind's tag only when
    its flag is set. A chunk iterator that was never filled holds no bytes.
   */
  method LookUpChunk(d: Demuxer, kind: int) returns (iter: seq<uint8>)
    ensures iter == Located(d, kind)
  {
    var flags := d.formatFlags;
    iter := [];
    if kind == ColorProfile {
      if flags & IccpFlag != 0 {
        iter := match d.firstChunk(IccpTag) case Some(payload) => payload case None => [];
      }
    } else if kind == Exif {
      if flags & ExifFlag != 0 {
        iter := match d.firstChunk(ExifTag) case Some(payload) => payload case None => [];
      }
    } else if kind == Xmp {
      if flags & XmpFlag != 0 {
        iter := match d.firstChunk(XmpTag) case Some(payload) => payload case None => [];
      }
    }
  }

  /** What GetMetaDataSize stores in `*outSize`. */
  function ReportedSize(demux: seq<uint8> -> Option<Demuxer>, data: seq<uint8>, kind: int): (n: nat)
    ensures n < Uint32Modulus
    ensures demux(data).None? ==> n == 0
    ensures demux(data).Some? ==> n == |Located(demux(data).value, kind)| % Uint32Modulus
  {
    match demux(data)
    case None => 0
    case Some(d) => |Located(d, kind)| % Uint32Modulus
  }

  /**
    GetMetaDataSize (WebP.cpp:171-215). `*outSize` is cleared first and
    stays 0 unless the container parses, the kind is known and its flag is
    set; then it is the size of the first chunk of that kind (0 when there is
    none), cast to `uint32_t`.
   */
  method GetMetaDataSize(demux: seq<uint8> -> Option<Demuxer>, data: seq<uint8>, kind: int)
    returns (outSize: nat)
    ensures outSize != 0 ==> demux(data).Some? && Announced(demux(data).value, kind)
    ensures outSize == ReportedSize(demux, data, kind)
  {
    outSize := 0;
    var parsed := demux(data);
    if parsed.Some? {
      var d := parsed.value;
      var iter := LookUpChunk(d, kind);
      outSize := |iter| % Uint32Modulus;
    }
  }

  /**
    ExtractMetaData (WebP.cpp:217-258): the same lookup as GetMetaDataSize,
    then exactly `outSize` bytes of the chunk are copied into the caller's
    buffer. Nothing is written when the container does not parse.
   */
  method ExtractMetaData(
    demux: seq<uint8> -> Option<Demuxer>, data: seq<uint8>, outData: array<uint8>, outSize: nat, kind: int)
    requires outSize <= outData.Length
    requires demux(data).Some? ==> outSize <= |Located(demux(data).value, kind)|
    modifies outData
    ensures demux(data).None? ==> outData[..] == old(outData[..])
    ensures demux(data).Some? ==>
      outData[..outSize] == Located(demux(data).value, kind)[..outSize] &&
      outData[outSize..] == old(outData[outSize..])
  {
    var parsed := demux(data);
    if parsed.Some? {
      var d := parsed.value;
      var iter := LookUpChunk(d, kind);
      forall i | 0 <= i < outSize {
        outData[i] := iter[i];
      }
    }
  }

  /**
    The size query and the copy fit together: the size GetMetaDataSize
    reports meets ExtractMetaData's requirement, and for a chunk under 4 GiB
    a copy of that many bytes is the whole chunk.
   */
  lemma SizeQueryFitsExtract(demux: seq<uint8> -> Option<Demuxer>, data: seq<uint8>, kind: int)
    requires demux(data).Some?
    ensures ReportedSize(demux, data, kind) <= |Located(demux(data).value, kind)|
    ensures |Located(demux(data).value, kind)| < Uint32Modulus ==>
      Located(demux(data).value, kind)[..ReportedSize(demux, data, kind)] == Located(demux(data).value, kind)
  {
  }

  /** Two containers agree on everything a lookup of `kind` reads: whether its flag is set and the first chunk of its tag. */
  predicate AgreeOnKind(d1: Demuxer, d2: Demuxer, kind: int) {
    && Announced(d1, kind) == Announced(d2, kind)
    && (ChunkTag(kind).Some? ==> d1.firstChunk(ChunkTag(kind).value) == d2.firstChunk(ChunkTag(kind).value))
  }

  /**
    A lookup reads nothing but its own kind's flag and chunk: containers that
    agree there locate the same bytes, so GetMetaDataSize reports the same
    size and ExtractMetaData copies the same prefix.
   */
  lemma LookupSeesOnlyItsKind(
    demux: seq<uint8> -> Option<Demuxer>, data1: seq<uint8>, data2: seq<uint8>, kind: int)
    requires demux(data1).Some? && demux(data2).Some?
    requires AgreeOnKind(demux(data1).value, demux(data2).value, kind)
    ensures Located(demux(data1).value, kind) == Located(demux(data2).value, kind)
    ensures ReportedSize(demux, data1, kind) == ReportedSize(demux, data2, kind)
  {
    LocatedSeesOnlyItsKind(demux(data1).value, demux(data2).value, kind);
  }

  /** `LookupSeesOnlyItsKind` for two containers that have already been parsed. */
  lemma LocatedSeesOnlyItsKind(d1: Demuxer, d2: Demuxer, kind: int)
    requires AgreeOnKind(d1, d2, kind)
    ensures Located(d1, kind) == Located(d2, kind)
  {
  }

  /** The VP8X flags agree on every bit but the one that announces kind `other`. */
  predicate FlagsAgreeBut(f1: bv32, f2: bv32, other: int)
    requires ChunkTag(other).Some?
  {
    if other == ColorProfile then f1 & !IccpFlag == f2 & !IccpFlag
    else if other == Exif then f1 & !ExifFlag == f2 & !ExifFlag
    else f1 & !XmpFlag == f2 & !XmpFlag
  }

  /**
    The two containers differ at most in the chunk of kind `other`: its flag
    bit and the first chunk of its tag.
   */
  ghost predicate DifferOnlyIn(d1: Demuxer, d2: Demuxer, other: int)
    requires ChunkTag(other).Some?
  {
    && FlagsAgreeBut(d1.formatFlags, d2.formatFlags, other)
    && forall tag: FourCC :: tag != ChunkTag(other).value ==> d1.firstChunk(tag) == d2.firstChunk(tag)
  }

  /**
    Metadata kinds never interfere: adding, removing or replacing the chunk
    of one kind, announced or not, leaves the lookup of every other kind as
    it was. This holds because the three kinds use distinct tags and
    distinct single bits of the VP8X flags (section 2.7 of RFC 9649).
   */
  lemma {:induction false} OtherKindsNeverInterfere(d1: Demuxer, d2: Demuxer, kind: int, other: int)
    requires ChunkTag(other).Some? && other != kind
    requires DifferOnlyIn(d1, d2, other)
    ensures Located(d1, kind) == Located(d2, kind)
  {
    if ChunkTag(kind).Some? {
      FlagAwayFromOther(d1.formatFlags, d2.formatFlags, kind, other);
      ChunkAwayFromOther(d1, d2, kind, other);
    }
    LocatedSeesOnlyItsKind(d1, d2, kind);
  }

  /**
    Each kind is announced by a bit of its own: flag words that agree away
    from the bit of kind `other` announce every other kind alike.
   */
  lemma FlagAwayFromOther(f1: bv32, f2: bv32, kind: int, other: int)
    requires ChunkTag(kind).Some? && ChunkTag(other).Some? && other != kind
    requires FlagsAgreeBut(f1, f2, other)
    ensures FlagSet(f1, kind) == FlagSet(f2, kind)
  {
    FlagBitsSeparate(f1, f2);
  }

  /** The ICCP, EXIF and XMP flags are distinct bits: flag words equal away from one of them are equal at the other two. */
  lemma FlagBitsSeparate(f1: bv32, f2: bv32)
    ensures f1 & !IccpFlag == f2 & !IccpFlag ==> f1 & ExifFlag == f2 & ExifFlag && f1 & XmpFlag == f2 & XmpFlag
    ensures f1 & !ExifFlag == f2 & !ExifFlag ==> f1 & IccpFlag == f2 & IccpFlag && f1 & XmpFlag == f2 & XmpFlag
    ensures f1 & !XmpFlag == f2 & !XmpFlag ==> f1 & IccpFlag == f2 & IccpFlag && f1 & ExifFlag == f2 & ExifFlag
  {
  }

  /** The first chunk of `kind`'s tag is the same in containers that differ only in kind `other`. */
  lemma ChunkAwayFromOther(d1: Demuxer, d2: Demuxer, kind: int, other: int)
    requires ChunkTag(kind).Some? && ChunkTag(other).Some? && other != kind
    requires DifferOnlyIn(d1, d2, other)
    ensures d1.firstChunk(ChunkTag(kind).value) == d2.firstChunk(ChunkTag(kind).value)
  {
    assert ChunkTag(kind).value != ChunkTag(other).value;
  }
}
