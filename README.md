# Paint.NET WebP bridge: a Dafny model

This project models the native bridge between the Paint.NET WebP file-type
plugin and libwebp (`WebP/WebP.cpp`). The bridge glues libwebp calls together,
and around those calls it makes a few small, exact decisions. The model covers
these decisions:

- **Transparency scan** (`Transparency`). `HasTransparency` walks a strided
  32-bit BGRA buffer row by row. It reports whether any pixel's alpha byte is
  below 255. The answer picks BGRA (alpha-aware) or BGRX (opaque) import.
- **Encoder set-up and result mapping** (`Encoder`). `WebPSave` turns the
  host's options into a libwebp configuration. It imports the bitmap, runs
  the encoder, and maps each failure to a return code. On success it copies
  the encoded bytes into a buffer from the host's allocator.
- **Metadata lookup** (`MetadataReader`). `GetMetaDataSize` and
  `ExtractMetaData` map a metadata kind to a chunk tag (`ICCP`, `EXIF`,
  `XMP `). They look the chunk up only when the matching VP8X format flag is
  set (section 2.7 of RFC 9649, "Extended File Format").
- **Metadata injection** (`MetadataWriter`). `SetMetaData` sets the image on a
  mux. Then it adds the non-empty ICC profile, EXIF and XMP blobs, in that
  order, and assembles the container. It stops at the first status that is
  not OK and returns that status.

libwebp is not modelled. Each entry point the bridge calls is an oracle: a
function value, supplied by the caller, that gives the call's status and, where
the bridge reads one, its payload (`Libwebp.Encoder`, `Libwebp.Demuxer`,
`Libwebp.Muxer`). The host's allocation callback is an oracle too: it says
whether a request of a given size yields a buffer.

`WebPSave` and `SetMetaData` also return the sequence of libwebp calls they
made, with their arguments. This is how the model states facts about call
order: what is called before what, what is never called, and where a run
stops. `WebPSave`'s list holds `WebPConfigPreset`, `WebPPictureInit`, the
import and `WebPEncode`; it leaves out `WebPMemoryWriterInit`, which cannot
fail, and the cleanup calls. `SetMetaData`'s list holds the calls on the mux
after `WebPMuxNew`; it leaves out `WebPMuxDelete` and `WebPDataClear`.
`GetMetaDataSize` and `ExtractMetaData` return no call list: what their
`WebPDemux`, `WebPDemuxGetI` and `WebPDemuxGetChunk` calls yield is stated
through `Located`, the bytes the lookup ends up with.

`*output` and `*outImage` are modelled as an `OutputSlot`. The slot is
untouched, set to null, or set to a buffer holding given bytes.
`ExtractMetaData` writes into the caller's array in place.

Behaviour of the code the model follows:
- Filter strength is suppressed for every preset value from `WEBP_PRESET_ICON`
  upward, not only for Icon. That covers Icon and Text.
- At quality 100, presets other than Photo, Picture and Drawing keep the image
  hint that `WebPConfigPreset` left. The bridge sets no hint for them.
- The metadata lookup depends on the VP8X format flags, not only on whether
  the chunk is present.
- `WebP/WebP.h` does not match the `.cpp`. Its `EncodeParams` has only quality
  and preset, `WebPSave` takes an extra metadata argument, and some names are
  spelled differently. The record shapes here follow how `WebP.cpp` uses them.

## Model

| member | source | states |
|---|---|---|
| `Transparency.HasTransparency` | WebP/WebP.cpp:31-48 | returns true exactly when some pixel with 0 ≤ y < height and 0 ≤ x < width has alpha byte `y*stride + 4*x + 3` below 255; it needs only the bytes up to the last pixel of the last row to be in the buffer |
| `Transparency.AlphaStaysInRow` | WebP/WebP.cpp:35-44 | every alpha byte the scan reads is inside the buffer and inside the `4*width` pixel bytes of its own row, so row padding is never read |
| `Transparency.OnlyAlphaMatters` | WebP/WebP.cpp:31-48 | two buffers that agree on the alpha byte of every pixel get the same import mode, whatever their colour and padding bytes hold |
| `Transparency.OpaqueMeansFullAlpha` | WebP/WebP.cpp:133-139 | when BGRX import is chosen, every pixel's alpha byte is exactly 255, so ignoring the alpha channel loses nothing |
| `Transparency.ImportModeFor` | WebP/WebP.cpp:126-140 | the import is BGRA exactly when some pixel is translucent, BGRX otherwise |
| `Encoder.Configure` | WebP/WebP.cpp:82-117 | method is copied and thread level is 1. At quality 100: lossless is 1, the hint is PHOTO/PICTURE/GRAPH for Photo/Picture/Drawing and the preset's own otherwise, and target size, filter fields and noise shaping are untouched. At other qualities: lossless and hint are untouched, target size is set iff `fileSize > 0`, filter strength iff preset < Icon, and filter type, sharpness and noise shaping are always copied |
| `Encoder.PictureFor` | WebP/WebP.cpp:85-124 | the picture handed to the import requests ARGB storage exactly at quality 100, has the bitmap's width and height and the memory writer, and no progress hook yet |
| `Encoder.ApplyOptions` | WebP/WebP.cpp:82-117 | the field-by-field option handling produces exactly `Configure` of the preset configuration, and requests ARGB storage exactly at quality 100 |
| `Encoder.WebPSave` | WebP/WebP.cpp:58-169 | a null allocator returns NULL_PARAMETER before any libwebp call. A failed `WebPConfigPreset` (then `WebPPictureInit` is not called) or a failed `WebPPictureInit` returns -1. The import uses the mode of the transparency scan and a failed import returns OUT_OF_MEMORY. The encoder gets `Configure` of the preset configuration, and the progress hook and user data are installed iff a callback is given. A failed encode returns its error code unchanged. A successful encode returns 0 with exactly the encoded bytes in `*output` when the allocator grants their size, and otherwise OUT_OF_MEMORY with `*output` null |
| `Encoder.LosslessIgnoresLossyOptions` | WebP/WebP.cpp:85-117 | at quality 100 the configuration does not depend on target size, filter strength, type or sharpness, or noise shaping |
| `MetadataReader.ChunkTag` | WebP/WebP.cpp:187-207 | a kind has a chunk tag exactly when it is ColorProfile, EXIF or XMP |
| `MetadataReader.FlagSet` | WebP/WebP.cpp:187-207 | the VP8X format flags can announce a chunk only for a kind that has a chunk tag; any other value of the enumeration is never announced, whatever the flags |
| `MetadataReader.Located` | WebP/WebP.cpp:182-209 | the chunk bytes looked up are the first chunk of the kind's tag when the kind is known and its format flag is set, and empty otherwise |
| `MetadataReader.LookUpChunk` | WebP/WebP.cpp:182-207 | the `switch` on the kind reads the format flags and leaves the chunk iterator holding exactly `Located`: the first chunk of the kind's tag when the flag is set, nothing otherwise |
| `MetadataReader.ReportedSize` | WebP/WebP.cpp:171-215 | the reported size is below 2^32. It is 0 when the container does not parse, and otherwise the located chunk's size cast to `uint32_t` |
| `MetadataReader.GetMetaDataSize` | WebP/WebP.cpp:171-215 | `*outSize` is non-zero only if the container parses, the kind is known and its flag is set, and it equals the reported size |
| `MetadataReader.ExtractMetaData` | WebP/WebP.cpp:217-258 | writes nothing when the container does not parse. Otherwise it makes the same lookup and copies exactly `outSize` bytes of the chunk into the caller's buffer, leaving the rest of the buffer as it was |
| `MetadataReader.SizeQueryFitsExtract` | WebP/WebP.cpp:209-253 | the size the query reports satisfies the extractor's requirement, and for a chunk under 4 GiB a copy of that many bytes is the whole chunk |
| `MetadataReader.LookupSeesOnlyItsKind` | WebP/WebP.cpp:182-209 | a lookup reads only its own kind's format flag and the first chunk of its tag: two containers that agree there locate the same bytes and get the same reported size, so `ExtractMetaData` copies the same bytes |
| `MetadataReader.OtherKindsNeverInterfere` | WebP/WebP.cpp:187-207 | containers that differ only in one kind's flag bit and chunk (added, removed or replaced) locate the same bytes for every other kind, because the three kinds use distinct tags and disjoint flag bits |
| `MetadataReader.FlagAwayFromOther` | WebP/WebP.cpp:187-207 | two flag words that agree on every bit except the one that announces kind `other` announce every other known kind alike, because ICCP (0x20), EXIF (0x08) and XMP (0x04) are distinct single bits |
| `MetadataWriter.ChunkPlanShape` | WebP/WebP.cpp:283-305 | a chunk is added for each non-empty blob and for no other, with at most three chunks in all, in the order ICCP, EXIF, XMP |
| `MetadataWriter.SetMetaData` | WebP/WebP.cpp:260-336 | a null allocator returns INVALID_ARGUMENT and a failed `WebPMuxNew` returns MEMORY_ERROR, both before any mux call. Otherwise the calls made follow the plan: set the image, add the chunks, assemble. Every call but the last succeeded, the run stops at the first failure, and that failure is returned. On success `*outImage` holds exactly the assembled bytes, and a refused allocation returns MEMORY_ERROR with `*outImage` null |
| `MetadataWriter.AddChunks` | WebP/WebP.cpp:283-305 | after the image is set, the chunk blocks keep the run on the plan; when all of them succeed only the assembly is left |
| `MetadataWriter.AssembleInto` | WebP/WebP.cpp:307-331 | the assembly completes the plan and stops the run. A failed assembly returns its status with `*outImage` untouched. Otherwise the assembled bytes go into the allocator's buffer, or `*outImage` is null with MEMORY_ERROR when the allocator refuses |
| `MetadataWriter.AddChunk` | WebP/WebP.cpp:291-297 | a chunk is added only while every earlier step succeeded and its blob is non-empty, and the status becomes that call's |
| `MetadataWriter.FirstFailureUnique` | WebP/WebP.cpp:277-311 | the mux's replies determine the run: two call sequences that both stop at the first failure of one plan are equal |
| `MetadataWriter.WriterUsesReaderTags` | WebP/WebP.cpp:283-305 | a kind's blob is written exactly when it is non-empty, under the same tag the readers look up for that kind |

## Left out

- libwebp itself: `WebPConfigPreset`, `WebPPictureInit`, the picture imports, `WebPEncode`, `WebPMemoryWrite`, `WebPDemux*` and `WebPMux*`. These are foreign code. They appear only as oracles, and no codec or round-trip property is claimed for them.
- `WebPGetDimensions` and `WebPLoad` (WebP/WebP.cpp:6-29): they pass straight through to libwebp after filling in decoder fields.
- `progressFunc` (WebP/WebP.cpp:50-56): the model records only whether the hook and its user data are installed, not how the callback is invoked.
- Quality is an integer. The source compares a `float` with 100.
- `thread_level`: the model records that it is set to 1. What libwebp does with threads is out of scope.
- Memory ownership and cleanup. This includes `WebPMemoryWriterClear`, `WebPPictureFree`, `WebPMuxDelete` and `WebPDataClear`. It also includes the leaks on the early returns at WebP/WebP.cpp:130 and :138, and on mux failures before WebP/WebP.cpp:312.
- Configuration and picture fields that the bridge never writes. They pass through from `WebPConfigPreset` and `WebPPictureInit` unchanged and are not represented.
- Integer widths. Offsets such as `y * stride` and the option values are unbounded integers. The one cast the bridge relies on, `uint32_t` for the metadata size, is modelled.
- A metadata blob's pointer and size are one byte sequence. A size that disagrees with its buffer cannot be expressed.
- `MetadataReader.ExtractMetaData`: requires only what its copy needs, namely `outSize` no larger than the caller's buffer or the located chunk. The stricter rule that `outSize` equals the queried size is not required. `SizeQueryFitsExtract` shows that the queried size meets the weaker rule.
- EXIF parsing, orientation and resolution handling, and streamed output: none of this code is in `WebP/WebP.cpp`.
