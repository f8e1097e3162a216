/**
  The transparency scan of WebPSave (HasTransparency): does any pixel of a
  strided 32-bit BGRA buffer have an alpha byte below 255? Its answer picks
  between alpha-aware (BGRA) and opaque (BGRX) import.
 */
module Transparency {
  import opened Libwebp

  /**
    The buffer holds every byte the scan can touch: rows are at least
    `4 * width` bytes apart and the last pixel of the last row is inside.
    With no rows or no columns nothing is read.
   */
  predicate Layout(length: int, width: int, height: int, stride: int) {
    width <= 0 || height <= 0 ||
    (4 * width <= stride && (height - 1) * stride + 4 * width <= length)
  }

  /** Offset of the alpha byte of pixel (x, y): B, G, R, A in that order. */
  function AlphaIndex(stride: int, x: int, y: int): int {
    y * stride + 4 * x + 3
  }

  /** The alpha byte of pixel (x, y); a byte outside the buffer reads as opaque. */
  function AlphaAt(s: seq<uint8>, stride: int, x: int, y: int): uint8 {
    var i := AlphaIndex(stride, x, y);
    if 0 <= i < |s| then s[i] else 255
  }

  predicate Translucent(s: seq<uint8>, stride: int, x: int, y: int) {
    AlphaAt(s, stride, x, y) < 255
  }

  /** Some pixel of the width-by-height image has alpha below 255. */
  predicate AnyTranslucent(s: seq<uint8>, width: int, height: int, stride: int) {
    exists y, x :: 0 <= y < height && 0 <= x < width && Translucent(s, stride, x, y)
  }

  /** The import WebPSave chooses for a bitmap. */
  function ImportModeFor(s: seq<uint8>, width: int, height: int, stride: int): (m: ImportMode)
    ensures m == Bgra <==> AnyTranslucent(s, width, height, stride)
  {
    if AnyTranslucent(s, width, height, stride) then Bgra else Bgrx
  }

  /**
    Every alpha byte the scan reads lies inside the buffer and inside the
    `4 * width` pixel bytes of its own row, so the padding between
    `4 * width` and `stride` is never read.
   */
  lemma AlphaStaysInRow(length: int, width: int, height: int, stride: int, x: int, y: int)
    requires Layout(length, width, height, stride)
    requires 0 <= x < width && 0 <= y < height
    ensures y * stride <= AlphaIndex(stride, x, y) < y * stride + 4 * width
    ensures 0 <= AlphaIndex(stride, x, y) < length
  {
    assert 0 <= stride;
    assert 0 <= (height - 1 - y) * stride;
    assert (height - 1) * stride == y * stride + (height - 1 - y) * stride;
    assert 0 <= y * stride;
  }

  /**
    HasTransparency (WebP.cpp:31-48): rows in order, pixels left to right,
    stopping at the first alpha byte below 255.
   */
  method HasTransparency(data: array<uint8>, width: int, height: int, stride: int) returns (found: bool)
    requires Layout(data.Length, width, height, stride)
    ensures found <==> AnyTranslucent(data[..], width, height, stride)
  {
    var y := 0;
    while y < height
      invariant 0 <= y && (y <= height || y == 0)
      invariant forall yy, xx :: 0 <= yy < y && 0 <= xx < width ==> !Translucent(data[..], stride, xx, yy)
    {
      var ptr := y * stride;
      var x := 0;
      while x < width
        invariant 0 <= x && (x <= width || x == 0)
        invariant ptr == y * stride + 4 * x
        invariant forall xx :: 0 <= xx < x ==> !Translucent(data[..], stride, xx, y)
        invariant forall yy, xx :: 0 <= yy < y && 0 <= xx < width ==> !Translucent(data[..], stride, xx, yy)
      {
        AlphaStaysInRow(data.Length, width, height, stride, x, y);
        if data[ptr + 3] < 255 {
          assert Translucent(data[..], stride, x, y);
          return true;
        }
        ptr := ptr + 4;
        x := x + 1;
      }
      y := y + 1;
    }
    return false;
  }

  /**
    Only the alpha bytes of the width-by-height pixels decide the answer:
    two buffers that agree on them, whatever their colour bytes and row
    padding hold, get the same import.
   */
  lemma OnlyAlphaMatters(s: seq<uint8>, t: seq<uint8>, width: int, height: int, stride: int)
    requires Layout(|s|, width, height, stride) && Layout(|t|, width, height, stride)
    requires forall y, x :: 0 <= y < height && 0 <= x < width ==> AlphaAt(s, stride, x, y) == AlphaAt(t, stride, x, y)
    ensures ImportModeFor(s, width, height, stride) == ImportModeFor(t, width, height, stride)
  {
    if AnyTranslucent(s, width, height, stride) {
      var y, x :| 0 <= y < height && 0 <= x < width && Translucent(s, stride, x, y);
      AlphaStaysInRow(|t|, width, height, stride, x, y);
      assert Translucent(t, stride, x, y);
    }
    if AnyTranslucent(t, width, height, stride) {
      var y, x :| 0 <= y < height && 0 <= x < width && Translucent(t, stride, x, y);
      AlphaStaysInRow(|s|, width, height, stride, x, y);
      assert Translucent(s, stride, x, y);
    }
  }

  /**
    When the scan finds nothing, every pixel's alpha byte is exactly 255, so
    the BGRX import, which ignores the alpha byte and treats it as opaque,
    loses nothing.
   */
  lemma OpaqueMeansFullAlpha(s: seq<uint8>, width: int, height: int, stride: int, x: int, y: int)
    requires Layout(|s|, width, height, stride)
    requires ImportModeFor(s, width, height, stride) == Bgrx
    requires 0 <= x < width && 0 <= y < height
    ensures 0 <= AlphaIndex(stride, x, y) < |s| && s[AlphaIndex(stride, x, y)] == 255
  {
    AlphaStaysInRow(|s|, width, height, stride, x, y);
    assert !Translucent(s, stride, x, y);
  }
}
