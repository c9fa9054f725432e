/**
 * Palette-index textures (IndexTexture.cs): one byte per pixel naming a palette
 * entry, either as a full 8-bit index or, in 4-bit mode, as the byte's high
 * nibble. Expanding them to RGBA32 is the core of this module.
 */
module IndexTextures {
  import opened Bytes
  import opened Wrappers
  import opened Textures
  import opened TexturePalettes

  /** What expanding indices to colours can throw. */
  datatype PixelError =
    | DivideByZero      // the palette has no whole entry, so `% palette.Width` divides by 0
    | IndexOutOfRange   // a four-byte slice of the palette starts before it or ends past it

  /** C#'s `%` on `int`: truncated division, so the remainder takes the sign of `a`. */
  function TruncatedRem(a: int, b: nat): (r: int)
    requires b > 0
    ensures -(b as int) < r < b
    ensures a >= 0 ==> r >= 0
    ensures a <= 0 ==> r <= 0
  {
    if a >= 0 then a % b else -((-a) % b)
  }

  /** The palette entry a data byte names: the byte itself, or `byte >> 4` in 4-bit mode. */
  function PaletteIndex(d: byte, index4: bool): (i: nat)
    ensures i < RampEntries(index4)
  {
    if index4 then d / 16 else d
  }

  /**
   * Byte offset of the palette row in use: `(16|256) * row % palette.Width * 4`,
   * the product wrapping as an unchecked `int` and the remainder truncating.
   */
  function PaletteOffset(colors: seq<byte>, row: int, index4: bool): int
    requires |colors| / 4 > 0
  {
    TruncatedRem(WrapI32(RampEntries(index4) * row), |colors| / 4) * 4
  }

  /** Byte offset in the palette of the colour for data byte `d`. */
  function ColorStart(offset: int, d: byte, index4: bool): int
  {
    offset + PaletteIndex(d, index4) * 4
  }

  /** `colors.Slice(start, 4)` succeeds. */
  predicate SliceInRange(colors: seq<byte>, start: int)
  {
    0 <= start && start + 4 <= |colors|
  }

  /**
   * The colours of the data bytes in order, one palette slice per byte; the
   * first byte whose slice leaves the palette makes the whole expansion fail.
   */
  function ExpandIndices(data: seq<byte>, colors: seq<byte>, offset: int, index4: bool): Result<seq<byte>, PixelError>
    decreases |data|
  {
    if data == [] then Success([])
    else
      var last := |data| - 1;
      match ExpandIndices(data[..last], colors, offset, index4)
      case Failure(e) => Failure(e)
      case Success(pixels) =>
        var start := ColorStart(offset, data[last], index4);
        if SliceInRange(colors, start) then Success(pixels + colors[start..start + 4])
        else Failure(IndexOutOfRange)
  }

  /**
   * GetColorPixels of an index texture with the given buffer, height and
   * palette colours: a `Width * Height * 4` buffer (four bytes per data byte, by
   * the length invariant) in which the loops over rows and columns have written
   * one colour per visited data byte. With a positive height every byte is
   * visited; otherwise no loop runs and the buffer stays zero.
   */
  function IndexedColorPixels(data: seq<byte>, height: int, colors: seq<byte>, row: int, index4: bool)
    : Result<seq<byte>, PixelError>
  {
    if |colors| / 4 == 0 then Failure(DivideByZero)
    else ExpandVisited(data, height, colors, PaletteOffset(colors, row, index4), index4)
  }

  /** The buffer the row and column loops leave, once the palette row's offset is known. */
  function ExpandVisited(data: seq<byte>, height: int, colors: seq<byte>, offset: int, index4: bool)
    : Result<seq<byte>, PixelError>
  {
    var visited := if height > 0 then |data| else 0;
    match ExpandIndices(data[..visited], colors, offset, index4)
    case Failure(e) => Failure(e)
    case Success(pixels) => Success(pixels + Zeros(4 * (|data| - visited)))
  }

  /**
   * When ExpandIndices succeeds: exactly when every byte's palette slice lies
   * in the palette; otherwise it reports IndexOutOfRange.
   */
  lemma {:induction false} ExpandIndicesSuccess(data: seq<byte>, colors: seq<byte>, offset: int, index4: bool)
    ensures ExpandIndices(data, colors, offset, index4).Success? <==>
              forall i :: 0 <= i < |data| ==> SliceInRange(colors, ColorStart(offset, data[i], index4))
    ensures ExpandIndices(data, colors, offset, index4).Failure? ==>
              ExpandIndices(data, colors, offset, index4).error == IndexOutOfRange
    decreases |data|
  {
    if data != [] {
      var last := |data| - 1;
      var init := data[..last];
      ExpandIndicesSuccess(init, colors, offset, index4);
      assert forall i :: 0 <= i < last ==> init[i] == data[i];
    }
  }

  /**
   * What a successful ExpandIndices produces: four bytes per data byte, and
   * output pixel `i` is the palette slice of byte `i`.
   */
  lemma {:induction false} ExpandIndicesPixels(data: seq<byte>, colors: seq<byte>, offset: int, index4: bool)
    requires forall i :: 0 <= i < |data| ==> SliceInRange(colors, ColorStart(offset, data[i], index4))
    ensures ExpandIndices(data, colors, offset, index4).Success?
    ensures var pixels := ExpandIndices(data, colors, offset, index4).value;
              |pixels| == 4 * |data| &&
              forall i :: 0 <= i < |data| ==>
                var start := ColorStart(offset, data[i], index4);
                SliceInRange(colors, start) && Entry(pixels, i) == colors[start..start + 4]
    decreases |data|
  {
    if data != [] {
      var last := |data| - 1;
      var init := data[..last];
      assert forall i :: 0 <= i < last ==> init[i] == data[i];
      ExpandIndicesPixels(init, colors, offset, index4);
      var prev := ExpandIndices(init, colors, offset, index4).value;
      var start := ColorStart(offset, data[last], index4);
      var pixels := prev + colors[start..start + 4];
      ExpandIndicesGrows(data, last, colors, offset, index4, prev);
      assert data[..last + 1] == data;
      EntryAppend(prev, last, colors[start..start + 4]);
      forall i | 0 <= i < |data|
        ensures Entry(pixels, i) == colors[ColorStart(offset, data[i], index4)..ColorStart(offset, data[i], index4) + 4]
      {
        if i < last {
          assert init[i] == data[i];
        }
      }
    }
  }

  /** Failure is inherited by every longer prefix: once a byte fails, the expansion fails. */
  lemma {:induction false} ExpandIndicesFailurePersists(data: seq<byte>, k: nat, colors: seq<byte>, offset: int, index4: bool)
    requires k <= |data|
    requires ExpandIndices(data[..k], colors, offset, index4).Failure?
    ensures ExpandIndices(data, colors, offset, index4) == Failure(IndexOutOfRange)
    decreases |data| - k
  {
    ExpandIndicesSuccess(data[..k], colors, offset, index4);
    ExpandIndicesSuccess(data, colors, offset, index4);
    var i :| 0 <= i < k && !SliceInRange(colors, ColorStart(offset, data[..k][i], index4));
    assert data[..k][i] == data[i];
  }

  /**
   * The contract of GetColorPixels over all inputs: the output has
   * `Width * Height * 4` bytes; a palette without a whole entry divides by zero;
   * otherwise the call succeeds exactly when every visited byte's slice lies
   * in the palette, and pixel `i` is then the palette entry at the row offset
   * plus the byte's index.
   */
  lemma IndexedColorPixelsMeaning(data: seq<byte>, height: int, colors: seq<byte>, row: int, index4: bool)
    ensures var r := IndexedColorPixels(data, height, colors, row, index4);
      && (r == Failure(DivideByZero) <==> |colors| / 4 == 0)
      && (r.Success? <==>
            |colors| / 4 > 0 &&
            (height > 0 ==> forall i :: 0 <= i < |data| ==>
               SliceInRange(colors, ColorStart(PaletteOffset(colors, row, index4), data[i], index4))))
      && (r.Success? ==> |r.value| == 4 * |data|)
      && (r.Success? && height > 0 ==> forall i :: 0 <= i < |data| ==>
            Entry(r.value, i) == colors[ColorStart(PaletteOffset(colors, row, index4), data[i], index4)..
                                        ColorStart(PaletteOffset(colors, row, index4), data[i], index4) + 4])
      && (r.Success? && height <= 0 ==> r.value == Zeros(4 * |data|))
  {
    if |colors| / 4 > 0 {
      var offset := PaletteOffset(colors, row, index4);
      if height > 0 {
        assert data[..|data|] == data;
        ExpandIndicesSuccess(data, colors, offset, index4);
        var e := ExpandIndices(data, colors, offset, index4);
        if e.Success? {
          ExpandIndicesPixels(data, colors, offset, index4);
          assert e.value + Zeros(0) == e.value;
        }
      } else {
        assert data[..0] == [];
      }
    }
  }

  /**
   * In 4-bit mode only the high nibble of a data byte is read: two buffers
   * whose bytes agree on their high nibbles expand to the same result.
   */
  lemma {:induction false} Index4IgnoresLowNibble(data: seq<byte>, other: seq<byte>, colors: seq<byte>, offset: int)
    requires |data| == |other|
    requires forall i :: 0 <= i < |data| ==> data[i] / 16 == other[i] / 16
    ensures ExpandIndices(data, colors, offset, true) == ExpandIndices(other, colors, offset, true)
    decreases |data|
  {
    if data != [] {
      var last := |data| - 1;
      Index4IgnoresLowNibble(data[..last], other[..last], colors, offset);
    }
  }

  /**
   * The row stride times any row, wrapped to 32 bits, is still a multiple of
   * the stride (which divides 2^32), so it leaves no truncated remainder
   * modulo the stride, whatever its sign.
   */
  lemma TruncatedRemOfRowStride(k: int, index4: bool)
    ensures TruncatedRem(WrapI32(RampEntries(index4) * k), RampEntries(index4)) == 0
  {
    var n := RampEntries(index4);
    var w := WrapI32(n * k);
    var t := (n * k - w) / U32_LIMIT;
    assert n * k - w == U32_LIMIT * t;
    assert U32_LIMIT == n * (U32_LIMIT / n);
    var j := k - (U32_LIMIT / n) * t;
    assert w == n * j;
    var m := if j >= 0 then j else -j;
    assert (n * m) % n == 0;
  }

  /**
   * The wrap matters once a custom palette is not a whole number of rows: in
   * 8-bit mode row 2^23 + 1 gives the product 2^31 + 256, which wraps to a
   * negative value, so the offset is negative and the first slice starts
   * before the palette, where the unwrapped product would have fitted.
   */
  lemma RowProductWraps()
    ensures PaletteOffset(Zeros(1200), 0x80_0001, false) == -1168
    ensures IndexedColorPixels([0], 1, Zeros(1200), 0x80_0001, false) == Failure(IndexOutOfRange)
    ensures TruncatedRem(256 * 0x80_0001, 300) * 4 == 816
  {
    assert WrapI32(256 * 0x80_0001) == -2147483392;
    assert ExpandIndices([0], Zeros(1200), -1168, false) == Failure(IndexOutOfRange) by {
      assert [0][..0] == [];
    }
    assert [0][..1] == [0];
  }

  /**
   * Without a palette the built-in ramp is used and nothing can go wrong: for
   * any palette row every byte expands to the opaque grey of its index,
   * `(d, d, d, 0xFF)` in 8-bit mode and `(v, v, v, 0xFF)` with
   * `v = (d >> 4) | ((d >> 4) << 4)` in 4-bit mode.
   */
  lemma DefaultPaletteExpansion(data: seq<byte>, height: int, row: int, index4: bool)
    requires height > 0
    ensures var r := IndexedColorPixels(data, height, GetDefaultPalette(index4), row, index4);
      r.Success? && |r.value| == 4 * |data| &&
      forall i :: 0 <= i < |data| ==> Entry(r.value, i) == Grey(RampValue(index4, PaletteIndex(data[i], index4)))
  {
    var colors := GetDefaultPalette(index4);
    TruncatedRemOfRowStride(row, index4);
    assert PaletteOffset(colors, row, index4) == 0;
    IndexedColorPixelsMeaning(data, height, colors, row, index4);
    var r := IndexedColorPixels(data, height, colors, row, index4);
    forall i | 0 <= i < |data|
      ensures Entry(r.value, i) == Grey(RampValue(index4, PaletteIndex(data[i], index4)))
    {
      var p := PaletteIndex(data[i], index4);
      assert colors[ColorStart(0, data[i], index4)..ColorStart(0, data[i], index4) + 4] == Entry(colors, p);
    }
  }

  /** A 1 by 1 texture holding index 5, with the default 8-bit palette and row 0, is the pixel (5, 5, 5, 255). */
  lemma SinglePixelExample()
    ensures IndexedColorPixels([5], 1, GetDefaultPalette(false), 0, false) == Success([5, 5, 5, 0xFF])
  {
    DefaultPaletteExpansion([5], 1, 0, false);
    var r := IndexedColorPixels([5], 1, GetDefaultPalette(false), 0, false);
    assert r.value == Entry(r.value, 0);
  }

  class IndexTexture {
    const base: Texture
    var Palette: TexturePalette?
    var PaletteRow: i32
    var IsIndex4: bool

    ghost predicate Valid()
      reads this, base
    {
      base.Format == Indexed && base.Valid()
    }

    constructor (base: Texture)
      requires base.Format == Indexed
      ensures this.base == base && Palette == null && PaletteRow == 0 && !IsIndex4
    {
      this.base := base;
      Palette := null;
      PaletteRow := 0;
      IsIndex4 := false;
    }

    /**
     * The constructor taking all arguments: the base validation with one byte
     * per pixel; no palette, row 0 and 8-bit indices. The overloads without a
     * name or a global index pass "" and 0.
     */
    static method Create(width: int, height: int, data: array<byte>, name: string, globalIndex: u32)
      returns (r: Result<IndexTexture, TextureError>)
      ensures r == Failure(InvalidDimensions) <==> width < 1 || height < 1
      ensures r.Failure? && r.error.DataLengthMismatch? <==>
                width >= 1 && height >= 1 && data.Length != width * height
      ensures r.Failure? && r.error.DataLengthMismatch? ==> r.error == DataLengthMismatch(data.Length, width * height)
      ensures r.Success? ==> fresh(r.value) && fresh(r.value.base) && r.value.Valid()
      ensures r.Success? ==> r.value.base.Width == width && r.value.base.Height == height
      ensures r.Success? ==> r.value.base.Data == data && r.value.base.Name == name
      ensures r.Success? ==> r.value.base.GlobalIndex == globalIndex
      ensures r.Success? ==> r.value.base.OverrideWidth == 0 && r.value.base.OverrideHeight == 0
      ensures r.Success? ==> r.value.Palette == null && r.value.PaletteRow == 0 && !r.value.IsIndex4
    {
      var t := Texture.Create(Indexed, width, height, data, name, globalIndex);
      if t.Failure? {
        return Failure(t.error);
      }
      var i := new IndexTexture(t.value);
      return Success(i);
    }

    /** Index data carries no alpha of its own: an index texture never reports transparency. */
    function CheckIsTransparent(): (transparent: bool)
      ensures !transparent
    {
      false
    }

    /** The colours indices refer to: the palette's, or the matching built-in ramp when there is none. */
    function PaletteColors(): seq<byte>
      reads this, if Palette == null then {} else {Palette.colorData}
    {
      if Palette == null then GetDefaultPalette(IsIndex4) else Palette.ColorData()
    }

    /**
     * Expands the indices to RGBA32 into a new buffer of `Width * Height * 4`
     * bytes, row by row; the texture and its palette are only read.
     */
    method GetColorPixels() returns (r: Result<seq<byte>, PixelError>)
      requires Valid()
      ensures r == IndexedColorPixels(base.Data[..], base.Height, PaletteColors(), PaletteRow, IsIndex4)
    {
      var width, height, data := base.Width, base.Height, base.Data;
      var result := new byte[width * height * 4](_ => 0);
      var colors := PaletteColors();
      var index4 := IsIndex4;
      var paletteWidth := |colors| / 4;
      if paletteWidth == 0 {
        return Failure(DivideByZero);
      }
      var paletteOffset := TruncatedRem(WrapI32(RampEntries(index4) * PaletteRow), paletteWidth) * 4;
      var ok := ExpandRows(data, width, height, colors, paletteOffset, index4, result);
      if !ok {
        return Failure(IndexOutOfRange);
      }
      r := Success(result[..]);
    }
  }

  /**
   * The state of the GetColorPixels loops after the first `k` data bytes of
   * `source`: they expanded to `produced` and the buffer holds `produced`
   * followed by zeros.
   */
  ghost predicate Expanded(source: seq<byte>, k: nat, colors: seq<byte>, offset: int, index4: bool,
                           buf: seq<byte>, produced: seq<byte>)
  {
    k <= |source| && |produced| == 4 * k && |buf| == 4 * |source| &&
    ExpandIndices(source[..k], colors, offset, index4) == Success(produced) &&
    buf == produced + Zeros(|buf| - 4 * k)
  }

  /** Nothing expanded yet: a zeroed buffer. */
  lemma ExpandedStart(source: seq<byte>, colors: seq<byte>, offset: int, index4: bool, buf: seq<byte>)
    requires buf == Zeros(4 * |source|)
    ensures Expanded(source, 0, colors, offset, index4, buf, [])
  {
    assert source[..0] == [];
  }

  /** Once the visited bytes are expanded, the buffer is what ExpandVisited describes. */
  lemma ExpandedEnd(source: seq<byte>, visited: nat, height: int, colors: seq<byte>, offset: int, index4: bool,
                    buf: seq<byte>, produced: seq<byte>)
    requires visited == if height > 0 then |source| else 0
    requires Expanded(source, visited, colors, offset, index4, buf, produced)
    ensures ExpandVisited(source, height, colors, offset, index4) == Success(buf)
  {
  }

  /**
   * The loops of GetColorPixels once the palette offset is known: row by row,
   * each data byte's palette slice is written to the zeroed buffer `result`.
   * Stops with `false` at the first slice outside the palette.
   */
  method ExpandRows(data: array<byte>, width: int, height: int, colors: seq<byte>, offset: int, index4: bool,
                    result: array<byte>)
    returns (ok: bool)
    requires data.Length == width * height && result != data
    requires result.Length == 4 * data.Length && result[..] == Zeros(result.Length)
    modifies result
    ensures ok ==> ExpandVisited(data[..], height, colors, offset, index4) == Success(result[..])
    ensures !ok ==> ExpandVisited(data[..], height, colors, offset, index4) == Failure(IndexOutOfRange)
  {
    ghost var source := data[..];
    // what the visited bytes expand to; the rest of the buffer is still zero
    ghost var produced: seq<byte> := [];
    ExpandedStart(source, colors, offset, index4, result[..]);
    if height > 0 {
      PositiveRows(width, height);
      RowStartIsProduct(height, width);
    }
    var index := 0;
    var y := 0;
    while y < height
      invariant 0 <= y && (y > 0 ==> y <= height)
      invariant height > 0 ==> width >= 0 && RowStart(height, width) == data.Length
      invariant index == RowStart(y, width) && 0 <= index
      invariant Expanded(source, index, colors, offset, index4, result[..], produced)
    {
      RowFits(y, width, height);
      ok, produced := ExpandRow(data, index, width, colors, offset, index4, result, produced);
      if !ok {
        ExpandVisitedFails(source, height, colors, offset, index4);
        return false;
      }
      index := index + width;
      y := y + 1;
    }
    ExpandedEnd(source, index, height, colors, offset, index4, result[..], produced);
    return true;
  }

  /** With rows to visit, a failing expansion of the whole buffer is a failing GetColorPixels. */
  lemma ExpandVisitedFails(source: seq<byte>, height: int, colors: seq<byte>, offset: int, index4: bool)
    requires height > 0 && ExpandIndices(source, colors, offset, index4) == Failure(IndexOutOfRange)
    ensures ExpandVisited(source, height, colors, offset, index4) == Failure(IndexOutOfRange)
  {
    assert source[..|source|] == source;
  }

  /**
   * The inner loop of GetColorPixels: the `width` bytes of one row, from
   * `index` on, each written to the buffer as its four-byte palette slice.
   * Stops with `false` at the first slice outside the palette, which makes
   * the whole expansion fail.
   */
  method ExpandRow(data: array<byte>, index: nat, width: nat, colors: seq<byte>, offset: int, index4: bool,
                   result: array<byte>, ghost produced: seq<byte>)
    returns (ok: bool, ghost produced': seq<byte>)
    requires result != data && index + width <= data.Length
    requires Expanded(data[..], index, colors, offset, index4, result[..], produced)
    modifies result
    ensures !ok ==> ExpandIndices(data[..], colors, offset, index4) == Failure(IndexOutOfRange)
    ensures ok ==> Expanded(data[..], index + width, colors, offset, index4, result[..], produced')
  {
    produced' := produced;
    var x := 0;
    while x < width
      invariant 0 <= x <= width
      invariant Expanded(data[..], index + x, colors, offset, index4, result[..], produced')
    {
      ok, produced' := ExpandPixel(data, index + x, colors, offset, index4, result, produced');
      if !ok {
        return false, produced';
      }
      x := x + 1;
    }
    return true, produced';
  }

  /**
   * One step of the inner loop: data byte `i` written to the buffer as its
   * four-byte palette slice after the `i` colours already there, or `false`
   * when the slice leaves the palette.
   */
  method ExpandPixel(data: array<byte>, i: nat, colors: seq<byte>, offset: int, index4: bool,
                     result: array<byte>, ghost produced: seq<byte>)
    returns (ok: bool, ghost produced': seq<byte>)
    requires result != data && i < data.Length
    requires Expanded(data[..], i, colors, offset, index4, result[..], produced)
    modifies result
    ensures !ok ==> ExpandIndices(data[..], colors, offset, index4) == Failure(IndexOutOfRange)
    ensures ok ==> Expanded(data[..], i + 1, colors, offset, index4, result[..], produced')
  {
    var start := ColorStart(offset, data[i], index4);
    if !SliceInRange(colors, start) {
      ExpandIndicesFails(data[..], i, colors, offset, index4, produced);
      return false, produced;
    }
    var entry := colors[start..start + 4];
    ExpandIndicesGrows(data[..], i, colors, offset, index4, produced);
    OverwriteZeros(produced, result.Length - 4 * i, entry);
    CopyInto(entry, result, i * 4);
    return true, produced + entry;
  }

  /** A byte whose slice is in the palette extends a successful expansion by that slice. */
  lemma ExpandIndicesGrows(data: seq<byte>, k: nat, colors: seq<byte>, offset: int, index4: bool, pixels: seq<byte>)
    requires k < |data| && ExpandIndices(data[..k], colors, offset, index4) == Success(pixels)
    requires SliceInRange(colors, ColorStart(offset, data[k], index4))
    ensures var start := ColorStart(offset, data[k], index4);
      ExpandIndices(data[..k + 1], colors, offset, index4) == Success(pixels + colors[start..start + 4])
  {
    ExpandIndicesStep(data, k, colors, offset, index4);
  }

  /** A byte whose slice leaves the palette makes the expansion of the whole buffer fail. */
  lemma ExpandIndicesFails(data: seq<byte>, k: nat, colors: seq<byte>, offset: int, index4: bool, pixels: seq<byte>)
    requires k < |data| && ExpandIndices(data[..k], colors, offset, index4) == Success(pixels)
    requires !SliceInRange(colors, ColorStart(offset, data[k], index4))
    ensures ExpandIndices(data, colors, offset, index4) == Failure(IndexOutOfRange)
  {
    ExpandIndicesStep(data, k, colors, offset, index4);
    ExpandIndicesFailurePersists(data, k + 1, colors, offset, index4);
    assert data[..|data|] == data;
  }

  /** One more data byte: the expansion of a prefix grows by that byte's palette slice. */
  lemma ExpandIndicesStep(data: seq<byte>, k: nat, colors: seq<byte>, offset: int, index4: bool)
    requires k < |data|
    ensures var start := ColorStart(offset, data[k], index4);
      ExpandIndices(data[..k + 1], colors, offset, index4) ==
        match ExpandIndices(data[..k], colors, offset, index4)
        case Failure(e) => Failure(e)
        case Success(pixels) =>
          if SliceInRange(colors, start) then Success(pixels + colors[start..start + 4]) else Failure(IndexOutOfRange)
  {
    assert data[..k + 1][..k] == data[..k];
  }

  /** Index of the first data byte of row `y` in rows of `width` bytes. */
  function RowStart(y: nat, width: int): int
  {
    if y == 0 then 0 else RowStart(y - 1, width) + width
  }

  /** Row starts are the multiples of the width. */
  lemma {:induction false} RowStartIsProduct(y: nat, width: int)
    ensures RowStart(y, width) == y * width
  {
    if y > 0 {
      RowStartIsProduct(y - 1, width);
    }
  }

  /** A grid with rows and no negative area has no negative width. */
  lemma PositiveRows(width: int, height: int)
    requires height > 0 && width * height >= 0
    ensures width >= 0
  {
  }

  /** Row `y` of a `width`-wide image that is `height` rows tall ends within the image. */
  lemma {:induction false} RowFits(y: nat, width: int, height: nat)
    requires y < height && width >= 0
    ensures RowStart(y, width) + width <= RowStart(height, width)
    decreases height
  {
    if y + 1 < height {
      RowFits(y, width, height - 1);
    }
  }
}
