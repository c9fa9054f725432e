/**
 * The state every texture shares (Texture.cs): dimensions, a raw pixel buffer
 * whose length the concrete kind of texture dictates, a name, a global index
 * and the dimensions a game may expect instead of the physical ones.
 */
module Textures {
  import opened Bytes
  import opened Wrappers

  /** The two concrete kinds of texture: RGBA32 colour pixels or one-byte palette indices (8-bit or 4-bit). */
  datatype PixelFormat = Rgba32 | Indexed

  /**
   * CalculateExpectedDataLength of ColorTexture (four bytes per pixel) and of
   * IndexTexture (one byte per pixel).
   */
  function ExpectedDataLength(format: PixelFormat, width: int, height: int): int
  {
    match format
    case Rgba32 => width * height * 4
    case Indexed => width * height
  }

  /** The exceptions thrown by the constructor and by ReplaceData. */
  datatype TextureError =
    | InvalidDimensions
    | DataLengthMismatch(actual: nat, expected: int)

  class Texture {
    const Format: PixelFormat
    var Data: array<byte>
    var Name: string
    var GlobalIndex: u32
    var Width: int
    var Height: int
    var OverrideWidth: int
    var OverrideHeight: int

    /** The length invariant: the buffer holds exactly the bytes the dimensions call for. */
    ghost predicate Valid()
      reads this
    {
      Data.Length == ExpectedDataLength(Format, Width, Height)
    }

    constructor (format: PixelFormat, width: int, height: int, data: array<byte>, name: string, globalIndex: u32)
      requires width >= 1 && height >= 1
      requires data.Length == ExpectedDataLength(format, width, height)
      ensures Valid()
      ensures Format == format && Width == width && Height == height && Data == data
      ensures Name == name && GlobalIndex == globalIndex
      ensures OverrideWidth == 0 && OverrideHeight == 0
    {
      Format := format;
      Name := name;
      GlobalIndex := globalIndex;
      Width := width;
      Height := height;
      Data := data;
      OverrideWidth := 0;
      OverrideHeight := 0;
    }

    /**
     * The validating constructor: dimensions below 1 are rejected first, then a
     * buffer whose length is not the expected one; otherwise the texture keeps
     * the arguments as given (the buffer itself, not a copy).
     */
    static method Create(format: PixelFormat, width: int, height: int, data: array<byte>, name: string, globalIndex: u32)
      returns (r: Result<Texture, TextureError>)
      ensures r == Failure(InvalidDimensions) <==> width < 1 || height < 1
      ensures r.Failure? && r.error.DataLengthMismatch? <==>
                width >= 1 && height >= 1 && data.Length != ExpectedDataLength(format, width, height)
      ensures r.Failure? && r.error.DataLengthMismatch? ==>
                r.error == DataLengthMismatch(data.Length, ExpectedDataLength(format, width, height))
      ensures r.Success? ==> fresh(r.value) && r.value.Valid()
      ensures r.Success? ==> r.value.Format == format && r.value.Width == width && r.value.Height == height
      ensures r.Success? ==> r.value.Data == data && r.value.Name == name && r.value.GlobalIndex == globalIndex
      ensures r.Success? ==> r.value.OverrideWidth == 0 && r.value.OverrideHeight == 0
    {
      if width < 1 || height < 1 {
        return Failure(InvalidDimensions);
      }
      var expected := ExpectedDataLength(format, width, height);
      if data.Length != expected {
        return Failure(DataLengthMismatch(data.Length, expected));
      }
      var t := new Texture(format, width, height, data, name, globalIndex);
      return Success(t);
    }

    /**
     * Replaces dimensions and buffer together. Only the length is checked: the
     * dimensions themselves are not required to be at least 1. On a mismatch
     * nothing changes; name, global index and overrides never change.
     */
    method ReplaceData(width: int, height: int, data: array<byte>) returns (error: Option<TextureError>)
      modifies this
      ensures error.Some? <==> data.Length != ExpectedDataLength(Format, width, height)
      ensures error.Some? ==> error.value == DataLengthMismatch(data.Length, ExpectedDataLength(Format, width, height))
      ensures error.Some? ==> Width == old(Width) && Height == old(Height) && Data == old(Data)
      ensures error.None? ==> Width == width && Height == height && Data == data && Valid()
      ensures Name == old(Name) && GlobalIndex == old(GlobalIndex)
      ensures OverrideWidth == old(OverrideWidth) && OverrideHeight == old(OverrideHeight)
    {
      if data.Length != ExpectedDataLength(Format, width, height) {
        return Some(DataLengthMismatch(data.Length, ExpectedDataLength(Format, width, height)));
      }
      Width := width;
      Height := height;
      Data := data;
      return None;
    }

    /** The width a consumer should use: the override unless it is 0 (negative overrides win too). */
    function ProcessedWidth(): (w: int)
      reads this
      ensures OverrideWidth != 0 ==> w == OverrideWidth
      ensures OverrideWidth == 0 ==> w == Width
    {
      if OverrideWidth == 0 then Width else OverrideWidth
    }

    /** The height a consumer should use: the override unless it is 0. */
    function ProcessedHeight(): (h: int)
      reads this
      ensures OverrideHeight != 0 ==> h == OverrideHeight
      ensures OverrideHeight == 0 ==> h == Height
    {
      if OverrideHeight == 0 then Height else OverrideHeight
    }
  }
}
