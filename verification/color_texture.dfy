/** RGBA32 textures (ColorTexture.cs): four bytes R, G, B, A per pixel, row by row. */
module ColorTextures {
  import opened Bytes
  import opened Wrappers
  import opened Textures

  /** The alpha byte of pixel `k`. */
  function Alpha(data: seq<byte>, k: nat): byte
    requires 4 * k + 3 < |data|
  {
    data[4 * k + 3]
  }

  /** Some pixel whose alpha byte lies in the buffer is less than fully opaque. */
  ghost predicate HasTranslucentPixel(data: seq<byte>)
  {
    exists k: nat :: 4 * k + 3 < |data| && Alpha(data, k) < 0xFF
  }

  class ColorTexture {
    const base: Texture

    ghost predicate Valid()
      reads this, base
    {
      base.Format == Rgba32 && base.Valid()
    }

    constructor (base: Texture)
      requires base.Format == Rgba32
      ensures this.base == base
    {
      this.base := base;
    }

    /**
     * The constructor taking all arguments: the base validation with four bytes
     * per pixel. The overloads without a name or a global index pass "" and 0.
     */
    static method Create(width: int, height: int, data: array<byte>, name: string, globalIndex: u32)
      returns (r: Result<ColorTexture, TextureError>)
      ensures r == Failure(InvalidDimensions) <==> width < 1 || height < 1
      ensures r.Failure? && r.error.DataLengthMismatch? <==>
                width >= 1 && height >= 1 && data.Length != width * height * 4
      ensures r.Failure? && r.error.DataLengthMismatch? ==> r.error == DataLengthMismatch(data.Length, width * height * 4)
      ensures r.Success? ==> fresh(r.value) && fresh(r.value.base) && r.value.Valid()
      ensures r.Success? ==> r.value.base.Width == width && r.value.base.Height == height
      ensures r.Success? ==> r.value.base.Data == data && r.value.base.Name == name
      ensures r.Success? ==> r.value.base.GlobalIndex == globalIndex
      ensures r.Success? ==> r.value.base.OverrideWidth == 0 && r.value.base.OverrideHeight == 0
    {
      var t := Texture.Create(Rgba32, width, height, data, name, globalIndex);
      if t.Failure? {
        return Failure(t.error);
      }
      var c := new ColorTexture(t.value);
      return Success(c);
    }

    /** The colour pixels are the stored buffer itself, byte for byte. */
    function GetColorPixels(): (pixels: seq<byte>)
      reads this, base, base.Data
      ensures |pixels| == base.Data.Length
      ensures forall i :: 0 <= i < |pixels| ==> pixels[i] == base.Data[i]
    {
      base.Data[..]
    }

    /**
     * Scans the alpha bytes (indices 3, 7, 11, ...) and stops at the first one
     * below 0xFF. Reads the buffer only.
     */
    method CheckIsTransparent() returns (transparent: bool)
      ensures transparent <==> HasTranslucentPixel(base.Data[..])
    {
      var data := base.Data;
      ghost var pixels := data[..];
      var i := 3;
      while i < data.Length
        invariant i % 4 == 3 && i >= 3
        invariant forall k: nat :: 4 * k + 3 < i && 4 * k + 3 < |pixels| ==> Alpha(pixels, k) == 0xFF
      {
        if data[i] < 0xFF {
          assert Alpha(pixels, (i - 3) / 4) < 0xFF;
          return true;
        }
        assert Alpha(pixels, (i - 3) / 4) == 0xFF;
        i := i + 4;
      }
      return false;
    }
  }
}
