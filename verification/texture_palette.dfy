/**
 * Palettes of RGBA32 entries (TexturePallete.cs): a flat byte buffer read four
 * bytes per entry, and the two built-in grey ramps used when an index texture
 * has no palette of its own.
 */
module TexturePalettes {
  import opened Bytes

  /** Entry `i` of a flat RGBA32 buffer: its bytes R, G, B, A. */
  function Entry(colors: seq<byte>, i: nat): (e: seq<byte>)
    requires 4 * i + 4 <= |colors|
    ensures |e| == 4
  {
    colors[4 * i..4 * i + 4]
  }

  /** Appending an entry to `n` whole entries keeps them and adds it as entry `n`. */
  lemma EntryAppend(prev: seq<byte>, n: nat, e: seq<byte>)
    requires |prev| == 4 * n && |e| == 4
    ensures forall i :: 0 <= i < n ==> Entry(prev + e, i) == Entry(prev, i)
    ensures Entry(prev + e, n) == e
  {
    forall i | 0 <= i < n
      ensures Entry(prev + e, i) == Entry(prev, i)
    {
      assert (prev + e)[4 * i..4 * i + 4] == prev[4 * i..4 * i + 4];
    }
    assert (prev + e)[4 * n..] == e;
  }

  /** All whole entries of a flat buffer; trailing bytes of a partial entry are not an entry. */
  function Entries(colors: seq<byte>): (es: seq<seq<byte>>)
    ensures |es| == |colors| / 4
    ensures forall i :: 0 <= i < |es| ==> es[i] == Entry(colors, i)
  {
    seq(|colors| / 4, i requires 0 <= i < |colors| / 4 => Entry(colors, i))
  }

  /** Number of entries a 4-bit (16) or 8-bit (256) index can address. */
  function RampEntries(index4: bool): nat
  {
    if index4 then 16 else 256
  }

  /** Grey level of entry `i` of a built-in ramp: `(byte)i`, or `i | (i << 4)` in the 4-bit ramp. */
  function RampValue(index4: bool, i: nat): byte
    requires i < RampEntries(index4)
  {
    if index4 then ((i as bv8) | ((i as bv8) << 4)) as int else i
  }

  /** An opaque grey RGBA32 pixel. */
  function Grey(v: byte): seq<byte>
  {
    [v, v, v, 0xFF]
  }

  /** The 4-bit ramp spreads its 16 levels evenly over 0..255. */
  lemma Index4RampValue(i: nat)
    requires i < 16
    ensures RampValue(true, i) == 17 * i
  {
  }

  /** The first `n` entries of a built-in ramp, entry `i` the opaque grey of level `i`. */
  function RampColors(index4: bool, n: nat): (r: seq<byte>)
    requires n <= RampEntries(index4)
    ensures |r| == 4 * n
    ensures forall i :: 0 <= i < n ==> Entry(r, i) == Grey(RampValue(index4, i))
  {
    if n == 0 then []
    else
      var prev := RampColors(index4, n - 1);
      var r := prev + Grey(RampValue(index4, n - 1));
      EntryAppend(prev, n - 1, Grey(RampValue(index4, n - 1)));
      r
  }

  /**
   * The colour data of the built-in palette returned by GetDefaultPalette:
   * Index4Palette when `index4`, Index8Palette otherwise.
   */
  function GetDefaultPalette(index4: bool): (r: seq<byte>)
    ensures |r| == 4 * RampEntries(index4)
    ensures forall i :: 0 <= i < RampEntries(index4) ==> Entry(r, i) == Grey(RampValue(index4, i))
  {
    RampColors(index4, RampEntries(index4))
  }

  /** A palette: a name and a buffer of RGBA32 entries it shares with whoever created it. */
  class TexturePalette {
    var Name: string
    const colorData: array<byte>

    /** Stores `colorData` itself: no copy is made and its length is not checked. */
    constructor (name: string, colorData: array<byte>)
      ensures Name == name && this.colorData == colorData
    {
      Name := name;
      this.colorData := colorData;
    }

    /** The overload without a name, which passes the empty name. */
    constructor FromColorData(colorData: array<byte>)
      ensures Name == "" && this.colorData == colorData
    {
      Name := "";
      this.colorData := colorData;
    }

    /** Number of whole entries: the buffer length divided by four, rounded down. */
    function Width(): (w: nat)
      ensures 4 * w <= colorData.Length < 4 * w + 4
    {
      colorData.Length / 4
    }

    /** A read-only view of the stored colour buffer. */
    function ColorData(): seq<byte>
      reads colorData
    {
      colorData[..]
    }

    /**
     * The static constructor: builds the 16-entry and the 256-entry grey ramp
     * and wraps each in an unnamed palette.
     */
    static method CreateDefaultPalettes() returns (index4Palette: TexturePalette, index8Palette: TexturePalette)
      ensures fresh(index4Palette) && fresh(index8Palette)
      ensures index4Palette.Name == "" && index8Palette.Name == ""
      ensures index4Palette.ColorData() == GetDefaultPalette(true)
      ensures index8Palette.ColorData() == GetDefaultPalette(false)
    {
      index4Palette := CreateDefaultPalette(true);
      index8Palette := CreateDefaultPalette(false);
    }

    /** One of the two built-in palettes: a fresh ramp buffer in an unnamed palette. */
    static method CreateDefaultPalette(index4: bool) returns (palette: TexturePalette)
      ensures fresh(palette) && palette.Name == ""
      ensures palette.ColorData() == GetDefaultPalette(index4)
    {
      var colors := new byte[4 * RampEntries(index4)];
      FillRamp(colors, index4);
      palette := new TexturePalette.FromColorData(colors);
    }

    /** The four bytes of one ramp entry: `(v, v, v, 0xFF)` at entry `i`. */
    static method PutGrey(colors: array<byte>, i: nat, v: byte)
      requires 4 * i + 4 <= colors.Length
      modifies colors
      ensures colors[..4 * i + 4] == old(colors[..4 * i]) + Grey(v)
      ensures colors[4 * i + 4..] == old(colors[4 * i + 4..])
    {
      var index := i * 4;
      colors[index] := v;
      colors[index + 1] := v;
      colors[index + 2] := v;
      colors[index + 3] := 0xFF;
    }

    /**
     * One loop of the static constructor: entry `i` of the ramp becomes
     * `(v, v, v, 0xFF)` with `v` the ramp's grey level for `i`.
     */
    static method FillRamp(colors: array<byte>, index4: bool)
      requires colors.Length == 4 * RampEntries(index4)
      modifies colors
      ensures colors[..] == GetDefaultPalette(index4)
    {
      for i := 0 to RampEntries(index4)
        invariant colors[..4 * i] == RampColors(index4, i)
      {
        PutGrey(colors, i, RampValue(index4, i));
      }
      assert colors[..] == colors[..4 * RampEntries(index4)];
    }
  }
}
