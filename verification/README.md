# SA3D.Texturing in Dafny

A model of the core of SA3D.Texturing, a C# library for game textures, with proofs about that model. It covers three parts.

- **The texture model.** A texture has a width, a height and a raw byte buffer whose length the kind of texture dictates:
  - four bytes per pixel for an RGBA32 colour texture;
  - one byte per pixel for a palette-index texture.

  A palette is a flat buffer of RGBA32 entries. Two built-in grey ramps, of 16 and 256 entries, stand in when an index texture has no palette.
- **The palette engine.** It covers three operations:
  - expanding an index texture to RGBA32 through its palette, in 8-bit or 4-bit (high nibble) mode, at a palette row;
  - sorting a palette's entries by luminance;
  - building an "exact" palette holding every colour of a colour texture when there are few enough of them.
- **The texture-name table codec.** It handles 12-byte `TextureName` records and the `TextureNameList` table around them. A table is written as:
  - a reserved block;
  - the name strings, each stored once and labelled with its address;
  - the records, filled in afterwards;
  - an 8-byte header (array address, count).

  Reading mirrors this. The byte writer, the reader and the label dictionary the codec runs against live in another library, SA3D.Common. They are modelled minimally here (`EndianIO`, `LabelTables`).

Modules and files:

| file | module | models |
|---|---|---|
| `wrappers.dfy` | `Wrappers` | `Option`, `Result` |
| `bytes.dfy` | `Bytes` | bytes, 32-bit words, overwriting a growable stream, `Span.CopyTo` |
| `texture.dfy` | `Textures` | `Texture.cs` |
| `color_texture.dfy` | `ColorTextures` | `ColorTexture.cs` |
| `texture_palette.dfy` | `TexturePalettes` | `TexturePallete.cs` |
| `index_texture.dfy` | `IndexTextures` | `IndexTexture.cs` |
| `texture_utilities.dfy` | `TextureUtilities` | `TextureUtilities.cs` (sorting, exact palette) |
| `endian_io.dfy` | `EndianIO` | the byte writer and reader used by the codec |
| `labels.dfy` | `LabelTables` | the label dictionary used by the codec |
| `texture_name.dfy` | `TextureNames` | `Texname/TextureName.cs` |
| `texture_name_list.dfy` | `TextureNameLists` | `Texname/TextureNameList.cs` |

Where the source changes state, the model does too. Textures, palettes, the writer and the label dictionary are classes whose methods update their fields in place. The in-place algorithms work on arrays:
- the ramp fill;
- the index expansion;
- the lookup-table sort;
- the exact-palette scan.

Each such method is proved against a specification function (`IndexedColorPixels`, `ExactPaletteColors`, `WriteList`, `ReadList`, ...). The properties the source promises are proved about those functions as lemmas.

Notes on the model:
- **Texture kinds.** `ColorTexture` and `IndexTexture` hold their shared `Texture` state as a `base` object, and the `PixelFormat` of that base selects the expected data length.
- **Exceptions.** Every exception the source throws is a `Failure` of a `Result`, or an `Option` error, on the same condition, with the state changes made up to that point:
  - the constructor checks;
  - `ReplaceData`'s length check;
  - division by zero on a palette without a whole entry;
  - a palette slice out of range;
  - a name that was never written;
  - a null slot;
  - a label conflict;
  - a read past the end of the data.
- **Luminance.** `GetLuminance` computes in single-precision floats. The model takes it as a parameter, any function from (R, G, B) to a byte. Nothing here depends on its formula.

Points of the code the model follows closely:
- **The two table labels.** The array label goes on the array's first record (`TextureNameList.cs:138`) and the table label on the header (`TextureNameList.cs:145`). The two addresses coincide only for an empty table. The header's address then already carries the array label (`AddSafe` keeps the first), so the table reads back under that label. `Laid` and `WriteThenRead` state this.
- **`AddSafe` and `Add`.** Name strings are registered with `Add`, which is strict: it fails on an address already labelled with a different label. The two table labels are registered with `AddSafe`, which keeps an existing entry in each direction of the dictionary.
- **`ReplaceData`.** It checks only the buffer length, so dimensions below 1 whose product gives the right length are accepted (`Texture.cs:98-108`).
- **`GetColorPixels` with height 0 or less.** This can only arise after `ReplaceData`. The loops visit nothing and the result is all zeros.

## Model

| member | source | states |
|---|---|---|
| Textures.Texture.constructor | src/SA3D.Texturing/Texture.cs:83-87 | a texture built from valid arguments keeps them as given, has no overrides and keeps the length invariant |
| Textures.Texture.Create | src/SA3D.Texturing/Texture.cs:70-89 | dimensions below 1 are rejected, and that check comes before the length check; a buffer whose length is not the expected one is rejected with both lengths; otherwise the new texture holds exactly the arguments (the buffer itself), with zero overrides and the length invariant |
| Textures.Texture.ReplaceData | src/SA3D.Texturing/Texture.cs:98-108 | fails exactly on a length mismatch, and only then; a failure leaves width, height and buffer unchanged, a success installs all three and restores the length invariant; name, global index and overrides never change |
| Textures.Texture.ProcessedWidth | src/SA3D.Texturing/Texture.cs:54 | the override width whenever it is non-zero, negative ones included, else the physical width |
| Textures.Texture.ProcessedHeight | src/SA3D.Texturing/Texture.cs:59 | the override height whenever it is non-zero, else the physical height |
| ColorTextures.ColorTexture.Create | src/SA3D.Texturing/ColorTexture.cs:25-64 | the base validation with `width * height * 4` as the expected length: the same two failures in the same order, a length mismatch carrying both lengths; otherwise a colour texture holding the arguments |
| ColorTextures.ColorTexture.GetColorPixels | src/SA3D.Texturing/ColorTexture.cs:67-70 | the colour pixels are the stored buffer byte for byte, of the same length |
| ColorTextures.ColorTexture.CheckIsTransparent | src/SA3D.Texturing/ColorTexture.cs:73-84 | true exactly when some pixel's alpha byte (index `4k+3`) is below 0xFF; nothing is modified |
| TexturePalettes.EntryAppend | src/SA3D.Texturing/TexturePallete.cs:34 | appending a four-byte entry keeps the earlier entries and adds it as the next |
| TexturePalettes.Entries | src/SA3D.Texturing/TexturePallete.cs:34 | a buffer has `length / 4` whole entries, entry `i` being bytes `4i .. 4i+3` |
| TexturePalettes.Index4RampValue | src/SA3D.Texturing/TexturePallete.cs:60 | the 4-bit ramp's level `i \| (i << 4)` is `17 * i`: the 16 levels are spread evenly over 0..255 |
| TexturePalettes.RampColors | src/SA3D.Texturing/TexturePallete.cs:47-65 | the first `n` entries of a ramp, each an opaque grey of its level |
| TexturePalettes.GetDefaultPalette | src/SA3D.Texturing/TexturePallete.cs:94-97 | the built-in palette has 16 entries (4-bit) or 256 (8-bit), entry `i` being `(v, v, v, 0xFF)` with `v = i` or `i \| (i << 4)` |
| TexturePalettes.TexturePalette.constructor | src/SA3D.Texturing/TexturePallete.cs:76-80 | the palette keeps the given name and the given buffer itself, with no copy and no length check |
| TexturePalettes.TexturePalette.FromColorData | src/SA3D.Texturing/TexturePallete.cs:86 | the overload without a name stores the empty name |
| TexturePalettes.TexturePalette.Width | src/SA3D.Texturing/TexturePallete.cs:34 | the number of whole entries: `4w <= length < 4w + 4` |
| TexturePalettes.TexturePalette.CreateDefaultPalettes | src/SA3D.Texturing/TexturePallete.cs:42-69 | the static constructor builds two fresh unnamed palettes holding exactly the 4-bit and the 8-bit ramp |
| TexturePalettes.TexturePalette.CreateDefaultPalette | src/SA3D.Texturing/TexturePallete.cs:44-68 | one built-in palette: a fresh, unnamed palette whose colours are the ramp |
| TexturePalettes.TexturePalette.PutGrey | src/SA3D.Texturing/TexturePallete.cs:49-54 | one loop body: entry `i` becomes `(v, v, v, 0xFF)`; the entries before and the bytes after it are kept |
| TexturePalettes.TexturePalette.FillRamp | src/SA3D.Texturing/TexturePallete.cs:47-65 | the ramp loop leaves the buffer holding exactly the built-in palette |
| IndexTextures.TruncatedRem | src/SA3D.Texturing/IndexTexture.cs:108 | C#'s `%`: the remainder lies strictly between `-b` and `b` and takes the sign of the dividend |
| IndexTextures.PaletteIndex | src/SA3D.Texturing/IndexTexture.cs:114 | the index a data byte names lies within the ramp size (below 16 in 4-bit mode, which reads `byte >> 4`) |
| IndexTextures.ExpandIndicesSuccess | src/SA3D.Texturing/IndexTexture.cs:110-117 | expanding indices succeeds exactly when every byte's four-byte palette slice lies inside the palette; otherwise the error is an out-of-range slice |
| IndexTextures.ExpandIndicesPixels | src/SA3D.Texturing/IndexTexture.cs:110-117 | a successful expansion has four bytes per data byte, and pixel `i` is the palette slice for byte `i` |
| IndexTextures.ExpandIndicesFailurePersists | src/SA3D.Texturing/IndexTexture.cs:114 | a slice out of range anywhere makes the whole expansion fail: no partial result escapes |
| IndexTextures.IndexedColorPixelsMeaning | src/SA3D.Texturing/IndexTexture.cs:98-138 | the GetColorPixels contract:<br>- the result has `Width * Height * 4` bytes;<br>- a palette without a whole entry divides by zero;<br>- otherwise it succeeds exactly when every byte's slice is in range;<br>- pixel `i` is then the palette entry at offset `((16\|256) * PaletteRow) % paletteWidth` plus the byte's index, the product wrapping as a 32-bit `int` and the remainder truncating;<br>- with no rows the result is zeros |
| IndexTextures.Index4IgnoresLowNibble | src/SA3D.Texturing/IndexTexture.cs:114 | in 4-bit mode, data that agrees on the high nibbles expands identically |
| IndexTextures.TruncatedRemOfRowStride | src/SA3D.Texturing/IndexTexture.cs:108-124 | a row stride times any palette row, wrapped to 32 bits and negative rows included, leaves no remainder modulo the ramp size |
| IndexTextures.RowProductWraps | src/SA3D.Texturing/IndexTexture.cs:124 | the 32-bit wrap is observable: in 8-bit mode, row 2^23 + 1 with a 300-entry palette gives the offset -1168 and the expansion fails, where the unwrapped product would give 816 |
| IndexTextures.DefaultPaletteExpansion | src/SA3D.Texturing/IndexTexture.cs:105-121 | with no palette, expansion never fails, whatever the palette row; byte `d` becomes `(d, d, d, 0xFF)` in 8-bit mode and `(v, v, v, 0xFF)` with `v = (d >> 4) \| ((d >> 4) << 4)` in 4-bit mode |
| IndexTextures.SinglePixelExample | src/SA3D.Texturing/IndexTexture.cs:119-134 | a 1×1 texture holding index 5, with no palette, expands to `(5, 5, 5, 255)` |
| IndexTextures.IndexTexture.constructor | src/SA3D.Texturing/IndexTexture.cs:49-50 | a new index texture has no palette, palette row 0 and 8-bit indices |
| IndexTextures.IndexTexture.Create | src/SA3D.Texturing/IndexTexture.cs:49-89 | the base validation with `width * height` as the expected length: the same two failures in the same order, a length mismatch carrying both lengths; otherwise an index texture holding the arguments with no palette, row 0 and 8-bit indices |
| IndexTextures.IndexTexture.CheckIsTransparent | src/SA3D.Texturing/IndexTexture.cs:92-95 | an index texture never reports transparency |
| IndexTextures.IndexTexture.GetColorPixels | src/SA3D.Texturing/IndexTexture.cs:98-138 | the nested row and column loops compute exactly `IndexedColorPixels` over the buffer, the height, the palette (or the built-in ramp when none is set), the palette row and the mode, whose meaning `IndexedColorPixelsMeaning` states; texture and palette are only read |
| IndexTextures.ExpandRows | src/SA3D.Texturing/IndexTexture.cs:110-133 | the row loop leaves the zeroed result buffer holding the expansion of the visited bytes, or reports the out-of-range slice that makes the whole expansion fail |
| IndexTextures.ExpandRow | src/SA3D.Texturing/IndexTexture.cs:112-132 | the column loop extends the expanded prefix by one row, or reports the failing slice |
| IndexTextures.ExpandPixel | src/SA3D.Texturing/IndexTexture.cs:114-130 | one slice copied to `result[4i..]` after the colours already written, or failure when it leaves the palette |
| IndexTextures.RowStartIsProduct | src/SA3D.Texturing/IndexTexture.cs:109-116 | advancing the index by one per column makes row `y` start at `y * Width` |
| TextureUtilities.FirstSeenMeaning | src/SA3D.Texturing/TextureUtilities.cs:85-104 | the deduplicated colours are exactly the pixels' colours, with no repeats and no more of them than pixels |
| TextureUtilities.FirstSeenPrefix | src/SA3D.Texturing/TextureUtilities.cs:85-104 | scanning further only appends colours: what was found for a prefix is a prefix of what is found for the whole |
| TextureUtilities.FlattenEntries | src/SA3D.Texturing/TextureUtilities.cs:102-103 | entries written four bytes at a time read back as the same entries |
| TextureUtilities.FlattenZerosEntries | src/SA3D.Texturing/TextureUtilities.cs:80-103 | the written colours followed by the zeroed rest of the buffer are those colours, then all-zero entries |
| TextureUtilities.ExactPaletteColorsEntries | src/SA3D.Texturing/TextureUtilities.cs:80-108 | the buffer to be sorted has exactly 16 or 256 entries: the distinct colours in row-major order of first occurrence, then all-zero entries |
| TextureUtilities.ExactPaletteCoversPixels | src/SA3D.Texturing/TextureUtilities.cs:80-110 | a palette sorted from that buffer has exactly 16 or 256 entries, holds every distinct colour, and every pixel of the texture is one of its entries |
| TextureUtilities.MapPreservesMultiset | src/SA3D.Texturing/TextureUtilities.cs:58-62 | gathering by a permuted table permutes the gathered values the same way |
| TextureUtilities.IndexOfLeast | src/SA3D.Texturing/TextureUtilities.cs:54 | the position of a least luminance in the unsorted rest of the table |
| TextureUtilities.SelectionStep | src/SA3D.Texturing/TextureUtilities.cs:54 | swapping a least entry to the front of the unsorted part extends the sorted part and keeps a permutation |
| TextureUtilities.SortLut | src/SA3D.Texturing/TextureUtilities.cs:54 | `Array.Sort` of the lookup table: a permutation of it in non-decreasing luminance, with no order imposed on ties |
| TextureUtilities.GatherEntries | src/SA3D.Texturing/TextureUtilities.cs:56-62 | the copy loop: a new buffer as long as the palette, whose entry `i` is the palette entry the table's `i`-th item names, with bytes of a trailing partial entry left zero |
| TextureUtilities.LookupTable | src/SA3D.Texturing/TextureUtilities.cs:45-52 | the table has one item per whole entry, item `k` being `(k, luminance of entry k)` |
| TextureUtilities.PermutedTableEntries | src/SA3D.Texturing/TextureUtilities.cs:45-54 | after sorting, every table item still names an entry of the palette with that entry's luminance |
| TextureUtilities.GatheredSortIsSort | src/SA3D.Texturing/TextureUtilities.cs:45-62 | gathering entries in the order of a luminance-sorted permutation of the table yields a luminance sort of the palette |
| TextureUtilities.SortByLuminance | src/SA3D.Texturing/TextureUtilities.cs:43-65 | a new unnamed palette of the same byte length whose whole entries are a permutation of the input's, in non-decreasing luminance, with a trailing partial entry zeroed; the input palette is only read |
| TextureUtilities.ContainsEntry | src/SA3D.Texturing/TextureUtilities.cs:88-94 | the inner search is true exactly when the pixel equals one of the entries written so far |
| TextureUtilities.AddIfNew | src/SA3D.Texturing/TextureUtilities.cs:87-107 | one outer step: a known colour changes nothing; a new colour is appended after the written ones when there is room; it reports "full" exactly for a new colour in a full buffer |
| TextureUtilities.CollectColors | src/SA3D.Texturing/TextureUtilities.cs:80-108 | the scan succeeds exactly when there are at most 16 (4-bit) or 256 (8-bit) distinct colours, and then fills the buffer with the distinct colours in order of first occurrence, zero-padded |
| TextureUtilities.TryGenerateExactPalette | src/SA3D.Texturing/TextureUtilities.cs:74-113 | true exactly when the distinct colours fit the capacity; false leaves the palette null; true yields a new unnamed palette that is a luminance sort of the distinct colours padded with zero entries |
| Bytes.DecodeEncodeU32 | src/SA3D.Texturing/Texname/TextureName.cs:80-82 | a word written little-endian reads back as itself modulo 2^32 |
| Bytes.OverwriteTwice | src/SA3D.Texturing/Texname/TextureName.cs:80-82 | consecutive writes are one write of their concatenation |
| Bytes.CopyInto | src/SA3D.Texturing/IndexTexture.cs:114 | `Span.CopyTo`: the array afterwards is the old contents with the source written over them at the offset |
| EndianIO.EndianStackWriter.WriteEmpty | src/SA3D.Texturing/Texname/TextureNameList.cs:117 | `n` zero bytes written at the position, which moves past them |
| EndianIO.EndianStackWriter.WriteUInt | src/SA3D.Texturing/Texname/TextureName.cs:80-82 | the low 32 bits of the value, little-endian, at the position |
| EndianIO.EndianStackWriter.WriteStringNullterminated | src/SA3D.Texturing/Texname/TextureNameList.cs:130 | the string's bytes and a zero byte at the position |
| EndianIO.EndianStackWriter.Align | src/SA3D.Texturing/Texname/TextureNameList.cs:131 | zero bytes up to the next multiple of the alignment |
| EndianIO.AlignPadding4 | src/SA3D.Texturing/Texname/TextureNameList.cs:131 | after `Align(4)` the position is a multiple of four |
| EndianIO.EndianStackWriter.Seek | src/SA3D.Texturing/Texname/TextureNameList.cs:135 | the position moves to the offset; the contents are unchanged |
| EndianIO.EndianStackWriter.SeekEnd | src/SA3D.Texturing/Texname/TextureNameList.cs:149 | the position moves to the end of the stream; the contents are unchanged |
| EndianIO.ReadUInt | src/SA3D.Texturing/Texname/TextureName.cs:53-56 | a word read fails exactly when its four bytes do not lie in the data |
| EndianIO.ReadUIntHolds | src/SA3D.Texturing/Texname/TextureName.cs:53-56 | a word in place reads back as itself modulo 2^32 |
| EndianIO.ReadStringHolds | src/SA3D.Texturing/Texname/TextureName.cs:54 | a string without zero bytes or wide characters, stored null-terminated, reads back unchanged |
| LabelTables.AddIfAbsent | src/SA3D.Texturing/Texname/TextureNameList.cs:138-145 | `AddSafe`: both keys become present, free keys get the new pairing, existing entries are kept |
| LabelTables.TryAdd | src/SA3D.Texturing/Texname/TextureNameList.cs:129 | `Add` fails exactly on an address already labelled with a different label, and otherwise adds as `AddSafe` does |
| LabelTables.LabelDictionary.TryGetAddress | src/SA3D.Texturing/Texname/TextureName.cs:72 | the address registered for a label, present exactly when the label is registered |
| LabelTables.LabelDictionary.TryGetValue | src/SA3D.Texturing/Texname/TextureNameList.cs:46-52 | the label registered at an address, present exactly when the address is labelled |
| LabelTables.LabelDictionary.AddSafe | src/SA3D.Texturing/Texname/TextureNameList.cs:138-145 | the dictionary becomes `AddIfAbsent` of what it was |
| LabelTables.LabelDictionary.Add | src/SA3D.Texturing/Texname/TextureNameList.cs:129 | on a conflict, reports failure and changes nothing; otherwise the dictionary becomes `AddIfAbsent` |
| TextureNames.Record | src/SA3D.Texturing/Texname/TextureName.cs:67-83 | a record can be written exactly when its name is absent or registered (else "name has not been written"), and is then 12 bytes |
| TextureNames.TextureName.Write | src/SA3D.Texturing/Texname/TextureName.cs:67-83 | writes the name's address (0 for none), the attributes and the texture address as three words and moves 12 bytes on; an unregistered name throws and writes nothing; the dictionary is only read |
| TextureNames.ReadWrittenRecord | src/SA3D.Texturing/Texname/TextureName.cs:51-59 | round trip: a written record whose name string lies where its label says reads back as the same name, attributes and texture address (a null name through pointer 0) |
| TextureNameLists.Hex8 | src/SA3D.Texturing/Texname/TextureNameList.cs:48-54 | `ToString("X8")` is eight upper-case hexadecimal digits |
| TextureNameLists.Hex8Value | src/SA3D.Texturing/Texname/TextureNameList.cs:48-54 | the eight digits spell out the address, so distinct addresses get distinct fallback labels |
| TextureNameLists.RecordAddressLinear | src/SA3D.Texturing/Texname/TextureNameList.cs:61-65 | without 32-bit wrap-around, record `i` is read `12 * i` bytes past the array address |
| TextureNameLists.CollectMeaning | src/SA3D.Texturing/Texname/TextureNameList.cs:59-66 | reading records in order succeeds exactly when every record read succeeds, and each slot then holds its record |
| TextureNameLists.CollectFailure | src/SA3D.Texturing/Texname/TextureNameList.cs:63 | the first record that cannot be read ends the read with its error |
| TextureNameLists.ReadRecordsMeaning | src/SA3D.Texturing/Texname/TextureNameList.cs:57-66 | the array read succeeds exactly when all `count` records are readable; slot `i` then holds the record read at the array address plus `12 * i` |
| TextureNameLists.Read | src/SA3D.Texturing/Texname/TextureNameList.cs:44-69 | the method computes `ReadList`:<br>- the table's label, else `texlist_` plus the address in hex;<br>- the array address and count read from the header;<br>- the array's label, else `textures_` plus its address in hex;<br>- all slots null when the array address is 0, else `count` records read 12 bytes apart |
| TextureNameLists.LookUpLabel | src/SA3D.Texturing/Texname/TextureNameList.cs:46-55 | the registered label at the address, else the prefix followed by the address in eight hex digits |
| TextureNameLists.ReadRecordsInto | src/SA3D.Texturing/Texname/TextureNameList.cs:59-66 | the read loop fills the slot array with exactly the records `ReadRecords` gives, or fails with its error |
| TextureNameLists.StoreName | src/SA3D.Texturing/Texname/TextureNameList.cs:120-133 | one pass of the name loop: a null slot throws and changes nothing; a slot without a name, or whose name is labelled already, leaves stream and labels unchanged; afterwards the slot's record can be written; labels are only added |
| TextureNameLists.StoreNames | src/SA3D.Texturing/Texname/TextureNameList.cs:120-133 | the name loop only moves the stream forward, only grows it and only adds labels |
| TextureNameLists.Records | src/SA3D.Texturing/Texname/TextureNameList.cs:139-142 | the record loop emits 12 bytes per slot |
| TextureNameLists.Reserve | src/SA3D.Texturing/Texname/TextureNameList.cs:116-117 | the reserved block is `8 + 12N` bytes from the start |
| TextureNameLists.WriteList | src/SA3D.Texturing/Texname/TextureNameList.cs:114-151 | Write only adds labels; on success it returns `start + 12N` and leaves the stream at its end |
| TextureNameLists.FinishList | src/SA3D.Texturing/Texname/TextureNameList.cs:135-150 | the steps after the name loop return `start + 12N` and leave the stream at its end |
| TextureNameLists.WriteTable | src/SA3D.Texturing/Texname/TextureNameList.cs:139-147 | the records and the header take `12N + 8` bytes from the start |
| TextureNameLists.AllRecordableExtends | src/SA3D.Texturing/Texname/TextureNameList.cs:138-145 | the labels added after the name loop do not change any record's bytes |
| TextureNameLists.StoreNamesRecordable | src/SA3D.Texturing/Texname/TextureNameList.cs:120-142 | once the name loop runs through, every record can be written: the second loop cannot throw |
| TextureNameLists.StoreNamesErrorPersists | src/SA3D.Texturing/Texname/TextureNameList.cs:120-133 | the name loop stops at the first exception |
| TextureNameLists.Write | src/SA3D.Texturing/Texname/TextureNameList.cs:114-151 | the writer and the dictionary end exactly as `WriteList` says, including the partial state left by an exception |
| TextureNameLists.FinishWrite | src/SA3D.Texturing/Texname/TextureNameList.cs:135-150 | the steps after the name loop leave writer and dictionary as `FinishList` says |
| TextureNameLists.WriteTableAt | src/SA3D.Texturing/Texname/TextureNameList.cs:135-150 | seek to the start, label the array there, write the records, label the header there, write the header, then seek to the end |
| TextureNameLists.WriteNameStrings | src/SA3D.Texturing/Texname/TextureNameList.cs:120-133 | the name loop does what `StoreNames` says, stopping at the first exception |
| TextureNameLists.WriteNameString | src/SA3D.Texturing/Texname/TextureNameList.cs:122-132 | skips a null name and a name labelled already; otherwise labels the position with the name, then writes it null-terminated and aligns to 4 |
| TextureNameLists.WriteRecords | src/SA3D.Texturing/Texname/TextureNameList.cs:139-142 | the record loop writes the records back to back from the position |
| TextureNameLists.StoreNameHeld | src/SA3D.Texturing/Texname/TextureNameList.cs:127-131 | a name is written once, where its new label points, and the strings already stored stay in place |
| TextureNameLists.StoreNamesUnlabelled | src/SA3D.Texturing/Texname/TextureNameList.cs:127-131 | writing past every labelled address, the name loop never meets a label conflict |
| TextureNameLists.StoreNamesHeld | src/SA3D.Texturing/Texname/TextureNameList.cs:120-133 | after the name loop, every named slot's string lies null-terminated where its label says, past the reserved block |
| TextureNameLists.StoreNamesRepeatedName | src/SA3D.Texturing/Texname/TextureNameList.cs:125-130 | a slot whose name an earlier slot already stored changes neither the stream nor the labels, so a repeated name is stored once |
| TextureNameLists.StoreNamesNullEntry | src/SA3D.Texturing/Texname/TextureNameList.cs:122 | a null slot anywhere makes the name loop throw |
| TextureNameLists.WriteListSucceeds | src/SA3D.Texturing/Texname/TextureNameList.cs:114-151 | when nothing at or past the start is labelled, Write throws exactly when a slot is null |
| TextureNameLists.WriteListNullEntry | src/SA3D.Texturing/Texname/TextureNameList.cs:122 | a null slot makes Write throw, whatever the labels |
| TextureNameLists.RecordsHeld | src/SA3D.Texturing/Texname/TextureNameList.cs:139-142 | record `i` lands `12 * i` bytes past where the record loop starts |
| TextureNameLists.WriteListLayout | src/SA3D.Texturing/Texname/TextureNameList.cs:114-151 | the table laid down:<br>- record `i` at `start + 12i`;<br>- the header `(start, N)` at `start + 12N`, which is returned;<br>- every name string where its label says, clear of the records and header;<br>- the array label at the start, the table label at the header |
| TextureNameLists.TableBytes | src/SA3D.Texturing/Texname/TextureNameList.cs:139-147 | the records and the header land where the table says, and within the reserved block the stream does not grow |
| TextureNameLists.TableKeeps | src/SA3D.Texturing/Texname/TextureNameList.cs:139-147 | filling in the table leaves every byte outside it in place, so the name strings are untouched |
| TextureNameLists.TableLabels | src/SA3D.Texturing/Texname/TextureNameList.cs:138-145 | the start carries the array label and the header the table label, except for an empty table, whose single address keeps the array label |
| TextureNameLists.WriteThenRead | src/SA3D.Texturing/Texname/TextureNameList.cs:44-151 | round trip: a table written at a non-zero position with no labels at or past it, whose slots hold records with storable names, reads back from the returned address as the same slots and array label under the table label (under the array label when the table is empty) |
| TextureNameLists.ReadLaid | src/SA3D.Texturing/Texname/TextureNameList.cs:44-69 | a laid-down table below 4 GiB reads back as its slots under its labels |
| TextureNameLists.HeaderReadsBack | src/SA3D.Texturing/Texname/TextureNameList.cs:51-57 | the header gives back the array address and the count written into it |
| TextureNameLists.RecordsReadBack | src/SA3D.Texturing/Texname/TextureNameList.cs:59-66 | the array of a laid-down table reads back as its slots |

## Left out

- Image codecs and file formats. PNG, DDS, KTX, JPEG and PBM reading, writing and sniffing (`IndexTexture.cs:146-498`, `Texture.cs:137-266`, `ColorTexture.cs:91-142`, `ImageSharpExtensions.cs`) are calls into BCnEncoder and ImageSharp plus file I/O.
- `Palettize` (`TextureUtilities.cs:122-160`). The indices come from ImageSharp's quantizers, which are not part of this model.
- `GetLuminance` (`TextureUtilities.cs:23-36`). Its single-precision formula is not modelled: the luminance function is a parameter, and only sortedness by it and the permutation are stated.
- SortLut: `Array.Sort` is an introspective sort. The model uses a selection sort, so it promises only what `Array.Sort` promises here: a permutation in non-decreasing luminance, with no order fixed for equal keys.
- SortByLuminance: no property is stated about sorting twice or about the order of ties, since the source's unstable sort fixes neither.
- `TextureSet.cs`, `IniTexturenameList.cs` and the text serialisations of the name list (`ReadFromTextFile`, `WriteAsListToTextFile`, `WriteAsIniToTextFile`, `WriteAsStruct`). These are directory, text-file and ini I/O and C source output.
- The constructor overloads without a name or a global index. Each delegates with `""` and 0 and is covered by the full `Create`.
- The `TextureNameList` and `TextureName` constructors, `Label` and `ToString`, which only store or format fields (`TextureNameList`, `TextureName` are datatypes).
- SA3D.Common's writer, reader and label dictionary internals. The model covers only:
  - little-endian words;
  - image base 0 (a pointer is its stream offset);
  - one byte per character, with characters above 0xFF stored as `?`;
  - a stream that grows when written past its end.

  Endianness configuration, string encodings and stream types are not modelled.
- Textures.Texture.Create: `width * height * 4`, `width * height` and the `(uint)(8 + N * 12)` reservation are mathematical integers. The 32-bit overflow of very large dimensions or tables is not modelled.
- TextureNameLists.WriteList: positions and label addresses are unbounded naturals, so a stream past 4 GiB is not truncated to 32 bits. The round trip `WriteThenRead` therefore requires the written stream to stay below 2^32 bytes.
- TextureNameLists.WriteThenRead: assumes a non-zero start, no labels at or past it, and (`NamesHeld`) that every slot name already labelled before the write is that same string, stored null-terminated at its label.
  - At position 0 the header's array address is 0, and `Read` then returns null slots.
  - A label already at a later address can make a name's `Add` conflict.
  - A name equal to an unrelated label (another structure's) is not written (`TextureNameList.cs:127`). Its record then points at that structure, and reading back does not give the name.
- TextureNameLists.ReadRecordsInto: does not model the allocation of a slot array for a huge count read from corrupt data.
- The `Palette`, `PaletteRow` and `IsIndex4` setters and the `Name`, `GlobalIndex` and override setters. These are plain field assignments and are not separate members.
- IndexTextures.IndexTexture.GetColorPixels: returns the expanded pixels as a sequence. That they sit in a fresh array behind a `ReadOnlySpan` is not stated.
