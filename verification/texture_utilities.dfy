/**
 * The palette engine of TextureUtilities.cs: sorting a palette's entries by
 * luminance, and building a palette that holds exactly the colours a texture
 * uses.
 */
module TextureUtilities {
  import opened Bytes
  import opened TexturePalettes
  import opened Textures
  import opened ColorTextures

  /**
   * GetLuminance: the grey level of an RGB colour. Its single-precision
   * formula is not modelled; any function into 0..255 stands for it.
   */
  type LuminanceFunction = (byte, byte, byte) -> byte

  /** The sort key of entry `i`: the luminance of its R, G and B bytes. */
  function Key(colors: seq<byte>, i: nat, luminance: LuminanceFunction): byte
    requires 4 * i + 4 <= |colors|
  {
    luminance(colors[4 * i], colors[4 * i + 1], colors[4 * i + 2])
  }

  /** The whole entries of `colors` have non-decreasing luminance. */
  predicate SortedByLuminance(colors: seq<byte>, luminance: LuminanceFunction)
  {
    forall i, j :: 0 <= i < j < |colors| / 4 ==> Key(colors, i, luminance) <= Key(colors, j, luminance)
  }

  /**
   * `sorted` is a possible result of SortByLuminance on `colors`: as long, its
   * whole entries a permutation of those of `colors` in non-decreasing
   * luminance, and the bytes of a trailing partial entry left zero. The order
   * of entries of equal luminance is not fixed, since the sort is not stable.
   */
  predicate IsLuminanceSortOf(sorted: seq<byte>, colors: seq<byte>, luminance: LuminanceFunction)
  {
    && |sorted| == |colors|
    && multiset(Entries(sorted)) == multiset(Entries(colors))
    && SortedByLuminance(sorted, luminance)
    && forall k :: 4 * (|colors| / 4) <= k < |sorted| ==> sorted[k] == 0
  }

  /** Each distinct value of `pixels` once, in the order of its first occurrence. */
  function FirstSeen(pixels: seq<seq<byte>>): seq<seq<byte>>
    decreases |pixels|
  {
    if pixels == [] then []
    else
      var found := FirstSeen(pixels[..|pixels| - 1]);
      if pixels[|pixels| - 1] in found then found else found + [pixels[|pixels| - 1]]
  }

  /** Entries laid end to end in one buffer. */
  function Flatten(entries: seq<seq<byte>>): seq<byte>
    decreases |entries|
  {
    if entries == [] then [] else Flatten(entries[..|entries| - 1]) + entries[|entries| - 1]
  }

  /** Whether all values are four-byte entries. */
  predicate AllEntries(entries: seq<seq<byte>>)
  {
    forall i :: 0 <= i < |entries| ==> |entries[i]| == 4
  }

  /**
   * The buffer TryGenerateExactPalette fills before sorting: the distinct
   * pixels of the texture in row-major order of first occurrence, then zero
   * entries up to 16 (4-bit) or 256 (8-bit) entries.
   */
  function ExactPaletteColors(pixels: seq<byte>, index4: bool): seq<byte>
    requires |FirstSeen(Entries(pixels))| <= RampEntries(index4)
  {
    var found := FirstSeen(Entries(pixels));
    Flatten(found) + Zeros(4 * (RampEntries(index4) - |found|))
  }

  /**
   * FirstSeen keeps every value and adds none, never repeats one, and is no
   * longer than its input.
   */
  lemma {:induction false} FirstSeenMeaning(pixels: seq<seq<byte>>)
    ensures forall p :: p in FirstSeen(pixels) <==> p in pixels
    ensures forall i, j :: 0 <= i < j < |FirstSeen(pixels)| ==> FirstSeen(pixels)[i] != FirstSeen(pixels)[j]
    ensures |FirstSeen(pixels)| <= |pixels|
    decreases |pixels|
  {
    if pixels != [] {
      var init := pixels[..|pixels| - 1];
      FirstSeenMeaning(init);
      assert pixels == init + [pixels[|pixels| - 1]];
    }
  }

  /** Scanning more pixels only appends to what was found so far. */
  lemma {:induction false} FirstSeenPrefix(pixels: seq<seq<byte>>, k: nat)
    requires k <= |pixels|
    ensures |FirstSeen(pixels[..k])| <= |FirstSeen(pixels)|
    ensures FirstSeen(pixels)[..|FirstSeen(pixels[..k])|] == FirstSeen(pixels[..k])
    decreases |pixels| - k
  {
    if k < |pixels| {
      FirstSeenPrefix(pixels, k + 1);
      assert pixels[..k + 1][..k] == pixels[..k];
    } else {
      assert pixels[..k] == pixels;
    }
  }

  /** One more pixel: it is appended exactly when it was not seen before. */
  lemma FirstSeenStep(pixels: seq<seq<byte>>, k: nat)
    requires k < |pixels|
    ensures FirstSeen(pixels[..k + 1]) ==
              if pixels[k] in FirstSeen(pixels[..k]) then FirstSeen(pixels[..k]) else FirstSeen(pixels[..k]) + [pixels[k]]
  {
    assert pixels[..k + 1][..k] == pixels[..k];
  }

  /** Flattening one more entry appends its bytes. */
  lemma FlattenAppend(entries: seq<seq<byte>>, e: seq<byte>)
    ensures Flatten(entries + [e]) == Flatten(entries) + e
  {
    assert (entries + [e])[..|entries|] == entries;
  }

  /** Flattened four-byte entries can be read back as entries. */
  lemma {:induction false} FlattenEntries(entries: seq<seq<byte>>)
    requires AllEntries(entries)
    ensures |Flatten(entries)| == 4 * |entries|
    ensures forall j :: 0 <= j < |entries| ==> Entry(Flatten(entries), j) == entries[j]
    ensures Entries(Flatten(entries)) == entries
    decreases |entries|
  {
    if entries != [] {
      var last := |entries| - 1;
      FlattenEntries(entries[..last]);
      var prev := Flatten(entries[..last]);
      forall j | 0 <= j < |entries|
        ensures Entry(Flatten(entries), j) == entries[j]
      {
        if j < last {
          assert Entry(Flatten(entries), j) == Entry(prev, j);
        }
      }
    }
  }

  /** `n` all-zero (transparent black) entries. */
  function ZeroEntries(n: nat): (es: seq<seq<byte>>)
    ensures |es| == n && forall j :: 0 <= j < n ==> es[j] == [0, 0, 0, 0]
  {
    seq(n, _ => [0, 0, 0, 0])
  }

  /** The entries of a flattened buffer followed by zeros: the given entries, then zero entries. */
  lemma FlattenZerosEntries(entries: seq<seq<byte>>, n: nat)
    requires AllEntries(entries)
    ensures Entries(Flatten(entries) + Zeros(4 * n)) == entries + ZeroEntries(n)
  {
    FlattenEntries(entries);
    var buf := Flatten(entries) + Zeros(4 * n);
    var es := Entries(buf);
    var want := entries + ZeroEntries(n);
    assert |es| == |want|;
    forall j | 0 <= j < |es|
      ensures es[j] == want[j]
    {
      if j < |entries| {
        assert Entry(buf, j) == Entry(Flatten(entries), j);
      } else {
        assert Entry(buf, j) == Zeros(4 * n)[4 * (j - |entries|)..4 * (j - |entries|) + 4];
      }
    }
  }

  /** Every distinct pixel is a four-byte entry. */
  lemma FirstSeenEntries(pixels: seq<byte>)
    ensures AllEntries(FirstSeen(Entries(pixels)))
    ensures forall p :: p in FirstSeen(Entries(pixels)) <==> p in Entries(pixels)
  {
    var found := FirstSeen(Entries(pixels));
    FirstSeenMeaning(Entries(pixels));
    forall i | 0 <= i < |found|
      ensures |found[i]| == 4
    {
      assert found[i] in Entries(pixels);
    }
  }

  /**
   * The buffer TryGenerateExactPalette sorts has 16 or 256 entries: the
   * distinct pixels, then zero entries.
   */
  lemma ExactPaletteColorsEntries(pixels: seq<byte>, index4: bool)
    requires |FirstSeen(Entries(pixels))| <= RampEntries(index4)
    ensures |ExactPaletteColors(pixels, index4)| == 4 * RampEntries(index4)
    ensures Entries(ExactPaletteColors(pixels, index4)) ==
              FirstSeen(Entries(pixels)) + ZeroEntries(RampEntries(index4) - |FirstSeen(Entries(pixels))|)
  {
    var found := FirstSeen(Entries(pixels));
    FirstSeenEntries(pixels);
    FlattenEntries(found);
    FlattenZerosEntries(found, RampEntries(index4) - |found|);
  }

  /**
   * What a successful TryGenerateExactPalette promises: the palette has
   * exactly 16 or 256 entries, holds every distinct colour of the texture, and
   * every pixel of the texture is one of its entries.
   */
  lemma ExactPaletteCoversPixels(pixels: seq<byte>, index4: bool, sorted: seq<byte>, luminance: LuminanceFunction)
    requires |FirstSeen(Entries(pixels))| <= RampEntries(index4)
    requires IsLuminanceSortOf(sorted, ExactPaletteColors(pixels, index4), luminance)
    ensures |sorted| / 4 == RampEntries(index4)
    ensures forall p :: p in FirstSeen(Entries(pixels)) ==> p in Entries(sorted)
    ensures forall k :: 0 <= k < |pixels| / 4 ==> Entry(pixels, k) in Entries(sorted)
  {
    ExactPaletteColorsEntries(pixels, index4);
    FirstSeenEntries(pixels);
    var es := Entries(ExactPaletteColors(pixels, index4));
    forall p | p in FirstSeen(Entries(pixels))
      ensures p in Entries(sorted)
    {
      assert p in es;
      assert p in multiset(Entries(sorted));
    }
    forall k | 0 <= k < |pixels| / 4
      ensures Entry(pixels, k) in Entries(sorted)
    {
      assert Entries(pixels)[k] == Entry(pixels, k);
    }
  }

  /** One entry of SortByLuminance's lookup table: an entry index and its luminance. */
  datatype LumEntry = LumEntry(index: int, luminance: byte)

  /** `f` applied to every element. */
  function Map<A, B>(f: A -> B, s: seq<A>): (r: seq<B>)
    ensures |r| == |s|
    ensures forall i :: 0 <= i < |s| ==> r[i] == f(s[i])
  {
    seq(|s|, i requires 0 <= i < |s| => f(s[i]))
  }

  /** Map distributes over concatenation. */
  lemma MapConcat<A, B>(f: A -> B, x: seq<A>, y: seq<A>)
    ensures Map(f, x + y) == Map(f, x) + Map(f, y)
  {
  }

  /** Taking one occurrence of `a[0]` out of a permutation `b` of `a` leaves a permutation of `a[1..]`. */
  lemma RemoveFirst<A>(a: seq<A>, b: seq<A>) returns (j: nat)
    requires a != [] && multiset(a) == multiset(b)
    ensures j < |b| && b[j] == a[0]
    ensures multiset(a[1..]) == multiset(b[..j] + b[j + 1..])
  {
    assert a[0] in multiset(b);
    j :| 0 <= j < |b| && b[j] == a[0];
    assert b == b[..j] + [a[0]] + b[j + 1..];
    assert a == [a[0]] + a[1..];
    var rest := b[..j] + b[j + 1..];
    assert multiset(b) == multiset(b[..j]) + multiset{a[0]} + multiset(b[j + 1..]);
    assert multiset(rest) == multiset(b[..j]) + multiset(b[j + 1..]);
    assert multiset(a) == multiset{a[0]} + multiset(a[1..]);
    forall y
      ensures multiset(a[1..])[y] == multiset(rest)[y]
    {
      assert multiset(a)[y] == multiset{a[0]}[y] + multiset(a[1..])[y];
      assert multiset(b)[y] == multiset{a[0]}[y] + multiset(rest)[y];
    }
  }

  /** Rearranging the elements rearranges their images the same way. */
  lemma {:induction false} MapPreservesMultiset<A, B>(f: A -> B, a: seq<A>, b: seq<A>)
    requires multiset(a) == multiset(b)
    ensures multiset(Map(f, a)) == multiset(Map(f, b))
    decreases |a|
  {
    if a == [] {
      assert |b| == |multiset(b)| == 0;
    } else {
      var j := RemoveFirst(a, b);
      var rest := b[..j] + b[j + 1..];
      MapPreservesMultiset(f, a[1..], rest);
      assert a == [a[0]] + a[1..];
      assert b == b[..j] + ([b[j]] + b[j + 1..]);
      MapConcat(f, [a[0]], a[1..]);
      MapConcat(f, b[..j], [b[j]] + b[j + 1..]);
      MapConcat(f, [b[j]], b[j + 1..]);
      MapConcat(f, b[..j], b[j + 1..]);
    }
  }

  /** Position of a least luminance in `lut[from..]`. */
  method IndexOfLeast(lut: array<LumEntry>, from: nat) returns (m: nat)
    requires from < lut.Length
    ensures from <= m < lut.Length
    ensures forall j :: from <= j < lut.Length ==> lut[m].luminance <= lut[j].luminance
  {
    m := from;
    var k := from + 1;
    while k < lut.Length
      invariant from <= m < lut.Length && from < k <= lut.Length
      invariant forall j :: from <= j < k ==> lut[m].luminance <= lut[j].luminance
    {
      if lut[k].luminance < lut[m].luminance {
        m := k;
      }
      k := k + 1;
    }
  }

  /** The first `n` table entries are in non-decreasing luminance. */
  predicate SortedUpTo(s: seq<LumEntry>, n: nat)
    requires n <= |s|
  {
    forall i, j :: 0 <= i < j < n ==> s[i].luminance <= s[j].luminance
  }

  /** No entry among the first `n` has greater luminance than an entry after them. */
  predicate SplitAt(s: seq<LumEntry>, n: nat)
    requires n <= |s|
  {
    forall i, j :: 0 <= i < n <= j < |s| ==> s[i].luminance <= s[j].luminance
  }

  /** One selection step: swapping a least entry of the unsorted part to its front extends the sorted part. */
  lemma SelectionStep(s: seq<LumEntry>, n: nat, m: nat)
    requires n <= m < |s|
    requires SortedUpTo(s, n) && SplitAt(s, n)
    requires forall j :: n <= j < |s| ==> s[m].luminance <= s[j].luminance
    ensures SortedUpTo(s[n := s[m]][m := s[n]], n + 1)
    ensures SplitAt(s[n := s[m]][m := s[n]], n + 1)
    ensures multiset(s[n := s[m]][m := s[n]]) == multiset(s)
  {
  }

  /**
   * Array.Sort of the lookup table by luminance, modelled by a selection
   * sort: afterwards the table is a permutation of what it was, in
   * non-decreasing luminance. Entries of equal luminance may end up in any
   * order.
   */
  method SortLut(lut: array<LumEntry>)
    modifies lut
    ensures multiset(lut[..]) == multiset(old(lut[..]))
    ensures forall i, j :: 0 <= i < j < lut.Length ==> lut[i].luminance <= lut[j].luminance
  {
    var n := 0;
    while n < lut.Length
      invariant 0 <= n <= lut.Length
      invariant multiset(lut[..]) == multiset(old(lut[..]))
      invariant SortedUpTo(lut[..], n) && SplitAt(lut[..], n)
    {
      var m := IndexOfLeast(lut, n);
      ghost var before := lut[..];
      lut[n], lut[m] := lut[m], lut[n];
      assert lut[..] == before[n := before[m]][m := before[n]];
      SelectionStep(before, n, m);
      n := n + 1;
    }
    assert SortedUpTo(lut[..], lut.Length);
  }

  /** Writing entry `i` of a buffer keeps the entries before it and the bytes after it. */
  lemma OverwriteEntry(buf: seq<byte>, i: nat, entry: seq<byte>)
    requires 4 * i + 4 <= |buf| && |entry| == 4
    ensures |Overwrite(buf, 4 * i, entry)| == |buf|
    ensures Entry(Overwrite(buf, 4 * i, entry), i) == entry
    ensures forall k :: 0 <= k < i ==> Entry(Overwrite(buf, 4 * i, entry), k) == Entry(buf, k)
    ensures forall k :: 4 * i + 4 <= k < |buf| ==> Overwrite(buf, 4 * i, entry)[k] == buf[k]
  {
    var r := Overwrite(buf, 4 * i, entry);
    forall k | 0 <= k < i
      ensures Entry(r, k) == Entry(buf, k)
    {
      assert r[4 * k..4 * k + 4] == buf[4 * k..4 * k + 4];
    }
  }

  /** The entry `e` names lies wholly within `data`. */
  predicate IndexFits(e: LumEntry, data: seq<byte>)
  {
    0 <= e.index && 4 * e.index + 4 <= |data|
  }

  /** `e` is the lookup-table entry the first loop of SortByLuminance builds for its index. */
  predicate TableEntryOf(e: LumEntry, data: seq<byte>, luminance: LuminanceFunction)
  {
    IndexFits(e, data) && e.luminance == Key(data, e.index, luminance)
  }

  /**
   * The second loop of SortByLuminance: a new zeroed buffer as long as `data`
   * whose entry `i` is the entry of `data` that `lut[i]` names.
   */
  method GatherEntries(data: seq<byte>, lut: array<LumEntry>) returns (gathered: array<byte>)
    requires 4 * lut.Length <= |data|
    requires forall k :: 0 <= k < lut.Length ==> IndexFits(lut[k], data)
    ensures fresh(gathered) && gathered.Length == |data|
    ensures forall k :: 0 <= k < lut.Length ==>
              IndexFits(lut[k], data) && Entry(gathered[..], k) == Entry(data, lut[k].index)
    ensures forall k :: 4 * lut.Length <= k < |data| ==> gathered[k] == 0
  {
    gathered := new byte[|data|](_ => 0);
    ghost var out := gathered[..];
    ghost var order := lut[..];
    for i := 0 to lut.Length
      invariant gathered[..] == out && |out| == |data|
      invariant forall k :: 0 <= k < i ==> Entry(out, k) == Entry(data, order[k].index)
      invariant forall k :: 4 * i <= k < |out| ==> out[k] == 0
    {
      assert IndexFits(order[i], data);
      var source := lut[i].index * 4;
      var entry := data[source..source + 4];
      assert entry == Entry(data, order[i].index);
      CopyInto(entry, gathered, i * 4);
      OverwriteEntry(out, i, entry);
      out := gathered[..];
    }
  }

  /** The lookup table the first loop of SortByLuminance builds: entry `k` is `(k, luminance of entry k)`. */
  function LookupTable(data: seq<byte>, luminance: LuminanceFunction): (table: seq<LumEntry>)
    ensures |table| == |data| / 4
    ensures forall k :: 0 <= k < |table| ==> table[k] == LumEntry(k, Key(data, k, luminance))
  {
    seq(|data| / 4, k requires 0 <= k < |data| / 4 => LumEntry(k, Key(data, k, luminance)))
  }

  /** The entry of `data` a lookup-table entry names, or nothing when it names none. */
  function Pick(data: seq<byte>, e: LumEntry): seq<byte>
  {
    if IndexFits(e, data) then Entry(data, e.index) else []
  }

  /** Gathering in table order reproduces the entries of `data`. */
  lemma PickTable(data: seq<byte>, luminance: LuminanceFunction)
    ensures Entries(data) == Map(e => Pick(data, e), LookupTable(data, luminance))
  {
  }

  /** A permutation of the lookup table holds only entries the first loop of SortByLuminance builds. */
  lemma PermutedTableEntries(data: seq<byte>, luminance: LuminanceFunction, order: seq<LumEntry>)
    requires multiset(order) == multiset(LookupTable(data, luminance))
    ensures |order| == |data| / 4
    ensures forall k :: 0 <= k < |order| ==> TableEntryOf(order[k], data, luminance)
  {
    var table := LookupTable(data, luminance);
    assert |order| == |multiset(order)| == |table|;
    forall k | 0 <= k < |order|
      ensures TableEntryOf(order[k], data, luminance)
    {
      assert order[k] in multiset(table);
      var t :| 0 <= t < |table| && table[t] == order[k];
    }
  }

  /**
   * Why SortByLuminance sorts: gathering the entries of `data` in the order of
   * any luminance-sorted permutation of its lookup table yields a luminance
   * sort of `data`.
   */
  lemma GatheredSortIsSort(data: seq<byte>, order: seq<LumEntry>, out: seq<byte>, luminance: LuminanceFunction)
    requires multiset(order) == multiset(LookupTable(data, luminance))
    requires forall i, j :: 0 <= i < j < |order| ==> order[i].luminance <= order[j].luminance
    requires |out| == |data| && |order| == |data| / 4
    requires forall k :: 0 <= k < |order| ==>
               IndexFits(order[k], data) && Entry(out, k) == Entry(data, order[k].index)
    requires forall k :: 4 * |order| <= k < |data| ==> out[k] == 0
    ensures IsLuminanceSortOf(out, data, luminance)
  {
    PermutedTableEntries(data, luminance, order);
    var pick := e => Pick(data, e);
    assert Entries(out) == Map(pick, order) by {
      forall k | 0 <= k < |order|
        ensures Entries(out)[k] == pick(order[k])
      {
        assert TableEntryOf(order[k], data, luminance);
      }
    }
    PickTable(data, luminance);
    MapPreservesMultiset(pick, order, LookupTable(data, luminance));
    forall k | 0 <= k < |order|
      ensures Key(out, k, luminance) == order[k].luminance
    {
      assert TableEntryOf(order[k], data, luminance);
      assert Entry(out, k) == Entry(data, order[k].index);
      assert out[4 * k] == data[4 * order[k].index];
      assert out[4 * k + 1] == data[4 * order[k].index + 1];
      assert out[4 * k + 2] == data[4 * order[k].index + 2];
    }
  }

  /**
   * Sorts the entries of `palette` by luminance into a new, unnamed palette of
   * the same byte length; the given palette is only read.
   */
  method SortByLuminance(palette: TexturePalette, luminance: LuminanceFunction) returns (sorted: TexturePalette)
    ensures fresh(sorted) && fresh(sorted.colorData) && sorted.Name == ""
    ensures IsLuminanceSortOf(sorted.ColorData(), palette.ColorData(), luminance)
  {
    var width := palette.Width();
    var lut := new LumEntry[width];
    var data := palette.ColorData();
    ghost var table := LookupTable(data, luminance);
    for i := 0 to width
      invariant forall k :: 0 <= k < i ==> lut[k] == table[k]
    {
      lut[i] := LumEntry(i, Key(data, i, luminance));
    }
    assert lut[..] == table;
    SortLut(lut);
    PermutedTableEntries(data, luminance, lut[..]);
    var newPalette := GatherEntries(data, lut);
    GatheredSortIsSort(data, lut[..], newPalette[..], luminance);
    sorted := new TexturePalette.FromColorData(newPalette);
  }

  /**
   * The inner search loop of TryGenerateExactPalette: whether `pixel` equals
   * one of the entries among the first `writtenBytes` bytes of the buffer.
   */
  method ContainsEntry(colors: array<byte>, writtenBytes: nat, pixel: seq<byte>) returns (known: bool)
    requires writtenBytes <= colors.Length && writtenBytes % 4 == 0
    ensures known <==> pixel in Entries(colors[..writtenBytes])
  {
    ghost var written := Entries(colors[..writtenBytes]);
    var paletteIndex := 0;
    while paletteIndex < writtenBytes
      invariant 0 <= paletteIndex <= writtenBytes && paletteIndex % 4 == 0
      invariant forall j :: 0 <= j < paletteIndex / 4 ==> written[j] != pixel
    {
      assert written[paletteIndex / 4] == colors[paletteIndex..paletteIndex + 4];
      if pixel == colors[paletteIndex..paletteIndex + 4] {
        return true;
      }
      paletteIndex := paletteIndex + 4;
    }
    return false;
  }

  /**
   * One pass of the outer loop of TryGenerateExactPalette: looks `pixel` up
   * among the entries written so far and appends it when it is new and there
   * is room. `full` reports a new colour that found the buffer full.
   */
  method AddIfNew(colors: array<byte>, writtenBytes: nat, pixel: seq<byte>, ghost found: seq<seq<byte>>)
    returns (full: bool, newWritten: nat, ghost newFound: seq<seq<byte>>)
    requires |pixel| == 4 && AllEntries(found) && colors.Length % 4 == 0
    requires writtenBytes == 4 * |found| <= colors.Length
    requires colors[..] == Flatten(found) + Zeros(colors.Length - writtenBytes)
    modifies colors
    ensures full <==> pixel !in found && writtenBytes >= colors.Length
    ensures !full ==> newFound == if pixel in found then found else found + [pixel]
    ensures !full ==> AllEntries(newFound) && newWritten == 4 * |newFound| <= colors.Length
    ensures !full ==> colors[..] == Flatten(newFound) + Zeros(colors.Length - newWritten)
  {
    FlattenEntries(found);
    assert colors[..writtenBytes] == Flatten(found);
    var known := ContainsEntry(colors, writtenBytes, pixel);
    if known {
      return false, writtenBytes, found;
    }
    if writtenBytes >= colors.Length {
      return true, writtenBytes, found;
    }
    OverwriteZeros(Flatten(found), colors.Length - writtenBytes, pixel);
    CopyInto(pixel, colors, writtenBytes);
    FlattenAppend(found, pixel);
    return false, writtenBytes + 4, found + [pixel];
  }

  /**
   * The scan of TryGenerateExactPalette: collects the distinct pixels in
   * row-major order into a new zeroed buffer of 16 (4-bit) or 256 (8-bit)
   * entries, giving up as soon as a new colour finds the buffer full.
   */
  method CollectColors(pixels: seq<byte>, index4: bool) returns (ok: bool, colors: array<byte>)
    requires |pixels| % 4 == 0
    ensures fresh(colors)
    ensures ok <==> |FirstSeen(Entries(pixels))| <= RampEntries(index4)
    ensures ok ==> colors[..] == ExactPaletteColors(pixels, index4)
  {
    colors := new byte[if index4 then 64 else 1024](_ => 0);
    var writtenBytes := 0;
    ghost var all := Entries(pixels);
    ghost var found: seq<seq<byte>> := [];
    var pixelAddr := 0;
    ghost var scanned := 0;
    while pixelAddr < |pixels|
      invariant 0 <= pixelAddr <= |pixels| && pixelAddr == 4 * scanned
      invariant found == FirstSeen(all[..scanned]) && AllEntries(found)
      invariant writtenBytes == 4 * |found| <= colors.Length
      invariant colors[..] == Flatten(found) + Zeros(colors.Length - writtenBytes)
    {
      var pixel := pixels[pixelAddr..pixelAddr + 4];
      assert all[scanned] == pixel;
      FirstSeenStep(all, scanned);
      var full;
      full, writtenBytes, found := AddIfNew(colors, writtenBytes, pixel, found);
      if full {
        FirstSeenPrefix(all, scanned + 1);
        return false, colors;
      }
      pixelAddr := pixelAddr + 4;
      scanned := scanned + 1;
    }
    assert all[..scanned] == all;
    return true, colors;
  }

  /**
   * Builds a palette holding every colour of `texture` when there are at most
   * 16 (4-bit) or 256 (8-bit) of them: the distinct pixels in row-major order
   * of first occurrence, padded with zero entries, then sorted by luminance.
   * With more colours it fails and the palette stays null.
   */
  method TryGenerateExactPalette(texture: ColorTexture, index4: bool, luminance: LuminanceFunction)
    returns (success: bool, palette: TexturePalette?)
    requires texture.Valid()
    ensures success <==> |FirstSeen(Entries(texture.base.Data[..]))| <= RampEntries(index4)
    ensures !success ==> palette == null
    ensures success ==> palette != null && fresh(palette) && fresh(palette.colorData) && palette.Name == ""
    ensures success ==>
              IsLuminanceSortOf(palette.ColorData(), ExactPaletteColors(texture.base.Data[..], index4), luminance)
  {
    palette := null;
    var pixels := texture.GetColorPixels();
    assert pixels == texture.base.Data[..];
    assert |pixels| == (texture.base.Width * texture.base.Height) * 4;
    var ok, colors := CollectColors(pixels, index4);
    if !ok {
      return false, null;
    }
    var unsorted := new TexturePalette.FromColorData(colors);
    palette := SortByLuminance(unsorted, luminance);
    return true, palette;
  }
}
