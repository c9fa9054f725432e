/**
 * TextureNameList.cs: a labelled table of texture names. On disk it is an
 * array of 12-byte records followed by an 8-byte header, the array's address
 * and the record count; the header's address is the table's address.
 */
module TextureNameLists {
  import opened Bytes
  import opened Wrappers
  import opened EndianIO
  import opened LabelTables
  import opened TextureNames

  /**
   * A table: its own label, the label of its record array and the records; a
   * slot is `None` where the source's array holds null.
   */
  datatype TextureNameList = TextureNameList(listLabel: string, arrayLabel: string, entries: seq<Option<TextureName>>)

  // ---------------------------------------------------------------------------
  // Fallback labels: `ToString("X8")`
  // ---------------------------------------------------------------------------

  /** An upper-case hexadecimal digit. */
  function HexDigit(d: nat): (c: char)
    requires d < 16
  {
    if d < 10 then ('0' as int + d) as char else ('A' as int + d - 10) as char
  }

  /** The value of an upper-case hexadecimal digit. */
  function DigitValue(c: char): nat
  {
    if '0' <= c <= '9' then c as int - '0' as int
    else if 'A' <= c <= 'F' then c as int - 'A' as int + 10
    else 0
  }

  /** The `n` lowest hexadecimal digits of `v`, most significant first. */
  function HexDigits(v: nat, n: nat): (s: string)
    ensures |s| == n
  {
    if n == 0 then "" else HexDigits(v / 16, n - 1) + [HexDigit(v % 16)]
  }

  /** The value of a string of hexadecimal digits. */
  function HexValue(s: string): nat
  {
    if s == [] then 0 else 16 * HexValue(s[..|s| - 1]) + DigitValue(s[|s| - 1])
  }

  /** `16^n`. */
  function Pow16(n: nat): (p: nat)
    ensures p > 0
  {
    if n == 0 then 1 else 16 * Pow16(n - 1)
  }

  /** `ToString("X8")`: eight upper-case hexadecimal digits. */
  function Hex8(v: u32): (s: string)
    ensures |s| == 8
    ensures forall i :: 0 <= i < 8 ==> '0' <= s[i] <= '9' || 'A' <= s[i] <= 'F'
  {
    HexDigitsAreDigits(v, 8);
    HexDigits(v, 8)
  }

  /** Every character HexDigits produces is a digit or an upper-case letter A to F. */
  lemma {:induction false} HexDigitsAreDigits(v: nat, n: nat)
    ensures forall i :: 0 <= i < n ==> '0' <= HexDigits(v, n)[i] <= '9' || 'A' <= HexDigits(v, n)[i] <= 'F'
  {
    if n > 0 {
      HexDigitsAreDigits(v / 16, n - 1);
      var s := HexDigits(v, n);
      assert s == HexDigits(v / 16, n - 1) + [HexDigit(v % 16)];
      assert forall i :: 0 <= i < n - 1 ==> s[i] == HexDigits(v / 16, n - 1)[i];
    }
  }

  /** `n` hexadecimal digits spell out any value below `16^n`. */
  lemma {:induction false} HexDigitsValue(v: nat, n: nat)
    requires v < Pow16(n)
    ensures HexValue(HexDigits(v, n)) == v
  {
    if n > 0 {
      var s := HexDigits(v, n);
      var q, d := v / 16, v % 16;
      assert v == 16 * q + d && d < 16;
      assert q < Pow16(n - 1) by {
        assert Pow16(n) == 16 * Pow16(n - 1);
      }
      HexDigitsValue(q, n - 1);
      assert s == HexDigits(q, n - 1) + [HexDigit(d)];
      assert s[..n - 1] == HexDigits(q, n - 1);
      assert DigitValue(s[n - 1]) == d;
    }
  }

  /** Hex8 is one-to-one: the eight digits give back the address. */
  lemma Hex8Value(v: u32)
    ensures HexValue(Hex8(v)) == v
  {
    assert Pow16(8) == U32_LIMIT;
    HexDigitsValue(v, 8);
  }

  /**
   * The label Read gives an address: its registered label, else `prefix` and the
   * address in hex (`texlist_` for the table, `textures_` for its array).
   */
  function LabelOf(l: Labels, address: nat, prefix: string): string
  {
    if address in l.labelAt then l.labelAt[address] else prefix + Hex8(address % U32_LIMIT)
  }

  // ---------------------------------------------------------------------------
  // Reading
  // ---------------------------------------------------------------------------

  /** Address of record `i`: the array address advanced by 12 bytes per record, modulo 2^32. */
  function RecordAddress(first: u32, i: nat): u32
  {
    if i == 0 then first else (RecordAddress(first, i - 1) + StructSize) % U32_LIMIT
  }

  /** Without wrap-around, record `i` lies `12 * i` bytes past the first. */
  lemma {:induction false} RecordAddressLinear(first: u32, i: nat)
    requires first + StructSize * i < U32_LIMIT
    ensures RecordAddress(first, i) == first + StructSize * i
  {
    if i > 0 {
      RecordAddressLinear(first, i - 1);
    }
  }

  /** What reading each of the first `count` records of the array at `first` gives. */
  function RecordResults(data: seq<byte>, first: u32, count: nat): (rs: seq<Result<TextureName, ReadError>>)
    ensures |rs| == count
  {
    seq(count, i requires 0 <= i < count => ReadTextureName(data, RecordAddress(first, i)))
  }

  /** Records read in order: the first failed read is the result, otherwise every record read. */
  function Collect(results: seq<Result<TextureName, ReadError>>): (r: Result<seq<Option<TextureName>>, ReadError>)
    ensures r.Success? ==> |r.value| == |results|
  {
    if results == [] then Success([])
    else
      match Collect(results[..|results| - 1])
      case Failure(e) => Failure(e)
      case Success(entries) =>
        match results[|results| - 1]
        case Failure(e) => Failure(e)
        case Success(tn) => Success(entries + [Some(tn)])
  }

  /** The first `count` records of the array at `first`; the first unreadable one makes the read fail. */
  function ReadRecords(data: seq<byte>, first: u32, count: nat): (r: Result<seq<Option<TextureName>>, ReadError>)
    ensures r.Success? ==> |r.value| == count
  {
    Collect(RecordResults(data, first, count))
  }

  /** A read that fails at record `k`, after `k` readable ones, fails with that record's error. */
  lemma {:induction false} CollectFailure(results: seq<Result<TextureName, ReadError>>, k: nat)
    requires k < |results| && Collect(results[..k]).Success? && results[k].Failure?
    ensures Collect(results) == Failure(results[k].error)
  {
    if k == |results| - 1 {
      assert results[..|results| - 1] == results[..k];
    } else {
      var init := results[..|results| - 1];
      assert init[..k] == results[..k];
      CollectFailure(init, k);
    }
  }

  /** One more successful read extends the collected prefix by its record. */
  lemma CollectStep(results: seq<Result<TextureName, ReadError>>, i: nat, prefix: seq<Option<TextureName>>, tn: TextureName)
    requires i < |results| && Collect(results[..i]) == Success(prefix) && results[i] == Success(tn)
    ensures Collect(results[..i + 1]) == Success(prefix + [Some(tn)])
  {
    assert results[..i + 1][..i] == results[..i];
  }

  /** When every read gives the slot's record, the collected read is all the slots. */
  lemma {:induction false} CollectAll(results: seq<Result<TextureName, ReadError>>, entries: seq<Option<TextureName>>)
    requires |results| == |entries|
    requires forall i :: 0 <= i < |results| ==> entries[i].Some? && results[i] == Success(entries[i].value)
    ensures Collect(results) == Success(entries)
  {
    if results != [] {
      var n := |results| - 1;
      CollectAll(results[..n], entries[..n]);
      assert entries[..n] + [entries[n]] == entries;
    }
  }

  /** Every read succeeds exactly when the collected read does, which then holds each record in its slot. */
  lemma {:induction false} CollectMeaning(results: seq<Result<TextureName, ReadError>>)
    ensures Collect(results).Success? <==> forall i :: 0 <= i < |results| ==> results[i].Success?
    ensures Collect(results).Success? ==>
              forall i :: 0 <= i < |results| ==> Collect(results).value[i] == Some(results[i].value)
    decreases |results|
  {
    if results != [] {
      var init := results[..|results| - 1];
      CollectMeaning(init);
      assert forall i :: 0 <= i < |init| ==> init[i] == results[i];
    }
  }

  /**
   * The array read: it succeeds exactly when every one of the `count` records
   * is readable at its address, and slot `i` then holds the record read at
   * the array address advanced by `12 * i` bytes.
   */
  lemma ReadRecordsMeaning(data: seq<byte>, first: u32, count: nat)
    ensures ReadRecords(data, first, count).Success? ==>
              forall i {:trigger ReadTextureName(data, RecordAddress(first, i))} :: 0 <= i < count ==>
                ReadTextureName(data, RecordAddress(first, i)).Success?
    ensures (forall i {:trigger ReadTextureName(data, RecordAddress(first, i))} :: 0 <= i < count ==>
                ReadTextureName(data, RecordAddress(first, i)).Success?) ==> ReadRecords(data, first, count).Success?
    ensures ReadRecords(data, first, count).Success? ==>
              forall i {:trigger ReadTextureName(data, RecordAddress(first, i))} :: 0 <= i < count ==>
                ReadRecords(data, first, count).value[i] == Some(ReadTextureName(data, RecordAddress(first, i)).value)
  {
    var results := RecordResults(data, first, count);
    CollectMeaning(results);
    if forall i {:trigger ReadTextureName(data, RecordAddress(first, i))} :: 0 <= i < count ==>
         ReadTextureName(data, RecordAddress(first, i)).Success? {
      forall i | 0 <= i < count
        ensures results[i].Success?
      {
        assert results[i] == ReadTextureName(data, RecordAddress(first, i));
      }
    }
    forall i | 0 <= i < count
      ensures results[i] == ReadTextureName(data, RecordAddress(first, i))
    {
    }
    if ReadRecords(data, first, count).Success? {
      forall i | 0 <= i < count
        ensures ReadTextureName(data, RecordAddress(first, i)).Success?
      {
        assert results[i].Success?;
      }
    }
  }

  /** When every record results back as the given one, so does the array. */
  lemma ReadRecordsAll(data: seq<byte>, first: u32, entries: seq<Option<TextureName>>)
    requires forall i :: 0 <= i < |entries| ==> ReadsBack(data, RecordAddress(first, i), entries[i])
    ensures ReadRecords(data, first, |entries|) == Success(entries)
  {
    var results := RecordResults(data, first, |entries|);
    forall i | 0 <= i < |entries|
      ensures entries[i].Some? && results[i] == Success(entries[i].value)
    {
      assert ReadsBack(data, RecordAddress(first, i), entries[i]);
    }
    CollectAll(results, entries);
  }

  /** The record at `address` results back as the slot's record. */
  predicate ReadsBack(data: seq<byte>, address: u32, entry: Option<TextureName>)
  {
    entry.Some? && ReadTextureName(data, address) == Success(entry.value)
  }

  /**
   * Read: the array address at `address` and the count at `address + 4`; a
   * zero array address leaves every slot null, otherwise `count` records are
   * read from the array address on.
   */
  function ReadList(data: seq<byte>, address: u32, l: Labels): Result<TextureNameList, ReadError>
  {
    match ReadUInt(data, address)
    case Failure(e) => Failure(e)
    case Success(arrayAddress) =>
      match ReadUInt(data, (address + 4) % U32_LIMIT)
      case Failure(e) => Failure(e)
      case Success(count) =>
        if arrayAddress == 0 then
          Success(TextureNameList(LabelOf(l, address, "texlist_"), LabelOf(l, arrayAddress, "textures_"), seq(count, _ => None)))
        else
          match ReadRecords(data, arrayAddress, count)
          case Failure(e) => Failure(e)
          case Success(entries) => Success(TextureNameList(LabelOf(l, address, "texlist_"), LabelOf(l, arrayAddress, "textures_"), entries))
  }

  /**
   * Read as the source runs it: the labels are looked up, the slot array is
   * allocated null and, unless the array address is zero, filled record by record.
   */
  method Read(data: seq<byte>, address: u32, labels: LabelDictionary) returns (r: Result<TextureNameList, ReadError>)
    ensures r == ReadList(data, address, labels.State())
  {
    var name := LookUpLabel(labels, address, "texlist_");
    var arrayAddress := ReadUInt(data, address);
    if arrayAddress.Failure? {
      return Failure(arrayAddress.error);
    }
    var arrayLabel := LookUpLabel(labels, arrayAddress.value, "textures_");
    var count := ReadUInt(data, (address + 4) % U32_LIMIT);
    if count.Failure? {
      return Failure(count.error);
    }
    var textureNames := new Option<TextureName>[count.value](_ => None);
    if arrayAddress.value != 0 {
      var filled := ReadRecordsInto(data, arrayAddress.value, textureNames);
      if filled.Failure? {
        return Failure(filled.error);
      }
    } else {
      assert textureNames[..] == seq(count.value, _ => None);
    }
    return Success(TextureNameList(name, arrayLabel, textureNames[..]));
  }

  /** The label registered at `address`, else `prefix` and `address.ToString("X8")`. */
  method LookUpLabel(labels: LabelDictionary, address: u32, prefix: string) returns (name: string)
    ensures name == LabelOf(labels.State(), address, prefix)
  {
    name := match labels.TryGetValue(address)
      case Some(n) => n
      case None => prefix + Hex8(address);
    assert address % U32_LIMIT == address;
  }

  /**
   * The loop of Read: slot `i` receives the record at the array address advanced
   * by `12 * i` bytes; the first unreadable record ends the read.
   */
  method ReadRecordsInto(data: seq<byte>, first: u32, textureNames: array<Option<TextureName>>)
    returns (r: Result<(), ReadError>)
    modifies textureNames
    ensures r.Success? <==> ReadRecords(data, first, textureNames.Length).Success?
    ensures r.Failure? ==> r.error == ReadRecords(data, first, textureNames.Length).error
    ensures r.Success? ==> ReadRecords(data, first, textureNames.Length).value == textureNames[..]
  {
    ghost var results := RecordResults(data, first, textureNames.Length);
    var recordAddress := first;
    var i := 0;
    while i < textureNames.Length
      invariant 0 <= i <= textureNames.Length
      invariant recordAddress == RecordAddress(first, i)
      invariant Collect(results[..i]) == Success(textureNames[..i])
    {
      var tn := ReadTextureName(data, recordAddress);
      assert tn == results[i];
      if tn.Failure? {
        CollectFailure(results, i);
        return Failure(tn.error);
      }
      ghost var prefix := textureNames[..i];
      textureNames[i] := Some(tn.value);
      CollectStep(results, i, prefix, tn.value);
      assert textureNames[..i + 1] == prefix + [Some(tn.value)];
      recordAddress := (recordAddress + StructSize) % U32_LIMIT;
      i := i + 1;
    }
    assert results[..i] == results;
    assert textureNames[..] == textureNames[..textureNames.Length];
    return Success(());
  }

  // ---------------------------------------------------------------------------
  // Writing
  // ---------------------------------------------------------------------------

  /** The stream, the labels and the exception, if any, after the name strings are written. */
  datatype Stored = Stored(stream: Stream, labels: Labels, error: Option<WriteError>)

  /**
   * One pass of Write's first loop: a null slot throws; a record without a
   * name or whose name is labelled already is skipped; otherwise the name is
   * labelled at the position (Add, which throws on a conflicting label there)
   * and written null-terminated, and the stream is aligned to four bytes.
   */
  function StoreName(entry: Option<TextureName>, s: Stream, l: Labels): (r: Stored)
    requires s.Valid()
    ensures r.stream.Valid() && Extends(r.labels, l)
    ensures r.stream.position >= s.position && |r.stream.buffer| >= |s.buffer|
    ensures r.error == Some(NullEntry) <==> entry.None?
    ensures r.error.Some? ==> r.stream == s && r.labels == l
    ensures r.error.None? ==> Recordable(entry, r.labels)
    ensures entry.Some? && (entry.value.name.None? || entry.value.name.value in l.addressOf) ==> r == Stored(s, l, None)
  {
    match entry
    case None => Stored(s, l, Some(NullEntry))
    case Some(tn) =>
      match tn.name
      case None => Stored(s, l, None)
      case Some(name) =>
        if name in l.addressOf then Stored(s, l, None)
        else
          match TryAdd(l, s.position, name)
          case Failure(_) => Stored(s, l, Some(LabelConflict))
          case Success(named) =>
            var written := Emit(s, NullTerminated(name));
            Stored(Emit(written, Zeros(AlignPadding(written.position, 4))), named, None)
  }

  /** Write's first loop over the first `k` slots: it stops at the first exception. */
  function StoreNames(entries: seq<Option<TextureName>>, k: nat, s: Stream, l: Labels): (r: Stored)
    requires k <= |entries| && s.Valid()
    ensures r.stream.Valid() && Extends(r.labels, l)
    ensures r.stream.position >= s.position && |r.stream.buffer| >= |s.buffer|
  {
    if k == 0 then Stored(s, l, None)
    else
      var prev := StoreNames(entries, k - 1, s, l);
      if prev.error.Some? then prev
      else
        var r := StoreName(entries[k - 1], prev.stream, prev.labels);
        ExtendsTrans(l, prev.labels, r.labels);
        r
  }

  /** A slot TextureName.Write can write with the labels `l`: a record whose name, if any, is labelled. */
  predicate Recordable(entry: Option<TextureName>, l: Labels)
  {
    entry.Some? && Record(entry.value, l).Success?
  }

  /** The first `k` slots are all recordable. */
  predicate AllRecordable(entries: seq<Option<TextureName>>, k: nat, l: Labels)
  {
    k <= |entries| && forall i :: 0 <= i < k ==> Recordable(entries[i], l)
  }

  /** The bytes Write's second loop emits for the first `k` slots: their records, back to back. */
  function Records(entries: seq<Option<TextureName>>, k: nat, l: Labels): (r: seq<byte>)
    requires k <= |entries| && AllRecordable(entries, |entries|, l)
    ensures |r| == StructSize * k
  {
    if k == 0 then [] else Records(entries, k - 1, l) + Record(entries[k - 1].value, l).value
  }

  /** What a table write leaves: the stream, the labels and the table's address or the exception. */
  datatype Written = Written(stream: Stream, labels: Labels, result: Result<nat, WriteError>)

  /** The zeroed space Write reserves first: the header and one record per slot. */
  function Reserve(list: TextureNameList, s: Stream): (r: Stream)
    requires s.Valid()
    ensures r.Valid() && r.position == s.position + 8 + StructSize * |list.entries|
  {
    Emit(s, Zeros(8 + StructSize * |list.entries|))
  }

  /**
   * Write: reserves the records and the header, writes the names not yet
   * labelled, returns to the start, labels it with the array label (AddSafe),
   * writes the records, labels the position after them with the table label
   * (AddSafe) and writes the header there, the array address and the count;
   * the stream ends at its end and the header's address is the result.
   */
  function WriteList(list: TextureNameList, s: Stream, l: Labels): (w: Written)
    requires s.Valid()
    ensures w.stream.Valid() && Extends(w.labels, l)
    ensures w.result.Success? ==> w.result.value == s.position + StructSize * |list.entries|
    ensures w.result.Success? ==> w.stream.position == |w.stream.buffer|
  {
    var n := |list.entries|;
    var reserved := Reserve(list, s);
    var stored := StoreNames(list.entries, n, reserved, l);
    if stored.error.Some? then Written(stored.stream, stored.labels, Failure(stored.error.value))
    else
      StoreNamesRecordable(list.entries, n, reserved, l);
      var w := FinishList(list, s.position, stored.stream, stored.labels);
      ExtendsTrans(l, stored.labels, w.labels);
      w
  }

  /**
   * The rest of Write once the names are written: back at the start, labelled
   * with the array label (AddSafe), the records; the position after them
   * labelled with the table label (AddSafe) and the header written there; the
   * stream left at its end and the header's address returned.
   */
  function FinishList(list: TextureNameList, start: nat, s: Stream, l: Labels): (w: Written)
    requires s.Valid() && start <= |s.buffer| && AllRecordable(list.entries, |list.entries|, l)
    ensures w.stream.Valid() && Extends(w.labels, l)
    ensures w.result == Success(start + StructSize * |list.entries|) && w.stream.position == |w.stream.buffer|
  {
    var arrayLabelled := AddIfAbsent(l, start, list.arrayLabel);
    AllRecordableExtends(list.entries, |list.entries|, l, arrayLabelled);
    var table := WriteTable(list.entries, Stream(s.buffer, start), arrayLabelled);
    var address := start + StructSize * |list.entries|;
    var listLabelled := AddIfAbsent(arrayLabelled, address, list.listLabel);
    ExtendsTrans(l, arrayLabelled, listLabelled);
    Written(Stream(table.buffer, |table.buffer|), listLabelled, Success(address))
  }

  /**
   * Write's second loop and header, from the position `at`: the records back to
   * back, then the array address (the start) and the record count.
   */
  function WriteTable(entries: seq<Option<TextureName>>, at: Stream, l: Labels): (r: Stream)
    requires at.Valid() && AllRecordable(entries, |entries|, l)
    ensures r.Valid() && r.position == at.position + StructSize * |entries| + 8
  {
    var filled := Emit(at, Records(entries, |entries|, l));
    Emit(Emit(filled, EncodeU32(at.position)), EncodeU32(|entries|))
  }

  /** A record that can be written keeps its bytes under more labels. */
  lemma RecordExtends(tn: TextureName, l: Labels, more: Labels)
    requires Record(tn, l).Success? && Extends(more, l)
    ensures Record(tn, more) == Record(tn, l)
  {
  }

  /** Slots that can be written stay so, with the same bytes, under more labels. */
  lemma AllRecordableExtends(entries: seq<Option<TextureName>>, k: nat, l: Labels, more: Labels)
    requires AllRecordable(entries, k, l) && Extends(more, l)
    ensures AllRecordable(entries, k, more)
    ensures forall i :: 0 <= i < k ==> Record(entries[i].value, more) == Record(entries[i].value, l)
  {
    forall i | 0 <= i < k
      ensures Record(entries[i].value, more) == Record(entries[i].value, l)
    {
      RecordExtends(entries[i].value, l, more);
    }
  }

  /** When the first loop runs through, every slot it passed can be written as a record. */
  lemma {:induction false} StoreNamesRecordable(entries: seq<Option<TextureName>>, k: nat, s: Stream, l: Labels)
    requires k <= |entries| && s.Valid()
    ensures var r := StoreNames(entries, k, s, l); r.error.None? ==> AllRecordable(entries, k, r.labels)
  {
    if k > 0 {
      var prev := StoreNames(entries, k - 1, s, l);
      StoreNamesRecordable(entries, k - 1, s, l);
      if prev.error.None? {
        var r := StoreName(entries[k - 1], prev.stream, prev.labels);
        assert StoreNames(entries, k, s, l) == r;
        if r.error.None? {
          AllRecordableExtends(entries, k - 1, prev.labels, r.labels);
          assert Recordable(entries[k - 1], r.labels);
        }
      }
    }
  }

  /**
   * A name is written once: a later slot carrying a name an earlier slot
   * already stored leaves the stream and the labels as they were.
   */
  lemma StoreNamesRepeatedName(entries: seq<Option<TextureName>>, j: nat, k: nat, s: Stream, l: Labels)
    requires j < k < |entries| && s.Valid()
    requires entries[j].Some? && entries[j].value.name.Some?
    requires entries[k].Some? && entries[k].value.name == entries[j].value.name
    requires StoreNames(entries, k, s, l).error.None?
    ensures StoreNames(entries, k + 1, s, l) == StoreNames(entries, k, s, l)
  {
    StoreNamesRecordable(entries, k, s, l);
    assert Recordable(entries[j], StoreNames(entries, k, s, l).labels);
  }

  /** The first loop, once it has thrown, ignores the slots after. */
  lemma {:induction false} StoreNamesErrorPersists(entries: seq<Option<TextureName>>, k: nat, count: nat, s: Stream, l: Labels)
    requires k <= count <= |entries| && s.Valid() && StoreNames(entries, k, s, l).error.Some?
    ensures StoreNames(entries, count, s, l) == StoreNames(entries, k, s, l)
    decreases count - k
  {
    if k < count {
      StoreNamesErrorPersists(entries, k, count - 1, s, l);
      var prev := StoreNames(entries, count - 1, s, l);
      assert prev.error.Some?;
      assert StoreNames(entries, count, s, l) == prev;
    }
  }

  /**
   * Write on the stream and label objects: the same steps, in place; a thrown
   * exception leaves both as far as the write had got.
   */
  method Write(list: TextureNameList, writer: EndianStackWriter, labels: LabelDictionary) returns (r: Result<nat, WriteError>)
    requires writer.Valid()
    modifies writer, labels
    ensures writer.Valid()
    ensures Written(writer.State(), labels.State(), r) == WriteList(list, old(writer.State()), old(labels.State()))
  {
    ghost var s0 := writer.State();
    ghost var l0 := labels.State();
    var n := |list.entries|;
    var start := writer.position;
    writer.WriteEmpty(8 + StructSize * n);
    assert writer.State() == Reserve(list, s0);
    var error := WriteNameStrings(list.entries, writer, labels);
    if error.Some? {
      assert WriteList(list, s0, l0) == Written(writer.State(), labels.State(), Failure(error.value));
      return Failure(error.value);
    }
    WriteListFinishes(list, s0, l0);
    var address := FinishWrite(list, start, writer, labels);
    return Success(address);
  }

  /** The rest of Write once the names are written: it does what FinishList says. */
  method FinishWrite(list: TextureNameList, start: nat, writer: EndianStackWriter, labels: LabelDictionary) returns (address: nat)
    requires writer.Valid() && start <= |writer.buffer| && AllRecordable(list.entries, |list.entries|, labels.State())
    modifies writer, labels
    ensures writer.Valid()
    ensures Written(writer.State(), labels.State(), Success(address)) == FinishList(list, start, old(writer.State()), old(labels.State()))
  {
    FinishListIs(list, start, writer.State(), labels.State());
    address := WriteTableAt(list, start, writer, labels);
  }

  /** Once the first loop runs through, Write is FinishList over what it left. */
  lemma WriteListFinishes(list: TextureNameList, s: Stream, l: Labels)
    requires s.Valid()
    ensures var stored := StoreNames(list.entries, |list.entries|, Reserve(list, s), l);
      stored.error.None? ==>
        AllRecordable(list.entries, |list.entries|, stored.labels) &&
        WriteList(list, s, l) == FinishList(list, s.position, stored.stream, stored.labels)
  {
    StoreNamesRecordable(list.entries, |list.entries|, Reserve(list, s), l);
  }

  /** FinishList spelt out: the table over the stream from the start, under the two added labels. */
  lemma FinishListIs(list: TextureNameList, start: nat, s: Stream, l: Labels)
    requires s.Valid() && start <= |s.buffer| && AllRecordable(list.entries, |list.entries|, l)
    ensures var arrayLabelled := AddIfAbsent(l, start, list.arrayLabel);
      var address := start + StructSize * |list.entries|;
      AllRecordable(list.entries, |list.entries|, arrayLabelled) &&
      var table := WriteTable(list.entries, Stream(s.buffer, start), arrayLabelled);
      FinishList(list, start, s, l) == Written(Stream(table.buffer, |table.buffer|), AddIfAbsent(arrayLabelled, address, list.listLabel), Success(address))
  {
    AllRecordableExtends(list.entries, |list.entries|, l, AddIfAbsent(l, start, list.arrayLabel));
  }

  /**
   * The steps after the first loop: seek to the start, AddSafe the array
   * label there, the second loop, AddSafe the table label after the records,
   * the header (array address, count), seek to the end.
   */
  method WriteTableAt(list: TextureNameList, start: nat, writer: EndianStackWriter, labels: LabelDictionary) returns (address: nat)
    requires writer.Valid() && start <= |writer.buffer| && AllRecordable(list.entries, |list.entries|, labels.State())
    modifies writer, labels
    ensures writer.Valid() && address == start + StructSize * |list.entries|
    ensures var arrayLabelled := AddIfAbsent(old(labels.State()), start, list.arrayLabel);
      AllRecordable(list.entries, |list.entries|, arrayLabelled) &&
      var table := WriteTable(list.entries, Stream(old(writer.buffer), start), arrayLabelled);
      writer.State() == Stream(table.buffer, |table.buffer|) &&
      labels.State() == AddIfAbsent(arrayLabelled, address, list.listLabel)
  {
    ghost var s0 := writer.State();
    ghost var l0 := labels.State();
    writer.Seek(start);
    var arrayAddress := writer.position;
    labels.AddSafe(arrayAddress, list.arrayLabel);
    AllRecordableExtends(list.entries, |list.entries|, old(labels.State()), labels.State());
    ghost var arrayLabelled := labels.State();
    assert arrayLabelled == AddIfAbsent(l0, start, list.arrayLabel);
    ghost var at := writer.State();
    assert at == Stream(s0.buffer, start);
    WriteRecords(list.entries, writer, labels);
    address := writer.position;
    assert address == start + StructSize * |list.entries|;
    labels.AddSafe(address, list.listLabel);
    writer.WriteUInt(arrayAddress);
    writer.WriteUInt(|list.entries|);
    ghost var table := WriteTable(list.entries, at, arrayLabelled);
    assert writer.buffer == table.buffer;
    writer.SeekEnd();
    assert writer.State() == Stream(table.buffer, |table.buffer|);
  }

  /** Write's first loop: the name strings not yet labelled, each labelled where it is written. */
  method WriteNameStrings(entries: seq<Option<TextureName>>, writer: EndianStackWriter, labels: LabelDictionary)
    returns (error: Option<WriteError>)
    requires writer.Valid()
    modifies writer, labels
    ensures writer.Valid()
    ensures Stored(writer.State(), labels.State(), error) == StoreNames(entries, |entries|, old(writer.State()), old(labels.State()))
  {
    ghost var s0 := writer.State();
    ghost var l0 := labels.State();
    var i := 0;
    while i < |entries|
      invariant 0 <= i <= |entries| && writer.Valid()
      invariant StoreNames(entries, i, s0, l0) == Stored(writer.State(), labels.State(), None)
    {
      error := WriteNameString(entries[i], writer, labels);
      if error.Some? {
        StoreNamesErrorPersists(entries, i + 1, |entries|, s0, l0);
        return;
      }
      i := i + 1;
    }
    return None;
  }

  /** One pass of the first loop: see StoreName. */
  method WriteNameString(entry: Option<TextureName>, writer: EndianStackWriter, labels: LabelDictionary)
    returns (error: Option<WriteError>)
    requires writer.Valid()
    modifies writer, labels
    ensures writer.Valid()
    ensures Stored(writer.State(), labels.State(), error) == StoreName(entry, old(writer.State()), old(labels.State()))
  {
    if entry.None? {
      return Some(NullEntry);
    }
    var name := entry.value.name;
    if name.None? {
      return None;
    }
    var found := labels.TryGetAddress(name.value);
    if found.None? {
      var added := labels.Add(writer.position, name.value);
      if !added {
        return Some(LabelConflict);
      }
      writer.WriteStringNullterminated(name.value);
      writer.Align(4);
    }
    return None;
  }

  /** Write's second loop: TextureName.Write for every slot, none of which can throw here. */
  method WriteRecords(entries: seq<Option<TextureName>>, writer: EndianStackWriter, labels: LabelDictionary)
    requires writer.Valid() && AllRecordable(entries, |entries|, labels.State())
    modifies writer
    ensures writer.Valid() && writer.State() == Emit(old(writer.State()), Records(entries, |entries|, labels.State()))
  {
    ghost var at := writer.State();
    ghost var l := labels.State();
    var i := 0;
    while i < |entries|
      invariant 0 <= i <= |entries| && writer.Valid()
      invariant labels.State() == l && AllRecordable(entries, |entries|, l)
      invariant writer.State() == Emit(at, Records(entries, i, l))
    {
      WriteRecord(entries, i, writer, labels, at, l);
      i := i + 1;
    }
  }

  /** One pass of the second loop: the record of slot `i` after those of the slots before it. */
  method WriteRecord(entries: seq<Option<TextureName>>, i: nat, writer: EndianStackWriter, labels: LabelDictionary, ghost at: Stream, ghost l: Labels)
    requires i < |entries| && labels.State() == l && AllRecordable(entries, |entries|, l)
    requires at.Valid() && writer.Valid() && writer.State() == Emit(at, Records(entries, i, l))
    modifies writer
    ensures writer.Valid() && writer.State() == Emit(at, Records(entries, i + 1, l))
  {
    var ok := entries[i].value.Write(writer, labels);
    assert ok;
    EmitRecord(at, entries, i, l);
  }

  /** Writing the records one after another is writing them all at once. */
  lemma EmitRecord(at: Stream, entries: seq<Option<TextureName>>, i: nat, l: Labels)
    requires at.Valid() && i < |entries| && AllRecordable(entries, |entries|, l)
    ensures Emit(Emit(at, Records(entries, i, l)), Record(entries[i].value, l).value) == Emit(at, Records(entries, i + 1, l))
  {
    EmitTwice(at, Records(entries, i, l), Record(entries[i].value, l).value);
  }

  // ---------------------------------------------------------------------------
  // What Write lays down
  // ---------------------------------------------------------------------------

  /** The slot holds a record whose name is labelled in `l`. */
  predicate Labelled(entry: Option<TextureName>, l: Labels)
  {
    entry.Some? && entry.value.name.Some? && entry.value.name.value in l.addressOf
  }

  /**
   * The string `name` is stored null-terminated at `a`: above address zero,
   * ending at or before `position` and clear of the table's bytes `[lo, hi)`.
   */
  ghost predicate StringAt(data: seq<byte>, a: nat, name: string, lo: nat, hi: nat, position: nat)
  {
    0 < a && a + |name| + 1 <= position && (a + |name| + 1 <= lo || hi <= a) && Holds(data, a, NullTerminated(name))
  }

  /** Every slot name labelled in `l` is stored where its label says. */
  ghost predicate NamesHeld(entries: seq<Option<TextureName>>, data: seq<byte>, l: Labels, lo: nat, hi: nat, position: nat)
  {
    forall i :: 0 <= i < |entries| && Labelled(entries[i], l) ==>
      StringAt(data, l.addressOf[entries[i].value.name.value], entries[i].value.name.value, lo, hi, position)
  }

  /**
   * While the names are written past `hi`: no address at or past the position
   * is labelled, and every label added since `l0` lies at or past `hi`.
   */
  ghost predicate Unlabelled(s: Stream, l: Labels, l0: Labels, hi: nat)
  {
    s.Valid() && 0 < hi <= s.position && LabelsBelow(l, s.position) &&
    forall a :: a in l.labelAt && a !in l0.labelAt ==> hi <= a
  }

  /**
   * The first loop so far has not thrown, labels only addresses past `hi` and
   * keeps every labelled slot name where its label says.
   */
  ghost predicate Progress(entries: seq<Option<TextureName>>, r: Stored, l0: Labels, lo: nat, hi: nat)
  {
    r.error.None? && Unlabelled(r.stream, r.labels, l0, hi) &&
    NamesHeld(entries, r.stream.buffer, r.labels, lo, hi, r.stream.position)
  }

  /** A name written where nothing is labelled cannot conflict, and labels only addresses past `hi`. */
  lemma StoreNameUnlabelled(entry: Option<TextureName>, s: Stream, l: Labels, l0: Labels, hi: nat)
    requires Unlabelled(s, l, l0, hi) && entry.Some?
    ensures var r := StoreName(entry, s, l); r.error.None? && Unlabelled(r.stream, r.labels, l0, hi)
  {
    var r := StoreName(entry, s, l);
    if entry.value.name.Some? && entry.value.name.value !in l.addressOf {
      assert s.position !in l.labelAt;
      AddIfAbsentBelow(l, s.position, entry.value.name.value, r.stream.position);
    }
  }

  /** A name written past `hi` keeps every stored slot name in place and stores its own. */
  lemma StoreNameHeld(entries: seq<Option<TextureName>>, entry: Option<TextureName>, s: Stream, l: Labels, l0: Labels, lo: nat, hi: nat)
    requires entry.Some? && Progress(entries, Stored(s, l, None), l0, lo, hi)
    ensures Progress(entries, StoreName(entry, s, l), l0, lo, hi)
  {
    StoreNameUnlabelled(entry, s, l, l0, hi);
    var r := StoreName(entry, s, l);
    if entry.value.name.Some? && entry.value.name.value !in l.addressOf {
      var name := entry.value.name.value;
      var written := Emit(s, NullTerminated(name));
      var padding := Zeros(AlignPadding(written.position, 4));
      HoldsWritten(s, NullTerminated(name));
      HoldsPast(written, padding, s.position, NullTerminated(name));
      forall i | 0 <= i < |entries| && Labelled(entries[i], r.labels)
        ensures StringAt(r.stream.buffer, r.labels.addressOf[entries[i].value.name.value], entries[i].value.name.value, lo, hi, r.stream.position)
      {
        var m := entries[i].value.name.value;
        if m != name {
          assert Labelled(entries[i], l);
          var a := l.addressOf[m];
          HoldsPast(s, NullTerminated(name), a, NullTerminated(m));
          HoldsPast(written, padding, a, NullTerminated(m));
        }
      }
    }
  }

  /** The first loop over slots that all hold records runs through without a conflict. */
  lemma {:induction false} StoreNamesUnlabelled(entries: seq<Option<TextureName>>, k: nat, s: Stream, l: Labels, hi: nat)
    requires k <= |entries| && Unlabelled(s, l, l, hi)
    requires forall i :: 0 <= i < k ==> entries[i].Some?
    ensures var r := StoreNames(entries, k, s, l); r.error.None? && Unlabelled(r.stream, r.labels, l, hi)
  {
    if k > 0 {
      StoreNamesUnlabelled(entries, k - 1, s, l, hi);
      var prev := StoreNames(entries, k - 1, s, l);
      assert StoreNames(entries, k, s, l) == StoreName(entries[k - 1], prev.stream, prev.labels);
      StoreNameUnlabelled(entries[k - 1], prev.stream, prev.labels, l, hi);
    }
  }

  /** The first loop keeps every labelled slot name in place. */
  lemma {:induction false} StoreNamesHeld(entries: seq<Option<TextureName>>, k: nat, s: Stream, l: Labels, lo: nat, hi: nat)
    requires k <= |entries| && forall i :: 0 <= i < k ==> entries[i].Some?
    requires Progress(entries, Stored(s, l, None), l, lo, hi)
    ensures Progress(entries, StoreNames(entries, k, s, l), l, lo, hi)
  {
    if k > 0 {
      StoreNamesHeld(entries, k - 1, s, l, lo, hi);
      var prev := StoreNames(entries, k - 1, s, l);
      assert prev == Stored(prev.stream, prev.labels, None);
      StoreNameHeld(entries, entries[k - 1], prev.stream, prev.labels, l, lo, hi);
    }
  }

  /** A null slot anywhere makes the first loop throw. */
  lemma {:induction false} StoreNamesNullEntry(entries: seq<Option<TextureName>>, k: nat, s: Stream, l: Labels, j: nat)
    requires j < k <= |entries| && s.Valid() && entries[j].None?
    ensures StoreNames(entries, k, s, l).error.Some?
  {
    if j < k - 1 {
      StoreNamesNullEntry(entries, k - 1, s, l, j);
    }
  }

  /**
   * Write throws exactly when a slot is null, provided nothing at or past the
   * start is labelled yet (otherwise a name's label can conflict).
   */
  lemma WriteListSucceeds(list: TextureNameList, s: Stream, l: Labels)
    requires s.Valid() && LabelsBelow(l, s.position)
    ensures WriteList(list, s, l).result.Success? <==> forall i :: 0 <= i < |list.entries| ==> list.entries[i].Some?
  {
    var reserved := Reserve(list, s);
    if forall i :: 0 <= i < |list.entries| ==> list.entries[i].Some? {
      StoreNamesUnlabelled(list.entries, |list.entries|, reserved, l, reserved.position);
    } else {
      var j :| 0 <= j < |list.entries| && list.entries[j].None?;
      WriteListNullEntry(list, s, l, j);
    }
  }

  /** A null slot makes Write throw, whatever the labels. */
  lemma WriteListNullEntry(list: TextureNameList, s: Stream, l: Labels, j: nat)
    requires s.Valid() && j < |list.entries| && list.entries[j].None?
    ensures WriteList(list, s, l).result.Failure?
  {
    StoreNamesNullEntry(list.entries, |list.entries|, Reserve(list, s), l, j);
  }

  /** The second loop lays record `i` down `12 * i` bytes past where it starts. */
  lemma RecordsHeld(at: Stream, entries: seq<Option<TextureName>>, k: nat, l: Labels)
    requires at.Valid() && k <= |entries| && AllRecordable(entries, |entries|, l)
    ensures forall i :: 0 <= i < k ==>
      Holds(Emit(at, Records(entries, k, l)).buffer, at.position + StructSize * i, Record(entries[i].value, l).value)
  {
    forall i | 0 <= i < k
      ensures Holds(Emit(at, Records(entries, k, l)).buffer, at.position + StructSize * i, Record(entries[i].value, l).value)
    {
      RecordHeld(entries, k, l, i);
      HoldsEmitted(at, Records(entries, k, l), StructSize * i, Record(entries[i].value, l).value);
    }
  }

  /** Record `i` lies `12 * i` bytes into the records of the first `k > i` slots. */
  lemma {:induction false} RecordHeld(entries: seq<Option<TextureName>>, k: nat, l: Labels, i: nat)
    requires AllRecordable(entries, |entries|, l) && i < k <= |entries|
    ensures Holds(Records(entries, k, l), StructSize * i, Record(entries[i].value, l).value)
  {
    var prev := Records(entries, k - 1, l);
    var last := Record(entries[k - 1].value, l).value;
    assert Records(entries, k, l) == prev + last;
    if i == k - 1 {
      assert (prev + last)[|prev|..] == last;
    } else {
      RecordHeld(entries, k - 1, l, i);
      HoldsPrefix(prev, last, StructSize * i, Record(entries[i].value, l).value);
    }
  }

  /** The record of the slot `entry`, under the labels `l`, lies at `address`. */
  ghost predicate RecordAt(data: seq<byte>, address: nat, entry: Option<TextureName>, l: Labels)
  {
    Recordable(entry, l) && Holds(data, address, Record(entry.value, l).value)
  }

  /** The address carries the label `name`. */
  predicate LabelAt(l: Labels, address: nat, name: string)
  {
    address in l.labelAt && l.labelAt[address] == name
  }

  /**
   * A table laid down from `start`: its address is 12 bytes per record past
   * the start; the records lie back to back from the start, each naming its
   * string by the final labels; the header (array address, count) lies at the
   * table's address; every slot name is stored where its label says, clear of
   * the table; the start carries the array label, and the table's address the
   * table label unless the table is empty and so shares the array's address.
   */
  ghost predicate Laid(list: TextureNameList, start: nat, w: Written)
  {
    var n := |list.entries|;
    var address := start + StructSize * n;
    w.result == Success(address) &&
    (forall i :: 0 <= i < n ==> RecordAt(w.stream.buffer, start + StructSize * i, list.entries[i], w.labels)) &&
    Holds(w.stream.buffer, address, EncodeU32(start)) &&
    Holds(w.stream.buffer, address + 4, EncodeU32(n)) &&
    NamesHeld(list.entries, w.stream.buffer, w.labels, start, address + 8, |w.stream.buffer|) &&
    LabelAt(w.labels, start, list.arrayLabel) &&
    LabelAt(w.labels, address, if n > 0 then list.listLabel else list.arrayLabel)
  }

  /**
   * A Write that starts where nothing at or past the position is labelled,
   * over slots that all hold records whose names, where labelled already, are
   * stored below the position, lays the table down there.
   */
  lemma WriteListLayout(list: TextureNameList, s: Stream, l: Labels)
    requires s.Valid() && LabelsBelow(l, s.position)
    requires forall i :: 0 <= i < |list.entries| ==> list.entries[i].Some?
    requires NamesHeld(list.entries, s.buffer, l, s.position, s.position, s.position)
    ensures Laid(list, s.position, WriteList(list, s, l))
  {
    var start := s.position;
    var n := |list.entries|;
    var reserved := Reserve(list, s);
    var hi := reserved.position;
    forall i | 0 <= i < n && Labelled(list.entries[i], l)
      ensures StringAt(reserved.buffer, l.addressOf[list.entries[i].value.name.value], list.entries[i].value.name.value, start, hi, hi)
    {
      var m := list.entries[i].value.name.value;
      HoldsPast(s, Zeros(8 + StructSize * n), l.addressOf[m], NullTerminated(m));
    }
    StoreNamesHeld(list.entries, n, reserved, l, start, hi);
    StoreNamesRecordable(list.entries, n, reserved, l);
    var stored := StoreNames(list.entries, n, reserved, l);
    TableLaid(list, start, stored.stream, stored.labels, l);
    assert WriteList(list, s, l) == FinishList(list, start, stored.stream, stored.labels);
  }

  /** Every slot name can be stored and read back unchanged: no character is zero or wider than a byte. */
  predicate NamesStorable(entries: seq<Option<TextureName>>)
  {
    forall i :: 0 <= i < |entries| && entries[i].Some? && entries[i].value.name.Some? ==>
      Storable(entries[i].value.name.value)
  }

  /**
   * Write then Read: a table written at a non-zero position where nothing at
   * or past it is labelled, over slots that all hold records with storable
   * names (those labelled already stored where their labels say), in a stream
   * that stays below 4 GiB, reads back from the returned address as the same
   * slots and array label, under the table label, or under the array label
   * when the table is empty and the two addresses coincide.
   */
  lemma WriteThenRead(list: TextureNameList, s: Stream, l: Labels)
    requires s.Valid() && 0 < s.position && LabelsBelow(l, s.position)
    requires forall i :: 0 <= i < |list.entries| ==> list.entries[i].Some?
    requires NamesStorable(list.entries)
    requires NamesHeld(list.entries, s.buffer, l, s.position, s.position, s.position)
    requires |WriteList(list, s, l).stream.buffer| < U32_LIMIT
    ensures var w := WriteList(list, s, l);
      w.result.Success? && w.result.value < U32_LIMIT &&
      ReadList(w.stream.buffer, w.result.value, w.labels) ==
        Success(TextureNameList(if |list.entries| > 0 then list.listLabel else list.arrayLabel, list.arrayLabel, list.entries))
  {
    WriteListLayout(list, s, l);
    ReadLaid(list, s.position, WriteList(list, s, l));
  }

  /** A laid table below 4 GiB, at a non-zero start, reads back as its slots under its labels. */
  lemma ReadLaid(list: TextureNameList, start: nat, w: Written)
    requires Laid(list, start, w) && 0 < start && |w.stream.buffer| < U32_LIMIT
    requires NamesStorable(list.entries)
    ensures w.result.Success? && w.result.value < U32_LIMIT
    ensures ReadList(w.stream.buffer, w.result.value, w.labels) ==
      Success(TextureNameList(if |list.entries| > 0 then list.listLabel else list.arrayLabel, list.arrayLabel, list.entries))
  {
    var n := |list.entries|;
    var address := start + StructSize * n;
    assert Holds(w.stream.buffer, address, EncodeU32(start)) && Holds(w.stream.buffer, address + 4, EncodeU32(n));
    HeaderReadsBack(w.stream.buffer, address, start, n);
    RecordsReadBack(list, start, w);
    ReadListOf(w.stream.buffer, address, w.labels, start, n, list.entries);
    assert LabelOf(w.labels, address, "texlist_") == if n > 0 then list.listLabel else list.arrayLabel;
    assert LabelOf(w.labels, start, "textures_") == list.arrayLabel;
  }

  /** Read of a header naming a non-zero array address whose records read as `entries`. */
  lemma ReadListOf(data: seq<byte>, address: u32, l: Labels, first: u32, count: nat, entries: seq<Option<TextureName>>)
    requires ReadUInt(data, address) == Success(first) && ReadUInt(data, (address + 4) % U32_LIMIT) == Success(count)
    requires first != 0 && ReadRecords(data, first, count) == Success(entries)
    ensures ReadList(data, address, l) == Success(TextureNameList(LabelOf(l, address, "texlist_"), LabelOf(l, first, "textures_"), entries))
  {
  }

  /** A header below 4 GiB gives back the array address and the count written into it. */
  lemma HeaderReadsBack(data: seq<byte>, address: nat, first: nat, count: nat)
    requires Holds(data, address, EncodeU32(first)) && Holds(data, address + 4, EncodeU32(count))
    requires |data| < U32_LIMIT && first <= address && count <= address
    ensures address + 8 < U32_LIMIT
    ensures ReadUInt(data, address) == Success(first) && ReadUInt(data, (address + 4) % U32_LIMIT) == Success(count)
  {
    ReadUIntHolds(data, address, first);
    ReadUIntHolds(data, address + 4, count);
    assert first % U32_LIMIT == first && count % U32_LIMIT == count;
    assert (address + 4) % U32_LIMIT == address + 4;
  }

  /** The array of a laid table reads back as its slots. */
  lemma RecordsReadBack(list: TextureNameList, start: nat, w: Written)
    requires Laid(list, start, w) && |w.stream.buffer| < U32_LIMIT
    requires NamesStorable(list.entries)
    ensures start < U32_LIMIT && ReadRecords(w.stream.buffer, start, |list.entries|) == Success(list.entries)
  {
    forall i | 0 <= i < |list.entries|
      ensures ReadsBack(w.stream.buffer, RecordAddress(start, i), list.entries[i])
    {
      SlotReadsBack(list, start, w, i);
    }
    ReadRecordsAll(w.stream.buffer, start, list.entries);
  }

  /** Slot `i` of a laid table reads back from its place in the array. */
  lemma SlotReadsBack(list: TextureNameList, start: nat, w: Written, i: nat)
    requires Laid(list, start, w) && |w.stream.buffer| < U32_LIMIT
    requires NamesStorable(list.entries) && i < |list.entries|
    ensures start < U32_LIMIT && ReadsBack(w.stream.buffer, RecordAddress(start, i), list.entries[i])
  {
    SlotStored(list, start, w, i);
    RecordReadsBack(w.stream.buffer, start, i, list.entries[i], w.labels);
  }

  /** Slot `i` of a laid table: its record in place, its name stored where its label says. */
  lemma SlotStored(list: TextureNameList, start: nat, w: Written, i: nat)
    requires Laid(list, start, w) && |w.stream.buffer| < U32_LIMIT
    requires NamesStorable(list.entries) && i < |list.entries|
    ensures start + StructSize * i + StructSize <= |w.stream.buffer|
    ensures RecordAt(w.stream.buffer, start + StructSize * i, list.entries[i], w.labels)
    ensures NameStored(w.stream.buffer, list.entries[i].value, w.labels)
  {
    assert RecordAt(w.stream.buffer, start + StructSize * i, list.entries[i], w.labels);
    if list.entries[i].value.name.Some? {
      assert Labelled(list.entries[i], w.labels);
    }
  }

  /** A record in place at `12 * i` bytes past `first`, below 4 GiB, reads back as the slot. */
  lemma RecordReadsBack(data: seq<byte>, first: nat, i: nat, entry: Option<TextureName>, l: Labels)
    requires first + StructSize * i + StructSize <= |data| < U32_LIMIT
    requires RecordAt(data, first + StructSize * i, entry, l) && NameStored(data, entry.value, l)
    ensures first < U32_LIMIT && ReadsBack(data, RecordAddress(first, i), entry)
  {
    RecordAddressLinear(first, i);
    ReadWrittenRecord(data, first + StructSize * i, entry.value, l);
  }

  /** The records and the header land where the table says, within the stream. */
  lemma TableBytes(entries: seq<Option<TextureName>>, at: Stream, l: Labels)
    requires at.Valid() && AllRecordable(entries, |entries|, l)
    ensures var t := WriteTable(entries, at, l);
      var address := at.position + StructSize * |entries|;
      (forall i :: 0 <= i < |entries| ==> Holds(t.buffer, at.position + StructSize * i, Record(entries[i].value, l).value)) &&
      Holds(t.buffer, address, EncodeU32(at.position)) &&
      Holds(t.buffer, address + 4, EncodeU32(|entries|)) &&
      (address + 8 <= |at.buffer| ==> |t.buffer| == |at.buffer|)
  {
    var n := |entries|;
    var filled := Emit(at, Records(entries, n, l));
    var address := filled.position;
    var first := Emit(filled, EncodeU32(at.position));
    RecordsHeld(at, entries, n, l);
    forall i | 0 <= i < n
      ensures Holds(first.buffer, at.position + StructSize * i, Record(entries[i].value, l).value)
    {
      HoldsPast(filled, EncodeU32(at.position), at.position + StructSize * i, Record(entries[i].value, l).value);
    }
    forall i | 0 <= i < n
      ensures Holds(Emit(first, EncodeU32(n)).buffer, at.position + StructSize * i, Record(entries[i].value, l).value)
    {
      HoldsPast(first, EncodeU32(n), at.position + StructSize * i, Record(entries[i].value, l).value);
    }
    HoldsWritten(filled, EncodeU32(at.position));
    HoldsPast(first, EncodeU32(n), address, EncodeU32(at.position));
    HoldsWritten(first, EncodeU32(n));
  }

  /** Bytes lying wholly before the table or wholly after it stay in place. */
  lemma TableKeeps(entries: seq<Option<TextureName>>, at: Stream, l: Labels, a: nat, x: seq<byte>)
    requires at.Valid() && AllRecordable(entries, |entries|, l) && Holds(at.buffer, a, x)
    requires a + |x| <= at.position || at.position + StructSize * |entries| + 8 <= a
    ensures Holds(WriteTable(entries, at, l).buffer, a, x)
  {
    var filled := Emit(at, Records(entries, |entries|, l));
    var first := Emit(filled, EncodeU32(at.position));
    HoldsPast(at, Records(entries, |entries|, l), a, x);
    HoldsPast(filled, EncodeU32(at.position), a, x);
    HoldsPast(first, EncodeU32(|entries|), a, x);
  }

  /** The records and the header written over the reserved space; see WriteListLayout. */
  lemma TableLaid(list: TextureNameList, start: nat, st: Stream, named: Labels, l: Labels)
    requires Unlabelled(st, named, l, start + 8 + StructSize * |list.entries|) && LabelsBelow(l, start)
    requires AllRecordable(list.entries, |list.entries|, named)
    requires NamesHeld(list.entries, st.buffer, named, start, start + 8 + StructSize * |list.entries|, st.position)
    ensures Laid(list, start, FinishList(list, start, st, named))
  {
    LaidRecords(list, start, st, named);
    LaidNames(list, start, st, named, l);
    LaidLabels(list, start, st, named, l);
  }

  /** FinishList's records and header, read under its final labels. */
  lemma LaidRecords(list: TextureNameList, start: nat, st: Stream, named: Labels)
    requires st.Valid() && start + 8 + StructSize * |list.entries| <= |st.buffer|
    requires AllRecordable(list.entries, |list.entries|, named)
    ensures var w := FinishList(list, start, st, named);
      var address := start + StructSize * |list.entries|;
      (forall i :: 0 <= i < |list.entries| ==> RecordAt(w.stream.buffer, start + StructSize * i, list.entries[i], w.labels)) &&
      Holds(w.stream.buffer, address, EncodeU32(start)) &&
      Holds(w.stream.buffer, address + 4, EncodeU32(|list.entries|))
  {
    var arrayLabelled := AddIfAbsent(named, start, list.arrayLabel);
    var final := AddIfAbsent(arrayLabelled, start + StructSize * |list.entries|, list.listLabel);
    FinishListIs(list, start, st, named);
    TableRecords(list.entries, Stream(st.buffer, start), arrayLabelled, final);
  }

  /** FinishList keeps the slot names where its final labels say. */
  lemma LaidNames(list: TextureNameList, start: nat, st: Stream, named: Labels, l: Labels)
    requires Unlabelled(st, named, l, start + 8 + StructSize * |list.entries|) && LabelsBelow(l, start)
    requires AllRecordable(list.entries, |list.entries|, named)
    requires NamesHeld(list.entries, st.buffer, named, start, start + 8 + StructSize * |list.entries|, st.position)
    ensures var w := FinishList(list, start, st, named);
      NamesHeld(list.entries, w.stream.buffer, w.labels, start, start + 8 + StructSize * |list.entries|, |w.stream.buffer|)
  {
    FinishListIs(list, start, st, named);
    TableNames(list, start, st, named, l);
  }

  /** FinishList's final labels name the array and the table. */
  lemma LaidLabels(list: TextureNameList, start: nat, st: Stream, named: Labels, l: Labels)
    requires Unlabelled(st, named, l, start + 8 + StructSize * |list.entries|) && LabelsBelow(l, start)
    requires AllRecordable(list.entries, |list.entries|, named)
    ensures var w := FinishList(list, start, st, named);
      var address := start + StructSize * |list.entries|;
      LabelAt(w.labels, start, list.arrayLabel) &&
      LabelAt(w.labels, address, if |list.entries| > 0 then list.listLabel else list.arrayLabel)
  {
    FinishListIs(list, start, st, named);
    TableLabels(list, start, named, l, st.position);
  }

  /** The slot names stay where their labels say, clear of the table written over the reserved space. */
  lemma TableNames(list: TextureNameList, start: nat, st: Stream, named: Labels, l: Labels)
    requires Unlabelled(st, named, l, start + 8 + StructSize * |list.entries|) && LabelsBelow(l, start)
    requires AllRecordable(list.entries, |list.entries|, named)
    requires NamesHeld(list.entries, st.buffer, named, start, start + 8 + StructSize * |list.entries|, st.position)
    ensures var arrayLabelled := AddIfAbsent(named, start, list.arrayLabel);
      var final := AddIfAbsent(arrayLabelled, start + StructSize * |list.entries|, list.listLabel);
      AllRecordable(list.entries, |list.entries|, arrayLabelled) &&
      var table := WriteTable(list.entries, Stream(st.buffer, start), arrayLabelled);
      NamesHeld(list.entries, table.buffer, final, start, start + 8 + StructSize * |list.entries|, |table.buffer|)
  {
    var n := |list.entries|;
    var hi := start + 8 + StructSize * n;
    var arrayLabelled := AddIfAbsent(named, start, list.arrayLabel);
    AllRecordableExtends(list.entries, n, named, arrayLabelled);
    var at := Stream(st.buffer, start);
    var final := AddIfAbsent(arrayLabelled, start + StructSize * n, list.listLabel);
    var table := WriteTable(list.entries, at, arrayLabelled);
    forall i | 0 <= i < n && Labelled(list.entries[i], final)
      ensures StringAt(table.buffer, final.addressOf[list.entries[i].value.name.value], list.entries[i].value.name.value, start, hi, |table.buffer|)
    {
      var m := list.entries[i].value.name.value;
      assert Labelled(list.entries[i], named);
      StringKept(list.entries, at, arrayLabelled, named.addressOf[m], m, st.position);
    }
  }

  /** A string stored clear of the table, below the end of the stream, stays where it is. */
  lemma StringKept(entries: seq<Option<TextureName>>, at: Stream, l: Labels, a: nat, name: string, position: nat)
    requires at.Valid() && AllRecordable(entries, |entries|, l) && position <= |at.buffer|
    requires StringAt(at.buffer, a, name, at.position, at.position + 8 + StructSize * |entries|, position)
    ensures var table := WriteTable(entries, at, l);
      StringAt(table.buffer, a, name, at.position, at.position + 8 + StructSize * |entries|, |table.buffer|)
  {
    TableKeeps(entries, at, l, a, NullTerminated(name));
  }

  /** The start gets the array label and, past the records, the table's address the table label. */
  lemma TableLabels(list: TextureNameList, start: nat, named: Labels, l: Labels, position: nat)
    requires start + 8 + StructSize * |list.entries| <= position
    requires LabelsBelow(named, position) && LabelsBelow(l, start)
    requires forall a :: a in named.labelAt && a !in l.labelAt ==> start + 8 + StructSize * |list.entries| <= a
    ensures var address := start + StructSize * |list.entries|;
      var final := AddIfAbsent(AddIfAbsent(named, start, list.arrayLabel), address, list.listLabel);
      LabelAt(final, start, list.arrayLabel) &&
      LabelAt(final, address, if |list.entries| > 0 then list.listLabel else list.arrayLabel)
  {
    assert start !in named.labelAt;
    assert |list.entries| > 0 ==> start + StructSize * |list.entries| !in AddIfAbsent(named, start, list.arrayLabel).labelAt;
  }

  /** The records of the table read the same under any labels that extend those they were written with. */
  lemma TableRecords(entries: seq<Option<TextureName>>, at: Stream, l: Labels, more: Labels)
    requires at.Valid() && AllRecordable(entries, |entries|, l) && Extends(more, l)
    requires at.position + StructSize * |entries| + 8 <= |at.buffer|
    ensures var t := WriteTable(entries, at, l);
      (forall i :: 0 <= i < |entries| ==> RecordAt(t.buffer, at.position + StructSize * i, entries[i], more)) &&
      Holds(t.buffer, at.position + StructSize * |entries|, EncodeU32(at.position)) &&
      Holds(t.buffer, at.position + StructSize * |entries| + 4, EncodeU32(|entries|)) &&
      |t.buffer| == |at.buffer|
  {
    TableBytes(entries, at, l);
    AllRecordableExtends(entries, |entries|, l, more);
  }
}
