/**
 * TextureName.cs: one 12-byte record of a texture-name table, a pointer to
 * the name string (0 for no name), the attributes and the texture address.
 */
module TextureNames {
  import opened Bytes
  import opened Wrappers
  import opened EndianIO
  import opened LabelTables

  /** Size of the record in bytes. */
  const StructSize: nat := 12

  /** What writing a record or a table can throw. */
  datatype WriteError =
    | NameNotWritten   // a record's name has no label, so its string was never written
    | NullEntry        // a table slot holds no record
    | LabelConflict    // a string would be labelled at an address labelled otherwise

  datatype TextureName = TextureName(name: Option<string>, attributes: u32, textureAddress: u32)
  {
    /**
     * Write: looks the name's string up in the labels, then writes the three
     * words; throws, writing nothing, when the name was never written.
     */
    method Write(writer: EndianStackWriter, labels: LabelDictionary) returns (ok: bool)
      requires writer.Valid()
      modifies writer
      ensures writer.Valid()
      ensures ok == Record(this, labels.State()).Success?
      ensures ok ==> writer.State() == Emit(old(writer.State()), Record(this, labels.State()).value)
      ensures !ok ==> writer.State() == old(writer.State())
    {
      var nameAddress := 0;
      if name.Some? {
        var address := labels.TryGetAddress(name.value);
        if address.None? {
          return false;
        }
        nameAddress := address.value;
      }
      ghost var s := writer.State();
      writer.WriteUInt(nameAddress);
      writer.WriteUInt(attributes);
      writer.WriteUInt(textureAddress);
      EmitTwice(s, EncodeU32(nameAddress), EncodeU32(attributes));
      EmitTwice(s, EncodeU32(nameAddress) + EncodeU32(attributes), EncodeU32(textureAddress));
      return true;
    }
  }

  /**
   * The bytes Write emits with the labels `l`: the name's address (0 for no
   * name), the attributes and the texture address.
   */
  function Record(tn: TextureName, l: Labels): (r: Result<seq<byte>, WriteError>)
    ensures r.Failure? <==> tn.name.Some? && tn.name.value !in l.addressOf
    ensures r.Failure? ==> r.error == NameNotWritten
    ensures r.Success? ==> |r.value| == StructSize
  {
    match tn.name
    case None => Success(EncodeU32(0) + EncodeU32(tn.attributes) + EncodeU32(tn.textureAddress))
    case Some(n) =>
      if n in l.addressOf then Success(EncodeU32(l.addressOf[n]) + EncodeU32(tn.attributes) + EncodeU32(tn.textureAddress))
      else Failure(NameNotWritten)
  }

  /**
   * Read: the name pointer at `address` (no name when it is 0, else the
   * string it points to), the attributes at `address + 4` and the texture
   * address at `address + 8`, with unsigned 32-bit address arithmetic.
   */
  function ReadTextureName(data: seq<byte>, address: u32): Result<TextureName, ReadError>
  {
    match ReadUInt(data, address)
    case Failure(e) => Failure(e)
    case Success(nameAddress) =>
      match ReadName(data, nameAddress)
      case Failure(e) => Failure(e)
      case Success(name) =>
        match ReadUInt(data, (address + 4) % U32_LIMIT)
        case Failure(e) => Failure(e)
        case Success(attributes) =>
          match ReadUInt(data, (address + 8) % U32_LIMIT)
          case Failure(e) => Failure(e)
          case Success(textureAddress) => Success(TextureName(name, attributes, textureAddress))
  }

  /** The name a record's pointer gives: none for 0, else the string it points to. */
  function ReadName(data: seq<byte>, nameAddress: u32): Result<Option<string>, ReadError>
  {
    if nameAddress == 0 then Success(None)
    else
      match ReadNullterminatedString(data, nameAddress)
      case Failure(e) => Failure(e)
      case Success(s) => Success(Some(s))
  }

  /**
   * The name's string is where its label says, at a non-zero 32-bit address,
   * and reads back unchanged.
   */
  ghost predicate NameStored(data: seq<byte>, tn: TextureName, l: Labels)
  {
    tn.name.Some? ==>
      var n := tn.name.value;
      n in l.addressOf && 0 < l.addressOf[n] < U32_LIMIT && Storable(n) &&
      Holds(data, l.addressOf[n], NullTerminated(n))
  }

  /**
   * Write then Read: a record written at `address`, whose name string is
   * stored where its label says, reads back as the same name, attributes and
   * texture address.
   */
  lemma ReadWrittenRecord(data: seq<byte>, address: u32, tn: TextureName, l: Labels)
    requires Record(tn, l).Success? && Holds(data, address, Record(tn, l).value)
    requires address + StructSize <= U32_LIMIT
    requires NameStored(data, tn, l)
    ensures ReadTextureName(data, address) == Success(tn)
  {
    var nameAddress := if tn.name.Some? then l.addressOf[tn.name.value] else 0;
    RecordFields(data, address, tn, l);
    ReadUIntHolds(data, address, nameAddress);
    ReadUIntHolds(data, address + 4, tn.attributes);
    ReadUIntHolds(data, address + 8, tn.textureAddress);
    SmallRem(nameAddress);
    SmallRem(tn.attributes);
    SmallRem(tn.textureAddress);
    SmallRem(address + 4);
    SmallRem(address + 8);
    if tn.name.Some? {
      ReadStringHolds(data, nameAddress, tn.name.value);
    }
    assert ReadName(data, nameAddress) == Success(tn.name);
  }

  /** The three words of a record in place, each at its own offset. */
  lemma RecordFields(data: seq<byte>, address: nat, tn: TextureName, l: Labels)
    requires Record(tn, l).Success? && Holds(data, address, Record(tn, l).value)
    ensures var nameAddress := if tn.name.Some? then l.addressOf[tn.name.value] else 0;
      Holds(data, address, EncodeU32(nameAddress)) &&
      Holds(data, address + 4, EncodeU32(tn.attributes)) &&
      Holds(data, address + 8, EncodeU32(tn.textureAddress))
  {
    var bytes := Record(tn, l).value;
    HoldsPart(data, address, bytes, 0, 4);
    HoldsPart(data, address, bytes, 4, 8);
    HoldsPart(data, address, bytes, 8, 12);
  }

  /** An address below 2^32 is its own unsigned remainder. */
  lemma SmallRem(x: nat)
    requires x < U32_LIMIT
    ensures x % U32_LIMIT == x
  {
  }
}
