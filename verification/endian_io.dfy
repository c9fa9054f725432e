/**
 * The byte cursor the name-table codec is written against: a stream with a
 * write position (EndianStackWriter) and bounds-checked reads at absolute
 * addresses (EndianStackReader). Words are little-endian, the image base is
 * zero (a pointer is its stream offset) and a character is stored as one byte.
 */
module EndianIO {
  import opened Bytes
  import opened Wrappers

  /** A stream's contents and its current position. */
  datatype Stream = Stream(buffer: seq<byte>, position: nat)
  {
    /** The position never lies past the end of the stream. */
    predicate Valid()
    {
      position <= |buffer|
    }
  }

  /** The stream after writing `bytes` at its position, which then moves past them. */
  function Emit(s: Stream, bytes: seq<byte>): (r: Stream)
    requires s.Valid()
    ensures r.Valid() && r.position == s.position + |bytes|
    ensures |r.buffer| == if s.position + |bytes| <= |s.buffer| then |s.buffer| else s.position + |bytes|
  {
    Stream(Overwrite(s.buffer, s.position, bytes), s.position + |bytes|)
  }

  /** Number of zero bytes Align writes so that `position` becomes a multiple of `alignment`. */
  function AlignPadding(position: nat, alignment: nat): (n: nat)
    requires alignment > 0
    ensures n < alignment
  {
    (alignment - position % alignment) % alignment
  }

  /** Align(4) leaves the position on a multiple of four. */
  lemma AlignPadding4(position: nat)
    ensures (position + AlignPadding(position, 4)) % 4 == 0
  {
  }

  /** The stored byte of a character: its code when it fits a byte, `?` otherwise. */
  function CharByte(c: char): byte
  {
    if c as int < 0x100 then c as int else 0x3F
  }

  /** The bytes of a string, one per character. */
  function StringBytes(s: string): (b: seq<byte>)
    ensures |b| == |s|
    ensures forall i :: 0 <= i < |s| ==> b[i] == CharByte(s[i])
  {
    seq(|s|, i requires 0 <= i < |s| => CharByte(s[i]))
  }

  /** What WriteStringNullterminated stores: the string's bytes and a zero byte. */
  function NullTerminated(s: string): (b: seq<byte>)
    ensures |b| == |s| + 1 && b[|s|] == 0
  {
    StringBytes(s) + [0]
  }

  /** A string that survives a store and a read unchanged: every character is a non-zero byte. */
  predicate Storable(s: string)
  {
    forall i :: 0 <= i < |s| ==> 0 < s[i] as int < 0x100
  }

  /** `bytes` lie in `data` from `address` on. */
  predicate Holds(data: seq<byte>, address: nat, bytes: seq<byte>)
  {
    address + |bytes| <= |data| && data[address..address + |bytes|] == bytes
  }

  /** What a read at an absolute address can throw. */
  datatype ReadError = OutOfRange

  /** ReadUInt (and ReadPointer, the image base being zero): the word at `address`. */
  function ReadUInt(data: seq<byte>, address: int): (r: Result<u32, ReadError>)
    ensures r.Failure? <==> !(0 <= address && address + 4 <= |data|)
  {
    if 0 <= address && address + 4 <= |data| then Success(DecodeU32(data[address..address + 4]))
    else Failure(OutOfRange)
  }

  /** The bytes from `address` up to, not including, the first zero byte; out of range without one. */
  function BytesUntilZero(data: seq<byte>, address: nat): Result<seq<byte>, ReadError>
    decreases |data| - address
  {
    if address >= |data| then Failure(OutOfRange)
    else if data[address] == 0 then Success([])
    else
      match BytesUntilZero(data, address + 1)
      case Failure(e) => Failure(e)
      case Success(rest) => Success([data[address]] + rest)
  }

  /** The characters of stored bytes, one per byte. */
  function DecodeString(b: seq<byte>): (s: string)
    ensures |s| == |b|
    ensures forall i :: 0 <= i < |b| ==> s[i] as int == b[i]
  {
    seq(|b|, i requires 0 <= i < |b| => b[i] as char)
  }

  /** ReadNullterminatedString: the string stored at `address`. */
  function ReadNullterminatedString(data: seq<byte>, address: int): Result<string, ReadError>
  {
    if address < 0 then Failure(OutOfRange)
    else
      match BytesUntilZero(data, address)
      case Failure(e) => Failure(e)
      case Success(b) => Success(DecodeString(b))
  }

  /** A word written at `address` reads back as itself modulo 2^32. */
  lemma ReadUIntHolds(data: seq<byte>, address: nat, v: int)
    requires Holds(data, address, EncodeU32(v))
    ensures ReadUInt(data, address) == Success(v % U32_LIMIT)
  {
    DecodeEncodeU32(v);
  }

  /** Bytes without a zero followed by a zero are read back up to that zero. */
  lemma {:induction false} BytesUntilZeroHolds(data: seq<byte>, address: nat, b: seq<byte>)
    requires Holds(data, address, b + [0])
    requires forall i :: 0 <= i < |b| ==> b[i] != 0
    ensures BytesUntilZero(data, address) == Success(b)
    decreases |b|
  {
    assert data[address] == (b + [0])[0];
    if b != [] {
      assert data[address + 1..address + 1 + |b[1..] + [0]|] == b[1..] + [0] by {
        assert b + [0] == [b[0]] + (b[1..] + [0]);
      }
      BytesUntilZeroHolds(data, address + 1, b[1..]);
      assert [b[0]] + b[1..] == b;
    }
  }

  /** A storable string written null-terminated reads back as itself. */
  lemma ReadStringHolds(data: seq<byte>, address: nat, s: string)
    requires Storable(s) && Holds(data, address, NullTerminated(s))
    ensures ReadNullterminatedString(data, address) == Success(s)
  {
    var b := StringBytes(s);
    assert forall i :: 0 <= i < |b| ==> b[i] != 0;
    BytesUntilZeroHolds(data, address, b);
    var t := DecodeString(b);
    assert forall i :: 0 <= i < |s| ==> t[i] == s[i];
    assert t == s;
  }

  /** Two consecutive writes are one write of both. */
  lemma EmitTwice(s: Stream, x: seq<byte>, y: seq<byte>)
    requires s.Valid()
    ensures Emit(Emit(s, x), y) == Emit(s, x + y)
  {
    OverwriteTwice(s.buffer, s.position, x, y);
  }

  /** A write puts its bytes in place. */
  lemma HoldsWritten(s: Stream, bytes: seq<byte>)
    requires s.Valid()
    ensures Holds(Emit(s, bytes).buffer, s.position, bytes)
  {
  }

  /** A write leaves bytes lying wholly before or wholly after it in place. */
  lemma HoldsPast(s: Stream, bytes: seq<byte>, address: nat, x: seq<byte>)
    requires s.Valid() && Holds(s.buffer, address, x)
    requires address + |x| <= s.position || s.position + |bytes| <= address
    ensures Holds(Emit(s, bytes).buffer, address, x)
  {
    var r := Emit(s, bytes).buffer;
    assert forall i :: address <= i < address + |x| ==> r[i] == s.buffer[i];
  }

  /** Bytes in place in a sequence stay in place when more follows it. */
  lemma HoldsPrefix(x: seq<byte>, y: seq<byte>, address: nat, z: seq<byte>)
    requires Holds(x, address, z)
    ensures Holds(x + y, address, z)
  {
    assert (x + y)[address..address + |z|] == x[address..address + |z|];
  }

  /** Bytes in place in what is written lie as far past the write's position in the stream. */
  lemma HoldsEmitted(s: Stream, x: seq<byte>, address: nat, z: seq<byte>)
    requires s.Valid() && Holds(x, address, z)
    ensures Holds(Emit(s, x).buffer, s.position + address, z)
  {
    HoldsWritten(s, x);
    HoldsPart(Emit(s, x).buffer, s.position, x, address, address + |z|);
  }

  /** Bytes in place include every piece of them. */
  lemma HoldsPart(data: seq<byte>, address: nat, x: seq<byte>, from: nat, to: nat)
    requires Holds(data, address, x) && from <= to <= |x|
    ensures Holds(data, address + from, x[from..to])
  {
    forall i | 0 <= i < to - from
      ensures data[address + from..address + to][i] == x[from..to][i]
    {
      assert data[address + from + i] == data[address..address + |x|][from + i];
    }
  }

  /**
   * EndianStackWriter over a growable stream: writes overwrite the bytes at
   * the position and extend the stream when they run past its end.
   */
  class EndianStackWriter {
    var buffer: seq<byte>
    var position: nat

    predicate Valid()
      reads this
    {
      position <= |buffer|
    }

    /** The stream as a value. */
    function State(): (s: Stream)
      reads this
      ensures s.buffer == buffer && s.position == position
    {
      Stream(buffer, position)
    }

    /** An empty stream. */
    constructor ()
      ensures Valid() && buffer == [] && position == 0
    {
      buffer := [];
      position := 0;
    }

    /** Writes raw bytes. */
    method WriteBytes(bytes: seq<byte>)
      requires Valid()
      modifies this
      ensures Valid() && State() == Emit(old(State()), bytes)
    {
      buffer := Overwrite(buffer, position, bytes);
      position := position + |bytes|;
    }

    /** WriteEmpty: `n` zero bytes. */
    method WriteEmpty(n: nat)
      requires Valid()
      modifies this
      ensures Valid() && State() == Emit(old(State()), Zeros(n))
    {
      WriteBytes(Zeros(n));
    }

    /** WriteUInt, and WriteInt of a two's complement value: the low 32 bits, little-endian. */
    method WriteUInt(v: int)
      requires Valid()
      modifies this
      ensures Valid() && State() == Emit(old(State()), EncodeU32(v))
    {
      WriteBytes(EncodeU32(v));
    }

    /** WriteStringNullterminated: the string's bytes and a zero byte. */
    method WriteStringNullterminated(s: string)
      requires Valid()
      modifies this
      ensures Valid() && State() == Emit(old(State()), NullTerminated(s))
    {
      WriteBytes(NullTerminated(s));
    }

    /** Align: zero bytes up to the next multiple of `alignment`. */
    method Align(alignment: nat)
      requires Valid() && alignment > 0
      modifies this
      ensures Valid() && State() == Emit(old(State()), Zeros(AlignPadding(old(position), alignment)))
    {
      WriteBytes(Zeros(AlignPadding(position, alignment)));
    }

    /** Seek from the beginning to an offset within the stream. */
    method Seek(offset: nat)
      requires Valid() && offset <= |buffer|
      modifies this
      ensures Valid() && buffer == old(buffer) && position == offset
    {
      position := offset;
    }

    /** Seek to the end of the stream. */
    method SeekEnd()
      requires Valid()
      modifies this
      ensures Valid() && buffer == old(buffer) && position == |buffer|
    {
      position := |buffer|;
    }
  }
}
