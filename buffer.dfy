/** The byte buffer of data/buffer.go: a byte sequence that reads take from the
    front and writes append to. Every method is proved against the functions
    of module Codec, which say what each read returns and leaves behind and
    what each write appends. Go's error results become an `Option<Error>`;
    writes that always return nil in the source have no error result here. */
module Buffers {
  import opened Wire
  import opened VarNum
  import opened Codec

  /** The read a method performed, told by its results and the buffer after
      it: the value on success, the error otherwise, and the bytes left. */
  function Outcome<T>(v: T, err: Option<Error>, raw: seq<byte>): Read<T> {
    if err.None? then Got(v, raw) else Fault(err.value, raw)
  }

  /** A method's results and the buffer after it agree with the read r. */
  predicate Reports<T(==)>(r: Read<T>, v: T, err: Option<Error>, raw: seq<byte>) {
    r == Outcome(v, err, raw)
  }

  class Buffer {
    var raw: seq<byte>

    /** NewBufferFromBytes. */
    constructor(bytes: seq<byte>)
      ensures raw == bytes
    {
      raw := bytes;
    }

    function Length(): nat
      reads this
    {
      |raw|
    }

    function Empty(): bool
      reads this
    {
      |raw| == 0
    }

    // -------------------------------------------------------------------
    // Raw bytes

    method Write(data: seq<byte>)
      modifies this
      ensures raw == old(raw) + data
    {
      raw := raw + data;
    }

    /** Read(length): the first `length` bytes, or BufferTooShort with the
        buffer untouched. A negative length passes Go's length check and
        then panics in `raw[:length]`. */
    method Read(length: int) returns (data: seq<byte>, err: Option<Error>)
      modifies this
      ensures Reports(ReadBytesFrom(old(raw), length), data, err, raw)
    {
      if |raw| < length {
        return [], Some(BufferTooShort);
      }
      if length < 0 {
        return [], Some(SliceBoundsPanic);
      }
      data := raw[..length];
      raw := raw[length..];
      err := None;
    }

    method ReadByte() returns (b: byte, err: Option<Error>)
      modifies this
      ensures |old(raw)| == 0 ==> err == Some(BufferEmpty) && raw == old(raw)
      ensures |old(raw)| > 0 ==> err == None && b == old(raw)[0] && raw == old(raw)[1..]
    {
      if |raw| == 0 {
        return 0, Some(BufferEmpty);
      }
      b := raw[0];
      raw := raw[1..];
      err := None;
    }

    method WriteByte(b: byte)
      modifies this
      ensures raw == old(raw) + [b]
    {
      raw := raw + [b];
    }

    method ReadBoolean() returns (v: bool, err: Option<Error>)
      modifies this
      ensures Reports(ReadBoolFrom(old(raw)), v, err, raw)
    {
      var b;
      b, err := ReadByte();
      if err.Some? {
        return false, err;
      }
      if b == 0x00 {
        v := false;
      } else if b == 0x01 {
        v := true;
      } else {
        v, err := false, Some(InvalidBoolean);
      }
    }

    method WriteBoolean(v: bool)
      modifies this
      ensures raw == old(raw) + [BoolByte(v)]
    {
      if v {
        WriteByte(0x01);
      } else {
        WriteByte(0x00);
      }
    }

    /** ReadUByte/WriteUByte: uint8 is byte in Go. */
    method ReadUByte() returns (v: byte, err: Option<Error>)
      modifies this
      ensures Reports(ReadByteFrom(old(raw)), v, err, raw)
    {
      v, err := ReadByte();
    }

    method WriteUByte(v: byte)
      modifies this
      ensures raw == old(raw) + [v]
    {
      WriteByte(v);
    }

    // -------------------------------------------------------------------
    // Fixed-width big-endian integers

    /** `int16(raw[0])<<8 | int16(raw[1])`: the shifted bytes do not
        overlap, and the shift wraps to 16 bits. */
    method ReadShort() returns (v: int16, err: Option<Error>)
      modifies this
      ensures Reports(ReadShortFrom(old(raw)), v, err, raw)
    {
      if |raw| < 2 {
        return 0, Some(BufferTooShort);
      }
      ShortValue(raw);
      v := WrapInt16(raw[0] as int * 0x100 + raw[1]);
      raw := raw[2..];
      err := None;
    }

    /** `byte(v >> 8)`, `byte(v)`: Go's arithmetic shift of a signed value
        is a floor division, which Dafny's `/` by a positive divisor is. */
    method WriteShort(v: int16)
      modifies this
      ensures raw == old(raw) + ShortBytes(v)
    {
      WriteByte(Lsb(v / 0x100));
      WriteByte(Lsb(v));
      ShortBytesDigits(v);
    }

    /** ReadUShort: `uint16(v)` of ReadShort's result. */
    method ReadUShort() returns (v: uint16, err: Option<Error>)
      modifies this
      ensures match ReadShortFrom(old(raw))
              case Got(x, rest) => err == None && v == x % 0x1_0000 && raw == rest
              case Fault(e, rest) => err == Some(e) && raw == rest
    {
      var x: int;
      x, err := ReadShort();
      v := x % 0x1_0000;
    }

    method WriteUShort(v: uint16)
      modifies this
      ensures raw == old(raw) + ShortBytes(WrapInt16(v))
    {
      WriteShort(WrapInt16(v));
    }

    method ReadInt() returns (v: int32, err: Option<Error>)
      modifies this
      ensures Reports(ReadIntFrom(old(raw)), v, err, raw)
    {
      if |raw| < 4 {
        return 0, Some(BufferTooShort);
      }
      IntValue(raw);
      v := WrapInt32(raw[0] as int * 0x100_0000 + raw[1] as int * 0x1_0000 + raw[2] as int * 0x100 + raw[3]);
      raw := raw[4..];
      err := None;
    }

    method WriteInt(v: int32)
      modifies this
      ensures raw == old(raw) + IntBytes(v)
    {
      WriteByte(Lsb(v / 0x100_0000));
      WriteByte(Lsb(v / 0x1_0000));
      WriteByte(Lsb(v / 0x100));
      WriteByte(Lsb(v));
      IntBytesDigits(v);
    }

    method ReadUInt() returns (v: uint32, err: Option<Error>)
      modifies this
      ensures match ReadIntFrom(old(raw))
              case Got(x, rest) => err == None && v == x % 0x1_0000_0000 && raw == rest
              case Fault(e, rest) => err == Some(e) && raw == rest
    {
      var x: int;
      x, err := ReadInt();
      v := x % 0x1_0000_0000;
    }

    method WriteUInt(v: uint32)
      modifies this
      ensures raw == old(raw) + IntBytes(WrapInt32(v))
    {
      WriteInt(WrapInt32(v));
    }

    method ReadLong() returns (v: int64, err: Option<Error>)
      modifies this
      ensures Reports(ReadLongFrom(old(raw)), v, err, raw)
    {
      if |raw| < 8 {
        return 0, Some(BufferTooShort);
      }
      LongValue(raw);
      v := WrapInt64(raw[0] as int * 0x100_0000_0000_0000 + raw[1] as int * 0x1_0000_0000_0000 +
                     raw[2] as int * 0x100_0000_0000 + raw[3] as int * 0x1_0000_0000 +
                     raw[4] as int * 0x100_0000 + raw[5] as int * 0x1_0000 + raw[6] as int * 0x100 + raw[7]);
      raw := raw[8..];
      err := None;
    }

    method WriteLong(v: int64)
      modifies this
      ensures raw == old(raw) + LongBytes(v)
    {
      WriteByte(Lsb(v / 0x100_0000_0000_0000));
      WriteByte(Lsb(v / 0x1_0000_0000_0000));
      WriteByte(Lsb(v / 0x100_0000_0000));
      WriteByte(Lsb(v / 0x1_0000_0000));
      WriteByte(Lsb(v / 0x100_0000));
      WriteByte(Lsb(v / 0x1_0000));
      WriteByte(Lsb(v / 0x100));
      WriteByte(Lsb(v));
      LongBytesDigits(v);
    }

    method ReadULong() returns (v: uint64, err: Option<Error>)
      modifies this
      ensures match ReadLongFrom(old(raw))
              case Got(x, rest) => err == None && v == x % 0x1_0000_0000_0000_0000 && raw == rest
              case Fault(e, rest) => err == Some(e) && raw == rest
    {
      var x: int;
      x, err := ReadLong();
      v := x % 0x1_0000_0000_0000_0000;
    }

    method WriteULong(v: uint64)
      modifies this
      ensures raw == old(raw) + LongBytes(WrapInt64(v))
    {
      WriteLong(WrapInt64(v));
    }

    // -------------------------------------------------------------------
    // VarInt and VarLong

    /** The loop shared by ReadVarInt (width 32) and ReadVarLong (width 64):
        read a byte, add its low seven bits at `position`, stop at a byte
        without the continuation bit, and fail once `position` reaches the
        width. Go ORs `(b & 0x7F) << position` into a value of the given
        width; the groups do not overlap, so that is the sum of the groups
        modulo 2^width, which the callers take. */
    method readGroups(width: nat, limit: nat, tooBig: Error) returns (u: nat, n: nat, err: Option<Error>)
      requires (width == 32 && limit == VARINT_MAX_BYTES) || (width == 64 && limit == VARLONG_MAX_BYTES)
      modifies this
      ensures var r := ReadGroups(old(raw), limit, tooBig);
              raw == old(raw)[r.n..] &&
              (if r.VarOk? then err == None && u == r.u && n == r.n
               else err == Some(r.err) && u == 0 && n == 0)
    {
      ghost var start := raw;
      var position := 0;
      u, n := 0, 0;
      ResumeGroupsShift(start, limit, 0, 0, tooBig);
      ShiftNothing(ReadGroups(start, limit, tooBig));
      while true
        invariant n < limit && n <= |start| && raw == start[n..] && position == 7 * n
        invariant ReadGroups(start, limit, tooBig) == ResumeGroups(raw, limit - n, u, n, tooBig)
        decreases limit - n
      {
        ghost var before := raw;
        var b, e := ReadByte();
        if e.Some? {
          return 0, 0, e;
        }
        DropOne(start, n);
        ghost var u0, n0 := u, n;
        u, n := u + Group(b, position), n + 1;
        if b < 0x80 {
          err := None;
          return;
        }
        position := position + 7;
        if position >= width {
          return 0, 0, Some(tooBig);
        }
        ResumeStep(before, limit - n0, u0, n0, raw, limit - n, u, n, tooBig);
      }
    }

    method ReadVarInt() returns (value: int32, bytes: nat, err: Option<Error>)
      modifies this
      ensures match ReadVarIntFrom(old(raw))
              case VarOk(u, n) => err == None && value == WrapInt32(u) && bytes == n && raw == old(raw)[n..]
              case VarFail(e, n) => err == Some(e) && value == 0 && bytes == 0 && raw == old(raw)[n..]
      ensures Reports(ReadVarIntValue(old(raw)), value, err, raw)
    {
      var u;
      u, bytes, err := readGroups(32, VARINT_MAX_BYTES, VarIntTooBig);
      value := WrapInt32(u);
    }

    method ReadVarLong() returns (value: int64, bytes: nat, err: Option<Error>)
      modifies this
      ensures match ReadVarLongFrom(old(raw))
              case VarOk(u, n) => err == None && value == WrapInt64(u) && bytes == n && raw == old(raw)[n..]
              case VarFail(e, n) => err == Some(e) && value == 0 && bytes == 0 && raw == old(raw)[n..]
      ensures Reports(ReadVarLongValue(old(raw)), value, err, raw)
    {
      var u;
      u, bytes, err := readGroups(64, VARLONG_MAX_BYTES, VarLongTooBig);
      value := WrapInt64(u);
    }

    /** The loop shared by WriteVarInt (m = 2^32) and WriteVarLong (m = 2^64).
        `v &^ 0x7F == 0` holds exactly for 0 <= v < 128; `byte(v&0x7F | 0x80)`
        is the low group with the continuation bit; and `uint(v) >> 7` is the
        unsigned pattern v mod m divided by 128, which always fits back into
        the signed type unchanged. */
    method writeGroups(v: int, m: int) returns (bytes: nat)
      requires m == 0x1_0000_0000 || m == 0x1_0000_0000_0000_0000
      requires -m / 2 <= v < m / 2
      modifies this
      ensures raw == old(raw) + Groups(v % m) && bytes == |Groups(v % m)|
    {
      var x := v;
      bytes := 0;
      while true
        invariant -m / 2 <= x < m / 2
        invariant raw + Groups(x % m) == old(raw) + Groups(v % m)
        invariant bytes + |Groups(x % m)| == |Groups(v % m)|
        decreases x % m
      {
        GroupsOfWord(x, m);
        if 0 <= x < 0x80 {
          WriteByte(x);
          bytes := bytes + 1;
          return;
        }
        ghost var before := raw;
        WriteByte(x % 0x80 + 0x80);
        bytes := bytes + 1;
        x := (x % m) / 0x80;
        ConcatAssoc(before, [raw[|raw| - 1]], Groups(x % m));
      }
    }

    method WriteVarInt(v: int32) returns (bytes: nat)
      modifies this
      ensures raw == old(raw) + VarIntBytes(v) && bytes == |VarIntBytes(v)|
    {
      bytes := writeGroups(v, 0x1_0000_0000);
    }

    method WriteVarLong(v: int64) returns (bytes: nat)
      modifies this
      ensures raw == old(raw) + VarLongBytes(v) && bytes == |VarLongBytes(v)|
    {
      bytes := writeGroups(v, 0x1_0000_0000_0000_0000);
    }

    // -------------------------------------------------------------------
    // Strings and UUIDs

    method ReadString() returns (value: seq<byte>, bytes: nat, err: Option<Error>)
      modifies this
      ensures match ReadStringFrom(old(raw))
              case Got(x, rest) => err == None && value == x.0 && bytes == x.1 && raw == rest
              case Fault(e, rest) =>
                err == Some(e) && raw == rest && value == [] &&
                bytes == (match ReadVarIntFrom(old(raw)) case VarOk(_, n) => n case VarFail(_, _) => 0)
    {
      var length;
      length, bytes, err := ReadVarInt();
      value := [];
      if err.Some? {
        return;
      }
      if length < 0 {
        err := Some(NegativeStringLength);
        return;
      }
      if length == 0 {
        return [], bytes, None;
      }
      if length > |raw| {
        err := Some(StringTooLong);
        return;
      }
      value := raw[..length];
      raw := raw[length..];
      bytes := bytes + length;
    }

    method WriteString(str: seq<byte>) returns (bytes: nat)
      modifies this
      ensures raw == old(raw) + StringBytes(str) && bytes == |StringBytes(str)|
    {
      var lbytes := WriteVarInt(WrapInt32(|str|));
      bytes := lbytes;
      raw := raw + str;
      bytes := bytes + |str|;
    }

    /** ReadUUID: Read(16), the 16 bytes kept as they are. */
    method ReadUUID() returns (id: seq<byte>, err: Option<Error>)
      modifies this
      ensures Reports(ReadUuidFrom(old(raw)), id, err, raw)
    {
      id, err := Read(UUID_BYTES);
    }

    method WriteUUID(id: seq<byte>)
      modifies this
      ensures raw == old(raw) + id
    {
      Write(id);
    }

    // -------------------------------------------------------------------
    // Values of a field kind, and slices of them

    /** ReadReflected on a non-slice type. For `int` the value is the int32
        that ReadInt returns. */
    method ReadReflected(k: Kind) returns (v: Value, err: Option<Error>)
      modifies this
      ensures Reports(ReadKind(k, old(raw)), v, err, raw)
    {
      match k
      case VarIntK =>
        var x, _, e := ReadVarInt();
        v, err := VarIntV(x), e;
      case VarLongK =>
        var x, _, e := ReadVarLong();
        v, err := VarLongV(x), e;
      case UuidK =>
        var x, e := ReadUUID();
        v, err := UuidV(x), e;
      case StringK =>
        var x, _, e := ReadString();
        v, err := StringV(x), e;
      case BoolK =>
        var x, e := ReadBoolean();
        v, err := BoolV(x), e;
      case ByteK =>
        var x, e := ReadByte();
        v, err := ByteV(x), e;
      case UShortK =>
        var x, e := ReadUShort();
        v, err := UShortV(x), e;
      case Int32K =>
        var x, e := ReadInt();
        v, err := Int32V(x), e;
      case IntK =>
        var x, e := ReadInt();
        v, err := Int32V(x), e;
      case Int64K =>
        var x, e := ReadLong();
        v, err := Int64V(x), e;
      case UnhandledK(name) =>
        v, err := UnhandledV(name), Some(UnhandledType);
    }

    method readLength(lengthType: string) returns (length: int, err: Option<Error>)
      modifies this
      ensures lengthType == LENGTH_VARINT ==> Reports(ReadVarIntValue(old(raw)), length, err, raw)
      ensures lengthType != LENGTH_VARINT ==> err == Some(UnhandledLengthType) && raw == old(raw)
    {
      if lengthType == LENGTH_VARINT {
        var v, _, e := ReadVarInt();
        return v, e;
      }
      return 0, Some(UnhandledLengthType);
    }

    /** ReadReflectedSlice: the count, then that many elements in order. */
    method ReadReflectedSlice(k: Kind, lengthType: string) returns (v: Value, err: Option<Error>)
      modifies this
      ensures Reports(ReadSliceFrom(k, lengthType, old(raw)), v, err, raw)
    {
      ghost var start := raw;
      var length;
      length, err := readLength(lengthType);
      SliceCount(k, lengthType, start, length, err, raw);
      v := SliceV([]);
      if err.Some? {
        return;
      }
      if length < 0 {
        err := Some(MakeSliceLenPanic);
        return;
      }
      var elems;
      elems, err := readElems(k, length);
      if err.None? {
        v := SliceV(elems);
      }
    }

    /** The loop of ReadReflectedSlice: `length` elements of kind k, the
        first error ending it. */
    method readElems(k: Kind, length: nat) returns (elems: seq<Value>, err: Option<Error>)
      modifies this
      ensures AsSlice(ReadElems(k, length, old(raw))) == Outcome(SliceV(elems), err, raw)
    {
      ghost var goal := ReadElems(k, length, raw);
      elems := [];
      PrependNothing(goal);
      var i := 0;
      ghost var left := length;
      while i < length
        invariant 0 <= i <= length && left == length - i
        invariant goal == Prepend(elems, ReadElems(k, left, raw))
      {
        var x, e := readElem(k, left, elems, goal);
        if e.Some? {
          return elems, e;
        }
        elems := elems + [x];
        i, left := i + 1, left - 1;
      }
      PrependNothing'(elems, raw);
      err := None;
    }

    /** One pass of readElems' loop: the next element is read and stored
        into its slot, which panics when the slot does not take it; stated as
        what it does to the elements still to be read. */
    method readElem(k: Kind, ghost m: nat, ghost elems: seq<Value>, ghost goal: Read<seq<Value>>) returns (x: Value, e: Option<Error>)
      requires m >= 1 && goal == Prepend(elems, ReadElems(k, m, raw))
      modifies this
      ensures e.None? ==> goal == Prepend(elems + [x], ReadElems(k, m - 1, raw))
      ensures e.Some? ==> goal == Fault(e.value, raw)
    {
      ghost var before := raw;
      SlotTakes(k, raw);
      x, e := ReadReflected(k);
      if e.None? && !HasKind(x, k) {
        e := Some(UnassignablePanic);
      }
      ElemsNext(k, m, before, x, e, raw, elems);
    }

    method writeLength(lengthType: string, length: int) returns (err: Option<Error>)
      modifies this
      ensures lengthType == LENGTH_VARINT ==> err == None && raw == old(raw) + VarIntBytes(WrapInt32(length))
      ensures lengthType != LENGTH_VARINT ==> err == Some(UnhandledLengthType) && raw == old(raw)
    {
      if lengthType == LENGTH_VARINT {
        var _ := WriteVarInt(WrapInt32(length));
        return None;
      }
      return Some(UnhandledLengthType);
    }

    /** WriteAny: the value's bytes, or UnhandledType with nothing written. */
    method WriteAny(v: Value) returns (err: Option<Error>)
      modifies this
      ensures match AnyBytes(v)
              case Some(b) => err == None && raw == old(raw) + b
              case None => err == Some(UnhandledType) && raw == old(raw)
    {
      err := None;
      match v
      case VarIntV(i) => var _ := WriteVarInt(i);
      case VarLongV(l) => var _ := WriteVarLong(l);
      case UuidV(id) => WriteUUID(id);
      case StringV(str) => var _ := WriteString(str);
      case BoolV(b) => WriteBoolean(b);
      case ByteV(x) => WriteByte(x);
      case UShortV(w) => WriteUShort(w);
      case Int32V(i) => WriteInt(i);
      case IntV(n) => WriteInt(WrapInt32(n));
      case Int64V(l) => WriteLong(l);
      case UnhandledV(_) => err := Some(UnhandledType);
      case SliceV(_) => err := Some(UnhandledType);
    }

    /** WriteSlice: the count, then each element; the first element WriteAny
        refuses stops it, leaving what was written before. */
    method WriteSlice(v: Value, lengthType: string) returns (err: Option<Error>)
      modifies this
      ensures raw == old(raw) + SliceBytes(v, lengthType).bytes
      ensures err == SliceBytes(v, lengthType).err
    {
      if !v.SliceV? {
        return Some(NotASlice);
      }
      err := writeLength(lengthType, |v.elems|);
      if err.Some? {
        return;
      }
      ghost var mid := raw;
      ghost var done: seq<byte> := [];
      var i := 0;
      while i < |v.elems|
        invariant 0 <= i <= |v.elems|
        invariant raw == mid + done
        invariant ElemsBytes(v.elems) == Emitted(done, ElemsBytes(v.elems[i..]))
      {
        var e := WriteAny(v.elems[i]);
        assert v.elems[i..][1..] == v.elems[i + 1..];
        if e.Some? {
          ConcatAssoc(old(raw), VarIntBytes(WrapInt32(|v.elems|)), done);
          return e;
        }
        ghost var b := AnyBytes(v.elems[i]).value;
        ConcatAssoc(done, b, ElemsBytes(v.elems[i + 1..]).bytes);
        ConcatAssoc(mid, done, b);
        done := done + b;
        i := i + 1;
      }
      ConcatAssoc(old(raw), VarIntBytes(WrapInt32(|v.elems|)), done);
      assert done + [] == done;
    }
  }

  lemma ShiftNothing(r: VarRead)
    ensures Shift(r, 0, 0) == r
  {
  }

  lemma DropOne(s: seq<byte>, n: nat)
    requires n < |s|
    ensures s[n..][0] == s[n] && s[n..][1..] == s[n + 1..]
  {
  }

  /** What ReadReflectedSlice decides once the count is read. */
  lemma SliceCount(k: Kind, lengthType: string, s: seq<byte>, length: int, err: Option<Error>, mid: seq<byte>)
    requires lengthType == LENGTH_VARINT ==> Reports(ReadVarIntValue(s), length, err, mid)
    requires lengthType != LENGTH_VARINT ==> err == Some(UnhandledLengthType) && mid == s
    ensures err.Some? ==> ReadSliceFrom(k, lengthType, s) == Fault(err.value, mid)
    ensures err.None? && length < 0 ==> ReadSliceFrom(k, lengthType, s) == Fault(MakeSliceLenPanic, mid)
    ensures err.None? && length >= 0 ==> ReadSliceFrom(k, lengthType, s) == AsSlice(ReadElems(k, length, mid))
  {
  }

  lemma PrependNothing(r: Read<seq<Value>>)
    ensures Prepend([], r) == r
  {
    if r.Got? {
      assert [] + r.value == r.value;
    }
  }

  lemma PrependNothing'(vs: seq<Value>, rest: seq<byte>)
    ensures Prepend(vs, Got([], rest)) == Got(vs, rest)
  {
    assert vs + [] == vs;
  }

  /** One more element of a slice read: it joins those read so far, or its
      error, or the panic of storing it, becomes the outcome of the whole
      read. */
  lemma ElemsNext(k: Kind, m: nat, s: seq<byte>, x: Value, e: Option<Error>, s': seq<byte>, elems: seq<Value>)
    requires m >= 1 && Reports(ReadSlot(k, s), x, e, s')
    ensures e.None? ==> Prepend(elems, ReadElems(k, m, s)) == Prepend(elems + [x], ReadElems(k, m - 1, s'))
    ensures e.Some? ==> Prepend(elems, ReadElems(k, m, s)) == Fault(e.value, s')
  {
    if e.None? {
      ReadElemsStep(k, m - 1, s, x, s');
      PrependPrepend(elems, [x], ReadElems(k, m - 1, s'));
    }
  }

  lemma PrependPrepend(a: seq<Value>, b: seq<Value>, r: Read<seq<Value>>)
    ensures Prepend(a, Prepend(b, r)) == Prepend(a + b, r)
  {
    if r.Got? {
      ConcatAssoc(a, b, r.value);
    }
  }
}
