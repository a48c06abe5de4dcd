/** What each read and write operation of the byte buffer does, as functions of
    the buffer's bytes: the primitive reads, strings with a VarInt byte-length
    prefix, 16-byte UUIDs, and the field kinds that replace the reflection in
    ReadReflected/WriteAny together with VarInt-counted slices of them. */
module Codec {
  import opened Wire
  import opened VarNum

  // ---------------------------------------------------------------------
  // Primitive reads

  /** ReadByte: the first byte, or BufferEmpty. */
  function ReadByteFrom(s: seq<byte>): Read<byte> {
    if |s| == 0 then Fault(BufferEmpty, s) else Got(s[0], s[1..])
  }

  /** Read(n): the first n bytes, or BufferTooShort with nothing consumed. A
      negative n passes the length check and panics when slicing. */
  function ReadBytesFrom(s: seq<byte>, n: int): Read<seq<byte>> {
    if |s| < n then Fault(BufferTooShort, s)
    else if n < 0 then Fault(SliceBoundsPanic, s)
    else Got(s[..n], s[n..])
  }

  /** ReadBoolean: 0x00 is false, 0x01 is true, any other byte is consumed
      and rejected. */
  function ReadBoolFrom(s: seq<byte>): Read<bool> {
    if |s| == 0 then Fault(BufferEmpty, s)
    else if s[0] == 0 then Got(false, s[1..])
    else if s[0] == 1 then Got(true, s[1..])
    else Fault(InvalidBoolean, s[1..])
  }

  function BoolByte(b: bool): byte { if b then 1 else 0 }

  /** ReadShort/ReadInt/ReadLong: n big-endian bytes, or BufferTooShort with
      nothing consumed. */
  function ReadShortFrom(s: seq<byte>): Read<int16> {
    if |s| < 2 then Fault(BufferTooShort, s) else Got(ShortOf(s[..2]), s[2..])
  }

  function ReadIntFrom(s: seq<byte>): Read<int32> {
    if |s| < 4 then Fault(BufferTooShort, s) else Got(IntOf(s[..4]), s[4..])
  }

  function ReadLongFrom(s: seq<byte>): Read<int64> {
    if |s| < 8 then Fault(BufferTooShort, s) else Got(LongOf(s[..8]), s[8..])
  }

  /** ReadVarInt/ReadVarLong as reads of a signed value. */
  function ReadVarIntValue(s: seq<byte>): Read<int32> {
    match ReadVarIntFrom(s)
    case VarOk(u, n) => Got(WrapInt32(u), s[n..])
    case VarFail(e, n) => Fault(e, s[n..])
  }

  function ReadVarLongValue(s: seq<byte>): Read<int64> {
    match ReadVarLongFrom(s)
    case VarOk(u, n) => Got(WrapInt64(u), s[n..])
    case VarFail(e, n) => Fault(e, s[n..])
  }

  // ---------------------------------------------------------------------
  // Strings and UUIDs

  /** WriteString: the VarInt byte-length (Go's `VarInt(len(str))`, which
      wraps past 2^31-1) followed by the bytes. */
  function StringBytes(str: seq<byte>): seq<byte> {
    VarIntBytes(WrapInt32(|str|)) + str
  }

  /** ReadString: the string and the number of bytes it took (prefix plus
      contents). A negative length, or one beyond the bytes left after the
      prefix, is an error; the prefix stays consumed. */
  function ReadStringFrom(s: seq<byte>): Read<(seq<byte>, nat)> {
    match ReadVarIntFrom(s)
    case VarFail(e, n) => Fault(e, s[n..])
    case VarOk(u, n) =>
      var len := WrapInt32(u);
      if len < 0 then Fault(NegativeStringLength, s[n..])
      else if len == 0 then Got(([], n), s[n..])
      else if len > |s| - n then Fault(StringTooLong, s[n..])
      else Got((s[n..n + len], n + len), s[n + len..])
  }

  const UUID_BYTES := 16

  /** ReadUUID: Read(16); the UUID is kept as its 16 bytes. */
  function ReadUuidFrom(s: seq<byte>): Read<seq<byte>> {
    ReadBytesFrom(s, UUID_BYTES)
  }

  // ---------------------------------------------------------------------
  // Field kinds and values (what ReadReflected/WriteAny dispatch on)

  /** The Go types ReadReflected and WriteAny know, and the rest. */
  datatype Kind =
    | VarIntK | VarLongK | UuidK | StringK | BoolK | ByteK | UShortK
    | Int32K   // int32
    | IntK     // Go int: read with ReadInt, so as an int32; written as int32(v)
    | Int64K
    | UnhandledK(name: string)

  datatype Value =
    | VarIntV(i: int32)
    | VarLongV(l: int64)
    | UuidV(id: seq<byte>)
    | StringV(str: seq<byte>)
    | BoolV(b: bool)
    | ByteV(x: byte)
    | UShortV(w: uint16)
    | Int32V(i32: int32)
    | IntV(n: int64)
    | Int64V(i64: int64)
    | UnhandledV(name: string)
    | SliceV(elems: seq<Value>)

  /** The value is one of type k: Go's static typing of message fields, and
      the test reflect.Value.Set makes before storing a value into a slot of
      type k. */
  predicate HasKind(v: Value, k: Kind) {
    match k
    case VarIntK => v.VarIntV?
    case VarLongK => v.VarLongV?
    case UuidK => v.UuidV? && |v.id| == UUID_BYTES
    case StringK => v.StringV?
    case BoolK => v.BoolV?
    case ByteK => v.ByteV?
    case UShortK => v.UShortV?
    case Int32K => v.Int32V?
    case IntK => v.IntV?
    case Int64K => v.Int64V?
    case UnhandledK(name) => v == UnhandledV(name)
  }

  /** The value survives its encoding: strings shorter than 2^31 bytes, Go
      ints within the int32 range. */
  predicate Representable(v: Value) {
    match v
    case StringV(str) => |str| < 0x8000_0000
    case IntV(n) => -0x8000_0000 <= n < 0x8000_0000
    case _ => true
  }

  /** ReadReflected on a non-slice type. For `int` it calls ReadInt, so the
      value it yields is an int32, which a slot of type int does not take. */
  function ReadKind(k: Kind, s: seq<byte>): Read<Value> {
    match k
    case VarIntK =>
      (match ReadVarIntValue(s) case Got(x, r) => Got(VarIntV(x), r) case Fault(e, r) => Fault(e, r))
    case VarLongK =>
      (match ReadVarLongValue(s) case Got(x, r) => Got(VarLongV(x), r) case Fault(e, r) => Fault(e, r))
    case UuidK =>
      (match ReadUuidFrom(s) case Got(x, r) => Got(UuidV(x), r) case Fault(e, r) => Fault(e, r))
    case StringK =>
      (match ReadStringFrom(s) case Got(x, r) => Got(StringV(x.0), r) case Fault(e, r) => Fault(e, r))
    case BoolK =>
      (match ReadBoolFrom(s) case Got(x, r) => Got(BoolV(x), r) case Fault(e, r) => Fault(e, r))
    case ByteK =>
      (match ReadByteFrom(s) case Got(x, r) => Got(ByteV(x), r) case Fault(e, r) => Fault(e, r))
    case UShortK =>
      (match ReadShortFrom(s) case Got(x, r) => Got(UShortV(x % 0x1_0000), r) case Fault(e, r) => Fault(e, r))
    case Int32K =>
      (match ReadIntFrom(s) case Got(x, r) => Got(Int32V(x), r) case Fault(e, r) => Fault(e, r))
    case IntK =>
      (match ReadIntFrom(s) case Got(x, r) => Got(Int32V(x), r) case Fault(e, r) => Fault(e, r))
    case Int64K =>
      (match ReadLongFrom(s) case Got(x, r) => Got(Int64V(x), r) case Fault(e, r) => Fault(e, r))
    case UnhandledK(_) => Fault(UnhandledType, s)
  }

  /** WriteAny: the bytes of one value, or None for a type it has no case for
      (slices among them). */
  function AnyBytes(v: Value): Option<seq<byte>> {
    match v
    case VarIntV(i) => Some(VarIntBytes(i))
    case VarLongV(l) => Some(VarLongBytes(l))
    case UuidV(id) => Some(id)
    case StringV(str) => Some(StringBytes(str))
    case BoolV(b) => Some([BoolByte(b)])
    case ByteV(x) => Some([x])
    case UShortV(w) => Some(ShortBytes(WrapInt16(w)))
    case Int32V(i) => Some(IntBytes(i))
    case IntV(n) => Some(IntBytes(WrapInt32(n)))
    case Int64V(l) => Some(LongBytes(l))
    case UnhandledV(_) => None
    case SliceV(_) => None
  }

  // ---------------------------------------------------------------------
  // Slices with a length type

  const LENGTH_VARINT := "varint"

  /** One element of a slice: ReadReflected, then the value stored into its
      slot (`slice.Index(i).Set(v)`), which panics when the slot does not
      take it. Only an int slot refuses what ReadKind yields (SlotTakes). */
  function ReadSlot(k: Kind, s: seq<byte>): Read<Value> {
    match ReadKind(k, s)
    case Fault(e, r) => Fault(e, r)
    case Got(v, r) => if k.IntK? then Fault(UnassignablePanic, r) else Got(v, r)
  }

  /** The store in ReadSlot is reflect.Value.Set: it keeps the value read
      exactly when the value is of the slot's type, and panics otherwise. */
  lemma SlotTakes(k: Kind, s: seq<byte>)
    ensures match ReadKind(k, s)
            case Fault(e, r) => ReadSlot(k, s) == Fault(e, r)
            case Got(v, r) =>
              ReadSlot(k, s) == (if HasKind(v, k) then Got(v, r) else Fault(UnassignablePanic, r))
  {
  }

  /** The elements of a slice: `count` elements in order; the first failing
      read or store ends it. */
  function ReadElems(k: Kind, count: nat, s: seq<byte>): Read<seq<Value>>
    decreases count, 0
  {
    if count == 0 then Got([], s) else ReadElemThen(k, count - 1, s)
  }

  /** One element, then `more` elements. */
  function ReadElemThen(k: Kind, more: nat, s: seq<byte>): Read<seq<Value>>
    decreases more, 1
  {
    match ReadSlot(k, s)
    case Fault(e, r) => Fault(e, r)
    case Got(v, r) => Prepend([v], ReadElems(k, more, r))
  }

  /** Puts values in front of a successful read; a fault stays as it is. */
  function Prepend(vs: seq<Value>, r: Read<seq<Value>>): Read<seq<Value>> {
    match r
    case Got(ws, rest) => Got(vs + ws, rest)
    case Fault(e, rest) => Fault(e, rest)
  }

  /** ReadReflectedSlice: readLength (only "varint" is known), then as many
      elements as it says. A negative count makes reflect.MakeSlice panic. */
  function ReadSliceFrom(k: Kind, lengthType: string, s: seq<byte>): Read<Value> {
    if lengthType != LENGTH_VARINT then Fault(UnhandledLengthType, s)
    else
      match ReadVarIntValue(s)
      case Fault(e, r) => Fault(e, r)
      case Got(count, r) =>
        if count < 0 then Fault(MakeSliceLenPanic, r)
        else AsSlice(ReadElems(k, count, r))
  }

  /** The elements read, as a slice value. */
  function AsSlice(r: Read<seq<Value>>): Read<Value> {
    match r
    case Got(vs, rest) => Got(SliceV(vs), rest)
    case Fault(e, rest) => Fault(e, rest)
  }

  /** The bytes a write appends, and its error if it stopped early. */
  datatype Written = Written(bytes: seq<byte>, err: Option<Error>)

  /** Bytes written before those of w. */
  function Emitted(b: seq<byte>, w: Written): Written {
    Written(b + w.bytes, w.err)
  }

  /** Emitting twice is emitting the concatenation once. */
  lemma EmittedEmitted(a: seq<byte>, b: seq<byte>, w: Written)
    ensures Emitted(a, Emitted(b, w)) == Emitted(a + b, w)
  {
    ConcatAssoc(a, b, w.bytes);
  }

  /** WriteAny of each element in order; the first element with no case
      stops the writing with UnhandledType. */
  function ElemsBytes(es: seq<Value>): Written {
    if es == [] then Written([], None)
    else
      match AnyBytes(es[0])
      case None => Written([], Some(UnhandledType))
      case Some(b) => Emitted(b, ElemsBytes(es[1..]))
  }

  /** WriteSlice: a non-slice value and an unknown length type are errors
      before anything is written; otherwise writeLength (the element count
      as a VarInt) and then the elements. */
  function SliceBytes(v: Value, lengthType: string): Written {
    if !v.SliceV? then Written([], Some(NotASlice))
    else if lengthType != LENGTH_VARINT then Written([], Some(UnhandledLengthType))
    else
      var w := ElemsBytes(v.elems);
      Written(VarIntBytes(WrapInt32(|v.elems|)) + w.bytes, w.err)
  }

  // ---------------------------------------------------------------------
  // Properties

  /** ReadBoolean inverts WriteBoolean, and accepts exactly the two bytes
      WriteBoolean can emit. */
  lemma BoolRoundTrip(b: bool, rest: seq<byte>)
    ensures ReadBoolFrom([BoolByte(b)] + rest) == Got(b, rest)
  {
  }

  lemma BoolRejects(s: seq<byte>)
    requires |s| > 0
    ensures ReadBoolFrom(s).Got? <==> s[0] == 0 || s[0] == 1
    ensures ReadBoolFrom(s).Fault? ==> ReadBoolFrom(s) == Fault(InvalidBoolean, s[1..])
  {
  }

  /** ReadShort/ReadInt/ReadLong invert WriteShort/WriteInt/WriteLong. */
  lemma FixedRoundTrips(a: int16, b: int32, c: int64, rest: seq<byte>)
    ensures ReadShortFrom(ShortBytes(a) + rest) == Got(a, rest)
    ensures ReadIntFrom(IntBytes(b) + rest) == Got(b, rest)
    ensures ReadLongFrom(LongBytes(c) + rest) == Got(c, rest)
  {
    ShortFieldRoundTrip(a, rest);
    IntFieldRoundTrip(b, rest);
    LongFieldRoundTrip(c, rest);
  }

  lemma ShortFieldRoundTrip(a: int16, rest: seq<byte>)
    ensures ReadShortFrom(ShortBytes(a) + rest) == Got(a, rest)
  {
    assert (ShortBytes(a) + rest)[..2] == ShortBytes(a);
    ShortRoundTrip(a);
  }

  lemma IntFieldRoundTrip(b: int32, rest: seq<byte>)
    ensures ReadIntFrom(IntBytes(b) + rest) == Got(b, rest)
  {
    assert (IntBytes(b) + rest)[..4] == IntBytes(b);
    IntRoundTrip(b);
  }

  lemma LongFieldRoundTrip(c: int64, rest: seq<byte>)
    ensures ReadLongFrom(LongBytes(c) + rest) == Got(c, rest)
  {
    assert (LongBytes(c) + rest)[..8] == LongBytes(c);
    LongRoundTrip(c);
  }

  /** ReadString returns the string WriteString wrote and the same byte count. */
  lemma StringRoundTrip(str: seq<byte>, rest: seq<byte>)
    requires |str| < 0x8000_0000
    ensures ReadStringFrom(StringBytes(str) + rest) == Got((str, |StringBytes(str)|), rest)
  {
    var len: int32 := |str|;
    var pre := VarIntBytes(len);
    var s := StringBytes(str) + rest;
    assert s == pre + (str + rest);
    VarIntRoundTrip(len, str + rest);
    var n := |pre|;
    assert s[n..] == str + rest;
    if len > 0 {
      assert s[n..n + len] == str;
      assert s[n + len..] == rest;
    }
  }

  /** A length prefix beyond the remaining bytes fails with StringTooLong,
      leaving the contents unread. */
  lemma StringTooLongFails(len: int32, body: seq<byte>)
    requires |body| < len
    ensures ReadStringFrom(VarIntBytes(len) + body) == Fault(StringTooLong, body)
  {
    VarIntRoundTrip(len, body);
    assert (VarIntBytes(len) + body)[|VarIntBytes(len)|..] == body;
  }

  lemma StringNegativeFails(len: int32, body: seq<byte>)
    requires len < 0
    ensures ReadStringFrom(VarIntBytes(len) + body) == Fault(NegativeStringLength, body)
  {
    VarIntRoundTrip(len, body);
    assert (VarIntBytes(len) + body)[|VarIntBytes(len)|..] == body;
  }

  /** What ReadReflected yields for the bytes WriteAny wrote for v: a Go int
      comes back as the int32 ReadInt returns, any other value as itself. */
  function ReadBack(v: Value): Value {
    if v.IntV? then Int32V(WrapInt32(v.n)) else v
  }

  /** Reading a value of kind k back from what WriteAny wrote for it: the
      value itself, except that an int comes back as an int32, which is then
      not of its kind. */
  lemma AnyRoundTrip(v: Value, k: Kind, rest: seq<byte>)
    requires HasKind(v, k) && !k.UnhandledK? && Representable(v)
    ensures AnyBytes(v).Some?
    ensures ReadKind(k, AnyBytes(v).value + rest) == Got(ReadBack(v), rest)
    ensures HasKind(ReadBack(v), k) <==> !k.IntK?
    ensures !k.IntK? ==> ReadBack(v) == v
  {
    match v
    case VarIntV(i) => VarIntFieldRoundTrip(i, rest);
    case VarLongV(l) => VarLongFieldRoundTrip(l, rest);
    case UuidV(id) => UuidFieldRoundTrip(id, rest);
    case StringV(str) => StringRoundTrip(str, rest);
    case BoolV(b) => BoolRoundTrip(b, rest);
    case ByteV(x) => assert ([x] + rest)[1..] == rest;
    case UShortV(w) => UShortFieldRoundTrip(w, rest);
    case Int32V(i) => IntFieldRoundTrip(i, rest);
    case IntV(n) => IntFieldRoundTrip(WrapInt32(n), rest);
    case Int64V(l) => LongFieldRoundTrip(l, rest);
  }

  lemma VarIntFieldRoundTrip(i: int32, rest: seq<byte>)
    ensures ReadVarIntValue(VarIntBytes(i) + rest) == Got(i, rest)
  {
    VarIntRoundTrip(i, rest);
    assert (VarIntBytes(i) + rest)[|VarIntBytes(i)|..] == rest;
  }

  lemma VarLongFieldRoundTrip(l: int64, rest: seq<byte>)
    ensures ReadVarLongValue(VarLongBytes(l) + rest) == Got(l, rest)
  {
    VarLongRoundTrip(l, rest);
    assert (VarLongBytes(l) + rest)[|VarLongBytes(l)|..] == rest;
  }

  lemma UuidFieldRoundTrip(id: seq<byte>, rest: seq<byte>)
    requires |id| == UUID_BYTES
    ensures ReadUuidFrom(id + rest) == Got(id, rest)
  {
    assert (id + rest)[..UUID_BYTES] == id;
    assert (id + rest)[UUID_BYTES..] == rest;
  }

  lemma UShortFieldRoundTrip(w: uint16, rest: seq<byte>)
    ensures ReadShortFrom(ShortBytes(WrapInt16(w)) + rest) == Got(WrapInt16(w), rest)
    ensures WrapInt16(w) % 0x1_0000 == w
  {
    ShortFieldRoundTrip(WrapInt16(w), rest);
    DivModUnique(w, 0x1_0000, 0, w);
    UnsignedWrap(w, 0x8000, WrapInt16(w));
  }

  /** ReadUInt/ReadULong invert WriteUInt/WriteULong: the unsigned value
      survives its trip through the signed conversion. */
  lemma UIntRoundTrip(w: uint32, rest: seq<byte>)
    ensures ReadIntFrom(IntBytes(WrapInt32(w)) + rest) == Got(WrapInt32(w), rest)
    ensures WrapInt32(w) % 0x1_0000_0000 == w
  {
    IntFieldRoundTrip(WrapInt32(w), rest);
    DivModUnique(w, 0x1_0000_0000, 0, w);
    UnsignedWrap(w, 0x8000_0000, WrapInt32(w));
  }

  lemma ULongRoundTrip(w: uint64, rest: seq<byte>)
    ensures ReadLongFrom(LongBytes(WrapInt64(w)) + rest) == Got(WrapInt64(w), rest)
    ensures WrapInt64(w) % 0x1_0000_0000_0000_0000 == w
  {
    LongFieldRoundTrip(WrapInt64(w), rest);
    DivModUnique(w, 0x1_0000_0000_0000_0000, 0, w);
    UnsignedWrap(w, 0x8000_0000_0000_0000, WrapInt64(w));
  }

  /** x is w read as signed (w itself below half, w - 2*half above), so
      taking x modulo 2*half gives w back. */
  lemma UnsignedWrap(w: int, half: int, x: int)
    requires half > 0 && 0 <= w < 2 * half
    requires x == (if w < half then w else w - 2 * half)
    ensures x % (2 * half) == w
  {
    if w < half { DivModUnique(x, 2 * half, 0, w); }
    else { DivModUnique(x, 2 * half, -1, w); }
  }

  /** The elements WriteSlice wrote read back as the same elements (for any
      element type but int, see IntElemsPanic). */
  lemma {:induction false} ElemsRoundTrip(k: Kind, es: seq<Value>, rest: seq<byte>)
    requires !k.UnhandledK? && !k.IntK?
    requires forall i :: 0 <= i < |es| ==> HasKind(es[i], k) && Representable(es[i])
    decreases |es|
    ensures ElemsBytes(es).err == None
    ensures ReadElems(k, |es|, ElemsBytes(es).bytes + rest) == Got(es, rest)
  {
    if es != [] {
      ElemsRoundTrip(k, es[1..], rest);
      ElemsRoundTripStep(k, es, rest);
    }
  }

  /** One element more: from the round trip of the tail to that of the whole. */
  lemma ElemsRoundTripStep(k: Kind, es: seq<Value>, rest: seq<byte>)
    requires !k.UnhandledK? && !k.IntK? && es != []
    requires HasKind(es[0], k) && Representable(es[0])
    requires ElemsBytes(es[1..]).err == None
    requires ReadElems(k, |es| - 1, ElemsBytes(es[1..]).bytes + rest) == Got(es[1..], rest)
    ensures ElemsBytes(es).err == None
    ensures ReadElems(k, |es|, ElemsBytes(es).bytes + rest) == Got(es, rest)
  {
    var v, w := es[0], ElemsBytes(es[1..]);
    var tail := w.bytes + rest;
    AnyRoundTrip(v, k, tail);
    var b := AnyBytes(v).value;
    assert ElemsBytes(es) == Written(b + w.bytes, w.err);
    ConcatAssoc(b, w.bytes, rest);
    assert ReadSlot(k, b + tail) == Got(v, tail);
    ReadElemsStep(k, |es| - 1, b + tail, v, tail);
    assert [v] + es[1..] == es;
  }

  lemma ReadElemsStep(k: Kind, n: nat, s: seq<byte>, v: Value, r: seq<byte>)
    requires ReadSlot(k, s) == Got(v, r)
    ensures ReadElems(k, n + 1, s) == Prepend([v], ReadElems(k, n, r))
  {
  }

  /** WriteSlice/ReadReflectedSlice round trip with the "varint" length type
      (for any element type but int, see IntSlicePanics). */
  lemma SliceRoundTrip(k: Kind, es: seq<Value>, rest: seq<byte>)
    requires !k.UnhandledK? && !k.IntK? && |es| < 0x8000_0000
    requires forall i :: 0 <= i < |es| ==> HasKind(es[i], k) && Representable(es[i])
    ensures SliceBytes(SliceV(es), LENGTH_VARINT).err == None
    ensures ReadSliceFrom(k, LENGTH_VARINT, SliceBytes(SliceV(es), LENGTH_VARINT).bytes + rest) == Got(SliceV(es), rest)
  {
    var count: int32 := |es|;
    ElemsRoundTrip(k, es, rest);
    var body := ElemsBytes(es).bytes + rest;
    VarIntFieldRoundTrip(count, body);
    ConcatAssoc(VarIntBytes(count), ElemsBytes(es).bytes, rest);
  }

  /** A slice of ints cannot be read: the first element comes back as an
      int32, and storing it into the int slot panics. */
  lemma IntElemsPanic(count: nat, s: seq<byte>)
    requires count >= 1 && |s| >= 4
    ensures ReadElems(IntK, count, s) == Fault(UnassignablePanic, s[4..])
  {
  }

  /** So a non-empty `[]int` that WriteSlice wrote does not read back: the
      read panics after the count and the first element. */
  lemma IntSlicePanics(es: seq<Value>, rest: seq<byte>)
    requires 0 < |es| < 0x8000_0000
    requires forall i :: 0 <= i < |es| ==> HasKind(es[i], IntK)
    ensures SliceBytes(SliceV(es), LENGTH_VARINT).err == None
    ensures var r := ReadSliceFrom(IntK, LENGTH_VARINT, SliceBytes(SliceV(es), LENGTH_VARINT).bytes + rest);
            r.Fault? && r.err == UnassignablePanic
  {
    var count: int32 := |es|;
    ElemsIntBytes(es);
    var body := ElemsBytes(es).bytes + rest;
    VarIntFieldRoundTrip(count, body);
    ConcatAssoc(VarIntBytes(count), ElemsBytes(es).bytes, rest);
    IntElemsPanic(|es|, body);
  }

  /** The ints of a slice are written without error, four bytes each. */
  lemma {:induction false} ElemsIntBytes(es: seq<Value>)
    requires forall i :: 0 <= i < |es| ==> HasKind(es[i], IntK)
    decreases |es|
    ensures ElemsBytes(es).err == None && |ElemsBytes(es).bytes| == 4 * |es|
  {
    if es != [] {
      ElemsIntBytes(es[1..]);
    }
  }

  /** Any length type other than "varint" is refused by both directions
      before a byte is read or written. */
  lemma SliceLengthTypeChecked(k: Kind, v: Value, lengthType: string, s: seq<byte>)
    requires lengthType != LENGTH_VARINT && v.SliceV?
    ensures ReadSliceFrom(k, lengthType, s) == Fault(UnhandledLengthType, s)
    ensures SliceBytes(v, lengthType) == Written([], Some(UnhandledLengthType))
  {
  }
}
