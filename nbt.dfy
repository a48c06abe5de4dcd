/** The NBT writer of data/nbt.go: tagged values, the constructors that build
    them, and the recursive writer that serialises a value in one of three
    modes (top level, inside a compound, inside a list). `Encode` says what
    the writer appends and returns; `Buffer`-based methods are proved
    against it. */
module Nbt {
  import opened Wire
  import opened Codec
  import opened Buffers

  // The tags, in the order of the source's enumeration.
  const TAG_END := 0
  const TAG_BYTE := 1
  const TAG_SHORT := 2
  const TAG_INT := 3
  const TAG_LONG := 4
  const TAG_FLOAT := 5
  const TAG_DOUBLE := 6
  const TAG_BYTE_ARRAY := 7
  const TAG_STRING := 8
  const TAG_LIST := 9
  const TAG_COMPOUND := 10
  const TAG_INT_ARRAY := 11
  const TAG_LONG_ARRAY := 12

  // The writer's modes.
  const STATE_DEFAULT := 0
  const STATE_IN_COMPOUND := 1
  const STATE_IN_LIST := 2

  /** The dynamically typed `Value` field: which Go type it holds. A float
      payload holds the unsigned integer the writer converts it to. */
  datatype Payload =
    | Nil
    | ByteP(b: byte)
    | ShortP(s: int16)
    | IntP(i: int32)
    | LongP(l: int64)
    | FloatP(f: uint32)
    | DoubleP(d: uint64)
    | BytesP(bytes: seq<byte>)
    | StringP(str: seq<byte>)
    | EntriesP(entries: seq<NbtValue>)
    | IntsP(ints: seq<int32>)
    | LongsP(longs: seq<int64>)

  /** A tag need not agree with its payload: the writer finds out when it
      asserts the payload's type. A missing name is `None`. */
  datatype NbtValue = NbtValue(tag: int, name: Option<seq<byte>>, payload: Payload)

  /** The value written after the entries of a compound. */
  const END_VALUE := NbtValue(TAG_END, None, Nil)

  // -------------------------------------------------------------------
  // Constructors

  function MakeValue(t: int, name: Option<seq<byte>>, v: Payload): NbtValue {
    NbtValue(t, name, v)
  }

  function NbtCompoundValue(name: Option<seq<byte>>, entries: seq<NbtValue>): NbtValue {
    MakeValue(TAG_COMPOUND, name, EntriesP(entries))
  }

  function NbtByteValue(name: seq<byte>, val: byte): NbtValue {
    MakeValue(TAG_BYTE, Some(name), ByteP(val))
  }

  /** Tagged TAG_BYTE although it holds an int16, as the source does. */
  function NbtShortValue(name: seq<byte>, val: int16): NbtValue {
    MakeValue(TAG_BYTE, Some(name), ShortP(val))
  }

  function NbtIntValue(name: seq<byte>, val: int32): NbtValue {
    MakeValue(TAG_INT, Some(name), IntP(val))
  }

  function NbtLongValue(name: seq<byte>, val: int64): NbtValue {
    MakeValue(TAG_LONG, Some(name), LongP(val))
  }

  function NbtFloatValue(name: seq<byte>, val: uint32): NbtValue {
    MakeValue(TAG_FLOAT, Some(name), FloatP(val))
  }

  function NbtDoubleValue(name: seq<byte>, val: uint64): NbtValue {
    MakeValue(TAG_DOUBLE, Some(name), DoubleP(val))
  }

  function NbtByteArrayValue(name: seq<byte>, val: seq<byte>): NbtValue {
    MakeValue(TAG_BYTE_ARRAY, Some(name), BytesP(val))
  }

  function NbtStringValue(name: seq<byte>, val: seq<byte>): NbtValue {
    MakeValue(TAG_STRING, Some(name), StringP(val))
  }

  function NbtIntArrayValue(name: seq<byte>, val: seq<int32>): NbtValue {
    MakeValue(TAG_INT_ARRAY, Some(name), IntsP(val))
  }

  function NbtLongArrayValue(name: seq<byte>, val: seq<int64>): NbtValue {
    MakeValue(TAG_LONG_ARRAY, Some(name), LongsP(val))
  }

  /** What NBTListValue accepts: once an entry with a tag other than
      TAG_End has been seen, every later entry carries that same tag. */
  predicate ListTagsAgree(entries: seq<NbtValue>) {
    forall i, j | 0 <= i < j < |entries| && entries[i].tag != TAG_END :: entries[j].tag == entries[i].tag
  }

  /** NBTListValue: the first tag other than TAG_End fixes the list's type;
      a later entry of another type panics. */
  method NbtListValue(name: seq<byte>, entries: seq<NbtValue>) returns (v: NbtValue, panic: Option<Error>)
    ensures panic.None? <==> ListTagsAgree(entries)
    ensures panic.None? ==> v == NbtValue(TAG_LIST, Some(name), EntriesP(entries))
    ensures panic.Some? ==> panic.value == MismatchedListTagsPanic
  {
    var t := TAG_END;
    ghost var first := 0;
    var i := 0;
    while i < |entries|
      invariant 0 <= i <= |entries|
      invariant ListTagsAgree(entries[..i])
      invariant t == TAG_END ==> forall j | 0 <= j < i :: entries[j].tag == TAG_END
      invariant t != TAG_END ==> 0 <= first < i && entries[first].tag == t
      invariant forall j | 0 <= j < i :: entries[j].tag == TAG_END || entries[j].tag == t
    {
      if t == TAG_END {
        t := entries[i].tag;
        first := i;
      } else if t != entries[i].tag {
        assert entries[first].tag != TAG_END && entries[i].tag != entries[first].tag;
        return END_VALUE, Some(MismatchedListTagsPanic);
      }
      assert entries[..i + 1][..i] == entries[..i];
      i := i + 1;
    }
    assert entries[..i] == entries;
    return MakeValue(TAG_LIST, Some(name), EntriesP(entries)), None;
  }

  // -------------------------------------------------------------------
  // What the writer appends and returns

  /** A measure that shrinks from a value to each of its entries and from a
      compound to the end marker it writes. */
  function Size(v: NbtValue): (r: nat)
    ensures r >= 1
    decreases v
  {
    match v.payload
    case EntriesP(es) => 2 + SizeAll(es)
    case _ => 1
  }

  function SizeAll(es: seq<NbtValue>): nat
    decreases es
  {
    if es == [] then 0 else Size(es[0]) + SizeAll(es[1..])
  }

  /** A write whose error is a panic, which no caller discards. */
  predicate Panics(w: Written) {
    w.err.Some? && w.err.value.IsPanic()
  }

  /** An error a caller drops: only a panic survives. */
  function Kept(e: Option<Error>): Option<Error> {
    if e.Some? && e.value.IsPanic() then e else None
  }

  /** A nested write whose returned error is dropped. */
  function Discarded(w: Written): Written {
    Written(w.bytes, Kept(w.err))
  }

  /** A name or string: its length as `uint16`, then its bytes. */
  function StringField(s: seq<byte>): seq<byte> {
    ShortBytes(WrapInt16(|s| % 0x1_0000)) + s
  }

  function NameBytes(name: Option<seq<byte>>): seq<byte> {
    match name
    case None => []
    case Some(n) => StringField(n)
  }

  /** What is written before the payload in each mode; None for a mode the
      writer does not know. */
  function Header(v: NbtValue, state: int): Option<seq<byte>> {
    if state == STATE_DEFAULT then Some([Lsb(v.tag)])
    else if state == STATE_IN_COMPOUND then Some([Lsb(v.tag)] + NameBytes(v.name))
    else if state == STATE_IN_LIST then Some([])
    else None
  }

  /** The bytes bufferWriteInternal appends and the error it returns. */
  function Encode(v: NbtValue, state: int): Written
    decreases Size(v), 2
  {
    match Header(v, state)
    case None => Written([], Some(UnknownNbtState))
    case Some(h) => Emitted(h, PayloadBytes(v))
  }

  /** The tag a list declares: its first entry's, TAG_End when empty. */
  function ListTag(es: seq<NbtValue>): int {
    if |es| == 0 then TAG_END else es[0].tag
  }

  function IntsBytes(xs: seq<int32>): seq<byte> {
    if xs == [] then [] else IntBytes(xs[0]) + IntsBytes(xs[1..])
  }

  function LongsBytes(xs: seq<int64>): seq<byte> {
    if xs == [] then [] else LongBytes(xs[0]) + LongsBytes(xs[1..])
  }

  /** The payload, by tag; a payload of the wrong type panics. */
  function PayloadBytes(v: NbtValue): Written
    decreases Size(v), 1
  {
    var p := v.payload;
    var wrongType := Written([], Some(TypeAssertionPanic));
    if v.tag == TAG_COMPOUND then
      if p.EntriesP? then CompoundEntries(p.entries) else wrongType
    else if v.tag == TAG_LIST then
      if p.EntriesP? then
        var t := ListTag(p.entries);
        Emitted([Lsb(t)] + IntBytes(WrapInt32(|p.entries|)), ListEntries(p.entries, t))
      else wrongType
    else if v.tag == TAG_BYTE then
      if p.ByteP? then Written([p.b], None) else wrongType
    else if v.tag == TAG_SHORT then
      if p.ShortP? then Written(ShortBytes(p.s), None) else wrongType
    else if v.tag == TAG_INT then
      if p.IntP? then Written(IntBytes(p.i), None) else wrongType
    else if v.tag == TAG_LONG then
      if p.LongP? then Written(LongBytes(p.l), None) else wrongType
    else if v.tag == TAG_FLOAT then
      if p.FloatP? then Written(IntBytes(WrapInt32(p.f)), None) else wrongType
    else if v.tag == TAG_DOUBLE then
      if p.DoubleP? then Written(LongBytes(WrapInt64(p.d)), None) else wrongType
    else if v.tag == TAG_BYTE_ARRAY then
      if p.BytesP? then Written(IntBytes(WrapInt32(|p.bytes|)) + p.bytes, None) else wrongType
    else if v.tag == TAG_STRING then
      if p.StringP? then Written(StringField(p.str), None) else wrongType
    else if v.tag == TAG_INT_ARRAY then
      if p.IntsP? then Written(IntBytes(WrapInt32(|p.ints|)) + IntsBytes(p.ints), None) else wrongType
    else if v.tag == TAG_LONG_ARRAY then
      if p.LongsP? then Written(IntBytes(WrapInt32(|p.longs|)) + LongsBytes(p.longs), None) else wrongType
    else Written([], Some(UnhandledNbtTag))
  }

  /** A compound's entries in compound mode, their errors dropped, then the
      end marker, its error dropped too. */
  function CompoundEntries(es: seq<NbtValue>): Written
    decreases SizeAll(es) + 2, 0
  {
    if es == [] then Discarded(Encode(END_VALUE, STATE_IN_COMPOUND))
    else
      var w := Encode(es[0], STATE_IN_COMPOUND);
      if Panics(w) then w else Emitted(w.bytes, CompoundEntries(es[1..]))
  }

  /** A list's entries in list mode, their errors dropped; the first entry
      whose tag is not the list's stops the write with an error. */
  function ListEntries(es: seq<NbtValue>, t: int): Written
    decreases SizeAll(es) + 2, 0
  {
    if es == [] then Written([], None)
    else if es[0].tag != t then Written([], Some(InconsistentListTypes))
    else
      var w := Encode(es[0], STATE_IN_LIST);
      if Panics(w) then w else Emitted(w.bytes, ListEntries(es[1..], t))
  }

  // -------------------------------------------------------------------
  // The writer

  /** bufferWriteInternal: the header the mode asks for, then the payload;
      an unknown mode writes nothing. */
  method WriteInternal(v: NbtValue, buf: Buffer, state: int) returns (err: Option<Error>)
    modifies buf
    ensures buf.raw == old(buf.raw) + Encode(v, state).bytes
    ensures err == Encode(v, state).err
    decreases Size(v), 2
  {
    if state == STATE_DEFAULT {
      buf.WriteByte(Lsb(v.tag));
    } else if state == STATE_IN_COMPOUND {
      buf.WriteByte(Lsb(v.tag));
      if v.name.Some? {
        var name := v.name.value;
        buf.WriteUShort(|name| % 0x1_0000);
        buf.Write(name);
        ConcatAssoc([Lsb(v.tag)], ShortBytes(WrapInt16(|name| % 0x1_0000)), name);
      }
    } else if state != STATE_IN_LIST {
      return Some(UnknownNbtState);
    }
    ghost var h := Header(v, state).value;
    assert buf.raw == old(buf.raw) + h;
    err := writePayload(v, buf);
    ConcatAssoc(old(buf.raw), h, PayloadBytes(v).bytes);
  }

  /** The payload switch of bufferWriteInternal. */
  method writePayload(v: NbtValue, buf: Buffer) returns (err: Option<Error>)
    modifies buf
    ensures buf.raw == old(buf.raw) + PayloadBytes(v).bytes
    ensures err == PayloadBytes(v).err
    decreases Size(v), 1
  {
    var p := v.payload;
    if v.tag == TAG_COMPOUND {
      if !p.EntriesP? {
        return Some(TypeAssertionPanic);
      }
      err := writeCompoundEntries(p.entries, buf);
    } else if v.tag == TAG_LIST {
      if !p.EntriesP? {
        return Some(TypeAssertionPanic);
      }
      var es := p.entries;
      var t := if |es| == 0 then TAG_END else es[0].tag;
      buf.WriteByte(Lsb(t));
      buf.WriteInt(WrapInt32(|es|));
      ghost var mid := buf.raw;
      err := writeListEntries(es, t, buf);
      ConcatAssoc(old(buf.raw), [Lsb(t)] + IntBytes(WrapInt32(|es|)), ListEntries(es, t).bytes);
    } else if v.tag == TAG_BYTE {
      if !p.ByteP? {
        return Some(TypeAssertionPanic);
      }
      buf.WriteByte(p.b);
      err := None;
    } else if v.tag == TAG_SHORT {
      if !p.ShortP? {
        return Some(TypeAssertionPanic);
      }
      buf.WriteShort(p.s);
      err := None;
    } else if v.tag == TAG_INT {
      if !p.IntP? {
        return Some(TypeAssertionPanic);
      }
      buf.WriteInt(p.i);
      err := None;
    } else if v.tag == TAG_LONG {
      if !p.LongP? {
        return Some(TypeAssertionPanic);
      }
      buf.WriteLong(p.l);
      err := None;
    } else if v.tag == TAG_FLOAT {
      if !p.FloatP? {
        return Some(TypeAssertionPanic);
      }
      buf.WriteUInt(p.f);
      err := None;
    } else if v.tag == TAG_DOUBLE {
      if !p.DoubleP? {
        return Some(TypeAssertionPanic);
      }
      buf.WriteULong(p.d);
      err := None;
    } else if v.tag == TAG_BYTE_ARRAY {
      if !p.BytesP? {
        return Some(TypeAssertionPanic);
      }
      buf.WriteInt(WrapInt32(|p.bytes|));
      buf.Write(p.bytes);
      ConcatAssoc(old(buf.raw), IntBytes(WrapInt32(|p.bytes|)), p.bytes);
      err := None;
    } else if v.tag == TAG_STRING {
      if !p.StringP? {
        return Some(TypeAssertionPanic);
      }
      buf.WriteUShort(|p.str| % 0x1_0000);
      buf.Write(p.str);
      ConcatAssoc(old(buf.raw), ShortBytes(WrapInt16(|p.str| % 0x1_0000)), p.str);
      err := None;
    } else if v.tag == TAG_INT_ARRAY {
      if !p.IntsP? {
        return Some(TypeAssertionPanic);
      }
      buf.WriteInt(WrapInt32(|p.ints|));
      writeInts(p.ints, buf);
      ConcatAssoc(old(buf.raw), IntBytes(WrapInt32(|p.ints|)), IntsBytes(p.ints));
      err := None;
    } else if v.tag == TAG_LONG_ARRAY {
      if !p.LongsP? {
        return Some(TypeAssertionPanic);
      }
      buf.WriteInt(WrapInt32(|p.longs|));
      writeLongs(p.longs, buf);
      ConcatAssoc(old(buf.raw), IntBytes(WrapInt32(|p.longs|)), LongsBytes(p.longs));
      err := None;
    } else {
      err := Some(UnhandledNbtTag);
    }
  }

  /** The compound case's loop: each entry in compound mode, then the end
      marker; only panics come back. */
  method writeCompoundEntries(es: seq<NbtValue>, buf: Buffer) returns (err: Option<Error>)
    modifies buf
    ensures buf.raw == old(buf.raw) + CompoundEntries(es).bytes
    ensures err == CompoundEntries(es).err
    decreases SizeAll(es) + 2, 0
  {
    ghost var start := buf.raw;
    ghost var done: seq<byte> := [];
    var i := 0;
    while i < |es|
      invariant 0 <= i <= |es|
      invariant buf.raw == start + done
      invariant CompoundEntries(es) == Emitted(done, CompoundEntries(es[i..]))
    {
      SizeAllAt(es, i);
      var e := WriteInternal(es[i], buf, STATE_IN_COMPOUND);
      CompoundNext(es, i);
      if e.Some? && e.value.IsPanic() {
        ConcatAssoc(start, done, Encode(es[i], STATE_IN_COMPOUND).bytes);
        return e;
      }
      EmittedEmitted(done, Encode(es[i], STATE_IN_COMPOUND).bytes, CompoundEntries(es[i + 1..]));
      ConcatAssoc(start, done, Encode(es[i], STATE_IN_COMPOUND).bytes);
      done := done + Encode(es[i], STATE_IN_COMPOUND).bytes;
      i := i + 1;
    }
    assert es[i..] == [];
    var e := WriteInternal(END_VALUE, buf, STATE_IN_COMPOUND);
    ConcatAssoc(start, done, Encode(END_VALUE, STATE_IN_COMPOUND).bytes);
    err := Kept(e);
  }

  /** The list case's loop: each entry in list mode, stopping at the first
      entry whose tag is not the list's. */
  method writeListEntries(es: seq<NbtValue>, t: int, buf: Buffer) returns (err: Option<Error>)
    modifies buf
    ensures buf.raw == old(buf.raw) + ListEntries(es, t).bytes
    ensures err == ListEntries(es, t).err
    decreases SizeAll(es) + 2, 0
  {
    ghost var start := buf.raw;
    ghost var done: seq<byte> := [];
    var i := 0;
    while i < |es|
      invariant 0 <= i <= |es|
      invariant buf.raw == start + done
      invariant ListEntries(es, t) == Emitted(done, ListEntries(es[i..], t))
    {
      ListNext(es, t, i);
      if es[i].tag != t {
        return Some(InconsistentListTypes);
      }
      SizeAllAt(es, i);
      var e := WriteInternal(es[i], buf, STATE_IN_LIST);
      if e.Some? && e.value.IsPanic() {
        ConcatAssoc(start, done, Encode(es[i], STATE_IN_LIST).bytes);
        return e;
      }
      EmittedEmitted(done, Encode(es[i], STATE_IN_LIST).bytes, ListEntries(es[i + 1..], t));
      ConcatAssoc(start, done, Encode(es[i], STATE_IN_LIST).bytes);
      done := done + Encode(es[i], STATE_IN_LIST).bytes;
      i := i + 1;
    }
    assert es[i..] == [];
    err := None;
  }

  /** The int array case's loop. */
  method writeInts(xs: seq<int32>, buf: Buffer)
    modifies buf
    ensures buf.raw == old(buf.raw) + IntsBytes(xs)
  {
    var i := 0;
    while i < |xs|
      invariant 0 <= i <= |xs|
      invariant old(buf.raw) + IntsBytes(xs) == buf.raw + IntsBytes(xs[i..])
    {
      ghost var before := buf.raw;
      IntsNext(xs, i);
      buf.WriteInt(xs[i]);
      ConcatAssoc(before, IntBytes(xs[i]), IntsBytes(xs[i + 1..]));
      i := i + 1;
    }
    assert xs[i..] == [];
  }

  /** The long array case's loop. */
  method writeLongs(xs: seq<int64>, buf: Buffer)
    modifies buf
    ensures buf.raw == old(buf.raw) + LongsBytes(xs)
  {
    var i := 0;
    while i < |xs|
      invariant 0 <= i <= |xs|
      invariant old(buf.raw) + LongsBytes(xs) == buf.raw + LongsBytes(xs[i..])
    {
      ghost var before := buf.raw;
      LongsNext(xs, i);
      buf.WriteLong(xs[i]);
      ConcatAssoc(before, LongBytes(xs[i]), LongsBytes(xs[i + 1..]));
      i := i + 1;
    }
    assert xs[i..] == [];
  }

  /** BufferWrite: the value at top level; any error it returns becomes a
      panic, reported here as `panic`. */
  method BufferWrite(v: NbtValue, buf: Buffer) returns (panic: Option<Error>)
    modifies buf
    ensures buf.raw == old(buf.raw) + Encode(v, STATE_DEFAULT).bytes
    ensures panic == Encode(v, STATE_DEFAULT).err
  {
    panic := WriteInternal(v, buf, STATE_DEFAULT);
  }

  // -------------------------------------------------------------------
  // Steps of the loops

  lemma {:induction false} SizeAllAt(es: seq<NbtValue>, i: int)
    requires 0 <= i < |es|
    ensures Size(es[i]) <= SizeAll(es)
    decreases i
  {
    if i > 0 {
      SizeAllAt(es[1..], i - 1);
    }
  }

  lemma CompoundNext(es: seq<NbtValue>, i: int)
    requires 0 <= i < |es|
    ensures var w := Encode(es[i], STATE_IN_COMPOUND);
            CompoundEntries(es[i..]) == if Panics(w) then w else Emitted(w.bytes, CompoundEntries(es[i + 1..]))
  {
    assert es[i..][1..] == es[i + 1..];
  }

  lemma ListNext(es: seq<NbtValue>, t: int, i: int)
    requires 0 <= i < |es|
    ensures es[i].tag != t ==> ListEntries(es[i..], t) == Written([], Some(InconsistentListTypes))
    ensures var w := Encode(es[i], STATE_IN_LIST);
            es[i].tag == t ==>
            ListEntries(es[i..], t) == if Panics(w) then w else Emitted(w.bytes, ListEntries(es[i + 1..], t))
  {
    assert es[i..][1..] == es[i + 1..];
  }

  lemma IntsNext(xs: seq<int32>, i: int)
    requires 0 <= i < |xs|
    ensures IntsBytes(xs[i..]) == IntBytes(xs[i]) + IntsBytes(xs[i + 1..])
  {
    assert xs[i..][1..] == xs[i + 1..];
  }

  lemma LongsNext(xs: seq<int64>, i: int)
    requires 0 <= i < |xs|
    ensures LongsBytes(xs[i..]) == LongBytes(xs[i]) + LongsBytes(xs[i + 1..])
  {
    assert xs[i..][1..] == xs[i + 1..];
  }

  // -------------------------------------------------------------------
  // Properties of the writer

  predicate KnownState(state: int) {
    state == STATE_DEFAULT || state == STATE_IN_COMPOUND || state == STATE_IN_LIST
  }

  /** The three modes differ only in what precedes the payload: the top
      level adds the tag byte, a compound the tag byte and the name, a list
      nothing; an unknown mode writes nothing and fails. */
  lemma ModeHeaders(v: NbtValue, state: int)
    ensures Encode(v, STATE_DEFAULT) == Emitted([Lsb(v.tag)], Encode(v, STATE_IN_LIST))
    ensures Encode(v, STATE_IN_COMPOUND) == Emitted([Lsb(v.tag)] + NameBytes(v.name), Encode(v, STATE_IN_LIST))
    ensures Encode(v, STATE_IN_LIST) == PayloadBytes(v)
    ensures !KnownState(state) ==> Encode(v, state) == Written([], Some(UnknownNbtState))
  {
  }

  /** A tag outside TAG_Byte..TAG_Long_Array writes its header only and
      returns an error (not a panic). */
  lemma UnknownTag(v: NbtValue, state: int)
    requires KnownState(state)
    requires !(TAG_BYTE <= v.tag <= TAG_LONG_ARRAY)
    ensures Encode(v, state) == Written(Header(v, state).value, Some(UnhandledNbtTag))
  {
  }

  /** The end marker writes the single byte 0x00; its UnhandledNbtTag error
      is what a compound drops. */
  lemma EndMarker()
    ensures Encode(END_VALUE, STATE_IN_COMPOUND) == Written([0x00], Some(UnhandledNbtTag))
    ensures CompoundEntries([]) == Written([0x00], None)
  {
  }

  /** Tags that agree with their payloads, all the way down, and lists whose
      entries share one tag. */
  predicate WellFormed(v: NbtValue)
    decreases v
  {
    match v.payload
    case Nil => false
    case ByteP(_) => v.tag == TAG_BYTE
    case ShortP(_) => v.tag == TAG_SHORT
    case IntP(_) => v.tag == TAG_INT
    case LongP(_) => v.tag == TAG_LONG
    case FloatP(_) => v.tag == TAG_FLOAT
    case DoubleP(_) => v.tag == TAG_DOUBLE
    case BytesP(_) => v.tag == TAG_BYTE_ARRAY
    case StringP(_) => v.tag == TAG_STRING
    case IntsP(_) => v.tag == TAG_INT_ARRAY
    case LongsP(_) => v.tag == TAG_LONG_ARRAY
    case EntriesP(es) =>
      (v.tag == TAG_COMPOUND || (v.tag == TAG_LIST && forall i | 0 <= i < |es| :: es[i].tag == ListTag(es))) &&
      forall i | 0 <= i < |es| :: WellFormed(es[i])
  }

  /** A well-formed value writes without error in every known mode. */
  lemma {:induction false} WellFormedWrites(v: NbtValue, state: int)
    requires WellFormed(v) && KnownState(state)
    ensures Encode(v, state).err == None
    decreases Size(v), 2
  {
    match v.payload
    case EntriesP(es) =>
      if v.tag == TAG_COMPOUND {
        CompoundWrites(es);
      } else {
        ListWrites(es, ListTag(es));
      }
    case _ =>
  }

  lemma {:induction false} CompoundWrites(es: seq<NbtValue>)
    requires forall i | 0 <= i < |es| :: WellFormed(es[i])
    ensures CompoundEntries(es).err == None
    decreases SizeAll(es) + 2, 0
  {
    if es != [] {
      WellFormedWrites(es[0], STATE_IN_COMPOUND);
      CompoundWrites(es[1..]);
    }
  }

  lemma {:induction false} ListWrites(es: seq<NbtValue>, t: int)
    requires forall i | 0 <= i < |es| :: WellFormed(es[i]) && es[i].tag == t
    ensures ListEntries(es, t).err == None
    decreases SizeAll(es) + 2, 0
  {
    if es != [] {
      WellFormedWrites(es[0], STATE_IN_LIST);
      ListWrites(es[1..], t);
    }
  }

  /** The bytes of a compound's entries, each in compound mode. */
  function EntriesBytes(es: seq<NbtValue>): seq<byte> {
    if es == [] then [] else Encode(es[0], STATE_IN_COMPOUND).bytes + EntriesBytes(es[1..])
  }

  /** When no entry panics, a compound is its entries one after the other
      and then 0x00, and the errors of the entries (a nested list of mixed
      tags, an unknown tag) are dropped. */
  lemma {:induction false} CompoundDropsErrors(es: seq<NbtValue>)
    requires forall i | 0 <= i < |es| :: !Panics(Encode(es[i], STATE_IN_COMPOUND))
    ensures CompoundEntries(es) == Written(EntriesBytes(es) + [0x00], None)
  {
    if es != [] {
      CompoundDropsErrors(es[1..]);
      ConcatAssoc(Encode(es[0], STATE_IN_COMPOUND).bytes, EntriesBytes(es[1..]), [0x00]);
    }
  }

  /** The bytes of a list's entries, each in list mode. */
  function ListEntriesBytes(es: seq<NbtValue>): seq<byte> {
    if es == [] then [] else Encode(es[0], STATE_IN_LIST).bytes + ListEntriesBytes(es[1..])
  }

  /** When every entry has the list's tag and none panics, a list's entries
      are their list-mode bytes one after the other, and the errors of the
      entries are dropped. */
  lemma {:induction false} ListDropsErrors(es: seq<NbtValue>, t: int)
    requires forall i | 0 <= i < |es| :: es[i].tag == t && !Panics(Encode(es[i], STATE_IN_LIST))
    ensures ListEntries(es, t) == Written(ListEntriesBytes(es), None)
  {
    if es != [] {
      ListDropsErrors(es[1..], t);
    }
  }

  /** A well-formed list's payload: the element tag, the entry count as an
      int32, then each entry in list mode. */
  lemma WellFormedListPayload(v: NbtValue)
    requires WellFormed(v) && v.tag == TAG_LIST
    ensures v.payload.EntriesP?
    ensures PayloadBytes(v) == Written([Lsb(ListTag(v.payload.entries))] + IntBytes(WrapInt32(|v.payload.entries|))
                                         + ListEntriesBytes(v.payload.entries), None)
  {
    var es := v.payload.entries;
    forall i | 0 <= i < |es|
      ensures es[i].tag == ListTag(es) && !Panics(Encode(es[i], STATE_IN_LIST))
    {
      WellFormedWrites(es[i], STATE_IN_LIST);
    }
    ListDropsErrors(es, ListTag(es));
  }

  /** The first entry of a compound that panics makes the whole write panic
      with the same error. */
  lemma {:induction false} CompoundPanics(es: seq<NbtValue>, j: int)
    requires 0 <= j < |es|
    requires forall i | 0 <= i < j :: !Panics(Encode(es[i], STATE_IN_COMPOUND))
    requires Panics(Encode(es[j], STATE_IN_COMPOUND))
    ensures CompoundEntries(es).err == Encode(es[j], STATE_IN_COMPOUND).err
    decreases j
  {
    if j > 0 {
      CompoundPanics(es[1..], j - 1);
    }
  }

  /** NBTShortValue tags an int16 as TAG_Byte, so writing it panics in every
      known mode, and so does every compound it is an entry of. */
  lemma ShortValuePanics(name: seq<byte>, val: int16, state: int, es: seq<NbtValue>, j: int)
    requires KnownState(state)
    requires 0 <= j < |es| && es[j] == NbtShortValue(name, val)
    requires forall i | 0 <= i < j :: !Panics(Encode(es[i], STATE_IN_COMPOUND))
    ensures Encode(NbtShortValue(name, val), state).err == Some(TypeAssertionPanic)
    ensures !WellFormed(NbtShortValue(name, val))
    ensures CompoundEntries(es).err == Some(TypeAssertionPanic)
  {
    CompoundPanics(es, j);
  }

  /** A list entry whose tag is not the list's stops the write with
      InconsistentListTypes once the entries before it are written. */
  lemma {:induction false} ListMismatch(es: seq<NbtValue>, t: int, j: int)
    requires 0 <= j < |es| && es[j].tag != t
    requires forall i | 0 <= i < j :: es[i].tag == t && !Panics(Encode(es[i], STATE_IN_LIST))
    ensures ListEntries(es, t).err == Some(InconsistentListTypes)
    decreases j
  {
    if j > 0 {
      ListMismatch(es[1..], t, j - 1);
    }
  }

  /** At top level a list of mixed tags returns InconsistentListTypes, after
      its header: the tag byte of its first entry and its length. */
  lemma MixedListFails(name: Option<seq<byte>>, es: seq<NbtValue>, j: int)
    requires 0 < j < |es| && es[j].tag != es[0].tag
    requires forall i | 0 <= i < j :: es[i].tag == es[0].tag && !Panics(Encode(es[i], STATE_IN_LIST))
    ensures var w := Encode(NbtValue(TAG_LIST, name, EntriesP(es)), STATE_DEFAULT);
            w.err == Some(InconsistentListTypes) &&
            [Lsb(TAG_LIST), Lsb(es[0].tag)] + IntBytes(WrapInt32(|es|)) <= w.bytes
  {
    ListMismatch(es, es[0].tag, j);
    var w := Encode(NbtValue(TAG_LIST, name, EntriesP(es)), STATE_DEFAULT);
    var list := [Lsb(es[0].tag)] + IntBytes(WrapInt32(|es|));
    ConcatAssoc([Lsb(TAG_LIST)], list, ListEntries(es, es[0].tag).bytes);
  }

  /** The constructors for scalars, arrays and strings build well-formed
      values; a compound of well-formed entries is well-formed. */
  lemma ConstructorsWellFormed(name: seq<byte>, es: seq<NbtValue>)
    requires forall i | 0 <= i < |es| :: WellFormed(es[i])
    ensures forall b :: WellFormed(NbtByteValue(name, b))
    ensures forall x :: WellFormed(NbtIntValue(name, x))
    ensures forall x :: WellFormed(NbtLongValue(name, x))
    ensures forall x :: WellFormed(NbtFloatValue(name, x))
    ensures forall x :: WellFormed(NbtDoubleValue(name, x))
    ensures forall bs :: WellFormed(NbtByteArrayValue(name, bs))
    ensures forall str :: WellFormed(NbtStringValue(name, str))
    ensures forall xs :: WellFormed(NbtIntArrayValue(name, xs))
    ensures forall xs :: WellFormed(NbtLongArrayValue(name, xs))
    ensures WellFormed(NbtCompoundValue(Some(name), es)) && WellFormed(NbtCompoundValue(None, es))
  {
  }

  /** A list NBTListValue accepts, of well-formed entries, is well-formed:
      no well-formed entry carries TAG_End, so the entries all share the
      first entry's tag. */
  lemma ListValueWellFormed(name: seq<byte>, entries: seq<NbtValue>)
    requires ListTagsAgree(entries)
    requires forall i | 0 <= i < |entries| :: WellFormed(entries[i])
    ensures WellFormed(NbtValue(TAG_LIST, Some(name), EntriesP(entries)))
  {
    forall i | 0 <= i < |entries|
      ensures entries[i].tag == ListTag(entries)
    {
      if i > 0 {
        NotEnd(entries[0]);
      }
    }
  }

  lemma NotEnd(v: NbtValue)
    requires WellFormed(v)
    ensures v.tag != TAG_END
  {
  }

  /** A top-level compound holding one string, with name and string shorter
      than 256 bytes: the compound's tag, the entry's tag, its name and its
      string each behind a two-byte length, then the end marker. */
  lemma SmallStringCompound(name: seq<byte>, text: seq<byte>)
    requires |name| < 0x100 && |text| < 0x100
    ensures Encode(NbtCompoundValue(None, [NbtStringValue(name, text)]), STATE_DEFAULT).bytes
            == [0x0A, 0x08, 0x00, |name|] + name + [0x00, |text|] + text + [0x00]
  {
    var e := NbtStringValue(name, text);
    StringEntry(name, text);
    var entry := [0x08, 0x00, |name|] + name + [0x00, |text|] + text;
    CompoundOfOne(e, entry);
    UnnamedCompound([e], entry + [0x00]);
  }

  /** A compound of one entry: the entry, then the end marker. */
  lemma CompoundOfOne(e: NbtValue, entry: seq<byte>)
    requires Encode(e, STATE_IN_COMPOUND) == Written(entry, None)
    ensures CompoundEntries([e]) == Written(entry + [0x00], None)
  {
    EndMarker();
    assert [e][1..] == [];
  }

  /** An unnamed compound at top level: its tag byte, then its entries. */
  lemma UnnamedCompound(es: seq<NbtValue>, body: seq<byte>)
    requires CompoundEntries(es) == Written(body, None)
    ensures Encode(NbtCompoundValue(None, es), STATE_DEFAULT).bytes == [0x0A] + body
  {
  }

  /** A string entry in compound mode, name and string shorter than 256
      bytes. */
  lemma StringEntry(name: seq<byte>, text: seq<byte>)
    requires |name| < 0x100 && |text| < 0x100
    ensures Encode(NbtStringValue(name, text), STATE_IN_COMPOUND)
            == Written([0x08, 0x00, |name|] + name + [0x00, |text|] + text, None)
  {
    ShortField(name);
    ShortField(text);
    assert PayloadBytes(NbtStringValue(name, text)) == Written(StringField(text), None);
    assert [0x08] + StringField(name) + StringField(text) == [0x08, 0x00, |name|] + name + [0x00, |text|] + text;
  }

  /** A field shorter than 256 bytes: a zero byte, its length, its bytes. */
  lemma ShortField(s: seq<byte>)
    requires |s| < 0x100
    ensures StringField(s) == [0x00, |s|] + s
  {
    ShortBytesDigits(|s|);
  }

  // -------------------------------------------------------------------
  // Reading the layouts back with the buffer's own reads

  /** Reads n big-endian int32 values, as an int array's elements. */
  function ReadInts(n: nat, s: seq<byte>): Read<seq<int32>>
    decreases n
  {
    if n == 0 then Got([], s)
    else
      match ReadIntFrom(s)
      case Fault(e, r) => Fault(e, r)
      case Got(x, r) =>
        match ReadInts(n - 1, r)
        case Got(xs, r') => Got([x] + xs, r')
        case Fault(e, r') => Fault(e, r')
  }

  function ReadLongs(n: nat, s: seq<byte>): Read<seq<int64>>
    decreases n
  {
    if n == 0 then Got([], s)
    else
      match ReadLongFrom(s)
      case Fault(e, r) => Fault(e, r)
      case Got(x, r) =>
        match ReadLongs(n - 1, r)
        case Got(xs, r') => Got([x] + xs, r')
        case Fault(e, r') => Fault(e, r')
  }

  lemma {:induction false} IntsRoundTrip(xs: seq<int32>, rest: seq<byte>)
    ensures ReadInts(|xs|, IntsBytes(xs) + rest) == Got(xs, rest)
  {
    if xs != [] {
      ConcatAssoc(IntBytes(xs[0]), IntsBytes(xs[1..]), rest);
      IntFieldRoundTrip(xs[0], IntsBytes(xs[1..]) + rest);
      IntsRoundTrip(xs[1..], rest);
      assert [xs[0]] + xs[1..] == xs;
    }
  }

  lemma {:induction false} LongsRoundTrip(xs: seq<int64>, rest: seq<byte>)
    ensures ReadLongs(|xs|, LongsBytes(xs) + rest) == Got(xs, rest)
  {
    if xs != [] {
      ConcatAssoc(LongBytes(xs[0]), LongsBytes(xs[1..]), rest);
      LongFieldRoundTrip(xs[0], LongsBytes(xs[1..]) + rest);
      LongsRoundTrip(xs[1..], rest);
      assert [xs[0]] + xs[1..] == xs;
    }
  }

  /** A name or string shorter than 64 KiB reads back as its uint16 length
      and then its bytes; a longer one has its length wrapped. */
  lemma StringFieldRoundTrip(str: seq<byte>, rest: seq<byte>)
    requires |str| < 0x1_0000
    ensures ReadShortFrom(StringField(str) + rest) == Got(WrapInt16(|str|), str + rest)
    ensures WrapInt16(|str|) % 0x1_0000 == |str|
    ensures ReadBytesFrom(str + rest, |str|) == Got(str, rest)
  {
    ConcatAssoc(ShortBytes(WrapInt16(|str|)), str, rest);
    UShortFieldRoundTrip(|str|, str + rest);
    assert (str + rest)[..|str|] == str;
    assert (str + rest)[|str|..] == rest;
  }

  /** The payloads of the array constructors read back as a length and the
      elements, for arrays shorter than 2^31 elements. */
  lemma ByteArrayRoundTrip(name: seq<byte>, bs: seq<byte>, rest: seq<byte>)
    requires |bs| < 0x8000_0000
    ensures var p := PayloadBytes(NbtByteArrayValue(name, bs)).bytes + rest;
            ReadIntFrom(p) == Got(|bs|, bs + rest) && ReadBytesFrom(bs + rest, |bs|) == Got(bs, rest)
  {
    ConcatAssoc(IntBytes(|bs|), bs, rest);
    IntFieldRoundTrip(|bs|, bs + rest);
    assert (bs + rest)[..|bs|] == bs;
    assert (bs + rest)[|bs|..] == rest;
  }

  lemma IntArrayRoundTrip(name: seq<byte>, ints: seq<int32>, rest: seq<byte>)
    requires |ints| < 0x8000_0000
    ensures var p := PayloadBytes(NbtIntArrayValue(name, ints)).bytes + rest;
            ReadIntFrom(p) == Got(|ints|, IntsBytes(ints) + rest) && ReadInts(|ints|, IntsBytes(ints) + rest) == Got(ints, rest)
  {
    var body := IntsBytes(ints);
    assert PayloadBytes(NbtIntArrayValue(name, ints)).bytes == IntBytes(|ints|) + body;
    ConcatAssoc(IntBytes(|ints|), body, rest);
    IntFieldRoundTrip(|ints|, body + rest);
    IntsRoundTrip(ints, rest);
  }

  lemma LongArrayRoundTrip(name: seq<byte>, longs: seq<int64>, rest: seq<byte>)
    requires |longs| < 0x8000_0000
    ensures var p := PayloadBytes(NbtLongArrayValue(name, longs)).bytes + rest;
            ReadIntFrom(p) == Got(|longs|, LongsBytes(longs) + rest) && ReadLongs(|longs|, LongsBytes(longs) + rest) == Got(longs, rest)
  {
    var body := LongsBytes(longs);
    assert PayloadBytes(NbtLongArrayValue(name, longs)).bytes == IntBytes(|longs|) + body;
    ConcatAssoc(IntBytes(|longs|), body, rest);
    IntFieldRoundTrip(|longs|, body + rest);
    LongsRoundTrip(longs, rest);
  }

  /** The payloads of the scalar constructors read back with the matching
      read of the buffer. */
  lemma ScalarRoundTrips(name: seq<byte>, b: byte, i: int32, l: int64, f: uint32, d: uint64, str: seq<byte>, rest: seq<byte>)
    requires |str| < 0x1_0000
    ensures ReadByteFrom(PayloadBytes(NbtByteValue(name, b)).bytes + rest) == Got(b, rest)
    ensures ReadIntFrom(PayloadBytes(NbtIntValue(name, i)).bytes + rest) == Got(i, rest)
    ensures ReadLongFrom(PayloadBytes(NbtLongValue(name, l)).bytes + rest) == Got(l, rest)
    ensures match ReadIntFrom(PayloadBytes(NbtFloatValue(name, f)).bytes + rest)
            case Got(x, r) => x % 0x1_0000_0000 == f && r == rest
            case Fault(_, _) => false
    ensures match ReadLongFrom(PayloadBytes(NbtDoubleValue(name, d)).bytes + rest)
            case Got(x, r) => x % 0x1_0000_0000_0000_0000 == d && r == rest
            case Fault(_, _) => false
    ensures match ReadShortFrom(PayloadBytes(NbtStringValue(name, str)).bytes + rest)
            case Got(n, r) => n % 0x1_0000 == |str| && ReadBytesFrom(r, |str|) == Got(str, rest)
            case Fault(_, _) => false
  {
    IntFieldRoundTrip(i, rest);
    LongFieldRoundTrip(l, rest);
    UIntRoundTrip(f, rest);
    ULongRoundTrip(d, rest);
    StringFieldRoundTrip(str, rest);
  }
}
