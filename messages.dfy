/** The message registry and generic codec of network/messages/base.go. A
    message type is a struct whose fields are read from, or written to, a
    packet body in declaration order; the embedded marker field
    (`Serverbound` or `Clientbound`) is skipped. Go's reflection is replaced
    by a description of each struct: its fields, their kinds and their
    `message` tags. The two global maps are the fields of a `Registry`. */
module Messages {
  import opened Wire
  import opened VarNum
  import opened Codec
  import opened Buffers
  import Framing

  const SERVERBOUND_MARKER := "Serverbound"
  const CLIENTBOUND_MARKER := "Clientbound"

  /** What a slice field's `message` tag must start with; the rest is the
      length type. */
  const LENGTH_PREFIX := "length:"

  /** A field's type: one ReadReflected/WriteAny handles, or a slice of
      elements of such a kind. */
  datatype FieldType = Scalar(kind: Kind) | Slice(elem: Kind)

  /** A struct field: whether it is embedded, its type, and the value of its
      `message` tag if it has one. */
  datatype Field = Field(name: string, anonymous: bool, typ: FieldType, tag: Option<string>)

  /** A message struct: its name, its fields, and whether a pointer to it has
      the method `Handle(*shared.ClientShared) error`, which is what
      `ServerboundInterface` asks for. */
  datatype MessageType = MessageType(name: string, fields: seq<Field>, handlesShared: bool)

  /** The connection's protocol state (the constants package, whose numeric
      values are not part of this model). */
  datatype ClientState = Handshaking | Status | Login | Configuration | Play

  /** The state and id a message type is registered under. */
  datatype Route = Route(state: ClientState, id: int64)

  /** A decoded serverbound message: its type and the values of its
      non-embedded fields, in declaration order. */
  datatype Decoded = Decoded(t: MessageType, values: seq<Value>)

  /** A clientbound message to encode: its type and the values of its
      non-embedded fields, in declaration order. */
  datatype Message = Message(t: MessageType, values: seq<Value>)

  /** `t.FieldByName(marker)` finds a field, and it is embedded. */
  predicate Embeds(t: MessageType, marker: string) {
    exists i | 0 <= i < |t.fields| :: t.fields[i].name == marker && t.fields[i].anonymous
  }

  /** A map read that reports whether the key was found. */
  function Find<K, V>(m: map<K, V>, k: K): (r: Option<V>)
    ensures r.Some? <==> k in m
    ensures r.Some? ==> r.value == m[k]
  {
    if k in m then Some(m[k]) else None
  }

  /** After storing v under k, k finds v and every other key finds what it
      found before: the latest registration wins and touches nothing else. */
  lemma FindUpdated<K, V>(m: map<K, V>, k: K, v: V, k': K)
    ensures Find(m[k := v], k') == if k' == k then Some(v) else Find(m, k')
  {
  }

  // -------------------------------------------------------------------
  // Decoding

  /** The `message` tag of a slice field checked: a missing tag and one not
      starting with "length:" are errors, otherwise the length type. */
  function LengthType(f: Field): Result<string> {
    if f.tag.None? then Err(MissingSliceTag)
    else if !(LENGTH_PREFIX <= f.tag.value) then Err(UnknownTagContents)
    else Ok(f.tag.value[|LENGTH_PREFIX|..])
  }

  /** One field read from the bytes s and stored into the field: a scalar
      the field does not take makes `target.Set` panic (ReadSlot); the slice
      ReadReflectedSlice builds always has the field's type. */
  function FieldRead(f: Field, s: seq<byte>): Read<Value> {
    match f.typ
    case Scalar(k) => ReadSlot(k, s)
    case Slice(k) =>
      match LengthType(f)
      case Err(e) => Fault(e, s)
      case Ok(lengthType) => ReadSliceFrom(k, lengthType, s)
  }

  /** The non-embedded fields read in order; the first error ends it. */
  function DecodeFields(fields: seq<Field>, s: seq<byte>): Read<seq<Value>>
    decreases |fields|
  {
    if fields == [] then Got([], s)
    else if fields[0].anonymous then DecodeFields(fields[1..], s)
    else
      match FieldRead(fields[0], s)
      case Fault(e, r) => Fault(e, r)
      case Got(v, r) => Prepend([v], DecodeFields(fields[1..], r))
  }

  /** DecodeServerbound against the serverbound map sb: the registered type
      for (state, packet id), its fields read from the body, and then the
      message asserted to be a ServerboundInterface, which panics for a type
      without `Handle(*shared.ClientShared) error`. Bytes left after the last
      field are not looked at. */
  function DecodeSpec(sb: map<Route, MessageType>, state: ClientState, p: Framing.Packet): Result<Decoded> {
    var key := Route(state, p.id);
    if key !in sb then Err(UnknownServerbound)
    else
      match DecodeFields(sb[key].fields, p.body)
      case Fault(e, _) => Err(e)
      case Got(vs, _) =>
        if !sb[key].handlesShared then Err(TypeAssertionPanic)
        else Ok(Decoded(sb[key], vs))
  }

  // -------------------------------------------------------------------
  // Encoding

  /** The number of non-embedded fields, which a message has values for. */
  function NamedCount(fields: seq<Field>): nat {
    if fields == [] then 0
    else (if fields[0].anonymous then 0 else 1) + NamedCount(fields[1..])
  }

  /** One field's value written: WriteSlice for a slice field with a good
      tag, WriteAny otherwise. */
  function FieldWrite(f: Field, v: Value): Written {
    match f.typ
    case Slice(_) =>
      (match LengthType(f)
       case Err(e) => Written([], Some(e))
       case Ok(lengthType) => SliceBytes(v, lengthType))
    case Scalar(_) =>
      (match AnyBytes(v)
       case None => Written([], Some(UnhandledType))
       case Some(b) => Written(b, None))
  }

  /** The non-embedded fields written in order; the first error ends it. */
  function EncodeFields(fields: seq<Field>, values: seq<Value>): Written
    requires |values| == NamedCount(fields)
    decreases |fields|
  {
    if fields == [] then Written([], None)
    else if fields[0].anonymous then EncodeFields(fields[1..], values)
    else
      var w := FieldWrite(fields[0], values[0]);
      if w.err.Some? then w else Emitted(w.bytes, EncodeFields(fields[1..], values[1..]))
  }

  /** Encode against the clientbound map cb: the registered id and the
      fields' bytes, or the first error. */
  function EncodeSpec(cb: map<MessageType, Route>, msg: Message): Result<Framing.Packet>
    requires |msg.values| == NamedCount(msg.t.fields)
  {
    if msg.t !in cb then Err(UnknownClientbound)
    else
      var w := EncodeFields(msg.t.fields, msg.values);
      if w.err.Some? then Err(w.err.value) else Ok(Framing.Packet(cb[msg.t].id, w.bytes))
  }

  // -------------------------------------------------------------------
  // The registry

  class Registry {
    var serverbound: map<Route, MessageType>
    var clientbound: map<MessageType, Route>

    constructor()
      ensures serverbound == map[] && clientbound == map[]
    {
      serverbound := map[];
      clientbound := map[];
    }

    /** RegisterServerbound: a type without an embedded `Serverbound` field
        panics; otherwise it is stored under (state, id), replacing any
        earlier registration there. */
    method RegisterServerbound(t: MessageType, state: ClientState, id: int64) returns (panic: Option<Error>)
      modifies this
      ensures Embeds(t, SERVERBOUND_MARKER) ==>
                panic == None && serverbound == old(serverbound)[Route(state, id) := t]
      ensures !Embeds(t, SERVERBOUND_MARKER) ==>
                panic == Some(RegistrationPanic) && serverbound == old(serverbound)
      ensures clientbound == old(clientbound)
    {
      if !Embeds(t, SERVERBOUND_MARKER) {
        return Some(RegistrationPanic);
      }
      serverbound := serverbound[Route(state, id) := t];
      panic := None;
    }

    /** LookupServerbound: the type registered under (state, id), if any. */
    function LookupServerbound(state: ClientState, id: int64): (r: Option<MessageType>)
      reads this
      ensures r.Some? <==> Route(state, id) in serverbound
      ensures r.Some? ==> r.value == serverbound[Route(state, id)]
    {
      Find(serverbound, Route(state, id))
    }

    /** RegisterClientbound: as RegisterServerbound, keyed by the type. */
    method RegisterClientbound(t: MessageType, state: ClientState, id: int64) returns (panic: Option<Error>)
      modifies this
      ensures Embeds(t, CLIENTBOUND_MARKER) ==>
                panic == None && clientbound == old(clientbound)[t := Route(state, id)]
      ensures !Embeds(t, CLIENTBOUND_MARKER) ==>
                panic == Some(RegistrationPanic) && clientbound == old(clientbound)
      ensures serverbound == old(serverbound)
    {
      if !Embeds(t, CLIENTBOUND_MARKER) {
        return Some(RegistrationPanic);
      }
      clientbound := clientbound[t := Route(state, id)];
      panic := None;
    }

    /** LookupClientbound: the (state, id) registered for t, if any. */
    function LookupClientbound(t: MessageType): (r: Option<Route>)
      reads this
      ensures r.Some? <==> t in clientbound
      ensures r.Some? ==> r.value == clientbound[t]
    {
      Find(clientbound, t)
    }

    /** DecodeServerbound: finds the type, reads its fields from a buffer
        over the body, and asserts the message is a ServerboundInterface. */
    method DecodeServerbound(state: ClientState, packet: Framing.Packet) returns (r: Result<Decoded>)
      ensures r == DecodeSpec(serverbound, state, packet)
    {
      var found := LookupServerbound(state, packet.id);
      if found.None? {
        return Err(UnknownServerbound);
      }
      var buf := new Buffer(packet.body);
      var values, err := decodeFields(found.value.fields, buf);
      if err.Some? {
        return Err(err.value);
      }
      if !found.value.handlesShared {
        return Err(TypeAssertionPanic);
      }
      return Ok(Decoded(found.value, values));
    }

    /** Encode: finds the registered id, then writes the fields into one
        buffer, which becomes the packet's body. */
    method Encode(msg: Message) returns (r: Result<Framing.Packet>)
      requires |msg.values| == NamedCount(msg.t.fields)
      ensures r == EncodeSpec(clientbound, msg)
    {
      var info := LookupClientbound(msg.t);
      if info.None? {
        return Err(UnknownClientbound);
      }
      var wbuf := new Buffer([]);
      var err := encodeFields(msg.t.fields, msg.values, wbuf);
      assert wbuf.raw == [] + EncodeFields(msg.t.fields, msg.values).bytes == EncodeFields(msg.t.fields, msg.values).bytes;
      if err.Some? {
        return Err(err.value);
      }
      return Ok(Framing.Packet(info.value.id, wbuf.raw));
    }
  }

  // -------------------------------------------------------------------
  // The field loops

  /** The loop of DecodeServerbound: each non-embedded field in turn, the
      first error ending it. */
  method decodeFields(fields: seq<Field>, buf: Buffer) returns (values: seq<Value>, err: Option<Error>)
    modifies buf
    ensures Reports(DecodeFields(fields, old(buf.raw)), values, err, buf.raw)
  {
    values := [];
    var i := 0;
    PrependNothing(DecodeFields(fields, buf.raw));
    while i < |fields|
      invariant 0 <= i <= |fields|
      invariant DecodeFields(fields, old(buf.raw)) == Prepend(values, DecodeFields(fields[i..], buf.raw))
    {
      var f := fields[i];
      if f.anonymous {
        DecodeNext(fields, i, buf.raw);
        i := i + 1;
        continue;
      }
      ghost var before := buf.raw;
      var v, e := readField(f, buf);
      DecodeStep(fields, i, before, values, FieldRead(f, before));
      if e.Some? {
        return values, e;
      }
      values := values + [v];
      i := i + 1;
    }
    assert fields[i..] == [];
    PrependNothing'(values, buf.raw);
    err := None;
  }

  /** The loop of Encode: each non-embedded field's value in turn, the
      first error ending it. */
  method encodeFields(fields: seq<Field>, values: seq<Value>, buf: Buffer) returns (err: Option<Error>)
    requires |values| == NamedCount(fields)
    modifies buf
    ensures buf.raw == old(buf.raw) + EncodeFields(fields, values).bytes && err == EncodeFields(fields, values).err
  {
    var i, j := 0, 0;
    assert old(buf.raw) + EncodeFields(fields, values).bytes == Emitted(buf.raw, EncodeFields(fields[0..], values[0..])).bytes;
    while i < |fields|
      invariant 0 <= i <= |fields| && 0 <= j <= |values|
      invariant NamedCount(fields[i..]) == |values| - j
      invariant Emitted(old(buf.raw), EncodeFields(fields, values)) == Emitted(buf.raw, EncodeFields(fields[i..], values[j..]))
    {
      var f := fields[i];
      EncodeNext(fields, values, i, j);
      if f.anonymous {
        i := i + 1;
        continue;
      }
      ghost var before := buf.raw;
      var e := writeField(f, values[j], buf);
      if e.Some? {
        return e;
      }
      EmittedEmitted(before, FieldWrite(f, values[j]).bytes, EncodeFields(fields[i + 1..], values[j + 1..]));
      i, j := i + 1, j + 1;
    }
    assert values[j..] == [];
    assert buf.raw + [] == buf.raw;
    err := None;
  }

  // -------------------------------------------------------------------
  // One field of the loops

  /** One field read: a slice field's tag is checked before anything is
      read, then ReadReflectedSlice; any other field is ReadReflected, whose
      value `target.Set` stores only if the field takes it. */
  method readField(f: Field, buf: Buffer) returns (v: Value, err: Option<Error>)
    modifies buf
    ensures Reports(FieldRead(f, old(buf.raw)), v, err, buf.raw)
  {
    if f.typ.Slice? {
      if f.tag.None? {
        return UnhandledV(""), Some(MissingSliceTag);
      }
      if !(LENGTH_PREFIX <= f.tag.value) {
        return UnhandledV(""), Some(UnknownTagContents);
      }
      v, err := buf.ReadReflectedSlice(f.typ.elem, f.tag.value[|LENGTH_PREFIX|..]);
    } else {
      SlotTakes(f.typ.kind, buf.raw);
      v, err := buf.ReadReflected(f.typ.kind);
      if err.None? && !HasKind(v, f.typ.kind) {
        err := Some(UnassignablePanic);
      }
    }
  }

  /** One field written: a slice field's tag is checked before anything is
      written, then WriteSlice or WriteAny. */
  method writeField(f: Field, v: Value, buf: Buffer) returns (err: Option<Error>)
    modifies buf
    ensures buf.raw == old(buf.raw) + FieldWrite(f, v).bytes && err == FieldWrite(f, v).err
  {
    if f.typ.Slice? {
      if f.tag.None? {
        assert buf.raw + [] == buf.raw;
        return Some(MissingSliceTag);
      }
      if !(LENGTH_PREFIX <= f.tag.value) {
        assert buf.raw + [] == buf.raw;
        return Some(UnknownTagContents);
      }
      err := buf.WriteSlice(v, f.tag.value[|LENGTH_PREFIX|..]);
    } else {
      err := buf.WriteAny(v);
      if err.Some? {
        assert old(buf.raw) + [] == old(buf.raw);
      }
    }
  }

  // -------------------------------------------------------------------
  // Steps of the loops

  lemma DecodeNext(fields: seq<Field>, i: int, s: seq<byte>)
    requires 0 <= i < |fields|
    ensures DecodeFields(fields[i..], s) ==
            if fields[i].anonymous then DecodeFields(fields[i + 1..], s)
            else match FieldRead(fields[i], s)
                 case Fault(e, r) => Fault(e, r)
                 case Got(v, r) => Prepend([v], DecodeFields(fields[i + 1..], r))
  {
    assert fields[i..][1..] == fields[i + 1..];
  }

  /** A non-embedded field read from s, in front of the values read so far. */
  lemma DecodeStep(fields: seq<Field>, i: int, s: seq<byte>, values: seq<Value>, r: Read<Value>)
    requires 0 <= i < |fields| && !fields[i].anonymous && r == FieldRead(fields[i], s)
    ensures r.Fault? ==> Prepend(values, DecodeFields(fields[i..], s)) == Fault(r.err, r.rest)
    ensures r.Got? ==> Prepend(values, DecodeFields(fields[i..], s)) == Prepend(values + [r.value], DecodeFields(fields[i + 1..], r.rest))
  {
    DecodeNext(fields, i, s);
    if r.Got? {
      PrependPrepend(values, [r.value], DecodeFields(fields[i + 1..], r.rest));
    }
  }

  lemma EncodeNext(fields: seq<Field>, values: seq<Value>, i: int, j: int)
    requires 0 <= i < |fields| && 0 <= j <= |values|
    requires NamedCount(fields[i..]) == |values| - j
    ensures fields[i].anonymous ==>
              NamedCount(fields[i + 1..]) == |values| - j &&
              EncodeFields(fields[i..], values[j..]) == EncodeFields(fields[i + 1..], values[j..])
    ensures !fields[i].anonymous ==>
              j < |values| && NamedCount(fields[i + 1..]) == |values| - (j + 1) &&
              EncodeFields(fields[i..], values[j..]) ==
              (var w := FieldWrite(fields[i], values[j]);
               if w.err.Some? then w else Emitted(w.bytes, EncodeFields(fields[i + 1..], values[j + 1..])))
  {
    assert fields[i..][1..] == fields[i + 1..];
    if !fields[i].anonymous {
      assert values[j..][1..] == values[j + 1..];
    }
  }

  // -------------------------------------------------------------------
  // Properties

  /** The value fits its field: a scalar of the field's kind that WriteAny
      handles and that survives its encoding, or, for a slice field tagged
      "length:varint", a slice of fewer than 2^31 such elements. A Go int
      does not fit: it is written, but reading it back panics (IntFieldPanics,
      IntSliceFieldPanics). */
  predicate FieldConforms(f: Field, v: Value) {
    match f.typ
    case Scalar(k) => HasKind(v, k) && !k.UnhandledK? && !k.IntK? && Representable(v)
    case Slice(k) =>
      f.tag == Some(LENGTH_PREFIX + LENGTH_VARINT) && !k.UnhandledK? && !k.IntK? &&
      v.SliceV? && |v.elems| < 0x8000_0000 &&
      forall i :: 0 <= i < |v.elems| ==> HasKind(v.elems[i], k) && Representable(v.elems[i])
  }

  /** Every non-embedded field's value fits it. */
  predicate Conforms(fields: seq<Field>, values: seq<Value>)
    requires |values| == NamedCount(fields)
    decreases |fields|
  {
    if fields == [] then true
    else if fields[0].anonymous then Conforms(fields[1..], values)
    else FieldConforms(fields[0], values[0]) && Conforms(fields[1..], values[1..])
  }

  /** One field's value reads back from what was written for it. */
  lemma FieldRoundTrip(f: Field, v: Value, rest: seq<byte>)
    requires FieldConforms(f, v)
    ensures FieldWrite(f, v).err == None
    ensures FieldRead(f, FieldWrite(f, v).bytes + rest) == Got(v, rest)
  {
    match f.typ
    case Scalar(k) =>
      AnyRoundTrip(v, k, rest);
      assert ReadSlot(k, AnyBytes(v).value + rest) == Got(v, rest);
    case Slice(k) =>
      assert LENGTH_PREFIX <= f.tag.value;
      assert f.tag.value[|LENGTH_PREFIX|..] == LENGTH_VARINT;
      SliceRoundTrip(k, v.elems, rest);
  }

  /** Decoding what encoding wrote for conforming values gives the values
      back, whatever bytes follow. */
  lemma {:induction false} FieldsRoundTrip(fields: seq<Field>, values: seq<Value>, rest: seq<byte>)
    requires |values| == NamedCount(fields) && Conforms(fields, values)
    ensures EncodeFields(fields, values).err == None
    ensures DecodeFields(fields, EncodeFields(fields, values).bytes + rest) == Got(values, rest)
    decreases |fields|
  {
    if fields == [] {
    } else if fields[0].anonymous {
      FieldsRoundTrip(fields[1..], values, rest);
    } else {
      var tail := EncodeFields(fields[1..], values[1..]);
      FieldsRoundTrip(fields[1..], values[1..], rest);
      var w := FieldWrite(fields[0], values[0]);
      FieldRoundTrip(fields[0], values[0], tail.bytes + rest);
      ConcatAssoc(w.bytes, tail.bytes, rest);
      assert [values[0]] + values[1..] == values;
    }
  }

  /** A clientbound message whose type is registered serverbound under the
      same state and id, and has the handler ServerboundInterface asks for,
      decodes to what was encoded (see MissingHandlerPanics otherwise). */
  lemma MessageRoundTrip(sb: map<Route, MessageType>, cb: map<MessageType, Route>, state: ClientState,
                         msg: Message, rest: seq<byte>)
    requires |msg.values| == NamedCount(msg.t.fields) && Conforms(msg.t.fields, msg.values) && msg.t.handlesShared
    requires msg.t in cb && Route(state, cb[msg.t].id) in sb && sb[Route(state, cb[msg.t].id)] == msg.t
    ensures EncodeSpec(cb, msg).Ok?
    ensures var p := EncodeSpec(cb, msg).value;
            p.id == cb[msg.t].id &&
            DecodeSpec(sb, state, Framing.Packet(p.id, p.body + rest)) == Ok(Decoded(msg.t, msg.values))
  {
    FieldsRoundTrip(msg.t.fields, msg.values, rest);
  }

  /** A type without `Handle(*shared.ClientShared) error` never decodes: once
      its fields are read, the assertion to ServerboundInterface panics. */
  lemma MissingHandlerPanics(sb: map<Route, MessageType>, state: ClientState, p: Framing.Packet)
    requires Route(state, p.id) in sb && !sb[Route(state, p.id)].handlesShared
    ensures !DecodeSpec(sb, state, p).Ok?
    ensures DecodeFields(sb[Route(state, p.id)].fields, p.body).Got? ==> DecodeSpec(sb, state, p) == Err(TypeAssertionPanic)
  {
  }

  /** A Go int field cannot be decoded: ReadReflected yields the int32 that
      ReadInt returns, and storing it into the int field panics. */
  lemma IntFieldPanics(f: Field, s: seq<byte>)
    requires f.typ == Scalar(IntK) && |s| >= 4
    ensures FieldRead(f, s) == Fault(UnassignablePanic, s[4..])
  {
  }

  /** Nor can a non-empty `[]int` field that Encode wrote: storing its first
      element panics. */
  lemma IntSliceFieldPanics(f: Field, es: seq<Value>, rest: seq<byte>)
    requires f.typ == Slice(IntK) && f.tag == Some(LENGTH_PREFIX + LENGTH_VARINT)
    requires 0 < |es| < 0x8000_0000 && forall i :: 0 <= i < |es| ==> HasKind(es[i], IntK)
    ensures FieldWrite(f, SliceV(es)).err == None
    ensures var r := FieldRead(f, FieldWrite(f, SliceV(es)).bytes + rest);
            r.Fault? && r.err == UnassignablePanic
  {
    assert f.tag.value[|LENGTH_PREFIX|..] == LENGTH_VARINT;
    IntSlicePanics(es, rest);
  }

  /** A slice field whose tag is missing or does not start with "length:"
      fails the same way in both directions, before any byte is read or
      written. */
  lemma {:induction false} BadSliceTag(fields: seq<Field>, values: seq<Value>, s: seq<byte>, i: nat)
    requires |values| == NamedCount(fields)
    requires i < |fields| && forall j :: 0 <= j < i ==> fields[j].anonymous
    requires fields[i].typ.Slice? && !fields[i].anonymous
    requires fields[i].tag.None? || !(LENGTH_PREFIX <= fields[i].tag.value)
    ensures var e := if fields[i].tag.None? then MissingSliceTag else UnknownTagContents;
            DecodeFields(fields, s) == Fault(e, s) &&
            EncodeFields(fields, values) == Written([], Some(e))
    decreases i
  {
    if i > 0 {
      BadSliceTag(fields[1..], values, s, i - 1);
    }
  }

  // -------------------------------------------------------------------
  // Two registered message types

  /** The embedded marker of a serverbound message type. */
  const SERVERBOUND_FIELD := Field(SERVERBOUND_MARKER, true, Scalar(UnhandledK(SERVERBOUND_MARKER)), None)

  /** HandshakingServerboundHandshake, registered under (Handshaking, 0x00).
      Its Handle takes an `*ipc.ClientIPC`, so it is not a
      ServerboundInterface. */
  const HANDSHAKE := MessageType("HandshakingServerboundHandshake", [
    SERVERBOUND_FIELD,
    Field("ProtocolVersion", false, Scalar(VarIntK), None),
    Field("ServerAddress", false, Scalar(StringK), None),
    Field("ServerPort", false, Scalar(UShortK), None),
    Field("NextState", false, Scalar(VarIntK), None)], false)

  /** LoginEncryptionResponse, registered under (Login, 0x01). Its Handle
      takes an `*shared.ClientShared`. */
  const ENCRYPTION_RESPONSE := MessageType("LoginEncryptionResponse", [
    SERVERBOUND_FIELD,
    Field("SharedSecret", false, Slice(ByteK), Some("length:varint")),
    Field("VerifyToken", false, Slice(ByteK), Some("length:varint"))], true)

  /** Both types carry the marker, so registering them does not panic. */
  lemma FixturesRegister()
    ensures Embeds(HANDSHAKE, SERVERBOUND_MARKER) && Embeds(ENCRYPTION_RESPONSE, SERVERBOUND_MARKER)
    ensures !Embeds(HANDSHAKE, CLIENTBOUND_MARKER)
  {
    assert HANDSHAKE.fields[0].name == SERVERBOUND_MARKER;
    assert ENCRYPTION_RESPONSE.fields[0].name == SERVERBOUND_MARKER;
  }

  /** A handshake for protocol 767 to "a", port 25565, next state 1. */
  const HANDSHAKE_VALUES := [VarIntV(767), StringV([0x61]), UShortV(0x63DD), VarIntV(1)]

  lemma HandshakeConforms()
    ensures NamedCount(HANDSHAKE.fields) == |HANDSHAKE_VALUES|
    ensures Conforms(HANDSHAKE.fields, HANDSHAKE_VALUES)
  {
    var fs, vs := HANDSHAKE.fields, HANDSHAKE_VALUES;
    assert fs[4..][1..] == [] && fs[3..][1..] == fs[4..] && fs[2..][1..] == fs[3..] && fs[1..][1..] == fs[2..];
    assert NamedCount(fs[4..]) == 1;
    assert NamedCount(fs[3..]) == 2;
    assert NamedCount(fs[2..]) == 3;
    assert vs[3..][1..] == [] && vs[2..][1..] == vs[3..] && vs[1..][1..] == vs[2..];
    assert Conforms(fs[4..], vs[3..]);
    assert Conforms(fs[3..], vs[2..]);
    assert Conforms(fs[2..], vs[1..]);
  }

  /** A handshake's body: its four fields' encodings in declaration order. */
  lemma HandshakeLayout(version: int32, address: seq<byte>, port: uint16, next: int32)
    ensures NamedCount(HANDSHAKE.fields) == 4
    ensures EncodeFields(HANDSHAKE.fields, [VarIntV(version), StringV(address), UShortV(port), VarIntV(next)])
            == Written(VarIntBytes(version) + StringBytes(address) + ShortBytes(WrapInt16(port)) + VarIntBytes(next), None)
  {
    var fs, vs := HANDSHAKE.fields, [VarIntV(version), StringV(address), UShortV(port), VarIntV(next)];
    assert fs[4..][1..] == [] && fs[3..][1..] == fs[4..] && fs[2..][1..] == fs[3..] && fs[1..][1..] == fs[2..];
    assert NamedCount(fs[4..]) == 1;
    assert NamedCount(fs[3..]) == 2;
    assert NamedCount(fs[2..]) == 3;
    assert vs[3..][1..] == [] && vs[2..][1..] == vs[3..] && vs[1..][1..] == vs[2..];
    assert EncodeFields(fs[4..], vs[3..]) == Written(VarIntBytes(next), None);
    assert EncodeFields(fs[3..], vs[2..]) == Written(ShortBytes(WrapInt16(port)) + VarIntBytes(next), None);
    ConcatAssoc(StringBytes(address), ShortBytes(WrapInt16(port)), VarIntBytes(next));
    assert EncodeFields(fs[2..], vs[1..]) == Written(StringBytes(address) + ShortBytes(WrapInt16(port)) + VarIntBytes(next), None);
    ConcatAssoc(VarIntBytes(version), StringBytes(address) + ShortBytes(WrapInt16(port)), VarIntBytes(next));
    ConcatAssoc(VarIntBytes(version), StringBytes(address), ShortBytes(WrapInt16(port)));
  }

  /** The encodings of the handshake's field values. */
  lemma HandshakeFieldBytes()
    ensures VarIntBytes(767) == [0xFF, 0x05] && VarIntBytes(1) == [0x01]
    ensures StringBytes([0x61]) == [0x01, 0x61]
    ensures ShortBytes(WrapInt16(0x63DD)) == [0x63, 0xDD]
  {
    ShortBytesDigits(0x63DD);
  }

  /** Those bytes, sent under (Handshaking, 0x00), have their fields read as
      that handshake; the assertion to ServerboundInterface then panics,
      since the handshake's Handle takes an `*ipc.ClientIPC`. */
  lemma HandshakeExample(sb: map<Route, MessageType>)
    requires Route(Handshaking, 0x00) in sb && sb[Route(Handshaking, 0x00)] == HANDSHAKE
    ensures DecodeFields(HANDSHAKE.fields, [0xFF, 0x05, 0x01, 0x61, 0x63, 0xDD, 0x01]) == Got(HANDSHAKE_VALUES, [])
    ensures DecodeSpec(sb, Handshaking, Framing.Packet(0x00, [0xFF, 0x05, 0x01, 0x61, 0x63, 0xDD, 0x01]))
            == Err(TypeAssertionPanic)
  {
    HandshakeConforms();
    HandshakeLayout(767, [0x61], 0x63DD, 1);
    HandshakeFieldBytes();
    assert VarIntBytes(767) + StringBytes([0x61]) + ShortBytes(WrapInt16(0x63DD)) + VarIntBytes(1)
           == [0xFF, 0x05, 0x01, 0x61, 0x63, 0xDD, 0x01];
    FieldsRoundTrip(HANDSHAKE.fields, HANDSHAKE_VALUES, []);
    assert [0xFF, 0x05, 0x01, 0x61, 0x63, 0xDD, 0x01] + [] == [0xFF, 0x05, 0x01, 0x61, 0x63, 0xDD, 0x01];
  }

  /** An encryption response with shared secret [0x2A] and an empty verify
      token: each slice is its VarInt count and then its bytes. */
  const ENCRYPTION_RESPONSE_VALUES := [SliceV([ByteV(0x2A)]), SliceV([])]

  lemma EncryptionResponseConforms()
    ensures NamedCount(ENCRYPTION_RESPONSE.fields) == |ENCRYPTION_RESPONSE_VALUES|
    ensures Conforms(ENCRYPTION_RESPONSE.fields, ENCRYPTION_RESPONSE_VALUES)
  {
    var fs, vs := ENCRYPTION_RESPONSE.fields, ENCRYPTION_RESPONSE_VALUES;
    assert fs[2..][1..] == [] && fs[1..][1..] == fs[2..];
    assert vs[1..][1..] == [];
    assert NamedCount(fs[2..]) == 1;
    assert LENGTH_PREFIX + LENGTH_VARINT == "length:varint";
    assert Conforms(fs[2..], vs[1..]);
  }

  lemma EncryptionResponseBytes()
    requires NamedCount(ENCRYPTION_RESPONSE.fields) == |ENCRYPTION_RESPONSE_VALUES|
    ensures EncodeFields(ENCRYPTION_RESPONSE.fields, ENCRYPTION_RESPONSE_VALUES) == Written([0x01, 0x2A, 0x00], None)
  {
    var fs, vs := ENCRYPTION_RESPONSE.fields, ENCRYPTION_RESPONSE_VALUES;
    assert fs[2..][1..] == [] && fs[1..][1..] == fs[2..];
    assert vs[1..][1..] == [];
    assert VarIntBytes(1) == [0x01] && VarIntBytes(0) == [0x00];
    assert EncodeFields(fs[2..], vs[1..]) == Written([0x00], None);
  }

  /** Those bytes, sent under (Login, 0x01), decode to that response. */
  lemma EncryptionResponseExample(sb: map<Route, MessageType>)
    requires Route(Login, 0x01) in sb && sb[Route(Login, 0x01)] == ENCRYPTION_RESPONSE
    ensures DecodeSpec(sb, Login, Framing.Packet(0x01, [0x01, 0x2A, 0x00]))
            == Ok(Decoded(ENCRYPTION_RESPONSE, ENCRYPTION_RESPONSE_VALUES))
  {
    EncryptionResponseConforms();
    EncryptionResponseBytes();
    FieldsRoundTrip(ENCRYPTION_RESPONSE.fields, ENCRYPTION_RESPONSE_VALUES, []);
    assert [0x01, 0x2A, 0x00] + [] == [0x01, 0x2A, 0x00];
  }
}
