# gocraft protocol core in Dafny

This project models the protocol engine of gocraft, a Minecraft Java-edition
server written in Go, and proves properties of the model. It covers five parts.

- **The byte codec** (`data.Buffer`, module `Buffers`, with the byte layouts
  in `Wire`, `VarNum` and `Codec`). A buffer is a byte sequence. Reads take
  bytes off the front and writes append to the back. It handles big-endian
  integers, booleans, VarInt and VarLong (7-bit groups, lowest first,
  continuation bit 0x80), strings behind a VarInt length, 16-byte UUIDs, and
  slices behind a VarInt count. The reflection-driven `ReadReflected`,
  `ReadReflectedSlice`, `WriteAny` and `WriteSlice` are driven here by an
  explicit field kind (`Codec.Kind`) and value (`Codec.Value`).
- **The NBT writer** (`data/nbt.go`, module `Nbt`). It writes named binary
  tag trees. A value's header depends on where it is written: the top level,
  inside a compound, or inside a list. The list constructor panics on mixed
  tags.
- **The packet framer** (`network/packet.go`, module `Framing`). `Marshal`
  builds `VarInt length, VarInt id, body`. The `Unmarshaller` keeps the
  bytes it is fed across calls. It takes every complete frame off the front
  and puts back a frame that has not fully arrived.
- **The message registry and generic codec** (`network/messages/base.go`,
  module `Messages`). Two maps send (state, id) to a serverbound message
  type, and a clientbound type to its (state, id). Decoding and encoding walk
  a type's fields in declaration order. They skip the embedded marker field.
  A slice field's `message` tag gives its length type.
- **The chat builder** (`data/chat.go`, module `ChatText`). It holds the hex
  colour validator and a `Chat` object whose setters change one field in
  place and return the receiver.

Go's semantics are written out explicitly:
- `byte(x)` is `Lsb`.
- The integer conversions are `WrapInt16`, `WrapInt32` and `WrapInt64`.
- `uint16(x)` of an `int16` is `x % 0x1_0000`.
- A Go panic is an `Error` whose constructor ends in `Panic`.
- An operation that returns a value and an error becomes a `Read`, a
  `Written` or a `Result`.
- A buffer method's contract ties its results and the new `raw` to a
  function of the old `raw`.
- The properties are lemmas about those functions.

## Model

| member | source | states |
|---|---|---|
| Buffers.Buffer.constructor | data/buffer.go:15-17 | the buffer holds exactly the given bytes |
| Buffers.Buffer.Write | data/buffer.go:27-30 | the data is appended and nothing before it changes |
| Buffers.Buffer.Read | data/buffer.go:32-39 | with fewer than n bytes left it fails with BufferTooShort and leaves raw as it was; otherwise it returns the first n bytes and raw becomes the rest; a negative n passes the length check and panics on the slice |
| Buffers.Buffer.ReadByte | data/buffer.go:41-48 | an empty buffer fails and is unchanged; otherwise exactly the first byte is removed and returned |
| Buffers.Buffer.WriteByte | data/buffer.go:50-53 | one byte is appended |
| Buffers.Buffer.ReadBoolean | data/buffer.go:55-68 | 0x00 is false, 0x01 is true, any other byte is InvalidBoolean (after it was consumed) |
| Buffers.Buffer.WriteBoolean | data/buffer.go:70-77 | appends 0x01 for true and 0x00 for false |
| Buffers.Buffer.ReadUByte | data/buffer.go:79-82 | ReadByte's result |
| Buffers.Buffer.WriteUByte | data/buffer.go:84-86 | the byte is appended |
| Buffers.Buffer.ReadShort | data/buffer.go:88-95 | the big-endian int16 of the first two bytes, or a failure that consumes nothing |
| Buffers.Buffer.WriteShort | data/buffer.go:97-101 | appends the two big-endian bytes |
| Buffers.Buffer.ReadUShort | data/buffer.go:103-106 | ReadShort's value converted to uint16 |
| Buffers.Buffer.WriteUShort | data/buffer.go:108-110 | WriteShort of the value converted to int16 |
| Buffers.Buffer.ReadInt | data/buffer.go:112-119 | the big-endian int32 of the first four bytes, or a failure that consumes nothing |
| Buffers.Buffer.WriteInt | data/buffer.go:121-134 | appends the four big-endian bytes |
| Buffers.Buffer.ReadUInt | data/buffer.go:136-139 | ReadInt's value converted to uint32 |
| Buffers.Buffer.WriteUInt | data/buffer.go:141-143 | WriteInt of the value converted to int32 |
| Buffers.Buffer.ReadLong | data/buffer.go:145-152 | the big-endian int64 of the first eight bytes, or a failure that consumes nothing |
| Buffers.Buffer.WriteLong | data/buffer.go:154-171 | appends the eight big-endian bytes |
| Buffers.Buffer.ReadULong | data/buffer.go:173-176 | ReadLong's value converted to uint64 |
| Buffers.Buffer.WriteULong | data/buffer.go:178-180 | WriteLong of the value converted to int64 |
| Buffers.Buffer.readGroups | data/buffer.go:200-223 | the loop that sums 7-bit groups ends in the state the group reader describes: the bytes taken, the sum, or the error with the bytes it had consumed |
| Buffers.Buffer.ReadVarInt | data/buffer.go:200-223 | the value is the 32-bit truncation of the group sum and the count is the bytes taken; a fifth byte with the continuation bit is VarIntTooBig; running out is BufferEmpty; consumed bytes are not put back |
| Buffers.Buffer.writeGroups | data/buffer.go:225-241 | the loop appends the groups of the value's two's-complement pattern and returns their number |
| Buffers.Buffer.WriteVarInt | data/buffer.go:225-241 | appends the VarInt bytes and returns their count |
| Buffers.Buffer.ReadVarLong | data/buffer.go:243-266 | as ReadVarInt with 64 bits, ten bytes and VarLongTooBig |
| Buffers.Buffer.WriteVarLong | data/buffer.go:268-284 | appends the VarLong bytes and returns their count |
| Buffers.Buffer.ReadString | data/buffer.go:286-307 | a VarInt length then that many bytes, with the total count; a negative length and one beyond the bytes left are errors that return an empty string and the VarInt's byte count; a failed VarInt read returns an empty string and count 0 |
| Buffers.Buffer.WriteString | data/buffer.go:309-320 | appends the VarInt length and the bytes and returns the total count |
| Buffers.Buffer.ReadUUID | data/buffer.go:322-328 | the first sixteen bytes, or a failure that consumes nothing |
| Buffers.Buffer.WriteUUID | data/buffer.go:330-332 | the sixteen bytes are appended |
| Buffers.Buffer.ReadReflectedSlice | data/buffer.go:340-355 | the length, then that many elements of the kind; a negative count panics in MakeSlice; an element's error ends the read; an element whose value the slice cannot hold (the int32 read for an `int`) panics in `Set` |
| Buffers.Buffer.readElems | data/buffer.go:347-354 | the element loop reads exactly the count asked for, in order, each stored only if the slice's element type takes it |
| Buffers.Buffer.readElem | data/buffer.go:348-352 | one element read and stored: an error from the read, or the Set panic when the value is not of the element type |
| Buffers.Buffer.ReadReflected | data/buffer.go:357-390 | dispatches on the field kind to the matching read; an `int` is read with ReadInt and so yields an int32; an unknown kind is UnhandledType |
| Buffers.Buffer.readLength | data/buffer.go:392-400 | "varint" reads a VarInt; any other length type is UnhandledLengthType and reads nothing |
| Buffers.Buffer.WriteSlice | data/buffer.go:402-420 | a non-slice is NotASlice; otherwise the count then each element in order; an element with no case stops it with UnhandledType |
| Buffers.Buffer.writeLength | data/buffer.go:422-430 | "varint" writes the count as a VarInt; any other length type is UnhandledLengthType and writes nothing |
| Buffers.Buffer.WriteAny | data/buffer.go:432-467 | appends the encoding of each handled value kind; any other value is UnhandledType and writes nothing |
| Wire.ShortRoundTrip | data/buffer.go:88-101 | decoding the two big-endian bytes of an int16 gives it back |
| Wire.IntRoundTrip | data/buffer.go:112-134 | decoding the four big-endian bytes of an int32 gives it back |
| Wire.LongRoundTrip | data/buffer.go:145-171 | decoding the eight big-endian bytes of an int64 gives it back |
| VarNum.ReadGroups | data/buffer.go:200-223 | the group reader takes at most the limit and at most the bytes there are; success ends on a byte without the continuation bit; the only errors are BufferEmpty and the too-big error |
| VarNum.ResumeGroupsShift | data/buffer.go:200-223 | the loop's running state (sum, position, budget) resumed from any point equals the front-recursive reader shifted by what was summed |
| VarNum.VarIntBytesBound | data/buffer.go:225-241 | WriteVarInt emits between one and five bytes |
| VarNum.VarLongBytesBound | data/buffer.go:268-284 | WriteVarLong emits between one and ten bytes |
| VarNum.GroupsRoundTrip | data/buffer.go:200-241 | the groups of a number read back as that number and that many bytes, whatever follows |
| VarNum.VarIntRoundTrip | data/buffer.go:200-241 | ReadVarInt of WriteVarInt's bytes gives the value (negative ones too) and the same byte count |
| VarNum.VarLongRoundTrip | data/buffer.go:243-284 | ReadVarLong of WriteVarLong's bytes gives the value and the same byte count |
| VarNum.ReadGroupsTooBig | data/buffer.go:205-222 | when the limit's worth of bytes all carry the continuation bit the read fails with the too-big error after consuming them |
| VarNum.ReadGroupsRunsOut | data/buffer.go:205-222 | bytes that all carry the continuation bit and end before the limit fail with BufferEmpty, all consumed |
| VarNum.GroupsPrefixRunsOut | data/buffer.go:205-222 | a strict prefix of a number's groups fails with BufferEmpty after consuming the prefix |
| VarNum.VarIntPrefixRunsOut | data/buffer.go:200-223 | a strict prefix of a VarInt fails with BufferEmpty after consuming the prefix |
| Codec.BoolRoundTrip | data/buffer.go:55-77 | ReadBoolean of WriteBoolean's byte gives the boolean back |
| Codec.BoolRejects | data/buffer.go:55-68 | a byte reads as a boolean exactly when it is 0 or 1; any other byte is InvalidBoolean with that byte consumed |
| Codec.FixedRoundTrips | data/buffer.go:88-171 | the fixed-width reads invert the fixed-width writes, whatever bytes follow |
| Codec.ShortFieldRoundTrip | data/buffer.go:88-101 | ReadShort after WriteShort gives the value and leaves what followed |
| Codec.IntFieldRoundTrip | data/buffer.go:112-134 | ReadInt after WriteInt gives the value and leaves what followed |
| Codec.LongFieldRoundTrip | data/buffer.go:145-171 | ReadLong after WriteLong gives the value and leaves what followed |
| Codec.UShortFieldRoundTrip | data/buffer.go:103-110 | ReadUShort after WriteUShort gives the uint16 back |
| Codec.UIntRoundTrip | data/buffer.go:136-143 | ReadUInt after WriteUInt gives the uint32 back |
| Codec.ULongRoundTrip | data/buffer.go:173-180 | ReadULong after WriteULong gives the uint64 back |
| Codec.VarIntFieldRoundTrip | data/buffer.go:200-241 | reading a VarInt field back gives the value and leaves what followed |
| Codec.VarLongFieldRoundTrip | data/buffer.go:243-284 | reading a VarLong field back gives the value and leaves what followed |
| Codec.StringRoundTrip | data/buffer.go:286-320 | ReadString of WriteString's bytes gives the string and the same byte count, for strings shorter than 2^31 bytes |
| Codec.StringTooLongFails | data/buffer.go:286-307 | a positive length beyond the bytes left, none left included, is StringTooLong with the length prefix consumed and the rest unread |
| Codec.StringNegativeFails | data/buffer.go:286-307 | a negative length is NegativeStringLength |
| Codec.UuidFieldRoundTrip | data/buffer.go:322-332 | ReadUUID after WriteUUID gives the sixteen bytes back |
| Codec.AnyRoundTrip | data/buffer.go:357-467 | ReadReflected of a kind reads back what WriteAny wrote for a value of that kind, except that an `int` comes back as the int32 of its low 32 bits, which no `int` slot takes |
| Codec.ElemsRoundTrip | data/buffer.go:340-420 | the elements WriteSlice wrote read back in order, for every element kind but `int` |
| Codec.SliceRoundTrip | data/buffer.go:340-430 | ReadReflectedSlice reads back what WriteSlice wrote with the "varint" length type, for fewer than 2^31 elements of a kind other than `int` |
| Codec.SlotTakes | data/buffer.go:352 | storing a value read for a slot (ReadSlot) keeps it exactly when it is of the slot's type, as `reflect.Value.Set` does, and panics otherwise |
| Codec.IntElemsPanic | data/buffer.go:346-353 | reading `int` elements panics in `Set` on the first one, after its four bytes |
| Codec.IntSlicePanics | data/buffer.go:340-420 | a non-empty `[]int` that WriteSlice writes without error cannot be read back: ReadReflectedSlice panics in `Set` |
| Codec.SliceLengthTypeChecked | data/buffer.go:392-430 | any length type other than "varint" fails with UnhandledLengthType in both directions before anything is read or written |
| Nbt.NbtListValue | data/nbt.go:40-50 | panics exactly when an entry's tag differs from the first non-End tag before it; otherwise builds the list value |
| Nbt.WriteInternal | data/nbt.go:102-194 | appends the header the state calls for and then the payload, and returns their error |
| Nbt.writePayload | data/nbt.go:132-191 | the payload switch: each tag's layout, a payload of the wrong Go type panics, an unknown tag is an error |
| Nbt.writeCompoundEntries | data/nbt.go:134-139 | each entry in compound mode, then the end marker; entries' errors are dropped, panics are not |
| Nbt.writeListEntries | data/nbt.go:140-155 | each entry in list mode; an entry of another tag stops it with InconsistentListTypes |
| Nbt.writeInts | data/nbt.go:177-182 | appends each int32 big-endian, in order |
| Nbt.writeLongs | data/nbt.go:183-188 | appends each int64 big-endian, in order |
| Nbt.BufferWrite | data/nbt.go:196-201 | writes the value at top level; any error becomes the panic |
| Nbt.ModeHeaders | data/nbt.go:114-130 | the top level adds the tag byte, a compound the tag byte and the name (when there is one), a list nothing; an unknown state writes nothing and fails |
| Nbt.UnknownTag | data/nbt.go:189-191 | a tag outside Byte..LongArray writes its header and fails with UnhandledNbtTag |
| Nbt.EndMarker | data/nbt.go:134-139 | the end value writes the single byte 0x00; an empty compound's payload is just 0x00 |
| Nbt.WellFormedWrites | data/nbt.go:102-194 | a value whose tags agree with its payloads all the way down writes without error in every known state |
| Nbt.CompoundWrites | data/nbt.go:134-139 | a compound of well-formed entries writes without error |
| Nbt.ListWrites | data/nbt.go:140-155 | a list of well-formed entries of its tag writes without error |
| Nbt.CompoundDropsErrors | data/nbt.go:134-139 | when no entry panics, the compound's payload is the entries' bytes one after the other and 0x00, and the entries' errors are dropped |
| Nbt.ListDropsErrors | data/nbt.go:150-155 | when every entry has the list's tag and none panics, the entries are their list-mode bytes one after the other, and their errors are dropped |
| Nbt.WellFormedListPayload | data/nbt.go:140-155 | a well-formed list's payload is the element tag, the int32 count, then each entry's list-mode bytes in order, without error |
| Nbt.CompoundPanics | data/nbt.go:134-139 | the first entry that panics makes the compound panic in the same way |
| Nbt.ShortValuePanics | data/nbt.go:56-58 | the Short constructor tags its int16 as a Byte, so writing it panics on the type assertion, also inside a compound |
| Nbt.ListMismatch | data/nbt.go:150-155 | the first entry whose tag differs from the list's is InconsistentListTypes |
| Nbt.MixedListFails | data/nbt.go:140-155 | a list whose entries mix tags writes its tag, element tag and count and then fails with InconsistentListTypes |
| Nbt.ConstructorsWellFormed | data/nbt.go:32-90 | every constructor except the Short one builds a well-formed value |
| Nbt.ListValueWellFormed | data/nbt.go:40-50 | a list the constructor accepts, of well-formed entries, is well-formed |
| Nbt.SmallStringCompound | data/nbt.go:114-176 | a top-level compound of one string entry is 0x0A, 0x08, the name and the string each behind a two-byte length, then 0x00 |
| Nbt.StringEntry | data/nbt.go:118-176 | a string entry in a compound is its tag, its name and its string, each behind a two-byte length |
| Nbt.CompoundOfOne | data/nbt.go:134-139 | a compound of one entry that writes cleanly is that entry and 0x00 |
| Nbt.UnnamedCompound | data/nbt.go:115-139 | at top level an unnamed compound is 0x0A and then its entries |
| Nbt.IntsRoundTrip | data/nbt.go:177-182 | the int array's elements read back with ReadInt in order |
| Nbt.LongsRoundTrip | data/nbt.go:183-188 | the long array's elements read back with ReadLong in order |
| Nbt.StringFieldRoundTrip | data/nbt.go:172-176 | a string shorter than 64 KiB reads back as its uint16 length and then its bytes |
| Nbt.ByteArrayRoundTrip | data/nbt.go:168-171 | a byte array reads back as its int32 count and its bytes |
| Nbt.IntArrayRoundTrip | data/nbt.go:177-182 | an int array reads back as its int32 count and its elements |
| Nbt.LongArrayRoundTrip | data/nbt.go:183-188 | a long array reads back as its int32 count and its elements |
| Nbt.ScalarRoundTrips | data/nbt.go:156-176 | each scalar payload reads back with the buffer read of its width |
| Framing.Marshal | network/packet.go:61-68 | the frame is the VarInt of the inner length, then the VarInt id, then the body |
| Framing.NextFrame | network/packet.go:27-56 | a complete frame leaves a strictly shorter suffix of the accumulator |
| Framing.Unmarshaller.constructor | network/packet.go:14-16 | a new unmarshaller holds no bytes |
| Framing.Unmarshaller.Unmarshal | network/packet.go:18-59 | appends the new bytes, refuses an accumulator above 4 MiB, then takes frames until it is empty or a frame is incomplete; an error discards the packets taken; the rest is kept |
| Framing.Unmarshaller.takeFrame | network/packet.go:28-55 | one pass of the loop: an incomplete frame puts the accumulator back, otherwise the accumulator becomes the bytes after the frame |
| Framing.FrameRoundTrip | network/packet.go:18-68 | a marshalled frame, whatever follows it, is taken off whole, with the id truncated to 32 bits as Marshal sent it |
| Framing.MarshalPrefixIncomplete | network/packet.go:28-43 | any strict prefix of a marshalled frame is incomplete, so it is put back |
| Framing.FramesCons | network/packet.go:27-56 | a marshalled frame in front of other bytes yields its packet ahead of what those bytes yield |
| Framing.FedWhole | network/packet.go:18-68 | feeding a marshalled packet to an empty unmarshaller yields exactly that packet and leaves nothing |
| Framing.FedInTwoChunks | network/packet.go:18-68 | fed in two pieces, the first call yields nothing and keeps the piece, the second yields the packet and leaves nothing |
| Framing.FedTwoFrames | network/packet.go:18-68 | two marshalled packets fed at once come out both, in order |
| Framing.LengthBelowOneFails | network/packet.go:36-38 | a frame length below 1 is InvalidPacketLength |
| Framing.CeilingFails | network/packet.go:22-24 | more than 4 MiB held after the append is an error with no packets |
| Framing.FramesStopAtIncomplete | network/packet.go:27-56 | without an error, what is kept is a suffix of the accumulator that is empty or starts with an incomplete frame |
| Framing.ShortFramePanics | network/packet.go:45-53 | the frame 01 80 01 declares one byte but its id takes two, so the body read gets length -1 and panics |
| Framing.CheckedNextFrameSafe | network/packet.go:27-56 | the corrected step never panics, a complete frame takes exactly its prefix and its declared length, and it agrees with the step as written wherever that does not panic |
| Messages.Find | network/messages/base.go:40-43 | a lookup finds a value exactly when the key is registered, and it is the stored one |
| Messages.Registry.LookupServerbound | network/messages/base.go:40-43 | finds a type exactly when one is registered under (state, id), and it is the registered one |
| Messages.Registry.LookupClientbound | network/messages/base.go:112-115 | finds a (state, id) exactly when the type is registered clientbound, and it is the registered one |
| Messages.FindUpdated | network/messages/base.go:31-43 | after a registration the key finds the new type and every other key what it found before |
| Messages.Registry.constructor | network/messages/base.go:29-101 | both registries start empty |
| Messages.Registry.RegisterServerbound | network/messages/base.go:31-38 | a type without an embedded Serverbound field panics and changes nothing; otherwise it is stored under (state, id), overwriting |
| Messages.Registry.RegisterClientbound | network/messages/base.go:103-110 | a type without an embedded Clientbound field panics and changes nothing; otherwise its (state, id) is stored, overwriting |
| Messages.Registry.DecodeServerbound | network/messages/base.go:45-94 | an unregistered (state, id) is UnknownServerbound; otherwise the registered type's fields are read from the body, and a type without `Handle(*shared.ClientShared) error` then panics on the assertion to ServerboundInterface |
| Messages.decodeFields | network/messages/base.go:59-91 | the non-embedded fields are read in declaration order; the first error ends it |
| Messages.readField | network/messages/base.go:67-90 | a slice field needs a tag starting with "length:" (missing is MissingSliceTag, other is UnknownTagContents) and reads a slice of the rest's length type; any other field is ReadReflected, whose value `target.Set` stores only if the field's type takes it |
| Messages.Registry.Encode | network/messages/base.go:117-161 | an unregistered type is UnknownClientbound; otherwise the packet has the registered id and the fields' bytes as its body |
| Messages.encodeFields | network/messages/base.go:126-158 | the non-embedded fields' values are written in declaration order; the first error ends it |
| Messages.writeField | network/messages/base.go:135-157 | a slice field's tag is checked as in decoding, then WriteSlice; any other field is WriteAny |
| Messages.FieldRoundTrip | network/messages/base.go:67-157 | a field's value reads back from what was written for it, for every kind but `int` |
| Messages.IntFieldPanics | network/messages/base.go:84-89 | an `int` field panics in `target.Set`, because ReadReflected yields an int32 |
| Messages.IntSliceFieldPanics | network/messages/base.go:67-81 | a non-empty `[]int` field that encodes without error panics when decoded |
| Messages.MissingHandlerPanics | network/messages/base.go:93 | a registered type without `Handle(*shared.ClientShared) error` never decodes: once its fields are read, the assertion to ServerboundInterface panics |
| Messages.FieldsRoundTrip | network/messages/base.go:45-161 | decoding what encoding wrote for values that fit the fields gives the values back, whatever bytes follow |
| Messages.MessageRoundTrip | network/messages/base.go:45-161 | a message encoded under a type registered both ways under the same state and id, whose pointer is a ServerboundInterface, decodes to the same type and values, trailing bytes ignored |
| Messages.BadSliceTag | network/messages/base.go:67-151 | a slice field with a missing or unknown tag fails with the same error in decoding and encoding, before any byte is read or written |
| Messages.FixturesRegister | network/messages/serverbound/handshaking_handshake.go:12-22 | the handshake and encryption-response types embed the serverbound marker, so registering them does not panic |
| Messages.HandshakeLayout | network/messages/serverbound/handshaking_handshake.go:16-22 | a handshake's body is the VarInt version, the string address, the uint16 port and the VarInt next state, in that order |
| Messages.HandshakeExample | network/messages/serverbound/handshaking_handshake.go:12-24 | the bytes FF 05 01 61 63 DD 01 read as version 767, address "a", port 25565, next state 1; since the handshake's Handle takes an `*ipc.ClientIPC`, decoding them under (Handshaking, 0x00) then panics on the assertion to ServerboundInterface |
| Messages.EncryptionResponseBytes | network/messages/serverbound/login_encryption_response.go:15-19 | shared secret [0x2A] and an empty verify token encode as 01 2A 00 |
| Messages.EncryptionResponseExample | network/messages/serverbound/login_encryption_response.go:11-21 | those bytes under (Login, 0x01) decode to those two byte slices |
| ChatText.PatternMeansHexColor | data/chat.go:34 | the anchored pattern accepts exactly '#' followed by six hex digits of either case |
| ChatText.RepeatHex | data/chat.go:34 | six repetitions of the hex class are six hex digits |
| ChatText.ChatColorHex | data/chat.go:34-42 | succeeds exactly on '#' and six hex digits, returning the input unchanged; anything else is InvalidHexColor |
| ChatText.HexColorExamples | data/chat.go:34-42 | a mixed-case colour is accepted; a trailing newline, five digits and a named colour are not |
| ChatText.Chat.constructor | data/chat.go:72-74 | MakeChat: no text, colour, font or extras, every style off |
| ChatText.Chat.SetText | data/chat.go:84-87 | sets only the text and returns the receiver |
| ChatText.Chat.RemoveText | data/chat.go:89-92 | clears only the text and returns the receiver |
| ChatText.Chat.SetColor | data/chat.go:94-97 | sets only the colour and returns the receiver |
| ChatText.Chat.RemoveColor | data/chat.go:99-102 | clears only the colour and returns the receiver |
| ChatText.Chat.SetFont | data/chat.go:104-107 | sets only the font and returns the receiver |
| ChatText.Chat.RemoveFont | data/chat.go:109-112 | clears only the font and returns the receiver |
| ChatText.Chat.AddExtra | data/chat.go:114-117 | the children go after the existing extras, in order; nothing else changes |
| ChatText.Chat.BuildExtra | data/chat.go:119-123 | exactly one new child is appended: a fresh zero Chat shaped by the callback |
| ChatText.Chat.SetBold | data/chat.go:125-128 | changes only the bold flag and returns the receiver |
| ChatText.Chat.SetItalic | data/chat.go:130-133 | changes only the italic flag and returns the receiver |
| ChatText.Chat.SetUnderlined | data/chat.go:135-138 | changes only the underlined flag and returns the receiver |
| ChatText.Chat.SetStrikethrough | data/chat.go:140-143 | changes only the strikethrough flag and returns the receiver |
| ChatText.Chat.SetObfuscated | data/chat.go:145-148 | changes only the obfuscated flag and returns the receiver |
| ChatText.BuilderChainExample | data/chat.go:84-128 | a chain of setters on a new Chat sets exactly the fields it names and appends one built child |

## Left out

- Floating point. `ReadFloat`, `WriteFloat`, `ReadDouble` and `WriteDouble` are left out (data/buffer.go:182-198). NBT Float and Double payloads hold the `uint32`/`uint64` that Go's numeric conversion produces, not a float.
- `Chat.String` and the `Chat` case of `WriteAny`. They call `encoding/json`, which is not part of this model.
- `uuid.FromBytes`. A UUID is sixteen opaque bytes.
- Nested slices as elements of `ReadReflectedSlice`/`WriteSlice`. Element kinds are the scalar kinds.
- Sockets, goroutines, the per-connection actor, encryption and key pairs. These are I/O and concurrency.
- The message handlers. The `Handle` methods of the message types are business logic outside this core.
- The numeric values of the client states. The constants package is not part of this model, so states are an enumeration.
- `log.Printf` in `DecodeServerbound` and the text of error messages. Errors are constructors of `Wire.Error`.
- Buffers.Buffer.ReadString: the declared length is compared with the bytes left after a conversion of the buffer's length to a VarInt. For buffers of 2^31 bytes or more that conversion wraps, and that case is not modelled.
- Buffers.Buffer.Length and Buffers.Buffer.Empty carry no contract. They are the length of `raw` and whether it is zero.
- `buf.Push` is not defined in data/buffer.go. It is modelled as `WriteByte`.
- Nbt.writePayload: the payload switch of `bufferWriteInternal` and its loops over entries and arrays are helper methods. This keeps each proof small; the bytes they append are the same.
- ChatText.Chat.BuildExtra: the callback is given as what it does to the fields of the Chat it is handed. A callback that returns some other Chat than the one it was given, or that touches other objects, is not modelled.
- Messages.Embeds: it looks at a type's own fields. `FieldByName` would also find a field promoted from an embedded struct.
- Nbt.WriteInternal and Nbt.NbtListValue: entries are values, so every entry is present and no tree contains itself. In Go they are `[]*NBTValue` pointers; a nil entry would panic on `entry.Tag` and a cycle would recurse without end, and neither is modelled.
- Messages.Registry.Encode: field values are given as a sequence matching the non-embedded fields. Go's static typing guarantees this, so the method requires it.

Where the repository's design description and the code disagree, the model follows the code:
- `ReadVarInt` keeps only the low 32 bits of the group sum, so a fifth byte with high bits set is truncated, not rejected. `ReadVarLong` does the same with 64 bits.
- A failed VarInt read keeps the bytes it consumed, and `ReadBoolean` consumes the invalid byte.
- A `ReadString` that fails on a negative or too-long length keeps its VarInt length prefix consumed; only the string's bytes are left unread.
- Re-registering a key overwrites the earlier registration instead of failing.
- An `Unmarshal` that fails returns no packets, even those parsed before the error.
- `ReadReflected` reads an `int` field with `ReadInt` and returns an `int32`, which `reflect.Value.Set` refuses for an `int` field or slice element, so such a field always panics on decoding.
- `DecodeServerbound` asserts the decoded message to `ServerboundInterface`, which asks for `Handle(*shared.ClientShared) error`. Messages whose `Handle` takes an `*ipc.ClientIPC`, such as the handshake, panic there after their fields are read.
- `NBTListValue` ignores leading End-tagged entries when fixing the list's tag. Writing such a list then fails with InconsistentListTypes.

## Findings

| source | as written | input that shows it | evidently intended | confidence | as-written member | corrected member |
|---|---|---|---|---|---|---|
| network/packet.go:45-53 | the body length `length - packetIdBytes` is never checked, so an id longer than the declared frame length reaches `Read` with a negative length, which passes its length check and panics on `buf.Raw[:length]` | the accumulator 01 80 01: length 1, but the id VarInt 80 01 takes two bytes | reject the frame as an invalid packet length | high (not executed) | Framing.ShortFramePanics | Framing.CheckedNextFrameSafe |

`Framing.Unmarshaller.Unmarshal` keeps the step as written, because it models the source. `Framing.CheckedNextFrame` is the corrected step. `Framing.CheckedNextFrameSafe` proves that it never panics and that it agrees with the step as written on every input where that step does not panic.
