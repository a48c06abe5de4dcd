/** The packet framer of network/packet.go. On the wire a frame is
    `VarInt length, VarInt id, body`, where length counts the id's bytes and
    the body's. `Marshal` builds one frame; an `Unmarshaller` keeps the bytes
    it has been fed across calls and takes every complete frame off their
    front, putting back a frame that has not fully arrived. */
module Framing {
  import opened Wire
  import opened VarNum
  import opened Codec
  import opened Buffers

  /** The most bytes the accumulator may hold after new data is appended. */
  const MAX_BUFFERED := 4 * 1024 * 1024

  /** A packet: Go's `int` id (64 bits) and its body. */
  datatype Packet = Packet(id: int64, body: seq<byte>)

  /** Marshal: the id as a VarInt, then the body, preceded by the VarInt of
      their joint length. Both conversions to VarInt truncate to 32 bits. */
  function MarshalBytes(p: Packet): seq<byte> {
    var inner := VarIntBytes(WrapInt32(p.id)) + p.body;
    VarIntBytes(WrapInt32(|inner|)) + inner
  }

  method Marshal(p: Packet) returns (bytes: seq<byte>, err: Option<Error>)
    ensures bytes == MarshalBytes(p) && err == None
  {
    var headBuf := new Buffer([]);
    var bodyBuf := new Buffer([]);
    var idBytes := bodyBuf.WriteVarInt(WrapInt32(p.id));
    bodyBuf.Write(p.body);
    var lengthBytes := headBuf.WriteVarInt(WrapInt32(bodyBuf.Length()));
    bytes := headBuf.raw + bodyBuf.raw;
    err := None;
  }

  // -------------------------------------------------------------------
  // One pass of the loop

  /** What one pass of Unmarshal's loop does with the accumulator s: a
      packet and the bytes after it; `Incomplete` when the length prefix has
      not fully arrived (or is not a valid VarInt) or the declared length
      runs past the bytes held, the accumulator then being put back; or an
      error and the bytes left when it was returned. */
  datatype Step = Complete(packet: Packet, rest: seq<byte>) | Incomplete | Failed(err: Error, rest: seq<byte>)

  function NextFrame(s: seq<byte>): (r: Step)
    ensures r.Complete? ==> |r.rest| < |s| && r.rest == s[|s| - |r.rest|..]
  {
    match ReadVarIntFrom(s)
    case VarFail(_, _) => Incomplete
    case VarOk(u, n) =>
      var length := WrapInt32(u);
      var r := s[n..];
      if length < 1 then Failed(InvalidPacketLength, r)
      else if length > |r| then Incomplete
      else
        match ReadVarIntFrom(r)
        case VarFail(e, m) => Failed(e, r[m..])
        case VarOk(id, m) =>
          // The body is what the length leaves after the id; the length
          // was checked against the bytes held, so only a negative body
          // length can fail, and that one panics.
          match ReadBytesFrom(r[m..], length - m)
          case Fault(e, rest) => Failed(e, rest)
          case Got(body, rest) => Complete(Packet(WrapInt32(id), body), rest)
  }

  /** What Unmarshal returns and leaves in the accumulator. */
  datatype Unmarshalled = Unmarshalled(packets: seq<Packet>, err: Option<Error>, rest: seq<byte>)

  /** Packets already taken, ahead of what the rest of the loop does; an
      error discards them. */
  function Prefixed(ps: seq<Packet>, o: Unmarshalled): Unmarshalled {
    if o.err.Some? then o else Unmarshalled(ps + o.packets, None, o.rest)
  }

  /** The loop of Unmarshal, run on the accumulator s until it is empty,
      an incomplete frame stops it, or an error ends the call. */
  function Frames(s: seq<byte>): Unmarshalled
    decreases |s|
  {
    if |s| == 0 then Unmarshalled([], None, s)
    else
      match NextFrame(s)
      case Incomplete => Unmarshalled([], None, s)
      case Failed(e, r) => Unmarshalled([], Some(e), r)
      case Complete(p, r) => Prefixed([p], Frames(r))
  }

  /** Unmarshal on the accumulator acc fed the bytes data. */
  function Accept(acc: seq<byte>, data: seq<byte>): Unmarshalled {
    var s := acc + data;
    if |s| > MAX_BUFFERED then Unmarshalled([], Some(BufferGrewTooBig), s) else Frames(s)
  }

  class Unmarshaller {
    /** The accumulated bytes not yet taken by a complete frame. */
    const buffer: Buffer

    constructor()
      ensures buffer.raw == [] && fresh(buffer)
    {
      buffer := new Buffer([]);
    }

    /** Appends newData, then takes complete frames off the front. A frame
        that has not fully arrived is put back for the next call. */
    method Unmarshal(newData: seq<byte>) returns (packets: seq<Packet>, err: Option<Error>)
      modifies buffer
      ensures var o := Accept(old(buffer.raw), newData);
              packets == o.packets && err == o.err && buffer.raw == o.rest
    {
      buffer.Write(newData);
      if buffer.Length() > MAX_BUFFERED {
        return [], Some(BufferGrewTooBig);
      }
      ghost var start := buffer.raw;
      packets := [];
      err := None;
      PrefixedNothing(Frames(start));
      while !buffer.Empty()
        invariant Frames(start) == Prefixed(packets, Frames(buffer.raw))
        decreases |buffer.raw|
      {
        var step := takeFrame();
        if step.Incomplete? {
          break;
        } else if step.Failed? {
          return [], Some(step.err);
        }
        PrefixedPrefixed(packets, [step.packet], Frames(buffer.raw));
        packets := packets + [step.packet];
      }
    }

    /** The body of Unmarshal's loop: one frame off the front of the
        accumulator, which is put back as it was when the frame is
        incomplete. */
    method takeFrame() returns (step: Step)
      modifies buffer
      ensures step == NextFrame(old(buffer.raw))
      ensures buffer.raw == if step.Incomplete? then old(buffer.raw) else step.rest
    {
      var save := buffer.raw;
      var length, lengthBytes, e := buffer.ReadVarInt();
      if e.Some? {
        buffer.raw := save;
        return Incomplete;
      }
      if length < 1 {
        return Failed(InvalidPacketLength, buffer.raw);
      }
      if length > buffer.Length() {
        buffer.raw := save;
        return Incomplete;
      }
      var packetId, packetIdBytes, e2 := buffer.ReadVarInt();
      if e2.Some? {
        return Failed(e2.value, buffer.raw);
      }
      var body, e3 := buffer.Read(length - packetIdBytes);
      if e3.Some? {
        return Failed(e3.value, buffer.raw);
      }
      return Complete(Packet(packetId, body), buffer.raw);
    }
  }

  lemma PrefixedNothing(o: Unmarshalled)
    ensures Prefixed([], o) == o
  {
    assert [] + o.packets == o.packets;
  }

  lemma PrefixedPrefixed(a: seq<Packet>, b: seq<Packet>, o: Unmarshalled)
    ensures Prefixed(a, Prefixed(b, o)) == Prefixed(a + b, o)
  {
    ConcatAssoc(a, b, o.packets);
  }

  // -------------------------------------------------------------------
  // Properties of the framer

  /** The bytes Marshal frames around the body. */
  function Inner(p: Packet): seq<byte> {
    VarIntBytes(WrapInt32(p.id)) + p.body
  }

  /** A marshalled frame, whatever follows it, is taken off whole; the id
      comes back truncated to 32 bits as Marshal sent it. */
  lemma FrameRoundTrip(p: Packet, rest: seq<byte>)
    requires |Inner(p)| < 0x8000_0000
    ensures NextFrame(MarshalBytes(p) + rest) == Complete(Packet(WrapInt32(p.id), p.body), rest)
  {
    var inner := Inner(p);
    var len: int32 := |inner|;
    var id := WrapInt32(p.id);
    ConcatAssoc(VarIntBytes(len), inner, rest);
    VarIntRoundTrip(len, inner + rest);
    var s := MarshalBytes(p) + rest;
    assert s[|VarIntBytes(len)|..] == inner + rest;
    ConcatAssoc(VarIntBytes(id), p.body, rest);
    VarIntRoundTrip(id, p.body + rest);
    assert (inner + rest)[|VarIntBytes(id)|..] == p.body + rest;
    assert (p.body + rest)[..|p.body|] == p.body;
    assert (p.body + rest)[|p.body|..] == rest;
  }

  /** Every proper prefix of a marshalled frame is incomplete: either the
      length prefix has not fully arrived or the declared length runs past
      the bytes held. */
  lemma MarshalPrefixIncomplete(p: Packet, j: nat)
    requires |Inner(p)| < 0x8000_0000
    requires j < |MarshalBytes(p)|
    ensures NextFrame(MarshalBytes(p)[..j]) == Incomplete
  {
    var inner := Inner(p);
    var len: int32 := |inner|;
    var h := |VarIntBytes(len)|;
    if j < h {
      assert MarshalBytes(p)[..j] == VarIntBytes(len)[..j];
      VarIntPrefixRunsOut(len, j);
    } else {
      assert MarshalBytes(p)[..j] == VarIntBytes(len) + inner[..j - h];
      VarIntRoundTrip(len, inner[..j - h]);
      assert (VarIntBytes(len) + inner[..j - h])[h..] == inner[..j - h];
    }
  }

  /** A marshalled frame at the front of the accumulator yields its packet
      ahead of whatever the rest yields. */
  lemma FramesCons(p: Packet, rest: seq<byte>)
    requires |Inner(p)| < 0x8000_0000
    ensures Frames(MarshalBytes(p) + rest) == Prefixed([Packet(WrapInt32(p.id), p.body)], Frames(rest))
  {
    FrameRoundTrip(p, rest);
  }

  /** A Packet whose id fits in 32 bits and whose frame fits in the
      accumulator. */
  predicate Sendable(p: Packet) {
    -0x8000_0000 <= p.id < 0x8000_0000 && |MarshalBytes(p)| <= MAX_BUFFERED
  }

  lemma SendableInner(p: Packet)
    requires Sendable(p)
    ensures |Inner(p)| < 0x8000_0000 && Packet(WrapInt32(p.id), p.body) == p
  {
  }

  /** Fed whole to an empty accumulator, a marshalled frame yields exactly
      its packet and leaves the accumulator empty. */
  lemma FedWhole(p: Packet)
    requires Sendable(p)
    ensures Accept([], MarshalBytes(p)) == Unmarshalled([p], None, [])
  {
    SendableInner(p);
    FramesCons(p, []);
    assert MarshalBytes(p) + [] == MarshalBytes(p);
    assert [] + MarshalBytes(p) == MarshalBytes(p);
  }

  /** Fed in two chunks split anywhere, the first call yields nothing and
      keeps the chunk; the second yields the packet and empties the
      accumulator. */
  lemma FedInTwoChunks(p: Packet, j: nat)
    requires Sendable(p) && j < |MarshalBytes(p)|
    ensures Accept([], MarshalBytes(p)[..j]) == Unmarshalled([], None, MarshalBytes(p)[..j])
    ensures Accept(MarshalBytes(p)[..j], MarshalBytes(p)[j..]) == Unmarshalled([p], None, [])
  {
    var m := MarshalBytes(p);
    SendableInner(p);
    assert [] + m[..j] == m[..j];
    if j > 0 {
      MarshalPrefixIncomplete(p, j);
    }
    assert m[..j] + m[j..] == m;
    FedWhole(p);
    assert [] + m == m;
  }

  /** Two marshalled frames fed together yield both packets, in order. */
  lemma FedTwoFrames(p: Packet, q: Packet)
    requires Sendable(p) && Sendable(q)
    requires |MarshalBytes(p) + MarshalBytes(q)| <= MAX_BUFFERED
    ensures Accept([], MarshalBytes(p) + MarshalBytes(q)) == Unmarshalled([p, q], None, [])
  {
    SendableInner(p);
    SendableInner(q);
    FramesCons(p, MarshalBytes(q));
    FramesCons(q, []);
    assert MarshalBytes(q) + [] == MarshalBytes(q);
    assert [] + (MarshalBytes(p) + MarshalBytes(q)) == MarshalBytes(p) + MarshalBytes(q);
  }

  /** A frame length below 1 ends the call with InvalidPacketLength, the
      length prefix consumed. */
  lemma LengthBelowOneFails(len: int32, rest: seq<byte>)
    requires len < 1
    ensures Frames(VarIntBytes(len) + rest) == Unmarshalled([], Some(InvalidPacketLength), rest)
  {
    VarIntRoundTrip(len, rest);
    assert (VarIntBytes(len) + rest)[|VarIntBytes(len)|..] == rest;
  }

  /** Past the 4 MiB ceiling nothing is parsed: the call fails and the
      accumulator keeps every byte. */
  lemma CeilingFails(acc: seq<byte>, data: seq<byte>)
    requires |acc| + |data| > MAX_BUFFERED
    ensures Accept(acc, data) == Unmarshalled([], Some(BufferGrewTooBig), acc + data)
  {
  }

  /** A call that returns no error leaves a suffix of the accumulator, and
      that suffix is empty or an incomplete frame: the loop stops only where
      the source says it does. */
  lemma {:induction false} FramesStopAtIncomplete(s: seq<byte>)
    ensures var o := Frames(s);
            o.err.None? ==>
              |o.rest| <= |s| && o.rest == s[|s| - |o.rest|..] &&
              (|o.rest| == 0 || NextFrame(o.rest) == Incomplete)
    decreases |s|
  {
    if |s| > 0 {
      var step := NextFrame(s);
      if step.Complete? {
        var r := step.rest;
        FramesStopAtIncomplete(r);
        var o := Frames(r);
        assert Frames(s) == Prefixed([step.packet], o);
        if o.err.None? {
          SuffixOfSuffix(s, r, o.rest);
        }
      }
    }
  }

  lemma SuffixOfSuffix(s: seq<byte>, r: seq<byte>, t: seq<byte>)
    requires |r| <= |s| && r == s[|s| - |r|..]
    requires |t| <= |r| && t == r[|r| - |t|..]
    ensures t == s[|s| - |t|..]
  {
  }

  // -------------------------------------------------------------------
  // A frame shorter than its id

  /** The frame [0x01, 0x80, 0x01] declares one byte, but its id takes two:
      the body length 1 - 2 is negative and Read panics slicing with it. */
  lemma ShortFramePanics()
    ensures NextFrame([0x01, 0x80, 0x01]) == Failed(SliceBoundsPanic, [])
    ensures Frames([0x01, 0x80, 0x01]).err == Some(SliceBoundsPanic)
  {
    var s: seq<byte> := [0x01, 0x80, 0x01];
    assert ReadVarIntFrom(s) == VarOk(1, 1);
    assert s[1..] == [0x80, 0x01];
    assert ReadVarIntFrom([0x80, 0x01]) == VarOk(128, 2);
  }

  /** The frame step with the check the framer evidently intends: a frame
      whose id runs past its declared length is rejected as an invalid
      length instead of reaching Read with a negative length. */
  function CheckedNextFrame(s: seq<byte>): Step {
    match ReadVarIntFrom(s)
    case VarFail(_, _) => Incomplete
    case VarOk(u, n) =>
      var length := WrapInt32(u);
      var r := s[n..];
      if length < 1 then Failed(InvalidPacketLength, r)
      else if length > |r| then Incomplete
      else
        match ReadVarIntFrom(r)
        case VarFail(e, m) => Failed(e, r[m..])
        case VarOk(id, m) =>
          if m > length then Failed(InvalidPacketLength, r[m..])
          else match ReadBytesFrom(r[m..], length - m)
          case Fault(e, rest) => Failed(e, rest)
          case Got(body, rest) => Complete(Packet(WrapInt32(id), body), rest)
  }

  /** The checked step never panics, a complete frame takes exactly its
      length prefix and its declared length, and wherever the step as
      written does not panic the two agree. */
  lemma CheckedNextFrameSafe(s: seq<byte>)
    ensures var c := CheckedNextFrame(s);
            !(c.Failed? && c.err.IsPanic()) &&
            (c.Complete? ==> exists n :: 0 < n <= |s| && ReadVarIntFrom(s) == VarOk(ReadVarIntFrom(s).u, n) &&
                                         |s| - |c.rest| == n + WrapInt32(ReadVarIntFrom(s).u))
    ensures var w := NextFrame(s);
            !(w.Failed? && w.err.IsPanic()) ==> CheckedNextFrame(s) == w
  {
    match ReadVarIntFrom(s)
    case VarFail(_, _) =>
    case VarOk(u, n) =>
      var r := s[n..];
      if 1 <= WrapInt32(u) <= |r| {
        match ReadVarIntFrom(r)
        case VarFail(_, _) =>
        case VarOk(_, m) =>
          assert |r[m..]| == |r| - m;
      }
  }
}
