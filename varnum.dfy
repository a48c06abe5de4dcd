/** VarInt and VarLong: signed integers written as 7-bit groups, lowest group
    first, with the continuation bit 0x80 on every group but the last. A VarInt
    holds a 32-bit value and takes at most 5 bytes, a VarLong a 64-bit value and
    at most 10 bytes. */
module VarNum {
  import opened Wire

  const VARINT_MAX_BYTES := 5
  const VARLONG_MAX_BYTES := 10

  function Pow128(k: nat): (r: nat)
    ensures r >= 1
  {
    if k == 0 then 1 else 128 * Pow128(k - 1)
  }

  /** The groups WriteVarInt/WriteVarLong emit for the unsigned bit pattern u:
      while u has bits above the low seven, emit `u&0x7F | 0x80` and shift u
      right by seven; then emit the last group. */
  function Groups(u: nat): (r: seq<byte>)
    decreases u
    ensures |r| >= 1
  {
    if u < 128 then [u] else [u % 128 + 128] + Groups(u / 128)
  }

  /** The bytes of a VarInt: the groups of its 32-bit two's-complement pattern. */
  function VarIntBytes(v: int32): seq<byte> {
    Groups(v % 0x1_0000_0000)
  }

  /** The bytes of a VarLong: the groups of its 64-bit two's-complement pattern. */
  function VarLongBytes(v: int64): seq<byte> {
    Groups(v % 0x1_0000_0000_0000_0000)
  }

  /** The outcome of reading groups: the unsigned sum of the groups and the
      number of bytes taken, or the error and the number of bytes consumed
      before it (ReadByte does not put them back). */
  datatype VarRead = VarOk(u: nat, n: nat) | VarFail(err: Error, n: nat)

  /** ReadVarInt (limit 5, VarIntTooBig) and ReadVarLong (limit 10,
      VarLongTooBig) as a function of the buffer's bytes: take bytes until one
      lacks the continuation bit; fail when the buffer runs out, or when the
      limit-th byte still has the bit set. */
  function ReadGroups(s: seq<byte>, limit: nat, tooBig: Error): (r: VarRead)
    requires limit >= 1
    decreases limit
    ensures r.n <= |s| && r.n <= limit
    ensures r.VarOk? ==> r.n >= 1 && s[r.n - 1] < 128
    ensures r.VarFail? ==> r.err == BufferEmpty || r.err == tooBig
  {
    if |s| == 0 then VarFail(BufferEmpty, 0)
    else if s[0] < 128 then VarOk(s[0], 1)
    else if limit == 1 then VarFail(tooBig, 1)
    else
      match ReadGroups(s[1..], limit - 1, tooBig)
      case VarOk(u, n) => VarOk(s[0] - 128 + 128 * u, n + 1)
      case VarFail(e, n) => VarFail(e, n + 1)
  }

  /** ReadVarInt's result on the bytes s: Go accumulates `(b & 0x7F) << position`
      into an int32, so the sum of the groups is taken modulo 2^32 (the high
      bits of a fifth group are dropped) and read as signed. */
  function ReadVarIntFrom(s: seq<byte>): VarRead {
    ReadGroups(s, VARINT_MAX_BYTES, VarIntTooBig)
  }

  function ReadVarLongFrom(s: seq<byte>): VarRead {
    ReadGroups(s, VARLONG_MAX_BYTES, VarLongTooBig)
  }

  /** A read of the bytes after the first k, seen from the start: the groups
      already summed into u come first, so the later ones weigh 128^k more. */
  function Shift(r: VarRead, u: nat, k: nat): VarRead {
    match r
    case VarOk(u', n) => VarOk(u + Pow128(k) * u', n + k)
    case VarFail(e, n) => VarFail(e, n + k)
  }

  // ---------------------------------------------------------------------
  // Properties

  /** A byte with the continuation bit, below the limit: its group is summed
      and the read goes on with the next byte and one byte less of budget. */
  lemma ReadGroupsStep(s: seq<byte>, limit: nat, tooBig: Error)
    requires |s| > 0 && s[0] >= 128 && limit > 1
    ensures ReadGroups(s, limit, tooBig) == Shift(ReadGroups(s[1..], limit - 1, tooBig), s[0] - 128, 1)
  {
  }

  /** `(b & 0x7F) << position`, as ReadVarInt adds it before truncation to
      the value's width. */
  function Group(b: byte, position: nat): nat {
    (b % 0x80) * Pow2(position)
  }

  lemma GroupAt(b: byte, n: nat)
    ensures Group(b, 7 * n) == Pow128(n) * (if b < 0x80 then b else b - 0x80)
  {
    Pow2Pow128(n);
  }

  lemma {:induction false} Pow2Pow128(n: nat)
    ensures Pow2(7 * n) == Pow128(n)
  {
    if n > 0 {
      Pow2Pow128(n - 1);
      Pow2Add(7 * (n - 1), 7);
    }
  }

  /** The rest of a read, as ReadVarInt's loop performs it: n bytes taken so
      far, their groups accumulated into u, at most m more bytes. */
  function ResumeGroups(s: seq<byte>, m: nat, u: nat, n: nat, tooBig: Error): VarRead
    requires m >= 1
    decreases m
  {
    if |s| == 0 then VarFail(BufferEmpty, n)
    else if s[0] < 128 then VarOk(u + Group(s[0], 7 * n), n + 1)
    else if m == 1 then VarFail(tooBig, n + 1)
    else ResumeGroups(s[1..], m - 1, u + Group(s[0], 7 * n), n + 1, tooBig)
  }

  /** One step of WriteVarInt's loop on a signed value x of the width m: a
      value in [0, 128) is its own last group; any other has the group
      `x&0x7F | 0x80` followed by the groups of `uint(x) >> 7`, which is
      smaller and fits the signed type unchanged. */
  lemma GroupsOfWord(x: int, m: int)
    requires m == 0x1_0000_0000 || m == 0x1_0000_0000_0000_0000
    requires -m / 2 <= x < m / 2
    ensures 0 <= x < 128 ==> Groups(x % m) == [x]
    ensures !(0 <= x < 128) ==>
              var u := x % m;
              u >= 128 && u / 128 < m / 2 && (u / 128) % m == u / 128 && u / 128 < u &&
              Groups(u) == [x % 128 + 128] + Groups((u / 128) % m)
  {
    var u := x % m;
    if 0 <= x < 128 {
      DivModUnique(x, m, 0, x);
    } else {
      if x < 0 { DivModUnique(x, m, -1, x + m); } else { DivModUnique(x, m, 0, x); }
      ModMod(x, 128, m / 128);
      DivModUnique(u / 128, m, 0, u / 128);
    }
  }

  /** One more byte with the continuation bit, below the limit. */
  lemma ResumeStep(s: seq<byte>, m: nat, u: nat, n: nat, s': seq<byte>, m': nat, u': nat, n': nat, tooBig: Error)
    requires |s| > 0 && s[0] >= 128 && m > 1
    requires s' == s[1..] && m' == m - 1 && u' == u + Group(s[0], 7 * n) && n' == n + 1
    ensures ResumeGroups(s, m, u, n, tooBig) == ResumeGroups(s', m', u', n', tooBig)
  {
  }

  /** Resuming a read is the read of the remaining bytes, shifted past what
      was taken: the loop computes ReadGroups. */
  lemma {:induction false} ResumeGroupsShift(s: seq<byte>, m: nat, u: nat, n: nat, tooBig: Error)
    requires m >= 1
    decreases m
    ensures ResumeGroups(s, m, u, n, tooBig) == Shift(ReadGroups(s, m, tooBig), u, n)
  {
    if |s| > 0 {
      GroupAt(s[0], n);
      if s[0] >= 128 && m > 1 {
        ResumeGroupsShift(s[1..], m - 1, u + Group(s[0], 7 * n), n + 1, tooBig);
        ReadGroupsStep(s, m, tooBig);
        ShiftShift(ReadGroups(s[1..], m - 1, tooBig), s[0] - 128, u, n);
      }
    }
  }

  lemma ShiftShift(r: VarRead, a: nat, u: nat, k: nat)
    ensures Shift(Shift(r, a, 1), u, k) == Shift(r, u + Pow128(k) * a, k + 1)
  {
    match r
    case VarFail(e, n) =>
    case VarOk(x, n) =>
      var y := Shift(r, a, 1).u;
      assert y == a + Pow128(1) * x;
      ShiftArith(Pow128(k), Pow128(k + 1), a, x, y, u);
  }

  /** The arithmetic of ShiftShift, kept apart from the datatypes. */
  lemma ShiftArith(p: int, q: int, a: int, x: int, y: int, u: int)
    requires y == a + Pow128(1) * x && q == 128 * p
    ensures u + p * y == (u + p * a) + q * x
  {
    MulAdd(p, a, 128 * x);
    MulComm128(p, x);
  }

  lemma MulComm128(p: int, x: int)
    ensures p * (128 * x) == (128 * p) * x
  {
  }

  /** A value below 128^k has at most k groups. */
  lemma {:induction false} GroupsBound(u: nat, k: nat)
    requires k >= 1 && u < Pow128(k)
    decreases u
    ensures |Groups(u)| <= k
  {
    if u >= 128 {
      assert k != 1 by { assert Pow128(1) == 128; }
      GroupsBound(u / 128, k - 1);
    }
  }

  /** WriteVarInt emits at most 5 bytes, WriteVarLong at most 10. */
  lemma VarIntBytesBound(v: int32)
    ensures 1 <= |VarIntBytes(v)| <= VARINT_MAX_BYTES
  {
    assert Pow128(5) == 0x8_0000_0000;
    GroupsBound(v % 0x1_0000_0000, 5);
  }

  lemma VarLongBytesBound(v: int64)
    ensures 1 <= |VarLongBytes(v)| <= VARLONG_MAX_BYTES
  {
    assert Pow128(10) == 0x40_0000_0000_0000_0000;
    GroupsBound(v % 0x1_0000_0000_0000_0000, 10);
  }

  /** Reading the groups of u back, within the byte limit, gives u and
      consumes exactly those groups, whatever follows them. */
  lemma {:induction false} GroupsRoundTrip(u: nat, rest: seq<byte>, limit: nat, tooBig: Error)
    requires 1 <= |Groups(u)| <= limit
    decreases u
    ensures ReadGroups(Groups(u) + rest, limit, tooBig) == VarOk(u, |Groups(u)|)
  {
    var s := Groups(u) + rest;
    if u >= 128 {
      assert s[1..] == Groups(u / 128) + rest;
      GroupsRoundTrip(u / 128, rest, limit - 1, tooBig);
    }
  }

  /** Reading a proper prefix of the groups of u runs out of bytes after
      consuming the whole prefix. */
  lemma {:induction false} GroupsPrefixRunsOut(u: nat, j: nat, limit: nat, tooBig: Error)
    requires j < |Groups(u)| <= limit
    decreases u
    ensures ReadGroups(Groups(u)[..j], limit, tooBig) == VarFail(BufferEmpty, j)
  {
    if j > 0 {
      var s := Groups(u)[..j];
      assert s[1..] == Groups(u / 128)[..j - 1];
      GroupsPrefixRunsOut(u / 128, j - 1, limit - 1, tooBig);
    }
  }

  /** When every one of the first `limit` bytes carries the continuation bit,
      the read fails as too big after consuming exactly `limit` bytes. */
  lemma {:induction false} ReadGroupsTooBig(s: seq<byte>, limit: nat, tooBig: Error)
    requires 1 <= limit <= |s|
    requires forall i :: 0 <= i < limit ==> s[i] >= 128
    decreases limit
    ensures ReadGroups(s, limit, tooBig) == VarFail(tooBig, limit)
  {
    if limit > 1 {
      ReadGroupsTooBig(s[1..], limit - 1, tooBig);
    }
  }

  /** When fewer than `limit` bytes remain and all carry the continuation bit,
      the read fails for want of bytes after consuming all of them. */
  lemma {:induction false} ReadGroupsRunsOut(s: seq<byte>, limit: nat, tooBig: Error)
    requires |s| < limit
    requires forall i :: 0 <= i < |s| ==> s[i] >= 128
    decreases |s|
    ensures ReadGroups(s, limit, tooBig) == VarFail(BufferEmpty, |s|)
  {
    if |s| > 0 {
      ReadGroupsRunsOut(s[1..], limit - 1, tooBig);
    }
  }

  /** Round trip of WriteVarInt/ReadVarInt, negative values included: the
      value comes back with the byte count WriteVarInt reported. */
  lemma VarIntRoundTrip(v: int32, rest: seq<byte>)
    ensures var r := ReadVarIntFrom(VarIntBytes(v) + rest);
            r.VarOk? && WrapInt32(r.u) == v && r.n == |VarIntBytes(v)|
  {
    var u := v % 0x1_0000_0000;
    VarIntBytesBound(v);
    GroupsRoundTrip(u, rest, VARINT_MAX_BYTES, VarIntTooBig);
    SignedMod(v, 0x8000_0000);
    DivModUnique(u, 0x1_0000_0000, 0, u);
  }

  lemma VarLongRoundTrip(v: int64, rest: seq<byte>)
    ensures var r := ReadVarLongFrom(VarLongBytes(v) + rest);
            r.VarOk? && WrapInt64(r.u) == v && r.n == |VarLongBytes(v)|
  {
    var u := v % 0x1_0000_0000_0000_0000;
    VarLongBytesBound(v);
    GroupsRoundTrip(u, rest, VARLONG_MAX_BYTES, VarLongTooBig);
    SignedMod(v, 0x8000_0000_0000_0000);
    DivModUnique(u, 0x1_0000_0000_0000_0000, 0, u);
  }

  /** A proper prefix of a VarInt's bytes is an incomplete read. */
  lemma VarIntPrefixRunsOut(v: int32, j: nat)
    requires j < |VarIntBytes(v)|
    ensures ReadVarIntFrom(VarIntBytes(v)[..j]) == VarFail(BufferEmpty, j)
  {
    VarIntBytesBound(v);
    GroupsPrefixRunsOut(v % 0x1_0000_0000, j, VARINT_MAX_BYTES, VarIntTooBig);
  }
}
