/** Wire-level vocabulary of the protocol codec: bytes, the signed integer
    widths of the Go source and their wrap-around conversions, the error
    values the codec reports, and the byte layouts of the primitive wire types
    (big-endian fixed-width integers and the 7-bit VarInt/VarLong groups) with
    their decoders and round-trip lemmas. */
module Wire {

  type byte = x: int | 0 <= x < 256
  type uint16 = x: int | 0 <= x < 0x1_0000
  type int16 = x: int | -0x8000 <= x < 0x8000
  type int32 = x: int | -0x8000_0000 <= x < 0x8000_0000
  type int64 = x: int | -0x8000_0000_0000_0000 <= x < 0x8000_0000_0000_0000
  type uint32 = x: int | 0 <= x < 0x1_0000_0000
  type uint64 = x: int | 0 <= x < 0x1_0000_0000_0000_0000

  /** Errors and panics of the codec, the framer, the NBT writer and the
      message registry. A constructor whose name ends in `Panic` stands for a
      Go run-time panic: it is never discarded by a caller. */
  datatype Error =
    | BufferTooShort        // Read/ReadShort/ReadInt/ReadLong: fewer bytes than needed
    | BufferEmpty           // ReadByte on an empty buffer
    | InvalidBoolean        // ReadBoolean: a byte other than 0x00 or 0x01
    | VarIntTooBig          // ReadVarInt: the 5th byte still has its continuation bit
    | VarLongTooBig         // ReadVarLong: the 10th byte still has its continuation bit
    | NegativeStringLength
    | StringTooLong         // string length beyond the remaining bytes
    | UnhandledType         // ReadReflected/WriteAny on a type with no case
    | UnhandledLengthType   // readLength/writeLength with a length type other than "varint"
    | NotASlice             // WriteSlice given a value that is not a slice
    | BufferGrewTooBig      // the framer's accumulation buffer passed its ceiling
    | InvalidPacketLength   // a frame length below 1
    | UnknownNbtState
    | UnhandledNbtTag
    | InconsistentListTypes
    | UnknownServerbound    // no serverbound registration for (state, id)
    | UnknownClientbound    // no clientbound registration for a type
    | MissingSliceTag       // a slice field without a `message` tag
    | UnknownTagContents    // a `message` tag that does not start with "length:"
    | InvalidHexColor
    | SliceBoundsPanic      // raw[:n] with n < 0
    | MakeSliceLenPanic     // reflect.MakeSlice with a negative length
    | TypeAssertionPanic    // v.Value.(T) on a value of another type
    | UnassignablePanic     // reflect.Value.Set with a value of another type
    | MismatchedListTagsPanic
    | RegistrationPanic     // registering a type without the embedded marker field
  {
    predicate IsPanic() {
      SliceBoundsPanic? || MakeSliceLenPanic? || TypeAssertionPanic? || UnassignablePanic? ||
      MismatchedListTagsPanic? || RegistrationPanic?
    }
  }

  datatype Option<+T> = None | Some(value: T)

  /** A value, or the error a Go function returned instead. */
  datatype Result<+T> = Ok(value: T) | Err(err: Error)

  /** A read from the front of a byte sequence: the value and the bytes that
      remain, or the error and the bytes that remain after what the failing
      read had already consumed. */
  datatype Read<+T> = Got(value: T, rest: seq<byte>) | Fault(err: Error, rest: seq<byte>)

  function Pow2(k: nat): (r: nat)
    ensures r >= 1
  {
    if k == 0 then 1 else 2 * Pow2(k - 1)
  }

  function Pow256(n: nat): (r: nat)
    ensures r >= 1
  {
    if n == 0 then 1 else 256 * Pow256(n - 1)
  }

  /** Go's `byte(x)`: the low eight bits of a two's-complement integer. */
  function Lsb(x: int): byte { x % 256 }

  /** Go's truncating conversions to int16, int32 and int64. */
  function WrapInt16(x: int): (r: int16)
    ensures -0x8000 <= x < 0x8000 ==> r == x
  {
    var u := x % 0x1_0000;
    if u >= 0x8000 then u - 0x1_0000 else u
  }

  function WrapInt32(x: int): (r: int32)
    ensures -0x8000_0000 <= x < 0x8000_0000 ==> r == x
  {
    var u := x % 0x1_0000_0000;
    if u >= 0x8000_0000 then u - 0x1_0000_0000 else u
  }

  function WrapInt64(x: int): (r: int64)
    ensures -0x8000_0000_0000_0000 <= x < 0x8000_0000_0000_0000 ==> r == x
  {
    var u := x % 0x1_0000_0000_0000_0000;
    if u >= 0x8000_0000_0000_0000 then u - 0x1_0000_0000_0000_0000 else u
  }

  // ---------------------------------------------------------------------
  // Arithmetic facts used by the layout proofs

  lemma DivModUnique(u: int, m: int, q: int, r: int)
    requires m > 0 && u == q * m + r && 0 <= r < m
    ensures u / m == q && u % m == r
  {
    var q', r' := u / m, u % m;
    var d := q - q';
    assert d * m == q * m - q' * m;
    assert d * m == r' - r;
    if d >= 1 {
      assert d * m >= m by { MulAtLeast(d, m); }
    } else if d <= -1 {
      assert -d * m >= m by { MulAtLeast(-d, m); }
    }
  }

  lemma MulAtLeast(d: int, m: int)
    requires d >= 1 && m > 0
    ensures d * m >= m
  {
    assert d * m == (d - 1) * m + m;
  }

  /** Taking the low byte and then the low n bytes of the rest is the same as
      taking the low n+1 bytes. */
  lemma ModSplit(u: int, p: nat)
    requires p >= 1
    ensures u % (256 * p) == (u / 256) % p * 256 + u % 256
  {
    var q, r := u / 256, u % 256;
    var a, b := q / p, q % p;
    assert u == a * (256 * p) + (b * 256 + r) by {
      assert u == q * 256 + r;
      assert q == a * p + b;
    }
    DivModUnique(u, 256 * p, a, b * 256 + r);
  }

  /** Two arithmetic right shifts are one: `v >> a >> b == v >> (a + b)`. */
  lemma DivDiv(v: int, a: int, b: int)
    requires a > 0 && b > 0
    ensures v / a / b == v / (a * b)
  {
    var q1, r1 := v / a, v % a;
    var q2, r2 := q1 / b, q1 % b;
    var ab := a * b;
    assert a * q1 == ab * q2 + a * r2 by {
      assert q1 == b * q2 + r2;
      MulAdd(a, b * q2, r2);
      assert a * (b * q2) == ab * q2;
    }
    assert a * r2 + r1 < ab by {
      MulAtMost(a, r2, b - 1);
      MulAdd(a, b, -1);
    }
    DivModUnique(v, ab, q2, a * r2 + r1);
  }

  lemma MulAdd(a: int, x: int, y: int)
    ensures a * (x + y) == a * x + a * y
  {
  }

  lemma MulAtMost(a: int, x: int, y: int)
    requires a >= 0 && x <= y
    ensures a * x <= a * y
  {
  }

  /** The low bits survive reduction modulo any multiple of the modulus. */
  lemma ModMod(x: int, m: int, k: int)
    requires m > 0 && k > 0
    ensures (x % (m * k)) % m == x % m
  {
    var q, r := x / (m * k), x % (m * k);
    var q', r' := r / m, r % m;
    assert x == m * (k * q + q') + r' by {
      assert x == (m * k) * q + r;
      assert r == m * q' + r';
    }
    DivModUnique(x, m, k * q + q', r');
  }

  lemma ConcatAssoc<T>(a: seq<T>, b: seq<T>, c: seq<T>)
    ensures (a + b) + c == a + (b + c)
  {
  }

  // ---------------------------------------------------------------------
  // Big-endian fixed-width integers

  /** The low n bytes of v, most significant first: `byte(v >> 8*(n-1))`, ...,
      `byte(v)` as WriteShort/WriteInt/WriteLong emit them. */
  function BigEndian(v: int, n: nat): (r: seq<byte>)
    decreases n
    ensures |r| == n
  {
    if n == 0 then [] else BigEndian(v / 256, n - 1) + [Lsb(v)]
  }

  /** The unsigned value of a big-endian byte sequence. */
  function FromBigEndian(s: seq<byte>): (r: nat)
    ensures r < Pow256(|s|)
  {
    if s == [] then 0
    else
      var hi := FromBigEndian(s[..|s| - 1]);
      assert hi <= Pow256(|s| - 1) - 1;
      assert hi * 256 <= Pow256(|s|) - 256;
      hi * 256 + s[|s| - 1]
  }

  /** Decoding the n bytes of BigEndian(v, n) gives v modulo 256^n. */
  lemma {:induction false} BigEndianRoundTrip(v: int, n: nat)
    decreases n
    ensures FromBigEndian(BigEndian(v, n)) == v % Pow256(n)
  {
    if n > 0 {
      var s := BigEndian(v, n);
      assert s[..n - 1] == BigEndian(v / 256, n - 1);
      BigEndianRoundTrip(v / 256, n - 1);
      ModSplit(v, Pow256(n - 1));
    }
  }

  /** Byte i of BigEndian(v, n) is `byte(v >> 8*(n-1-i))`. */
  lemma {:induction false} BigEndianDigit(v: int, n: nat, i: nat)
    requires i < n
    decreases n
    ensures BigEndian(v, n)[i] == Lsb(v / Pow256(n - 1 - i))
  {
    if i < n - 1 {
      BigEndianDigit(v / 256, n - 1, i);
      DivDiv(v, 256, Pow256(n - 2 - i));
    }
  }

  lemma Pow256Table()
    ensures Pow256(1) == 0x100 && Pow256(2) == 0x1_0000 && Pow256(3) == 0x100_0000
    ensures Pow256(4) == 0x1_0000_0000 && Pow256(5) == 0x100_0000_0000
    ensures Pow256(6) == 0x1_0000_0000_0000 && Pow256(7) == 0x100_0000_0000_0000
  {
  }

  /** The bytes WriteShort, WriteInt and WriteLong emit, one shift each. */
  lemma ShortBytesDigits(v: int)
    ensures BigEndian(v, 2) == [Lsb(v / 0x100), Lsb(v)]
  {
    Pow256Table();
    BigEndianDigit(v, 2, 0);
    BigEndianDigit(v, 2, 1);
  }

  lemma IntBytesDigits(v: int)
    ensures BigEndian(v, 4) == [Lsb(v / 0x100_0000), Lsb(v / 0x1_0000), Lsb(v / 0x100), Lsb(v)]
  {
    Pow256Table();
    forall i | 0 <= i < 4 {
      BigEndianDigit(v, 4, i);
    }
  }

  lemma LongBytesDigits(v: int)
    ensures BigEndian(v, 8) ==
      [Lsb(v / 0x100_0000_0000_0000), Lsb(v / 0x1_0000_0000_0000), Lsb(v / 0x100_0000_0000),
       Lsb(v / 0x1_0000_0000), Lsb(v / 0x100_0000), Lsb(v / 0x1_0000), Lsb(v / 0x100), Lsb(v)]
  {
    Pow256Table();
    forall i | 0 <= i < 8 {
      BigEndianDigit(v, 8, i);
    }
  }

  /** The value of the first k bytes from that of the first k-1. */
  lemma FromBigEndianSnoc(s: seq<byte>, k: nat)
    requires 1 <= k <= |s|
    ensures FromBigEndian(s[..k]) == FromBigEndian(s[..k - 1]) * 256 + s[k - 1]
  {
    assert s[..k][..k - 1] == s[..k - 1];
  }

  /** `int16(s[0])<<8 | int16(s[1])` before truncation, and the 4- and 8-byte
      analogues: the shifted bytes do not overlap, so `|` is a sum. */
  lemma ShortValue(s: seq<byte>)
    requires |s| >= 2
    ensures FromBigEndian(s[..2]) == s[0] as int * 0x100 + s[1]
  {
    assert s[..0] == [];
    FromBigEndianSnoc(s, 1);
    FromBigEndianSnoc(s, 2);
  }

  lemma IntValue(s: seq<byte>)
    requires |s| >= 4
    ensures FromBigEndian(s[..4]) == s[0] as int * 0x100_0000 + s[1] as int * 0x1_0000 + s[2] as int * 0x100 + s[3]
  {
    ShortValue(s);
    FromBigEndianSnoc(s, 3);
    FromBigEndianSnoc(s, 4);
  }

  lemma LongValue(s: seq<byte>)
    requires |s| >= 8
    ensures FromBigEndian(s[..8]) ==
      s[0] as int * 0x100_0000_0000_0000 + s[1] as int * 0x1_0000_0000_0000 + s[2] as int * 0x100_0000_0000 +
      s[3] as int * 0x1_0000_0000 + s[4] as int * 0x100_0000 + s[5] as int * 0x1_0000 + s[6] as int * 0x100 + s[7]
  {
    IntValue(s);
    FromBigEndianSnoc(s, 5);
    FromBigEndianSnoc(s, 6);
    FromBigEndianSnoc(s, 7);
    FromBigEndianSnoc(s, 8);
  }

  /** A sequence is the big-endian encoding of its own value. */
  lemma {:induction false} BigEndianOfValue(s: seq<byte>)
    ensures BigEndian(FromBigEndian(s), |s|) == s
  {
    if s != [] {
      var n := |s|;
      var hi := FromBigEndian(s[..n - 1]);
      var u := hi * 256 + s[n - 1];
      DivModUnique(u, 256, hi, s[n - 1]);
      BigEndianOfValue(s[..n - 1]);
    }
  }

  lemma {:induction false} Pow2Add(a: nat, b: nat)
    decreases a
    ensures Pow2(a + b) == Pow2(a) * Pow2(b)
  {
    if a > 0 {
      Pow2Add(a - 1, b);
    }
  }

  lemma Pow256Values()
    ensures Pow256(2) == 0x1_0000 && Pow256(4) == 0x1_0000_0000
    ensures Pow256(8) == 0x1_0000_0000_0000_0000
  {
    assert Pow256(4) == Pow256(2) * Pow256(2);
    assert Pow256(8) == Pow256(4) * Pow256(4) by {
      assert Pow256(8) == 256 * 256 * 256 * 256 * Pow256(4);
    }
  }

  /** A value in [-half, half) taken modulo 2*half, then read back as signed. */
  lemma SignedMod(v: int, half: int)
    requires half > 0 && -half <= v < half
    ensures v >= 0 ==> v % (2 * half) == v
    ensures v < 0 ==> v % (2 * half) == v + 2 * half
  {
    if v >= 0 {
      DivModUnique(v, 2 * half, 0, v);
    } else {
      DivModUnique(v, 2 * half, -1, v + 2 * half);
    }
  }

  // Fixed-width layouts of the Go source (two's complement, big-endian).

  function ShortBytes(v: int16): seq<byte> { BigEndian(v, 2) }
  function IntBytes(v: int32): seq<byte> { BigEndian(v, 4) }
  function LongBytes(v: int64): seq<byte> { BigEndian(v, 8) }

  /** `int16(b0)<<8 | int16(b1)` and its 32- and 64-bit analogues. */
  function ShortOf(s: seq<byte>): int16
    requires |s| == 2
  {
    WrapInt16(FromBigEndian(s))
  }

  function IntOf(s: seq<byte>): int32
    requires |s| == 4
  {
    WrapInt32(FromBigEndian(s))
  }

  function LongOf(s: seq<byte>): int64
    requires |s| == 8
  {
    WrapInt64(FromBigEndian(s))
  }

  lemma ShortRoundTrip(v: int16)
    ensures ShortOf(ShortBytes(v)) == v
  {
    BigEndianRoundTrip(v, 2);
    Pow256Values();
    SignedMod(v, 0x8000);
  }

  lemma IntRoundTrip(v: int32)
    ensures IntOf(IntBytes(v)) == v
  {
    BigEndianRoundTrip(v, 4);
    Pow256Values();
    SignedMod(v, 0x8000_0000);
  }

  lemma LongRoundTrip(v: int64)
    ensures LongOf(LongBytes(v)) == v
  {
    BigEndianRoundTrip(v, 8);
    Pow256Values();
    SignedMod(v, 0x8000_0000_0000_0000);
  }
}
