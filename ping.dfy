/** The length-prefixed packet codec of web-mcping/src/ping.ts: a `Packet` is a byte
    buffer with a read cursor and a write cursor, following the VarInt and packet
    framing of the Minecraft Java Edition network protocol. The view is taken to start
    at byte 0 of its buffer, so absolute and view-relative offsets coincide. Strings are
    handled as their UTF-8 bytes. */
module Ping {
  import opened Wrappers
  import opened Bytes

  const SEGMENT_BITS: nat := 0x7F
  const CONTINUE_BIT: nat := 0x80
  const PACKET_LEN_RESERVE: nat := 8
  const U16: nat := 0x1_0000
  const U32: nat := 0x1_0000_0000
  const I32: int := 0x8000_0000
  const U64: nat := 0x1_0000_0000_0000_0000
  const I64: int := 0x8000_0000_0000_0000

  /** The signed 32-bit reading of a value (`x | 0` in JavaScript). */
  function ToInt32(x: int): (r: int)
    ensures -I32 <= r < I32
    ensures -I32 <= x < I32 ==> r == x
  {
    var u := x % U32;
    if u >= I32 then u - U32 else u
  }

  /** The signed 64-bit reading of a value (`BigInt.asIntN(64, x)`). */
  function ToInt64(x: int): (r: int)
    ensures -I64 <= r < I64
    ensures -I64 <= x < I64 ==> r == x
  {
    var u := x % U64;
    if u >= I64 then u - U64 else u
  }

  // ---------------------------------------------------------------------------
  // VarInt
  // ---------------------------------------------------------------------------

  /** The VarInt encoding of an unsigned value: 7-bit groups, least significant first,
      every byte but the last with the continuation bit set. */
  function VarIntBytes(u: nat): (r: seq<byte>)
    ensures 1 <= |r|
  {
    if u < 128 then [u] else [u % 128 + CONTINUE_BIT] + VarIntBytes(u / 128)
  }

  /** Only the last byte of a VarInt lacks the continuation bit, so it delimits itself. */
  lemma {:induction false} VarIntBytesShape(u: nat)
    ensures var r := VarIntBytes(u);
      r[|r| - 1] < CONTINUE_BIT && forall k :: 0 <= k < |r| - 1 ==> r[k] >= CONTINUE_BIT
  {
    if u >= 128 {
      VarIntBytesShape(u / 128);
    }
  }

  /** The outcome of reading a VarInt: input ran out, the value ran past 32 bits, or a
      value and the number of bytes it took. */
  datatype VarIntRead = Truncated | TooBig | Read(value: int, length: nat)

  /** A VarInt read whose length is shifted by `k` bytes read before it. */
  function Shift(r: VarIntRead, k: nat): VarIntRead {
    match r
    case Read(v, n) => Read(v, n + k)
    case other => other
  }

  /** Reading a VarInt whose earlier groups contributed `acc`, the next group being
      worth `scale` and sitting at bit `position`; a read value is the unsigned sum of
      the groups. Groups occupy disjoint bits, so OR-ing them in is adding them. A
      fifth group with the continuation bit set is refused (position 35 is past 32
      bits). */
  function ReadVarIntFrom(s: seq<byte>, position: int, acc: nat, scale: nat): VarIntRead
  {
    if |s| == 0 then Truncated
    else
      var next := acc + (s[0] % 128) * scale;
      if s[0] < CONTINUE_BIT then Read(next, 1)
      else if position + 7 >= 32 then TooBig
      else Shift(ReadVarIntFrom(s[1..], position + 7, next, scale * 128), 1)
  }

  /** The sum of the groups read as a signed 32-bit value, as `result |= ...` keeps it. */
  function Signed(r: VarIntRead): VarIntRead {
    match r
    case Read(v, n) => Read(ToInt32(v), n)
    case other => other
  }

  lemma ShiftShift(r: VarIntRead, k: nat)
    ensures Shift(Shift(r, 1), k) == Shift(r, k + 1)
  {
  }

  /** The last byte of a VarInt, and a continuation byte past bit 32. */
  lemma ReadStep(s: seq<byte>, position: int, acc: nat, scale: nat)
    requires |s| > 0
    ensures s[0] < CONTINUE_BIT ==>
      ReadVarIntFrom(s, position, acc, scale) == Read(acc + (s[0] % 128) * scale, 1)
    ensures s[0] >= CONTINUE_BIT && position + 7 >= 32 ==> ReadVarIntFrom(s, position, acc, scale) == TooBig
  {
  }

  function DecodeVarInt(s: seq<byte>): VarIntRead {
    Signed(ReadVarIntFrom(s, 0, 0, 1))
  }

  function Pow128(k: nat): (r: nat)
    ensures r >= 1
  {
    if k == 0 then 1 else 128 * Pow128(k - 1)
  }

  lemma Regroup(u: nat, p: nat, acc: nat)
    requires u >= 128
    ensures acc + (u % 128) * p + (u / 128) * (p * 128) == acc + u * p
  {
    var g := u % 128;
    var q := u / 128;
    assert u == g + 128 * q;
    assert (u / 128) * (p * 128) == p * (128 * q);
    assert g * p + p * (128 * q) == (g + 128 * q) * p;
  }

  /** One continuation byte below bit 32 adds its group and moves on. */
  lemma ReadContinued(s: seq<byte>, position: int, acc: nat, scale: nat)
    requires |s| > 0 && s[0] >= CONTINUE_BIT && position + 7 < 32
    ensures ReadVarIntFrom(s, position, acc, scale) ==
      Shift(ReadVarIntFrom(s[1..], position + 7, acc + (s[0] % 128) * scale, scale * 128), 1)
  {
  }

  /** The step of `ReadVarIntBytes` for a value of more than one group. */
  lemma ReadVarIntGroup(u: nat, rest: seq<byte>, k: nat, acc: nat)
    requires 128 <= u && k <= 3
    requires ReadVarIntFrom(VarIntBytes(u / 128) + rest, 7 * (k + 1), acc + (u % 128) * Pow128(k), Pow128(k + 1)) ==
      Read(acc + (u % 128) * Pow128(k) + (u / 128) * Pow128(k + 1), |VarIntBytes(u / 128)|)
    ensures ReadVarIntFrom(VarIntBytes(u) + rest, 7 * k, acc, Pow128(k)) ==
      Read(acc + u * Pow128(k), |VarIntBytes(u)|)
  {
    var s := VarIntBytes(u) + rest;
    var p := Pow128(k);
    var next := acc + (u % 128) * p;
    var tail := ReadVarIntFrom(VarIntBytes(u / 128) + rest, 7 * (k + 1), next, Pow128(k + 1));
    assert s[0] % 128 == u % 128 && s[0] >= CONTINUE_BIT && s[1..] == VarIntBytes(u / 128) + rest by {
      assert s[0] == u % 128 + CONTINUE_BIT;
    }
    assert 7 * k + 7 == 7 * (k + 1) && p * 128 == Pow128(k + 1);
    ReadContinued(s, 7 * k, acc, p);
    assert ReadVarIntFrom(s, 7 * k, acc, p) == Shift(tail, 1);
    assert next + (u / 128) * Pow128(k + 1) == acc + u * p by {
      Regroup(u, p, acc);
    }
  }

  lemma DivBound(u: nat, p: nat)
    requires u < 128 * p
    ensures u / 128 < p
  {
  }

  /** The step of `ReadVarIntBytes` for a value of one group. */
  lemma ReadVarIntLast(u: nat, rest: seq<byte>, position: int, acc: nat, scale: nat)
    requires u < 128
    ensures ReadVarIntFrom(VarIntBytes(u) + rest, position, acc, scale) ==
      Read(acc + u * scale, 1)
  {
    assert (VarIntBytes(u) + rest)[0] == u;
  }

  lemma {:induction false} ReadVarIntBytes(u: nat, rest: seq<byte>, k: nat, acc: nat)
    requires k <= 4 && u < Pow128(5 - k)
    ensures ReadVarIntFrom(VarIntBytes(u) + rest, 7 * k, acc, Pow128(k)) ==
      Read(acc + u * Pow128(k), |VarIntBytes(u)|)
    decreases u
  {
    if u >= 128 {
      assert k != 4 by {
        assert Pow128(1) == 128;
      }
      assert u / 128 < Pow128(5 - (k + 1)) by {
        assert Pow128(5 - k) == 128 * Pow128(5 - (k + 1));
        DivBound(u, Pow128(5 - (k + 1)));
      }
      ReadVarIntBytes(u / 128, rest, k + 1, acc + (u % 128) * Pow128(k));
      ReadVarIntGroup(u, rest, k, acc);
    } else {
      ReadVarIntLast(u, rest, 7 * k, acc, Pow128(k));
    }
  }

  /** Reading back a written VarInt gives the signed 32-bit value and consumes exactly
      its bytes, whatever follows it. */
  lemma VarIntRoundTrip(v: int, rest: seq<byte>)
    ensures DecodeVarInt(VarIntBytes(v % U32) + rest) == Read(ToInt32(v), |VarIntBytes(v % U32)|)
  {
    var u := v % U32;
    assert u < Pow128(5) by {
      assert Pow128(0) == 1;
      assert Pow128(1) == 128 * Pow128(0);
      assert Pow128(2) == 128 * Pow128(1);
      assert Pow128(3) == 128 * Pow128(2);
      assert Pow128(4) == 128 * Pow128(3);
      assert Pow128(5) == 128 * Pow128(4);
    }
    ReadVarIntBytes(u, rest, 0, 0);
    assert 0 + u * Pow128(0) == u;
    assert ToInt32(u) == ToInt32(v) by { SmallMod32(u); }
  }

  /** `readVarInt` as written: the limit is `position > 35`, so a sixth byte is still
      read and its group is shifted by `35 % 32 = 3` bits into the low bits. Here the
      six bytes of a value are given explicitly. */
  function ReadSixAsWritten(s: seq<byte>): bv32
    requires |s| == 6
  {
    var r0: bv32 := Group(s[0]);
    var r1 := r0 | (Group(s[1]) << 7);
    var r2 := r1 | (Group(s[2]) << 14);
    var r3 := r2 | (Group(s[3]) << 21);
    var r4 := r3 | (Group(s[4]) << 28);
    r4 | (Group(s[5]) << 3)
  }

  /** `value & SEGMENT_BITS` as a 32-bit pattern. */
  function Group(b: byte): bv32 {
    (b % 128) as bv32
  }

  lemma SixAsWrittenValue()
    ensures ReadSixAsWritten([0x80, 0x80, 0x80, 0x80, 0x80, 0x01]) == 8
  {
    assert Group(0x80) == 0 && Group(0x01) == 1;
  }

  /** Five continuation bytes of zero and a sixth byte 1 decode to 8 as written; with
      the 32-bit limit the same bytes are refused as too big. */
  lemma SixByteVarIntAsWritten()
    ensures ReadSixAsWritten([0x80, 0x80, 0x80, 0x80, 0x80, 0x01]) == 8
    ensures DecodeVarInt([0x80, 0x80, 0x80, 0x80, 0x80, 0x01]) == TooBig
  {
    var s: seq<byte> := [0x80, 0x80, 0x80, 0x80, 0x80, 0x01];
    SixAsWrittenValue();
    var t1: seq<byte> := [0x80, 0x80, 0x80, 0x80, 0x01];
    var t2: seq<byte> := [0x80, 0x80, 0x80, 0x01];
    var t3: seq<byte> := [0x80, 0x80, 0x01];
    var t4: seq<byte> := [0x80, 0x01];
    assert ReadVarIntFrom(t4, 28, 0, 268435456) == TooBig;
    assert ReadVarIntFrom(t3, 21, 0, 2097152) == TooBig by {
      assert t3[1..] == t4;
      ReadContinued(t3, 21, 0, 2097152);
    }
    assert ReadVarIntFrom(t2, 14, 0, 16384) == TooBig by {
      assert t2[1..] == t3;
      ReadContinued(t2, 14, 0, 16384);
    }
    assert ReadVarIntFrom(t1, 7, 0, 128) == TooBig by {
      assert t1[1..] == t2;
      ReadContinued(t1, 7, 0, 128);
    }
    assert s[1..] == t1;
    ReadContinued(s, 0, 0, 1);
  }

  /** The number of bits of `n`, `ceil(log2(n + 1))`. */
  function BitLength(n: nat): nat {
    if n == 0 then 0 else 1 + BitLength(n / 2)
  }

  /** `ceil(ceil(log2(n + 1)) / 7)`: how many VarInt bytes `dump` reserves. */
  function VarLen(n: nat): nat {
    (BitLength(n) + 6) / 7
  }

  lemma BitLengthOfGroup(n: nat)
    requires n >= 128
    ensures BitLength(n) == 7 + BitLength(n / 128)
  {
    var n1 := n / 2;
    var n2 := n1 / 2;
    var n3 := n2 / 2;
    var n4 := n3 / 2;
    var n5 := n4 / 2;
    var n6 := n5 / 2;
    var n7 := n6 / 2;
    assert n7 == n / 128 && n6 > 0;
    assert BitLength(n6) == 1 + BitLength(n7);
    assert BitLength(n5) == 1 + BitLength(n6);
    assert BitLength(n4) == 1 + BitLength(n5);
    assert BitLength(n3) == 1 + BitLength(n4);
    assert BitLength(n2) == 1 + BitLength(n3);
    assert BitLength(n1) == 1 + BitLength(n2);
    assert BitLength(n) == 1 + BitLength(n1);
  }

  function Pow2(k: nat): (r: nat)
    ensures r >= 1
  {
    if k == 0 then 1 else 2 * Pow2(k - 1)
  }

  lemma {:induction false} BitLengthBelow(n: nat, k: nat)
    requires n < Pow2(k)
    ensures BitLength(n) <= k
  {
    if n > 0 {
      BitLengthBelow(n / 2, k - 1);
    }
  }

  lemma BitLengthSmall(n: nat)
    requires 1 <= n < 128
    ensures 1 <= BitLength(n) <= 7
  {
    assert Pow2(7) == 128 by {
      assert Pow2(0) == 1;
      assert Pow2(1) == 2 * Pow2(0);
      assert Pow2(2) == 2 * Pow2(1);
      assert Pow2(3) == 2 * Pow2(2);
      assert Pow2(4) == 2 * Pow2(3);
      assert Pow2(5) == 2 * Pow2(4);
      assert Pow2(6) == 2 * Pow2(5);
      assert Pow2(7) == 2 * Pow2(6);
    }
    BitLengthBelow(n, 7);
  }

  /** The reserved length is exactly the length of the VarInt `dump` writes. */
  lemma {:induction false} VarLenIsVarIntLength(n: nat)
    requires n >= 1
    ensures VarLen(n) == |VarIntBytes(n)|
  {
    if n < 128 {
      BitLengthSmall(n);
    } else {
      BitLengthOfGroup(n);
      VarLenIsVarIntLength(n / 128);
    }
  }

  // ---------------------------------------------------------------------------
  // Packet
  // ---------------------------------------------------------------------------

  /** `d` after the bytes `bs` are stored from offset `at` on, as far as they fit. */
  function StoreAt(d: seq<byte>, at: nat, bs: seq<byte>): (r: seq<byte>)
    requires at <= |d|
    ensures |r| == |d|
  {
    if at + |bs| <= |d| then d[..at] + bs + d[at + |bs|..] else d[..at] + bs[..|d| - at]
  }

  /** What `Packet.parse` recovers from the front of a buffer. */
  datatype Header = Header(id: int, wholeBytes: nat, bodyStart: nat)

  /** `Packet.parse` as a function of the buffer: a VarInt length `n`, at least `n`
      further bytes, and `n >= 1` so that there is an id byte. */
  function ParseSpec(s: seq<byte>): Result<Option<Header>> {
    match DecodeVarInt(s)
    case Truncated => Ok(None)
    case TooBig => Err("VarInt too big")
    case Read(n, len) =>
      if |s| - len < n || n < 1 then Ok(None)
      else Ok(Some(Header(s[len], len + n, len + 1)))
  }

  lemma ParseOfRead(s: seq<byte>, n: int, len: nat)
    requires DecodeVarInt(s) == Read(n, len) && 1 <= n <= |s| - len
    ensures ParseSpec(s) == Ok(Some(Header(s[len], len + n, len + 1)))
  {
  }

  lemma DecodeDumped(payload: seq<byte>, rest: seq<byte>)
    requires |payload| < I32
    ensures DecodeVarInt(VarIntBytes(|payload|) + payload + rest) == Read(|payload|, |VarIntBytes(|payload|)|)
  {
    var n := |payload|;
    assert VarIntBytes(n) + payload + rest == VarIntBytes(n) + (payload + rest);
    assert n % U32 == n;
    VarIntRoundTrip(n, payload + rest);
  }

  /** A buffer that starts with a VarInt length `|payload|` parses back to the first
      payload byte as its id and to its whole length. */
  lemma ParseDumped(payload: seq<byte>, rest: seq<byte>, s: seq<byte>, bs: seq<byte>)
    requires 1 <= |payload| && s == bs + payload + rest
    requires DecodeVarInt(s) == Read(|payload|, |bs|)
    ensures ParseSpec(s) == Ok(Some(Header(payload[0], |bs| + |payload|, |bs| + 1)))
  {
    assert s[|bs|] == payload[0];
    ParseOfRead(s, |payload|, |bs|);
  }

  /** The byte `writeVarInt` emits for the remaining value `u`. */
  function GroupByte(u: nat): byte {
    if u < 128 then u else u % 128 + CONTINUE_BIT
  }

  /** The loop of `writeVarInt` on a buffer `d` with write cursor `w`, one byte per
      iteration: the final buffer, the final cursor, and whether every byte fitted. */
  function WriteGroups(d: seq<byte>, w: nat, u: nat): (seq<byte>, nat, bool)
    requires w <= |d|
    decreases u
  {
    if w == |d| then (d, w, false)
    else if u < 128 then (d[w := GroupByte(u)], w + 1, true)
    else WriteGroups(d[w := GroupByte(u)], w + 1, u / 128)
  }

  lemma StoreAtCons(d: seq<byte>, w: nat, b: byte, rest: seq<byte>)
    requires w < |d|
    ensures StoreAt(d[w := b], w + 1, rest) == StoreAt(d, w, [b] + rest)
  {
    assert d[w := b][..w + 1] == d[..w] + [b];
    assert d[w := b][w + 1..] == d[w + 1..];
    if w + 1 + |rest| <= |d| {
      assert d[w := b][w + 1 + |rest|..] == d[w + 1 + |rest|..];
    } else {
      assert ([b] + rest)[..|d| - w] == [b] + rest[..|d| - w - 1];
    }
  }

  /** The loop stores the VarInt of `u` at `w`, as far as it fits, and succeeds exactly
      when all of it fits. */
  lemma {:induction false} WriteGroupsStores(d: seq<byte>, w: nat, u: nat)
    requires w <= |d|
    ensures var bs := VarIntBytes(u);
      WriteGroups(d, w, u).2 == (|d| - w >= |bs|) &&
      WriteGroups(d, w, u).0 == StoreAt(d, w, bs) &&
      (WriteGroups(d, w, u).2 ==> WriteGroups(d, w, u).1 == w + |bs|)
    decreases u
  {
    var bs := VarIntBytes(u);
    var b := GroupByte(u);
    if w == |d| {
      assert StoreAt(d, w, bs) == d;
    } else if u < 128 {
      assert bs == [b];
      StoreAtCons(d, w, b, []);
      assert StoreAt(d[w := b], w + 1, []) == d[w := b];
    } else {
      assert bs == [b] + VarIntBytes(u / 128);
      WriteGroupsStores(d[w := b], w + 1, u / 128);
      StoreAtCons(d, w, b, VarIntBytes(u / 128));
    }
  }

  /** `readString` on the readable bytes `s`: a VarInt length, then that many bytes;
      the bytes and how many were consumed. A negative length is refused. */
  function ReadStringSpec(s: seq<byte>): Result<Option<(seq<byte>, nat)>> {
    match DecodeVarInt(s)
    case Truncated => Ok(None)
    case TooBig => Err("VarInt too big")
    case Read(n, len) =>
      if n < 0 || |s| - len < n then Ok(None) else Ok(Some((s[len..len + n], len + n)))
  }

  /** Where `readString` as written leaves the read cursor, relative to where it
      started: the length is only compared with the readable bytes, so a negative
      length is added to the cursor. */
  function ReadStringCursorAsWritten(s: seq<byte>): Option<int> {
    match DecodeVarInt(s)
    case Read(n, len) => if |s| - len < n then None else Some(len + n)
    case _ => None
  }

  /** The bytes 0xFF 0xFF 0xFF 0xFF 0x0F are the VarInt of -1 (the sum 2^32 - 1). */
  lemma DecodeMinusOne()
    ensures DecodeVarInt([0xFF, 0xFF, 0xFF, 0xFF, 0x0F]) == Read(-1, 5)
  {
    var s: seq<byte> := [0xFF, 0xFF, 0xFF, 0xFF, 0x0F];
    var t1: seq<byte> := [0xFF, 0xFF, 0xFF, 0x0F];
    var t2: seq<byte> := [0xFF, 0xFF, 0x0F];
    var t3: seq<byte> := [0xFF, 0x0F];
    var t4: seq<byte> := [0x0F];
    assert ReadVarIntFrom(t4, 28, 268435455, 268435456) == Read(0xFFFF_FFFF, 1);
    assert ReadVarIntFrom(t3, 21, 2097151, 2097152) == Read(0xFFFF_FFFF, 2) by {
      assert t3[1..] == t4;
      ReadContinued(t3, 21, 2097151, 2097152);
    }
    assert ReadVarIntFrom(t2, 14, 16383, 16384) == Read(0xFFFF_FFFF, 3) by {
      assert t2[1..] == t3;
      ReadContinued(t2, 14, 16383, 16384);
    }
    assert ReadVarIntFrom(t1, 7, 127, 128) == Read(0xFFFF_FFFF, 4) by {
      assert t1[1..] == t2;
      ReadContinued(t1, 7, 127, 128);
    }
    assert s[1..] == t1;
    ReadContinued(s, 0, 0, 1);
  }

  /** The VarInt of -1 as a string length: as written the cursor ends one byte before
      the end of the length it has just read, inside it; the corrected reading refuses
      it and leaves the cursor where it was. */
  lemma NegativeStringLengthAsWritten()
    ensures ReadStringCursorAsWritten([0xFF, 0xFF, 0xFF, 0xFF, 0x0F]) == Some(4)
    ensures ReadStringSpec([0xFF, 0xFF, 0xFF, 0xFF, 0x0F]) == Ok(None)
  {
    DecodeMinusOne();
  }

  /** A string written after its VarInt length reads back, consuming both. */
  lemma StringRoundTrip(raw: seq<byte>, rest: seq<byte>)
    requires |raw| < I32
    ensures ReadStringSpec(VarIntBytes(|raw|) + raw + rest) == Ok(Some((raw, |VarIntBytes(|raw|)| + |raw|)))
  {
    var bs := VarIntBytes(|raw|);
    var s := bs + raw + rest;
    assert s == bs + (raw + rest);
    assert |raw| % U32 == |raw|;
    VarIntRoundTrip(|raw|, raw + rest);
    assert s[|bs|..|bs| + |raw|] == raw;
  }

  lemma StoreAtTwice(d: seq<byte>, w: nat, bs: seq<byte>, raw: seq<byte>)
    requires w + |bs| + |raw| <= |d|
    ensures StoreAt(StoreAt(d, w, bs), w + |bs|, raw) == StoreAt(d, w, bs + raw)
  {
    var e := StoreAt(d, w, bs);
    assert e == d[..w] + bs + d[w + |bs|..];
    assert e[..w + |bs|] == d[..w] + bs;
    assert e[w + |bs| + |raw|..] == d[w + |bs| + |raw|..];
  }

  lemma DumpedBytes(d: seq<byte>, e: seq<byte>, w: nat, start: int)
    requires PACKET_LEN_RESERVE < w <= |d| && w - PACKET_LEN_RESERVE < I32
    requires start == PACKET_LEN_RESERVE - VarLen(w - PACKET_LEN_RESERVE) && 0 <= start
    requires e == StoreAt(d, start, VarIntBytes((w - PACKET_LEN_RESERVE) % U32))
    ensures e[start..w] == VarIntBytes(w - PACKET_LEN_RESERVE) + d[PACKET_LEN_RESERVE..w]
  {
    var n := w - PACKET_LEN_RESERVE;
    var bs := VarIntBytes(n);
    assert n % U32 == n by { SmallMod32(n); }
    assert start + |bs| == PACKET_LEN_RESERVE by { VarLenIsVarIntLength(n); }
    StoreThenSlice(d, bs, start, w);
  }

  lemma SmallMod32(n: nat)
    requires n < U32
    ensures n % U32 == n
  {
  }

  /** Storing `bs` at `start` leaves the bytes after it in place. */
  lemma StoreThenSlice(d: seq<byte>, bs: seq<byte>, start: nat, w: nat)
    requires start + |bs| <= w <= |d|
    ensures StoreAt(d, start, bs)[start..w] == bs + d[start + |bs|..w]
  {
    var tail := d[start + |bs|..];
    assert StoreAt(d, start, bs) == d[..start] + (bs + tail);
    SliceAfterPrefix(d[..start], bs + tail, w - start);
    PrefixOfConcat(bs, tail, w - start - |bs|);
    assert tail[..w - start - |bs|] == d[start + |bs|..w];
  }

  lemma SliceAfterPrefix(a: seq<byte>, m: seq<byte>, k: nat)
    requires k <= |m|
    ensures (a + m)[|a|..|a| + k] == m[..k]
  {
  }

  lemma PrefixOfConcat(b: seq<byte>, t: seq<byte>, k: nat)
    requires k <= |t|
    ensures (b + t)[..|b| + k] == b + t[..k]
  {
  }

  /** A packet whose body starts at `PACKET_LEN_RESERVE`, as `create` makes it, dumps
      to the VarInt of its length followed by its body, and that parses back to the id
      (the first body byte) and to the dumped length. */
  lemma DumpedFrame(d: seq<byte>, e: seq<byte>, w: nat, start: int)
    requires PACKET_LEN_RESERVE < w <= |d| && w - PACKET_LEN_RESERVE < I32
    requires start == PACKET_LEN_RESERVE - VarLen(w - PACKET_LEN_RESERVE) && 0 <= start
    requires e == StoreAt(d, start, VarIntBytes((w - PACKET_LEN_RESERVE) % U32))
    ensures e[start..w] == VarIntBytes(w - PACKET_LEN_RESERVE) + d[PACKET_LEN_RESERVE..w]
    ensures ParseSpec(e[start..w]) ==
      Ok(Some(Header(d[PACKET_LEN_RESERVE], w - start, PACKET_LEN_RESERVE - start + 1)))
  {
    var payload := d[PACKET_LEN_RESERVE..w];
    var bs := VarIntBytes(|payload|);
    DumpedBytes(d, e, w, start);
    assert |bs| == PACKET_LEN_RESERVE - start by {
      VarLenIsVarIntLength(|payload|);
    }
    DecodeDumped(payload, []);
    assert bs + payload + [] == e[start..w];
    ParseDumped(payload, [], e[start..w], bs);
  }

  /** A buffer that agrees with `d` except for `bs` stored from `at` on. */
  lemma StoreAtPointwise(d: seq<byte>, e: seq<byte>, at: nat, bs: seq<byte>)
    requires at + |bs| <= |d| == |e|
    requires forall i :: 0 <= i < |e| ==> e[i] == (if at <= i < at + |bs| then bs[i - at] else d[i])
    ensures e == StoreAt(d, at, bs)
  {
  }

  /** `Packet`: `readIndex` is the read cursor (`executePing` in the source). */
  class Packet {
    const data: array<byte>
    var readIndex: int
    var writeIndex: int
    var id: int
    var wholeBytes: Option<int>

    function Readable(): int
      reads this
    {
      writeIndex - readIndex
    }

    function Writable(): int
      reads this
    {
      data.Length - writeIndex
    }

    /** The cursors lie within the buffer, the read cursor first. */
    ghost predicate Valid()
      reads this
    {
      0 <= readIndex <= writeIndex <= data.Length
    }

    constructor (view: array<byte>, r: int, w: int)
      ensures data == view && readIndex == r && writeIndex == w && id == 0 && wholeBytes == None
    {
      data := view;
      readIndex := r;
      writeIndex := w;
      id := 0;
      wholeBytes := None;
    }

    /** `writeByte(value)`: `setUint8` keeps the value modulo 256. */
    method WriteByte(value: int) returns (ok: bool)
      requires 0 <= writeIndex <= data.Length
      modifies this, data
      ensures readIndex == old(readIndex) && id == old(id) && wholeBytes == old(wholeBytes)
      ensures ok == (old(writeIndex) < data.Length)
      ensures ok ==> writeIndex == old(writeIndex) + 1 && data[..] == old(data[..])[old(writeIndex) := value % 256]
      ensures !ok ==> writeIndex == old(writeIndex) && data[..] == old(data[..])
    {
      if Writable() >= 1 {
        data[writeIndex] := value % 256;
        writeIndex := writeIndex + 1;
        return true;
      }
      return false;
    }

    method ReadByte() returns (r: Option<int>)
      requires Valid()
      modifies this
      ensures Valid()
      ensures writeIndex == old(writeIndex) && id == old(id) && wholeBytes == old(wholeBytes)
      ensures old(Readable()) >= 1 ==> r == Some(data[old(readIndex)]) && readIndex == old(readIndex) + 1
      ensures old(Readable()) < 1 ==> r == None && readIndex == old(readIndex)
    {
      if Readable() >= 1 {
        r := Some(data[readIndex]);
        readIndex := readIndex + 1;
      } else {
        r := None;
      }
    }

    /** Copies `bs` to the buffer at the write cursor and moves the cursor past it. */
    method Put(bs: seq<byte>)
      requires Valid() && |bs| <= Writable()
      modifies this, data
      ensures Valid()
      ensures readIndex == old(readIndex) && id == old(id) && wholeBytes == old(wholeBytes)
      ensures writeIndex == old(writeIndex) + |bs|
      ensures data[..] == StoreAt(old(data[..]), old(writeIndex), bs)
    {
      forall i | 0 <= i < |bs| {
        data[writeIndex + i] := bs[i];
      }
      StoreAtPointwise(old(data[..]), data[..], writeIndex, bs);
      writeIndex := writeIndex + |bs|;
    }

    /** `writeUnsignedShort(value)`: two big-endian bytes of `value mod 2^16`. */
    method WriteUnsignedShort(value: int) returns (ok: bool)
      requires Valid()
      modifies this, data
      ensures Valid()
      ensures readIndex == old(readIndex) && id == old(id) && wholeBytes == old(wholeBytes)
      ensures ok == (old(Writable()) >= 2)
      ensures ok ==>
        writeIndex == old(writeIndex) + 2 &&
        data[..] == StoreAt(old(data[..]), old(writeIndex), BeBytes(value % U16, 2))
      ensures !ok ==> writeIndex == old(writeIndex) && data[..] == old(data[..])
    {
      if Writable() >= 2 {
        Put(BeBytes(value % U16, 2));
        return true;
      }
      return false;
    }

    /** `readUnsignedShort()`: two big-endian bytes. */
    method ReadUnsignedShort() returns (r: Option<int>)
      requires Valid()
      modifies this
      ensures Valid()
      ensures writeIndex == old(writeIndex) && id == old(id) && wholeBytes == old(wholeBytes)
      ensures old(Readable()) >= 2 ==>
        r == Some(BeValue(data[old(readIndex)..old(readIndex) + 2])) && readIndex == old(readIndex) + 2
      ensures old(Readable()) < 2 ==> r == None && readIndex == old(readIndex)
    {
      if Readable() >= 2 {
        r := Some(BeValue(data[readIndex..readIndex + 2]));
        readIndex := readIndex + 2;
      } else {
        r := None;
      }
    }

    /** `writeLong(value)`: eight big-endian bytes of the two's complement value. */
    method WriteLong(value: int) returns (ok: bool)
      requires Valid()
      modifies this, data
      ensures Valid()
      ensures readIndex == old(readIndex) && id == old(id) && wholeBytes == old(wholeBytes)
      ensures ok == (old(Writable()) >= 8)
      ensures ok ==>
        writeIndex == old(writeIndex) + 8 &&
        data[..] == StoreAt(old(data[..]), old(writeIndex), BeBytes(value % U64, 8))
      ensures !ok ==> writeIndex == old(writeIndex) && data[..] == old(data[..])
    {
      if Writable() >= 8 {
        Put(BeBytes(value % U64, 8));
        return true;
      }
      return false;
    }

    /** `readLong()`: eight big-endian bytes read as a signed 64-bit value. */
    method ReadLong() returns (r: Option<int>)
      requires Valid()
      modifies this
      ensures Valid()
      ensures writeIndex == old(writeIndex) && id == old(id) && wholeBytes == old(wholeBytes)
      ensures old(Readable()) >= 8 ==>
        r == Some(ToInt64(BeValue(data[old(readIndex)..old(readIndex) + 8]))) && readIndex == old(readIndex) + 8
      ensures old(Readable()) < 8 ==> r == None && readIndex == old(readIndex)
    {
      if Readable() >= 8 {
        r := Some(ToInt64(BeValue(data[readIndex..readIndex + 8])));
        readIndex := readIndex + 8;
      } else {
        r := None;
      }
    }

    /** `writeVarInt(value)`: the VarInt of the value masked to 32 bits. When the buffer
        runs out the write cursor is restored and false returned; the bytes that did
        fit stay in the buffer. */
    method WriteVarInt(value: int) returns (ok: bool)
      requires 0 <= writeIndex <= data.Length
      modifies this, data
      ensures 0 <= writeIndex <= data.Length
      ensures readIndex == old(readIndex) && id == old(id) && wholeBytes == old(wholeBytes)
      ensures var bs := VarIntBytes(value % U32);
        ok == (data.Length - old(writeIndex) >= |bs|) &&
        data[..] == StoreAt(old(data[..]), old(writeIndex), bs) &&
        writeIndex == (if ok then old(writeIndex) + |bs| else old(writeIndex))
    {
      var u: nat := value % U32;
      var index := writeIndex;
      ghost var goal := WriteGroups(data[..], writeIndex, u);
      WriteGroupsStores(data[..], writeIndex, u);
      while true
        invariant 0 <= index <= writeIndex <= data.Length
        invariant readIndex == old(readIndex) && id == old(id) && wholeBytes == old(wholeBytes)
        invariant WriteGroups(data[..], writeIndex, u) == goal
        decreases u
      {
        ghost var before := data[..];
        ok := WriteByte(GroupByte(u));
        if !ok {
          writeIndex := index;
          return false;
        }
        assert data[..] == before[writeIndex - 1 := GroupByte(u)];
        if u < 128 {
          return true;
        }
        u := u / 128;
      }
    }

    /** `readVarInt()`: the loop reads one byte per group. The groups occupy disjoint
        bits, so `result |= group << position` is kept as a sum with `weight` the value
        of bit `position`. Running out of bytes or refusing a too-big value restores
        the read cursor. */
    method ReadVarInt() returns (r: Result<Option<int>>)
      requires Valid()
      modifies this
      ensures Valid()
      ensures writeIndex == old(writeIndex) && id == old(id) && wholeBytes == old(wholeBytes)
      ensures match DecodeVarInt(old(data[readIndex..writeIndex]))
        case Truncated => r == Ok(None) && readIndex == old(readIndex)
        case TooBig => r == Err("VarInt too big") && readIndex == old(readIndex)
        case Read(v, n) => r == Ok(Some(v)) && readIndex == old(readIndex) + n
    {
      var index := readIndex;
      var result: nat := 0;
      var position := 0;
      var weight: nat := 1;
      ghost var bytes := data[..];
      ghost var goal := ReadVarIntFrom(bytes[readIndex..writeIndex], 0, 0, 1);
      while true
        invariant Valid() && index <= readIndex
        invariant writeIndex == old(writeIndex) && id == old(id) && wholeBytes == old(wholeBytes)
        invariant goal == Shift(ReadVarIntFrom(bytes[readIndex..writeIndex], position, result, weight), readIndex - index)
        decreases writeIndex - readIndex
      {
        ghost var s := bytes[readIndex..writeIndex];
        ghost var before := readIndex - index;
        var value := ReadByte();
        if value.None? {
          assert goal == Truncated by {
            assert s == [];
          }
          readIndex := index;
          return Ok(None);
        }
        var v := value.value;
        assert s[0] == v && s[1..] == bytes[readIndex..writeIndex];
        ghost var previous := result;
        result := result + (v % 128) * weight;
        if v < CONTINUE_BIT {
          assert goal == Read(result, readIndex - index) by {
            ReadStep(s, position, previous, weight);
          }
          return Ok(Some(ToInt32(result)));
        }
        position := position + 7;
        if position >= 32 {
          assert goal == TooBig by {
            ReadStep(s, position - 7, previous, weight);
          }
          readIndex := index;
          return Err("VarInt too big");
        }
        assert goal == Shift(ReadVarIntFrom(s[1..], position, result, weight * 128), readIndex - index) by {
          ReadContinued(s, position - 7, previous, weight);
          ShiftShift(ReadVarIntFrom(s[1..], position, result, weight * 128), before);
        }
        weight := weight * 128;
      }
    }

    /** `writeString(value)`, with the string given as its UTF-8 bytes: the VarInt
        length, then the bytes. When either does not fit the write cursor is restored;
        a length that was written stays in the buffer. */
    method WriteString(raw: seq<byte>) returns (ok: bool)
      requires Valid()
      modifies this, data
      ensures Valid()
      ensures readIndex == old(readIndex) && id == old(id) && wholeBytes == old(wholeBytes)
      ensures var bs := VarIntBytes(|raw| % U32);
        ok == (data.Length - old(writeIndex) >= |bs| + |raw|) &&
        (ok ==> writeIndex == old(writeIndex) + |bs| + |raw| &&
                data[..] == StoreAt(old(data[..]), old(writeIndex), bs + raw)) &&
        (!ok ==> writeIndex == old(writeIndex) && data[..] == StoreAt(old(data[..]), old(writeIndex), bs))
    {
      var index := writeIndex;
      ghost var d := data[..];
      ghost var bs := VarIntBytes(|raw| % U32);
      ok := WriteVarInt(|raw|);
      if !ok {
        writeIndex := index;
        return false;
      }
      if Writable() < |raw| {
        writeIndex := index;
        return false;
      }
      Put(raw);
      StoreAtTwice(d, index, bs, raw);
      return true;
    }

    /** `readString()`, returning the string's bytes. A negative length is refused
        like a length that runs past the readable bytes. */
    method ReadString() returns (r: Result<Option<seq<byte>>>)
      requires Valid()
      modifies this
      ensures Valid()
      ensures writeIndex == old(writeIndex) && id == old(id) && wholeBytes == old(wholeBytes)
      ensures match ReadStringSpec(old(data[readIndex..writeIndex]))
        case Err(e) => r == Err(e) && readIndex == old(readIndex)
        case Ok(None) => r == Ok(None) && readIndex == old(readIndex)
        case Ok(Some((str, n))) => r == Ok(Some(str)) && readIndex == old(readIndex) + n
    {
      var index := readIndex;
      ghost var s := data[readIndex..writeIndex];
      var length := ReadVarInt();
      if length.Err? {
        return Err(length.error);
      }
      if length.value.None? {
        return Ok(None);
      }
      var n := length.value.value;
      if n < 0 || Readable() < n {
        readIndex := index;
        return Ok(None);
      }
      ghost var len := readIndex - index;
      assert 0 <= len && len + n <= |s| && s == data[index..writeIndex];
      ghost var sub := s[len..len + n];
      ghost var str := data[readIndex..readIndex + n];
      assert sub == str by {
        forall j | 0 <= j < n
          ensures sub[j] == str[j]
        {
          assert s[len + j] == data[index + len + j];
        }
      }
      r := Ok(Some(data[readIndex..readIndex + n]));
      readIndex := readIndex + n;
    }

    /** `dump()`: when the first readable byte is the packet id, writes the VarInt of
        the readable length just before `PACKET_LEN_RESERVE` and returns the bytes from
        there to the write cursor. Its length is reserved from the bit length of the
        readable count. A view with a negative length or offset is a RangeError. */
    method Dump() returns (r: Result<Option<seq<byte>>>)
      requires Valid()
      modifies this, data
      ensures Valid()
      ensures readIndex == old(readIndex) && writeIndex == old(writeIndex)
      ensures id == old(id) && wholeBytes == old(wholeBytes)
      ensures !(old(Readable()) > 0 && old(data[readIndex]) == id) ==> r == Ok(None) && data[..] == old(data[..])
      ensures old(Readable()) > 0 && old(data[readIndex]) == id ==>
        var start := PACKET_LEN_RESERVE - VarLen(old(Readable()));
        (start < 0 ==> r.Err? && data[..] == old(data[..])) &&
        (0 <= start <= data.Length ==>
           data[..] == StoreAt(old(data[..]), start, VarIntBytes(old(Readable()) % U32))) &&
        (start > data.Length ==> data[..] == old(data[..])) &&
        (0 <= start ==>
           r == if start <= writeIndex then Ok(Some(data[start..writeIndex])) else Err("Invalid typed array length"))
    {
      if !(Readable() > 0 && data[readIndex] == id) {
        return Ok(None);
      }
      var packetLen := Readable();
      var varLen := VarLen(packetLen);
      var writeAt := writeIndex;
      var start := PACKET_LEN_RESERVE - varLen;
      if start < 0 {
        // setUint8 at a negative offset is a RangeError
        return Err("Offset is outside the bounds of the DataView");
      }
      if start <= data.Length {
        // past the end of the buffer nothing is writable, so writeVarInt fails at once
        writeIndex := start;
        var _ := WriteVarInt(packetLen);
        writeIndex := writeAt;
      }
      if start > writeIndex {
        return Err("Invalid typed array length");
      }
      return Ok(Some(data[start..writeIndex]));
    }

    /** `Packet.parse(data)`: a new packet over `view` positioned after the id byte,
        its write cursor at the end of the packet. */
    static method Parse(view: array<byte>) returns (r: Result<Option<Packet>>)
      ensures match ParseSpec(view[..])
        case Err(e) => r == Err(e)
        case Ok(None) => r == Ok(None)
        case Ok(Some(h)) =>
          r.Ok? && r.value.Some? && fresh(r.value.value) && r.value.value.Valid() &&
          r.value.value.data == view && r.value.value.id == h.id &&
          r.value.value.wholeBytes == Some(h.wholeBytes) &&
          r.value.value.readIndex == h.bodyStart && r.value.value.writeIndex == h.wholeBytes
    {
      var packet := new Packet(view, 0, view.Length);
      assert view[..] == view[0..view.Length];
      var packetLen := packet.ReadVarInt();
      if packetLen.Err? {
        return Err(packetLen.error);
      }
      if packetLen.value.None? || packet.Readable() < packetLen.value.value {
        return Ok(None);
      }
      var n := packetLen.value.value;
      if n < 1 {
        // the write cursor is at or before the read cursor, so readByte() fails
        return Ok(None);
      }
      packet.writeIndex := packet.readIndex + n;
      packet.wholeBytes := Some(packet.writeIndex);
      var id := packet.ReadByte();
      packet.id := id.value;
      return Ok(Some(packet));
    }

    /** `Packet.create(id, buffer)`: a new packet whose body starts at
        `PACKET_LEN_RESERVE` with the id byte; none when the buffer is too short. */
    static method Create(id: int, buffer: array<byte>) returns (r: Option<Packet>)
      modifies buffer
      ensures r.Some? == (buffer.Length > PACKET_LEN_RESERVE)
      ensures r.None? ==> buffer[..] == old(buffer[..])
      ensures r.Some? ==>
        fresh(r.value) && r.value.Valid() && r.value.data == buffer && r.value.id == id &&
        r.value.readIndex == PACKET_LEN_RESERVE && r.value.writeIndex == PACKET_LEN_RESERVE + 1 &&
        r.value.wholeBytes == None && buffer[..] == old(buffer[..])[PACKET_LEN_RESERVE := id % 256]
    {
      var packet := new Packet(buffer, PACKET_LEN_RESERVE, PACKET_LEN_RESERVE);
      packet.id := id;
      if buffer.Length < PACKET_LEN_RESERVE {
        // writable is negative, so writeByte fails
        return None;
      }
      var ok := packet.WriteByte(id);
      if !ok {
        return None;
      }
      return Some(packet);
    }
  }

  /** `PacketStream.encode(message)`: the dumped bytes, or an error for a packet that does
      not dump. */
  method EncodePacket(p: Packet) returns (r: Result<seq<byte>>)
    requires p.Valid()
    modifies p, p.data
    ensures p.Valid()
    ensures p.readIndex == old(p.readIndex) && p.writeIndex == old(p.writeIndex)
    ensures p.id == old(p.id) && p.wholeBytes == old(p.wholeBytes)
    ensures !(old(p.Readable()) > 0 && old(p.data[p.readIndex]) == p.id) ==>
      r == Err("Invalid packet") && p.data[..] == old(p.data[..])
    ensures old(p.Readable()) > 0 && old(p.data[p.readIndex]) == p.id ==>
      var start := PACKET_LEN_RESERVE - VarLen(old(p.Readable()));
      (start < 0 ==> r.Err? && p.data[..] == old(p.data[..])) &&
      (0 <= start <= p.data.Length ==>
         p.data[..] == StoreAt(old(p.data[..]), start, VarIntBytes(old(p.Readable()) % U32))) &&
      (start > p.data.Length ==> p.data[..] == old(p.data[..])) &&
      (0 <= start ==>
         r == if start <= p.writeIndex then Ok(p.data[start..p.writeIndex]) else Err("Invalid typed array length"))
  {
    var d := p.Dump();
    if d.Err? {
      return Err(d.error);
    }
    if d.value.None? {
      return Err("Invalid packet");
    }
    return Ok(d.value.value);
  }

  /** `PacketStream.decode(data, outList)`: appends the parsed packet and returns its
      whole length, or returns 0 and leaves the list as it is. */
  method DecodePacket(data: array<byte>, outList: seq<Packet>) returns (r: Result<(int, seq<Packet>)>)
    ensures match ParseSpec(data[..])
      case Err(e) => r == Err(e)
      case Ok(None) => r == Ok((0, outList))
      case Ok(Some(h)) =>
        r.Ok? && r.value.0 == h.wholeBytes && |r.value.1| == |outList| + 1 &&
        r.value.1[..|outList|] == outList && r.value.1[|outList|].id == h.id
  {
    var packet := Packet.Parse(data);
    if packet.Err? {
      return Err(packet.error);
    }
    if packet.value.None? {
      return Ok((0, outList));
    }
    var p := packet.value.value;
    assert p.wholeBytes.Some?;
    var out := outList + [p];
    assert out[..|outList|] == outList;
    return Ok((p.wholeBytes.value, out));
  }
}
