/**
 Plain CDR (XCDR version 1, clause 7.4 of OMG DDS-XTypes 1.3) as the XRCE types use it. A serialiser
 maps the bytes written so far to more bytes; a deserialiser reads at a position of a buffer.
 Alignment counts from the start of the buffer, so any position is a possible starting alignment.
 */
module Cdr {
  import opened Options

  type byte = b: int | 0 <= b < 256

  datatype Endian = Little | Big

  type Bytes = seq<byte>

  /** The sizes of the CDR primitive types. */
  type Width = w: nat | w == 1 || w == 2 || w == 4 || w == 8 witness 1

  /** Cdr::alignment: bytes to skip so that a datum of this size is aligned. */
  function Padding(at: nat, size: Width): (p: nat)
    ensures p < size
  {
    match size
    case 1 => 0
    case 2 => (2 - at % 2) % 2
    case 4 => (4 - at % 4) % 4
    case _ => (8 - at % 8) % 8
  }

  lemma NoPadding()
    ensures forall at: nat :: Padding(at, 1) == 0
  {
  }

  lemma WordAligned(at: nat)
    ensures (at + Padding(at, 4)) % 4 == 0
  {
  }

  function Zeros(n: nat): (z: Bytes)
    ensures |z| == n
  {
    seq(n, _ => 0)
  }

  function Pow256(n: nat): (p: nat)
    ensures p > 0
  {
    if n == 0 then 1 else 256 * Pow256(n - 1)
  }

  /** n bytes of v, least significant first. */
  function LittleBytes(n: nat, v: nat): (s: Bytes)
    ensures |s| == n
  {
    if n == 0 then [] else [v % 256] + LittleBytes(n - 1, v / 256)
  }

  function FromLittle(s: Bytes): (v: nat)
    ensures v < Pow256(|s|)
  {
    if s == [] then 0 else s[0] + 256 * FromLittle(s[1..])
  }

  function Reversed(s: Bytes): (r: Bytes)
    ensures |r| == |s|
    ensures forall i :: 0 <= i < |s| ==> r[i] == s[|s| - 1 - i]
  {
    seq(|s|, i requires 0 <= i < |s| => s[|s| - 1 - i])
  }

  function Encode(e: Endian, n: nat, v: nat): (s: Bytes)
    ensures |s| == n
  {
    if e == Little then LittleBytes(n, v) else Reversed(LittleBytes(n, v))
  }

  function Decode(e: Endian, s: Bytes): (v: nat)
    ensures v < Pow256(|s|)
  {
    if e == Little then FromLittle(s) else FromLittle(Reversed(s))
  }

  lemma {:induction false} LittleRoundTrip(n: nat, v: nat)
    requires v < Pow256(n)
    ensures FromLittle(LittleBytes(n, v)) == v
  {
    if n > 0 {
      assert v / 256 < Pow256(n - 1);
      LittleRoundTrip(n - 1, v / 256);
      assert LittleBytes(n, v)[1..] == LittleBytes(n - 1, v / 256);
    }
  }

  lemma DecodeEncode(e: Endian, n: nat, v: nat)
    requires v < Pow256(n)
    ensures Decode(e, Encode(e, n, v)) == v
  {
    LittleRoundTrip(n, v);
    assert Reversed(Reversed(LittleBytes(n, v))) == LittleBytes(n, v);
  }

  // ---------------------------------------------------------------- serialising

  function PutByte(o: Bytes, v: byte): (o': Bytes)
    ensures o <= o' && |o'| == |o| + 1
  {
    o + [v]
  }

  function PutBool(o: Bytes, v: bool): (o': Bytes)
    ensures o <= o' && |o'| == |o| + 1
  {
    o + [if v then 1 else 0]
  }

  /** std::array<uint8_t, N>. */
  function PutArray(o: Bytes, s: Bytes): (o': Bytes)
    ensures o <= o' && |o'| == |o| + |s|
  {
    o + s
  }

  /** An unsigned integer of 2, 4 or 8 bytes, aligned to its size. */
  function PutUInt(e: Endian, o: Bytes, size: Width, v: nat): (o': Bytes)
    ensures o <= o' && |o'| == |o| + Padding(|o|, size) + size
  {
    o + Zeros(Padding(|o|, size)) + Encode(e, size, v)
  }

  /** A string: its length with the terminator, its characters, the terminator. */
  function PutString(e: Endian, o: Bytes, s: Bytes): (o': Bytes)
    ensures o <= o' && |o'| == |o| + Padding(|o|, 4) + 4 + |s| + 1
  {
    PutUInt(e, o, 4, |s| + 1) + s + [0]
  }

  /** std::vector<uint8_t>. */
  function PutOctets(e: Endian, o: Bytes, s: Bytes): (o': Bytes)
    ensures o <= o' && |o'| == |o| + Padding(|o|, 4) + 4 + |s|
  {
    PutUInt(e, o, 4, |s|) + s
  }

  // ---------------------------------------------------------------- deserialising

  /** A value and the position after it, or None where fastcdr throws. */
  type Read<T> = Option<(T, nat)>

  function GetByte(buf: Bytes, pos: nat): Read<byte> {
    if pos < |buf| then Some((buf[pos], pos + 1)) else None
  }

  function GetBool(buf: Bytes, pos: nat): Read<bool> {
    if pos < |buf| && buf[pos] <= 1 then Some((buf[pos] == 1, pos + 1)) else None
  }

  function GetArray(buf: Bytes, pos: nat, n: nat): (r: Read<Bytes>)
    ensures r.Some? ==> |r.value.0| == n
  {
    if pos + n <= |buf| then Some((buf[pos..pos + n], pos + n)) else None
  }

  function GetUInt(e: Endian, buf: Bytes, pos: nat, size: Width): (r: Read<nat>)
    ensures r.Some? ==> r.value.0 < Pow256(size)
  {
    var p := pos + Padding(pos, size);
    if p + size <= |buf| then Some((Decode(e, buf[p..p + size]), p + size)) else None
  }

  /** The terminator, if there is one, is not part of the string. */
  function GetString(e: Endian, buf: Bytes, pos: nat): Read<Bytes> {
    match GetUInt(e, buf, pos, 4)
    case None => None
    case Some((n, p)) =>
      if p + n > |buf| then None
      else if n > 0 && buf[p + n - 1] == 0 then Some((buf[p..p + n - 1], p + n))
      else Some((buf[p..p + n], p + n))
  }

  function GetOctets(e: Endian, buf: Bytes, pos: nat): Read<Bytes> {
    match GetUInt(e, buf, pos, 4)
    case None => None
    case Some((n, p)) => GetArray(buf, p, n)
  }

  // ---------------------------------------------------------------- laws of the primitives

  lemma ByteLaw(o: Bytes, v: byte, buf: Bytes)
    requires PutByte(o, v) <= buf
    ensures GetByte(buf, |o|) == Some((v, |PutByte(o, v)|))
  {
    assert PutByte(o, v)[|o|] == v;
  }

  lemma BoolLaw(o: Bytes, v: bool, buf: Bytes)
    requires PutBool(o, v) <= buf
    ensures GetBool(buf, |o|) == Some((v, |PutBool(o, v)|))
  {
    assert PutBool(o, v)[|o|] == if v then 1 else 0;
  }

  lemma ArrayLaw(o: Bytes, s: Bytes, n: nat, buf: Bytes)
    requires |s| == n && PutArray(o, s) <= buf
    ensures GetArray(buf, |o|, n) == Some((s, |PutArray(o, s)|))
  {
    assert buf[|o|..|o| + n] == (o + s)[|o|..] == s;
  }

  lemma UIntLaw(e: Endian, o: Bytes, size: Width, v: nat, buf: Bytes)
    requires v < Pow256(size) && PutUInt(e, o, size, v) <= buf
    ensures GetUInt(e, buf, |o|, size) == Some((v, |PutUInt(e, o, size, v)|))
  {
    hide Encode, Decode, Padding, Pow256;
    var o', p := PutUInt(e, o, size, v), |o| + Padding(|o|, size);
    assert buf[p..p + size] == o'[p..p + size] == Encode(e, size, v);
    DecodeEncode(e, size, v);
  }

  lemma Pow256Values()
    ensures Pow256(1) == 0x100 && Pow256(2) == 0x1_0000 && Pow256(4) == 0x1_0000_0000
  {
  }

  ghost predicate NulFree(s: Bytes) {
    forall i :: 0 <= i < |s| ==> s[i] != 0
  }

  /** A string that can be written: no embedded terminator, and a length that fits its field. */
  ghost predicate Writable(s: Bytes) {
    NulFree(s) && |s| + 1 < 0x1_0000_0000
  }

  lemma PrefixTransitive(a: Bytes, b: Bytes, c: Bytes)
    requires a <= b && b <= c
    ensures a <= c
  {
  }

  lemma StringLaw(e: Endian, o: Bytes, s: Bytes, buf: Bytes)
    requires Writable(s) && PutString(e, o, s) <= buf
    ensures GetString(e, buf, |o|) == Some((s, |PutString(e, o, s)|))
  {
    var o1, o' := PutUInt(e, o, 4, |s| + 1), PutString(e, o, s);
    hide PutUInt, GetUInt;
    Pow256Values();
    PrefixTransitive(o1, o', buf);
    UIntLaw(e, o, 4, |s| + 1, buf);
    assert buf[|o1|..|o1| + |s|] == o'[|o1|..|o1| + |s|] == s;
    assert buf[|o1| + |s|] == o'[|o1| + |s|] == 0;
  }

  lemma OctetsLaw(e: Endian, o: Bytes, s: Bytes, buf: Bytes)
    requires |s| < 0x1_0000_0000 && PutOctets(e, o, s) <= buf
    ensures GetOctets(e, buf, |o|) == Some((s, |PutOctets(e, o, s)|))
  {
    var o1, o' := PutUInt(e, o, 4, |s|), PutOctets(e, o, s);
    hide PutUInt, GetUInt;
    Pow256Values();
    PrefixTransitive(o1, o', buf);
    UIntLaw(e, o, 4, |s|, buf);
    assert buf[|o1|..|o1| + |s|] == o'[|o1|..] == s;
  }
}
