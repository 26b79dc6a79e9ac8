/**
 XRCE payloads (`XRCETypes.cpp`, `MessageHeader.cpp`): what they hold, and how they are written, read and measured.
 */
module XrceTypes {
  import opened Options
  import opened Cdr

  type Octets2 = s: Bytes | |s| == 2 witness [0, 0]
  type Octets4 = s: Bytes | |s| == 4 witness [0, 0, 0, 0]
  type Octets16 = s: Bytes | |s| == 16 witness [0, 0, 0, 0, 0, 0, 0, 0, 0, 0, 0, 0, 0, 0, 0, 0]
  type uint16 = v: nat | v < 0x1_0000
  type uint32 = v: nat | v < 0x1_0000_0000
  type uint64 = v: nat | v < Pow256(8) witness 0
  type int16 = v: int | -0x8000 <= v < 0x8000

  // ---------------------------------------------------------------- integers as the payloads write them

  function PutU16(e: Endian, o: Bytes, v: uint16): (o': Bytes)
    ensures o <= o' && |o'| == |o| + Padding(|o|, 2) + 2
  {
    PutUInt(e, o, 2, v)
  }

  function GetU16(e: Endian, buf: Bytes, pos: nat): Read<uint16> {
    var (v, p) :- GetUInt(e, buf, pos, 2);
    Pow256Values();
    Some((v, p))
  }

  function PutU32(e: Endian, o: Bytes, v: uint32): (o': Bytes)
    ensures o <= o' && |o'| == |o| + Padding(|o|, 4) + 4
  {
    PutUInt(e, o, 4, v)
  }

  function GetU32(e: Endian, buf: Bytes, pos: nat): Read<uint32> {
    var (v, p) :- GetUInt(e, buf, pos, 4);
    Pow256Values();
    Some((v, p))
  }

  function PutU64(e: Endian, o: Bytes, v: uint64): (o': Bytes)
    ensures o <= o' && |o'| == |o| + Padding(|o|, 8) + 8
  {
    PutUInt(e, o, 8, v)
  }

  function GetU64(e: Endian, buf: Bytes, pos: nat): Read<uint64> {
    var (v, p) :- GetUInt(e, buf, pos, 8);
    Some((v, p))
  }

  /** Two's complement. */
  function PutI16(e: Endian, o: Bytes, v: int16): (o': Bytes)
    ensures o <= o' && |o'| == |o| + Padding(|o|, 2) + 2
  {
    PutUInt(e, o, 2, if v < 0 then v + 0x1_0000 else v)
  }

  function GetI16(e: Endian, buf: Bytes, pos: nat): Read<int16> {
    var (v, p) :- GetUInt(e, buf, pos, 2);
    Pow256Values();
    Some((if v < 0x8000 then v else v - 0x1_0000, p))
  }

  lemma U16Law(e: Endian, o: Bytes, v: uint16, buf: Bytes)
    requires PutU16(e, o, v) <= buf
    ensures GetU16(e, buf, |o|) == Some((v, |PutU16(e, o, v)|))
  {
    hide PutUInt, GetUInt;
    Pow256Values();
    UIntLaw(e, o, 2, v, buf);
  }

  lemma U32Law(e: Endian, o: Bytes, v: uint32, buf: Bytes)
    requires PutU32(e, o, v) <= buf
    ensures GetU32(e, buf, |o|) == Some((v, |PutU32(e, o, v)|))
  {
    hide PutUInt, GetUInt;
    Pow256Values();
    UIntLaw(e, o, 4, v, buf);
  }

  lemma U64Law(e: Endian, o: Bytes, v: uint64, buf: Bytes)
    requires PutU64(e, o, v) <= buf
    ensures GetU64(e, buf, |o|) == Some((v, |PutU64(e, o, v)|))
  {
    hide PutUInt, GetUInt, Pow256;
    UIntLaw(e, o, 8, v, buf);
  }

  lemma I16Law(e: Endian, o: Bytes, v: int16, buf: Bytes)
    requires PutI16(e, o, v) <= buf
    ensures GetI16(e, buf, |o|) == Some((v, |PutI16(e, o, v)|))
  {
    hide PutUInt, GetUInt;
    Pow256Values();
    UIntLaw(e, o, 2, if v < 0 then v + 0x1_0000 else v, buf);
  }

  // ---------------------------------------------------------------- MessageHeader

  datatype MessageHeader = MessageHeader(sessionId: byte, streamId: byte, sequenceNr: uint16, clientKey: Octets4)

  /** The sequence number is little-endian whatever the stream is; the key is there only below session 128. */
  function PutHeader(e: Endian, o: Bytes, h: MessageHeader): (o': Bytes)
    ensures o <= o'
  {
    var o1 := PutByte(o, h.sessionId);
    var o2 := PutByte(o1, h.streamId);
    var o3 := PutU16(Little, o2, h.sequenceNr);
    if 128 > h.sessionId then PutArray(o3, h.clientKey) else o3
  }

  /** Into a fresh header, whose key is zero. */
  function GetHeader(e: Endian, buf: Bytes, pos: nat): Read<MessageHeader> {
    var (session, p1) :- GetByte(buf, pos);
    var (stream, p2) :- GetByte(buf, p1);
    var (nr, p3) :- GetU16(Little, buf, p2);
    if 128 > session then
      var (key, p4) :- GetArray(buf, p3, 4);
      Some((MessageHeader(session, stream, nr, key), p4))
    else Some((MessageHeader(session, stream, nr, [0, 0, 0, 0]), p3))
  }

  /** getCdrSerializedSize: the alignment after the header, from the alignment before it. */
  function HeaderEnd(h: MessageHeader, at: nat): nat {
    var c1 := at + 1 + Padding(at, 1);
    var c2 := c1 + 1 + Padding(c1, 1);
    var c3 := c2 + 2 + Padding(c2, 2);
    if 128 > h.sessionId then c3 + 4 * 1 + Padding(c3, 1) else c3
  }

  /** A header without a key on the wire comes back with a zero key, any other unchanged. */
  lemma HeaderLaw(e: Endian, o: Bytes, h: MessageHeader, buf: Bytes)
    requires PutHeader(e, o, h) <= buf
    ensures GetHeader(e, buf, |o|) ==
            Some((if h.sessionId < 128 then h else h.(clientKey := [0, 0, 0, 0]), |PutHeader(e, o, h)|))
    ensures |PutHeader(e, o, h)| == HeaderEnd(h, |o|)
  {
    hide PutByte, PutArray, PutU16, GetByte, GetArray, GetU16;
    var o1 := PutByte(o, h.sessionId);
    var o2 := PutByte(o1, h.streamId);
    var o3 := PutU16(Little, o2, h.sequenceNr);
    ByteLaw(o, h.sessionId, buf);
    ByteLaw(o1, h.streamId, buf);
    U16Law(Little, o2, h.sequenceNr, buf);
    if h.sessionId < 128 {
      ArrayLaw(o3, h.clientKey, 4, buf);
    }
  }

  // ---------------------------------------------------------------- TransportAddress

  datatype TransportAddress =
    | Small(address2: Octets2, port8: byte)
    | Medium(address4: Octets4, port16: uint16)
    | Large(address16: Octets16, port32: uint32)
    | Text(value: Bytes)
    | OtherAddress(format: byte)

  ghost predicate WfAddress(a: TransportAddress) {
    (a.Text? ==> Writable(a.value)) && (a.OtherAddress? ==> a.format > 3)
  }

  function PutAddress(e: Endian, o: Bytes, a: TransportAddress): (o': Bytes)
    ensures o <= o'
  {
    match a
    case Small(address, port) => PutByte(PutArray(PutByte(o, 0), address), port)
    case Medium(address, port) => PutU16(e, PutArray(PutByte(o, 1), address), port)
    case Large(address, port) => PutU32(e, PutArray(PutByte(o, 2), address), port)
    case Text(value) => PutString(e, PutByte(o, 3), value)
    case OtherAddress(format) => PutByte(o, format)
  }

  function GetAddress(e: Endian, buf: Bytes, pos: nat): Read<TransportAddress> {
    var (d, p) :- GetByte(buf, pos);
    match d
    case 0 =>
      var (address, p1) :- GetArray(buf, p, 2);
      var (port, p2) :- GetByte(buf, p1);
      Some((Small(address, port), p2))
    case 1 =>
      var (address, p1) :- GetArray(buf, p, 4);
      var (port, p2) :- GetU16(e, buf, p1);
      Some((Medium(address, port), p2))
    case 2 =>
      var (address, p1) :- GetArray(buf, p, 16);
      var (port, p2) :- GetU32(e, buf, p1);
      Some((Large(address, port), p2))
    case 3 =>
      var (value, p1) :- GetString(e, buf, p);
      Some((Text(value), p1))
    case _ => Some((OtherAddress(d), p))
  }

  function AddressEnd(a: TransportAddress, at: nat): nat {
    var c := at + 1 + Padding(at, 1);
    match a
    case Small(_, _) => var c1 := c + 2 * 1 + Padding(c, 1); c1 + 1 + Padding(c1, 1)
    case Medium(_, _) => var c1 := c + 4 * 1 + Padding(c, 1); c1 + 2 + Padding(c1, 2)
    case Large(_, _) => var c1 := c + 16 * 1 + Padding(c, 1); c1 + 4 + Padding(c1, 4)
    case Text(value) => c + 4 + Padding(c, 4) + |value| + 1
    case OtherAddress(_) => c
  }

  lemma AddressLaw(e: Endian, o: Bytes, a: TransportAddress, buf: Bytes)
    requires WfAddress(a) && PutAddress(e, o, a) <= buf
    ensures GetAddress(e, buf, |o|) == Some((a, |PutAddress(e, o, a)|))
    ensures |PutAddress(e, o, a)| == AddressEnd(a, |o|)
  {
    hide PutByte, PutArray, PutU16, PutU32, PutString, GetByte, GetArray, GetU16, GetU32, GetString;
    match a
    case Small(address, port) =>
      var o1 := PutByte(o, 0);
      ByteLaw(o, 0, buf);
      ArrayLaw(o1, address, 2, buf);
      ByteLaw(PutArray(o1, address), port, buf);
    case Medium(address, port) =>
      var o1 := PutByte(o, 1);
      ByteLaw(o, 1, buf);
      ArrayLaw(o1, address, 4, buf);
      U16Law(e, PutArray(o1, address), port, buf);
    case Large(address, port) =>
      var o1 := PutByte(o, 2);
      ByteLaw(o, 2, buf);
      ArrayLaw(o1, address, 16, buf);
      U32Law(e, PutArray(o1, address), port, buf);
    case Text(value) =>
      ByteLaw(o, 3, buf);
      StringLaw(e, PutByte(o, 3), value, buf);
    case OtherAddress(format) =>
      ByteLaw(o, format, buf);
  }

  // ---------------------------------------------------------------- properties

  datatype Property = Property(name: Bytes, value: Bytes)

  ghost predicate WfProperty(p: Property) {
    Writable(p.name) && Writable(p.value)
  }

  function PutProperty(e: Endian, o: Bytes, p: Property): (o': Bytes)
    ensures o <= o'
  {
    PutString(e, PutString(e, o, p.name), p.value)
  }

  function GetProperty(e: Endian, buf: Bytes, pos: nat): Read<Property> {
    var (name, p1) :- GetString(e, buf, pos);
    var (value, p2) :- GetString(e, buf, p1);
    Some((Property(name, value), p2))
  }

  function PropertyEnd(p: Property, at: nat): nat {
    var c := at + 4 + Padding(at, 4) + |p.name| + 1;
    c + 4 + Padding(c, 4) + |p.value| + 1
  }

  lemma PropertyLaw(e: Endian, o: Bytes, p: Property, buf: Bytes)
    requires WfProperty(p) && PutProperty(e, o, p) <= buf
    ensures GetProperty(e, buf, |o|) == Some((p, |PutProperty(e, o, p)|))
    ensures |PutProperty(e, o, p)| == PropertyEnd(p, |o|)
  {
    hide PutString, GetString;
    StringLaw(e, o, p.name, buf);
    StringLaw(e, PutString(e, o, p.name), p.value, buf);
  }

  function PutProperties(e: Endian, o: Bytes, ps: seq<Property>): (o': Bytes)
    ensures o <= o'
    decreases |ps|
  {
    if ps == [] then o else PutProperties(e, PutProperty(e, o, ps[0]), ps[1..])
  }

  function GetProperties(e: Endian, buf: Bytes, pos: nat, n: nat): Read<seq<Property>>
    decreases n
  {
    if n == 0 then Some(([], pos))
    else
      var (p, p1) :- GetProperty(e, buf, pos);
      var (ps, p2) :- GetProperties(e, buf, p1, n - 1);
      Some(([p] + ps, p2))
  }

  /** The size loop over the elements. */
  function PropertiesEnd(ps: seq<Property>, at: nat): nat
    decreases |ps|
  {
    if ps == [] then at else PropertiesEnd(ps[1..], PropertyEnd(ps[0], at))
  }

  ghost predicate WfProperties(ps: seq<Property>) {
    |ps| < 0x1_0000_0000 && forall p :: p in ps ==> WfProperty(p)
  }

  lemma {:induction false} PropertiesLaw(e: Endian, o: Bytes, ps: seq<Property>, buf: Bytes)
    requires (forall p :: p in ps ==> WfProperty(p)) && PutProperties(e, o, ps) <= buf
    ensures GetProperties(e, buf, |o|, |ps|) == Some((ps, |PutProperties(e, o, ps)|))
    ensures |PutProperties(e, o, ps)| == PropertiesEnd(ps, |o|)
    decreases |ps|
  {
    if ps != [] {
      hide PutProperty, GetProperty, PropertyEnd;
      var o1 := PutProperty(e, o, ps[0]);
      PropertyLaw(e, o, ps[0], buf);
      PropertiesLaw(e, o1, ps[1..], buf);
      assert [ps[0]] + ps[1..] == ps;
    }
  }

  /** An optional property sequence: a flag, then a count and the elements. */
  function PutOptProperties(e: Endian, o: Bytes, ps: Option<seq<Property>>): (o': Bytes)
    ensures o <= o'
  {
    match ps
    case None => PutBool(o, false)
    case Some(s) => PutProperties(e, PutUInt(e, PutBool(o, true), 4, |s|), s)
  }

  function GetOptProperties(e: Endian, buf: Bytes, pos: nat): Read<Option<seq<Property>>> {
    var (flag, p) :- GetBool(buf, pos);
    if !flag then Some((None, p))
    else
      var (n, p1) :- GetUInt(e, buf, p, 4);
      var (ps, p2) :- GetProperties(e, buf, p1, n);
      Some((Some(ps), p2))
  }

  /** The size loop counts the flag and the elements, but not the element count. */
  function OptPropertiesEnd(ps: Option<seq<Property>>, at: nat): nat {
    var c := at + 1 + Padding(at, 1);
    match ps
    case None => c
    case Some(s) => PropertiesEnd(s, c)
  }

  ghost predicate WfOptProperties(ps: Option<seq<Property>>) {
    ps.Some? ==> WfProperties(ps.value)
  }

  lemma OptPropertiesLaw(e: Endian, o: Bytes, ps: Option<seq<Property>>, buf: Bytes)
    requires WfOptProperties(ps) && PutOptProperties(e, o, ps) <= buf
    ensures GetOptProperties(e, buf, |o|) == Some((ps, |PutOptProperties(e, o, ps)|))
  {
    hide PutBool, PutUInt, GetBool, GetUInt, WfProperty;
    match ps
    case None =>
      BoolLaw(o, false, buf);
    case Some(s) =>
      var o1 := PutBool(o, true);
      BoolLaw(o, true, buf);
      Pow256Values();
      UIntLaw(e, o1, 4, |s|, buf);
      PropertiesLaw(e, PutUInt(e, o1, 4, |s|), s, buf);
  }

  lemma PropertyEndShift(p: Property, at: nat)
    ensures PropertyEnd(p, at + 4) == PropertyEnd(p, at) + 4
    ensures PropertyEnd(p, at + Padding(at, 4)) == PropertyEnd(p, at)
  {
    WordShift(at, |p.name| + 1);
  }

  lemma WordShift(at: nat, n: nat)
    ensures var c := at + 4 + Padding(at, 4) + n;
            && Padding(at + 4, 4) == Padding(at, 4) && Padding(c + 4, 4) == Padding(c, 4)
            && Padding(at + Padding(at, 4), 4) == 0
  {
  }

  /** Shifting a property sequence by whole words shifts its end by as much. */
  lemma {:induction false} PropertiesEndShift(ps: seq<Property>, at: nat)
    ensures PropertiesEnd(ps, at + 4) == PropertiesEnd(ps, at) + 4
    decreases |ps|
  {
    if ps != [] {
      hide PropertyEnd;
      PropertyEndShift(ps[0], at);
      PropertiesEndShift(ps[1..], PropertyEnd(ps[0], at));
    }
  }

  /** Properties start with an alignment of their own. */
  lemma PropertiesEndAligned(ps: seq<Property>, at: nat)
    ensures PropertiesEnd(ps, at + Padding(at, 4)) == if ps == [] then at + Padding(at, 4) else PropertiesEnd(ps, at)
    ensures ps == [] ==> PropertiesEnd(ps, at) == at
  {
    hide PropertyEnd;
    if ps != [] { PropertyEndShift(ps[0], at); }
  }

  /** The bytes that the size of a property sequence after position `at` misses: the count and the padding before it. */
  function PropertiesMissed(ps: Option<seq<Property>>, at: nat): nat {
    match ps
    case None => 0
    case Some(s) => 4 + if s == [] then Padding(at + 1, 4) else 0
  }

  lemma PropertiesSize(e: Endian, o: Bytes, ps: seq<Property>)
    requires WfProperties(ps)
    ensures |PutProperties(e, PutUInt(e, PutBool(o, true), 4, |ps|), ps)|
         == PropertiesEnd(ps, |o| + 1) + PropertiesMissed(Some(ps), |o|)
  {
    hide PutUInt, PutBool, Padding, PutProperties, PropertiesEnd, GetProperties, WfProperty;
    var o2 := PutUInt(e, PutBool(o, true), 4, |ps|);
    PropertiesLaw(e, o2, ps, PutProperties(e, o2, ps));
    PropertiesEndAfterCount(ps, |o| + 1);
  }

  lemma PropertiesEndAfterCount(ps: seq<Property>, c: nat)
    ensures PropertiesEnd(ps, c + Padding(c, 4) + 4) == PropertiesEnd(ps, c) + 4 + if ps == [] then Padding(c, 4) else 0
  {
    hide Padding, PropertiesEnd;
    PropertiesEndShift(ps, c + Padding(c, 4));
    PropertiesEndAligned(ps, c);
  }

  /** Exactly how many bytes the size misses: none if and only if there are no properties. */
  lemma OptPropertiesSize(e: Endian, o: Bytes, ps: Option<seq<Property>>)
    requires WfOptProperties(ps)
    ensures |PutOptProperties(e, o, ps)| == OptPropertiesEnd(ps, |o|) + PropertiesMissed(ps, |o|)
  {
    hide PutUInt, PutBool, PutProperties, PropertiesEnd, WfProperty;
    if ps.Some? { PropertiesSize(e, o, ps.value); }
  }
}
