/**
 The bytes of the XRCE payloads on the wire. A payload is a list of fields, as the IDL of OMG DDS-XRCE orders them; the
 fields alone say which bytes go out, without any of the serialisers.
 */
module XrceLayout {
  import opened Options
  import opened Cdr
  import opened XrceTypes
  import opened XrcePayloads
  import opened XrceSubmessages

  datatype Field =
    | Octet(v: byte)
    | Octets(s: Bytes)
    | Unsigned(size: Width, n: nat)  // aligned to its size
    | Characters(text: Bytes)        // their number with the terminator, the characters, the terminator
    | Counted(s: Bytes)              // their number, the octets

  // ---------------------------------------------------------------- the bytes of a field

  /** Byte i of n: the least significant byte first, or last. */
  ghost function IntBytes(e: Endian, n: nat, v: nat): (s: Bytes)
    ensures |s| == n
  {
    seq(n, i requires 0 <= i < n => v / Pow256(if e == Little then i else n - 1 - i) % 256)
  }

  /** How many bytes a position lies behind the last multiple of the size. */
  ghost function Behind(at: nat, size: Width): (r: nat)
    ensures r < size
  {
    match size
    case 1 => 0
    case 2 => at % 2
    case 4 => at % 4
    case _ => at % 8
  }

  /** How many bytes it is to the next multiple of the size. */
  ghost function Ahead(at: nat, size: Width): nat {
    if Behind(at, size) == 0 then 0 else size - Behind(at, size)
  }

  /** Zeros up to the next multiple of the size. */
  ghost function Gap(at: nat, size: Width): Bytes {
    seq(Ahead(at, size), _ => 0)
  }

  ghost function FieldBytes(e: Endian, at: nat, f: Field): Bytes {
    match f
    case Octet(v) => [v]
    case Octets(s) => s
    case Unsigned(size, n) => Gap(at, size) + IntBytes(e, size, n)
    case Characters(text) => Gap(at, 4) + IntBytes(e, 4, |text| + 1) + text + [0]
    case Counted(s) => Gap(at, 4) + IntBytes(e, 4, |s|) + s
  }

  ghost function Add(e: Endian, o: Bytes, f: Field): Bytes {
    o + FieldBytes(e, |o|, f)
  }

  /** The bytes so far with those of the fields behind them. */
  ghost function Wire(e: Endian, o: Bytes, fields: seq<Field>): Bytes
    decreases |fields|
  {
    if fields == [] then o else Wire(e, Add(e, o, fields[0]), fields[1..])
  }

  lemma DivDiv(v: nat, p: nat)
    requires p > 0
    ensures v / 256 / p == v / (256 * p)
  {
    var q := v / 256 / p;
    var r := v / 256 - p * q;
    assert v / 256 == p * q + r && 0 <= r < p;
    var s := 256 * r + v % 256;
    assert v == 256 * p * q + s by { assert 256 * (p * q) == 256 * p * q; }
    assert 0 <= s < 256 * p;
    QuotientIs(v, 256 * p, q, s);
  }

  lemma QuotientIs(v: nat, d: nat, q: nat, s: nat)
    requires d > 0 && v == d * q + s && s < d
    ensures v / d == q
  {
    var q' := v / d;
    var r := v % d;
    assert v == d * q' + r && 0 <= r < d;
    SameQuotient(d, q, d * q, s, q', d * q', r);
  }

  lemma SameQuotient(d: nat, q: nat, dq: nat, s: nat, q': nat, dq': nat, r: nat)
    requires d > 0 && dq == d * q && dq' == d * q' && dq + s == dq' + r && s < d && r < d
    ensures q == q'
  {
    if q < q' { MulGap(d, q, q'); }
    if q' < q { MulGap(d, q', q); }
  }

  lemma MulGap(d: nat, q: nat, q': nat)
    requires q < q'
    ensures d * q + d <= d * q'
  {
    var k := q' - q - 1;
    assert d * k >= 0;
    assert d * (q + 1 + k) == d * q + d + d * k;
  }

  lemma {:induction false} LittleByte(n: nat, v: nat, i: nat)
    requires i < n
    ensures LittleBytes(n, v)[i] == v / Pow256(i) % 256
  {
    if i > 0 {
      LittleByte(n - 1, v / 256, i - 1);
      DivDiv(v, Pow256(i - 1));
    }
  }

  /** Byte i of a little-endian integer is its digit i to the base 256, big-endian is the reverse. */
  lemma EncodeBytes(e: Endian, n: nat, v: nat)
    ensures Encode(e, n, v) == IntBytes(e, n, v)
  {
    hide LittleBytes, Pow256;
    var little := LittleBytes(n, v);
    forall i: nat | i < n
      ensures little[i] == v / Pow256(i) % 256
    {
      LittleByte(n, v, i);
    }
  }

  /** The padding leads to the next multiple of the size. */
  lemma PaddingAligns(at: nat, size: Width)
    ensures Padding(at, size) == Ahead(at, size)
    ensures Behind(at + Padding(at, size), size) == 0
  {
    hide Padding, Ahead, Behind;
    match size
    case 1 => AlignedToOne(at);
    case 2 => AlignedToTwo(at);
    case 4 => AlignedToFour(at);
    case _ => AlignedToEight(at);
  }

  lemma AlignedToOne(at: nat)
    ensures Padding(at, 1) == Ahead(at, 1) && Behind(at + Padding(at, 1), 1) == 0
  {
  }

  lemma AlignedToTwo(at: nat)
    ensures Padding(at, 2) == Ahead(at, 2) && Behind(at + Padding(at, 2), 2) == 0
  {
  }

  lemma AlignedToFour(at: nat)
    ensures Padding(at, 4) == Ahead(at, 4) && Behind(at + Padding(at, 4), 4) == 0
  {
  }

  lemma AlignedToEight(at: nat)
    ensures Padding(at, 8) == Ahead(at, 8) && Behind(at + Padding(at, 8), 8) == 0
  {
  }

  lemma {:induction false} BytesOfValue(s: Bytes)
    ensures LittleBytes(|s|, FromLittle(s)) == s
    decreases |s|
  {
    if s != [] {
      BytesOfValue(s[1..]);
      var v := FromLittle(s);
      assert v % 256 == s[0] && v / 256 == FromLittle(s[1..]);
    }
  }

  /** The only bytes from which an integer is read are those that it is written as. */
  lemma EncodeDecode(e: Endian, s: Bytes)
    ensures Encode(e, |s|, Decode(e, s)) == s
  {
    hide LittleBytes, FromLittle;
    BytesOfValue(s);
    BytesOfValue(Reversed(s));
    assert Reversed(Reversed(s)) == s;
  }

  // ---------------------------------------------------------------- reading single fields from any bytes

  /** A flag is read from a byte 0 or 1, and from no other. */
  lemma BoolReadIff(buf: Bytes, pos: nat, b: bool, p: nat)
    ensures GetBool(buf, pos) == Some((b, p)) <==> pos < |buf| && buf[pos] == (if b then 1 else 0) && p == pos + 1
  {
  }

  /** An integer is read exactly from its bytes at the next aligned position, if the buffer holds them. */
  lemma UIntReadIff(e: Endian, buf: Bytes, pos: nat, size: Width, v: nat, p: nat)
    ensures GetUInt(e, buf, pos, size) == Some((v, p)) <==>
            && v < Pow256(size) && p == pos + Ahead(pos, size) + size <= |buf|
            && buf[p - size..p] == IntBytes(e, size, v)
  {
    hide Encode, Decode, IntBytes, Pow256, Padding, Ahead;
    PaddingAligns(pos, size);
    EncodeBytes(e, size, v);
    var q := pos + Padding(pos, size);
    if q + size <= |buf| {
      EncodeDecode(e, buf[q..q + size]);
    }
    if v < Pow256(size) {
      DecodeEncode(e, size, v);
    }
  }

  /** A string is what its count covers, without a terminator at the end; counts beyond the buffer are refused. */
  lemma StringRead(e: Endian, buf: Bytes, pos: nat)
    ensures GetString(e, buf, pos) ==
            match GetUInt(e, buf, pos, 4)
            case None => None
            case Some((n, q)) =>
              if q + n > |buf| then None
              else
                var text := buf[q..q + n];
                Some((if text != [] && text[|text| - 1] == 0 then text[..|text| - 1] else text, q + n))
  {
    hide GetUInt;
    match GetUInt(e, buf, pos, 4)
    case None =>
    case Some((n, q)) =>
      if q + n <= |buf| && n > 0 {
        assert buf[q..q + n][..n - 1] == buf[q..q + n - 1];
      }
  }

  /** The kinds of object by their numbers: those with a parent, those without, and which formats each can have. */
  lemma KindTable(k: byte)
    ensures IsChild(k) <==> 2 <= k <= 8
    ensures IsPlain(k) <==> 0x0A <= k <= 0x0C
    ensures FormatsOf(k).ref <==> k !in {3, 4}
    ensures FormatsOf(k).bin <==> k !in {0x0A, 0x0B, 0x0C}
  {
  }

  /** What follows the kind and the format byte: characters, counted octets or nothing. */
  lemma RepReads(e: Endian, buf: Bytes, pos: nat, k: byte)
    requires pos < |buf|
    ensures var d := buf[pos];
            GetRep(e, buf, pos, FormatsOf(k)) ==
            if d == 2 || (d == 1 && k !in {3, 4}) then
              match GetString(e, buf, pos + 1)
              case None => None
              case Some((s, p)) => Some((if d == 1 then ByReference(s) else AsXml(s), p))
            else if d == 3 && k !in {0x0A, 0x0B, 0x0C} then
              match GetOctets(e, buf, pos + 1)
              case None => None
              case Some((s, p)) => Some((InBinary(s), p))
            else Some((OtherRep(d), pos + 1))
  {
    hide GetString, GetOctets;
    KindTable(k);
  }

  // ---------------------------------------------------------------- the serialisers of single fields

  lemma ByteField(e: Endian, o: Bytes, v: byte)
    ensures PutByte(o, v) == Add(e, o, Octet(v))
  {
  }

  lemma BoolField(e: Endian, o: Bytes, b: bool)
    ensures PutBool(o, b) == Add(e, o, Octet(if b then 1 else 0))
  {
  }

  lemma ArrayField(e: Endian, o: Bytes, s: Bytes)
    ensures PutArray(o, s) == Add(e, o, Octets(s))
  {
  }

  lemma UIntField(e: Endian, o: Bytes, size: Width, v: nat)
    ensures PutUInt(e, o, size, v) == Add(e, o, Unsigned(size, v))
  {
    hide Padding, Encode, IntBytes, Ahead;
    PaddingAligns(|o|, size);
    EncodeBytes(e, size, v);
  }

  lemma Regrouped(o: Bytes, a: Bytes, b: Bytes, c: Bytes)
    ensures o + (a + b + c) == o + a + b + c && o + (a + b) == o + a + b
  {
  }

  lemma StringField(e: Endian, o: Bytes, s: Bytes)
    ensures PutString(e, o, s) == Add(e, o, Characters(s))
  {
    hide PutUInt, IntBytes, Gap;
    UIntField(e, o, 4, |s| + 1);
    Regrouped(o, Gap(|o|, 4) + IntBytes(e, 4, |s| + 1), s, [0]);
  }

  lemma OctetsField(e: Endian, o: Bytes, s: Bytes)
    ensures PutOctets(e, o, s) == Add(e, o, Counted(s))
  {
    hide PutUInt, IntBytes, Gap;
    UIntField(e, o, 4, |s|);
    Regrouped(o, Gap(|o|, 4) + IntBytes(e, 4, |s|), s, []);
  }

  // ---------------------------------------------------------------- lists of fields

  lemma {:induction false} WireConcat(e: Endian, o: Bytes, a: seq<Field>, b: seq<Field>)
    ensures Wire(e, o, a + b) == Wire(e, Wire(e, o, a), b)
    decreases |a|
  {
    if a == [] {
      assert a + b == b;
    } else {
      assert (a + b)[1..] == a[1..] + b;
      WireConcat(e, Add(e, o, a[0]), a[1..], b);
    }
  }

  lemma Wire1(e: Endian, o: Bytes, f: Field)
    ensures Wire(e, o, [f]) == Add(e, o, f)
  {
    hide Add;
  }

  lemma Wire2(e: Endian, o: Bytes, f: Field, g: Field)
    ensures Wire(e, o, [f, g]) == Add(e, Add(e, o, f), g)
  {
    hide Add;
    assert [f, g] == [f] + [g];
    WireConcat(e, o, [f], [g]);
    Wire1(e, o, f);
    Wire1(e, Add(e, o, f), g);
  }

  lemma Wire3(e: Endian, o: Bytes, f: Field, g: Field, h: Field)
    ensures Wire(e, o, [f, g, h]) == Add(e, Add(e, Add(e, o, f), g), h)
  {
    hide Add;
    assert [f, g, h] == [f] + [g, h];
    WireConcat(e, o, [f], [g, h]);
    Wire1(e, o, f);
    Wire2(e, Add(e, o, f), g, h);
  }

  // ---------------------------------------------------------------- MessageHeader

  /** Session, stream and sequence number; the client key only below session 128. */
  ghost function HeaderFields(h: MessageHeader): seq<Field> {
    [Octet(h.sessionId), Octet(h.streamId), Unsigned(2, h.sequenceNr)]
    + if h.sessionId < 128 then [Octets(h.clientKey)] else []
  }

  /** A header is little-endian on every stream. */
  lemma HeaderWire(e: Endian, o: Bytes, h: MessageHeader)
    ensures PutHeader(e, o, h) == Wire(Little, o, HeaderFields(h))
  {
    hide PutByte, PutUInt, PutArray, Add, Wire;
    var o1 := PutByte(o, h.sessionId);
    var o2 := PutByte(o1, h.streamId);
    var o3 := PutU16(Little, o2, h.sequenceNr);
    ByteField(Little, o, h.sessionId);
    ByteField(Little, o1, h.streamId);
    UIntField(Little, o2, 2, h.sequenceNr);
    ArrayField(Little, o3, h.clientKey);
    var start := [Octet(h.sessionId), Octet(h.streamId), Unsigned(2, h.sequenceNr)];
    Wire3(Little, o, start[0], start[1], start[2]);
    WireConcat(Little, o, start, [Octets(h.clientKey)]);
    Wire1(Little, o3, Octets(h.clientKey));
    assert start + [] == start;
  }

  // ---------------------------------------------------------------- addresses and properties

  /** The format of the address, the address, the port. */
  ghost function AddressFields(a: TransportAddress): seq<Field> {
    match a
    case Small(address, port) => [Octet(0), Octets(address), Octet(port)]
    case Medium(address, port) => [Octet(1), Octets(address), Unsigned(2, port)]
    case Large(address, port) => [Octet(2), Octets(address), Unsigned(4, port)]
    case Text(value) => [Octet(3), Characters(value)]
    case OtherAddress(format) => [Octet(format)]
  }

  lemma AddressWire(e: Endian, o: Bytes, a: TransportAddress)
    ensures PutAddress(e, o, a) == Wire(e, o, AddressFields(a))
  {
    hide PutByte, PutArray, PutUInt, PutString, Add, Wire;
    match a
    case Small(address, port) =>
      ByteField(e, o, 0);
      ArrayField(e, PutByte(o, 0), address);
      ByteField(e, PutArray(PutByte(o, 0), address), port);
      Wire3(e, o, Octet(0), Octets(address), Octet(port));
    case Medium(address, port) =>
      ByteField(e, o, 1);
      ArrayField(e, PutByte(o, 1), address);
      UIntField(e, PutArray(PutByte(o, 1), address), 2, port);
      Wire3(e, o, Octet(1), Octets(address), Unsigned(2, port));
    case Large(address, port) =>
      ByteField(e, o, 2);
      ArrayField(e, PutByte(o, 2), address);
      UIntField(e, PutArray(PutByte(o, 2), address), 4, port);
      Wire3(e, o, Octet(2), Octets(address), Unsigned(4, port));
    case Text(value) =>
      ByteField(e, o, 3);
      StringField(e, PutByte(o, 3), value);
      Wire2(e, o, Octet(3), Characters(value));
    case OtherAddress(format) =>
      ByteField(e, o, format);
      Wire1(e, o, Octet(format));
  }

  /** Name and value of every property, in order. */
  ghost function PropertyFields(ps: seq<Property>): seq<Field>
    decreases |ps|
  {
    if ps == [] then [] else [Characters(ps[0].name), Characters(ps[0].value)] + PropertyFields(ps[1..])
  }

  lemma {:induction false} PropertiesWire(e: Endian, o: Bytes, ps: seq<Property>)
    ensures PutProperties(e, o, ps) == Wire(e, o, PropertyFields(ps))
    decreases |ps|
  {
    hide PutString, Add;
    if ps != [] {
      var first := [Characters(ps[0].name), Characters(ps[0].value)];
      StringField(e, o, ps[0].name);
      StringField(e, PutString(e, o, ps[0].name), ps[0].value);
      Wire2(e, o, first[0], first[1]);
      WireConcat(e, o, first, PropertyFields(ps[1..]));
      PropertiesWire(e, PutProperty(e, o, ps[0]), ps[1..]);
    }
  }

  /** A flag, and if it is set the number of properties and the properties. */
  ghost function OptPropertyFields(ps: Option<seq<Property>>): seq<Field> {
    match ps
    case None => [Octet(0)]
    case Some(s) => [Octet(1), Unsigned(4, |s|)] + PropertyFields(s)
  }

  lemma OptPropertiesWire(e: Endian, o: Bytes, ps: Option<seq<Property>>)
    ensures PutOptProperties(e, o, ps) == Wire(e, o, OptPropertyFields(ps))
  {
    hide PutBool, PutUInt, PutProperties, Add, Wire, PropertyFields;
    match ps
    case None =>
      BoolField(e, o, false);
      Wire1(e, o, Octet(0));
    case Some(s) =>
      BoolField(e, o, true);
      UIntField(e, PutBool(o, true), 4, |s|);
      Wire2(e, o, Octet(1), Unsigned(4, |s|));
      WireConcat(e, o, [Octet(1), Unsigned(4, |s|)], PropertyFields(s));
      PropertiesWire(e, PutUInt(e, PutBool(o, true), 4, |s|), s);
  }

  // ---------------------------------------------------------------- representations

  ghost function AgentFields(a: AgentRep): seq<Field> {
    [Octets(a.cookie), Octets(a.version), Octets(a.vendor)] + OptPropertyFields(a.properties)
  }

  lemma AgentWire(e: Endian, o: Bytes, a: AgentRep)
    ensures PutAgent(e, o, a) == Wire(e, o, AgentFields(a))
  {
    hide PutArray, PutOptProperties, Add, Wire, OptPropertyFields;
    var o1 := PutArray(o, a.cookie);
    var o2 := PutArray(o1, a.version);
    ArrayField(e, o, a.cookie);
    ArrayField(e, o1, a.version);
    ArrayField(e, o2, a.vendor);
    Wire3(e, o, Octets(a.cookie), Octets(a.version), Octets(a.vendor));
    WireConcat(e, o, [Octets(a.cookie), Octets(a.version), Octets(a.vendor)], OptPropertyFields(a.properties));
    OptPropertiesWire(e, PutArray(o2, a.vendor), a.properties);
  }

  ghost function ClientFields(c: ClientRep): seq<Field> {
    [Octets(c.cookie), Octets(c.version), Octets(c.vendor)]
    + ([Octets(c.key), Octet(c.session)] + (OptPropertyFields(c.properties) + [Unsigned(2, c.mtu)]))
  }

  lemma ClientWire(e: Endian, o: Bytes, c: ClientRep)
    ensures PutClient(e, o, c) == Wire(e, o, ClientFields(c))
  {
    hide PutArray, PutByte, PutUInt, PutOptProperties, Add, Wire, OptPropertyFields;
    var o1 := PutArray(o, c.cookie);
    var o2 := PutArray(o1, c.version);
    var o3 := PutArray(o2, c.vendor);
    var o4 := PutArray(o3, c.key);
    var o5 := PutByte(o4, c.session);
    var o6 := PutOptProperties(e, o5, c.properties);
    ArrayField(e, o, c.cookie);
    ArrayField(e, o1, c.version);
    ArrayField(e, o2, c.vendor);
    ArrayField(e, o3, c.key);
    ByteField(e, o4, c.session);
    OptPropertiesWire(e, o5, c.properties);
    UIntField(e, o6, 2, c.mtu);
    Wire3(e, o, Octets(c.cookie), Octets(c.version), Octets(c.vendor));
    Wire2(e, o3, Octets(c.key), Octet(c.session));
    Wire1(e, o6, Unsigned(2, c.mtu));
    var tail := OptPropertyFields(c.properties) + [Unsigned(2, c.mtu)];
    WireConcat(e, o5, OptPropertyFields(c.properties), [Unsigned(2, c.mtu)]);
    WireConcat(e, o3, [Octets(c.key), Octet(c.session)], tail);
    WireConcat(e, o, [Octets(c.cookie), Octets(c.version), Octets(c.vendor)], [Octets(c.key), Octet(c.session)] + tail);
  }

  /** 1 for a reference, 2 for XML, 3 for binary, and what goes with it. */
  ghost function RepFields(r: Rep): seq<Field> {
    match r
    case ByReference(s) => [Octet(1), Characters(s)]
    case AsXml(s) => [Octet(2), Characters(s)]
    case InBinary(s) => [Octet(3), Counted(s)]
    case OtherRep(d) => [Octet(d)]
  }

  lemma RepWire(e: Endian, o: Bytes, r: Rep)
    ensures PutRep(e, o, r) == Wire(e, o, RepFields(r))
  {
    hide PutByte, PutString, PutOctets, Add, Wire;
    match r
    case ByReference(s) =>
      ByteField(e, o, 1);
      StringField(e, PutByte(o, 1), s);
      Wire2(e, o, Octet(1), Characters(s));
    case AsXml(s) =>
      ByteField(e, o, 2);
      StringField(e, PutByte(o, 2), s);
      Wire2(e, o, Octet(2), Characters(s));
    case InBinary(s) =>
      ByteField(e, o, 3);
      OctetsField(e, PutByte(o, 3), s);
      Wire2(e, o, Octet(3), Counted(s));
    case OtherRep(d) =>
      ByteField(e, o, d);
      Wire1(e, o, Octet(d));
  }

  /** Two's complement in 16 bits. */
  ghost function Signed(v: int16): Field {
    Unsigned(2, if v < 0 then v + 0x1_0000 else v)
  }

  /** The object kind, the representation, and what the kind adds to it. */
  ghost function VariantFields(v: ObjectVariant): seq<Field> {
    match v
    case Agent(a) => [Octet(0x0D)] + AgentFields(a)
    case Client(c) => [Octet(0x0E)] + ClientFields(c)
    case Participant(r, d) => [Octet(0x01)] + (RepFields(r) + [Signed(d)])
    case Plain(k, r) => [Octet(k)] + RepFields(r)
    case Child(k, r, id) => [Octet(k)] + (RepFields(r) + [Octets(id)])
    case OtherObject(k) => [Octet(k)]
  }

  lemma VariantWire(e: Endian, o: Bytes, v: ObjectVariant)
    ensures PutVariant(e, o, v) == Wire(e, o, VariantFields(v))
  {
    hide PutByte, PutArray, PutUInt, PutRep, PutAgent, PutClient, Add, Wire, RepFields, AgentFields, ClientFields;
    match v
    case Agent(a) =>
      KindThen(e, o, 0x0D, AgentFields(a));
      AgentWire(e, PutByte(o, 0x0D), a);
    case Client(c) =>
      KindThen(e, o, 0x0E, ClientFields(c));
      ClientWire(e, PutByte(o, 0x0E), c);
    case Participant(r, d) =>
      KindThen(e, o, 0x01, RepFields(r) + [Signed(d)]);
      RepThen(e, PutByte(o, 0x01), r, Signed(d));
      UIntField(e, PutRep(e, PutByte(o, 0x01), r), 2, if d < 0 then d + 0x1_0000 else d);
    case Plain(k, r) =>
      KindThen(e, o, k, RepFields(r));
      RepWire(e, PutByte(o, k), r);
    case Child(k, r, id) =>
      KindThen(e, o, k, RepFields(r) + [Octets(id)]);
      RepThen(e, PutByte(o, k), r, Octets(id));
      ArrayField(e, PutRep(e, PutByte(o, k), r), id);
    case OtherObject(k) =>
      ByteField(e, o, k);
      Wire1(e, o, Octet(k));
  }

  lemma KindThen(e: Endian, o: Bytes, k: byte, fields: seq<Field>)
    ensures Wire(e, o, [Octet(k)] + fields) == Wire(e, PutByte(o, k), fields)
  {
    hide PutByte, Add, Wire;
    WireConcat(e, o, [Octet(k)], fields);
    ByteField(e, o, k);
    Wire1(e, o, Octet(k));
  }

  lemma RepThen(e: Endian, o: Bytes, r: Rep, last: Field)
    ensures Wire(e, o, RepFields(r) + [last]) == Add(e, PutRep(e, o, r), last)
  {
    hide PutRep, Add, Wire, RepFields;
    WireConcat(e, o, RepFields(r), [last]);
    RepWire(e, o, r);
    Wire1(e, PutRep(e, o, r), last);
  }

  // ---------------------------------------------------------------- submessages

  ghost function RequestFields(r: Request): seq<Field> {
    [Octets(r.requestId), Octets(r.objectId)]
  }

  lemma RequestThen(e: Endian, o: Bytes, r: Request, fields: seq<Field>)
    ensures Wire(e, o, RequestFields(r) + fields) == Wire(e, PutRequest(o, r), fields)
  {
    hide PutArray, Add, Wire;
    ArrayField(e, o, r.requestId);
    ArrayField(e, PutArray(o, r.requestId), r.objectId);
    Wire2(e, o, Octets(r.requestId), Octets(r.objectId));
    WireConcat(e, o, RequestFields(r), fields);
  }

  /** CREATE: the request and the object. */
  lemma CreateWire(e: Endian, o: Bytes, c: Create)
    ensures PutCreate(e, o, c) == Wire(e, o, RequestFields(c.request) + VariantFields(c.object_))
  {
    hide PutRequest, PutVariant, Wire, RequestFields, VariantFields;
    RequestThen(e, o, c.request, VariantFields(c.object_));
    VariantWire(e, PutRequest(o, c.request), c.object_);
  }

  ghost function OptStringFields(s: Option<Bytes>): seq<Field> {
    match s
    case None => [Octet(0)]
    case Some(t) => [Octet(1), Characters(t)]
  }

  lemma OptStringWire(e: Endian, o: Bytes, s: Option<Bytes>)
    ensures PutOptString(e, o, s) == Wire(e, o, OptStringFields(s))
  {
    hide PutBool, PutString, Add, Wire;
    match s
    case None =>
      BoolField(e, o, false);
      Wire1(e, o, Octet(0));
    case Some(t) =>
      BoolField(e, o, true);
      StringField(e, PutBool(o, true), t);
      Wire2(e, o, Octet(1), Characters(t));
  }

  ghost function OptDeliveryFields(d: Option<DeliveryControl>): seq<Field> {
    match d
    case None => [Octet(0)]
    case Some(c) =>
      [Octet(1), Unsigned(2, c.maxSamples), Unsigned(2, c.maxElapsed)]
      + [Unsigned(2, c.maxBytesPerSecond), Unsigned(2, c.minPace)]
  }

  lemma OptDeliveryWire(e: Endian, o: Bytes, d: Option<DeliveryControl>)
    ensures PutOptDelivery(e, o, d) == Wire(e, o, OptDeliveryFields(d))
  {
    hide PutBool, PutUInt, Add, Wire;
    match d
    case None =>
      BoolField(e, o, false);
      Wire1(e, o, Octet(0));
    case Some(c) =>
      var o1 := PutBool(o, true);
      var o2 := PutU16(e, o1, c.maxSamples);
      var o3 := PutU16(e, o2, c.maxElapsed);
      var o4 := PutU16(e, o3, c.maxBytesPerSecond);
      BoolField(e, o, true);
      UIntField(e, o1, 2, c.maxSamples);
      UIntField(e, o2, 2, c.maxElapsed);
      UIntField(e, o3, 2, c.maxBytesPerSecond);
      UIntField(e, o4, 2, c.minPace);
      Wire3(e, o, Octet(1), Unsigned(2, c.maxSamples), Unsigned(2, c.maxElapsed));
      Wire2(e, o3, Unsigned(2, c.maxBytesPerSecond), Unsigned(2, c.minPace));
      WireConcat(e, o, [Octet(1), Unsigned(2, c.maxSamples), Unsigned(2, c.maxElapsed)],
                 [Unsigned(2, c.maxBytesPerSecond), Unsigned(2, c.minPace)]);
  }

  /** READ_DATA: the request, stream and format, the optional filter and the optional delivery control. */
  ghost function ReadDataFields(r: ReadData): seq<Field> {
    RequestFields(r.request)
    + ([Octet(r.spec.preferredStream), Octet(r.spec.dataFormat)]
       + (OptStringFields(r.spec.filter) + OptDeliveryFields(r.spec.control)))
  }

  lemma ReadDataWire(e: Endian, o: Bytes, r: ReadData)
    ensures PutReadData(e, o, r) == Wire(e, o, ReadDataFields(r))
  {
    hide PutRequest, PutByte, PutOptString, PutOptDelivery, Add, Wire, RequestFields, OptStringFields,
         OptDeliveryFields;
    var o1 := PutRequest(o, r.request);
    var o2 := PutByte(o1, r.spec.preferredStream);
    var o3 := PutByte(o2, r.spec.dataFormat);
    var o4 := PutOptString(e, o3, r.spec.filter);
    var format := [Octet(r.spec.preferredStream), Octet(r.spec.dataFormat)];
    var tail := OptStringFields(r.spec.filter) + OptDeliveryFields(r.spec.control);
    RequestThen(e, o, r.request, format + tail);
    ByteField(e, o1, r.spec.preferredStream);
    ByteField(e, o2, r.spec.dataFormat);
    Wire2(e, o1, format[0], format[1]);
    WireConcat(e, o1, format, tail);
    WireConcat(e, o3, OptStringFields(r.spec.filter), OptDeliveryFields(r.spec.control));
    OptStringWire(e, o3, r.spec.filter);
    OptDeliveryWire(e, o4, r.spec.control);
  }

  ghost function AddressesFields(s: seq<TransportAddress>): seq<Field>
    decreases |s|
  {
    if s == [] then [] else AddressFields(s[0]) + AddressesFields(s[1..])
  }

  lemma {:induction false} AddressesWire(e: Endian, o: Bytes, s: seq<TransportAddress>)
    ensures PutAddresses(e, o, s) == Wire(e, o, AddressesFields(s))
    decreases |s|
  {
    hide PutAddress, Add, AddressFields;
    if s != [] {
      WireConcat(e, o, AddressFields(s[0]), AddressesFields(s[1..]));
      AddressWire(e, o, s[0]);
      AddressesWire(e, PutAddress(e, o, s[0]), s[1..]);
    }
  }

  /** The object kind, and what is active: an agent, a data writer or a data reader. */
  ghost function ActivityFields(a: ActivityInfo): seq<Field> {
    match a
    case AgentActivity(v, s) => [Octet(0x0D), Signed(v), Unsigned(4, |s|)] + AddressesFields(s)
    case WriterActivity(n, m) => [Octet(0x05), Unsigned(2, n), Unsigned(8, m)]
    case ReaderActivity(n) => [Octet(0x06), Unsigned(2, n)]
    case OtherActivity(k) => [Octet(k)]
  }

  lemma ActivityWire(e: Endian, o: Bytes, a: ActivityInfo)
    ensures PutActivity(e, o, a) == Wire(e, o, ActivityFields(a))
  {
    hide PutByte, PutUInt, PutAddresses, Add, Wire, AddressesFields;
    match a
    case AgentActivity(v, s) =>
      var o1 := PutByte(o, 0x0D);
      var o2 := PutI16(e, o1, v);
      var o3 := PutUInt(e, o2, 4, |s|);
      ByteField(e, o, 0x0D);
      UIntField(e, o1, 2, if v < 0 then v + 0x1_0000 else v);
      UIntField(e, o2, 4, |s|);
      Wire3(e, o, Octet(0x0D), Signed(v), Unsigned(4, |s|));
      WireConcat(e, o, [Octet(0x0D), Signed(v), Unsigned(4, |s|)], AddressesFields(s));
      AddressesWire(e, o3, s);
    case WriterActivity(n, m) =>
      var o1 := PutByte(o, 0x05);
      ByteField(e, o, 0x05);
      UIntField(e, o1, 2, n);
      UIntField(e, PutU16(e, o1, n), 8, m);
      Wire3(e, o, Octet(0x05), Unsigned(2, n), Unsigned(8, m));
    case ReaderActivity(n) =>
      ByteField(e, o, 0x06);
      UIntField(e, PutByte(o, 0x06), 2, n);
      Wire2(e, o, Octet(0x06), Unsigned(2, n));
    case OtherActivity(k) =>
      ByteField(e, o, k);
      Wire1(e, o, Octet(k));
  }

  ghost function ConfigFields(c: Option<ObjectVariant>): seq<Field> {
    match c
    case None => [Octet(0)]
    case Some(v) => [Octet(1)] + VariantFields(v)
  }

  lemma ConfigWire(e: Endian, o: Bytes, c: Option<ObjectVariant>)
    ensures PutConfig(e, o, c) == Wire(e, o, ConfigFields(c))
  {
    hide PutVariant, Add, Wire, VariantFields;
    match c
    case None =>
      BoolField(e, o, false);
      Wire1(e, o, Octet(0));
    case Some(v) =>
      KindThen(e, o, 1, VariantFields(v));
      VariantWire(e, PutBool(o, true), v);
  }

  ghost function OptActivityFields(a: Option<ActivityInfo>): seq<Field> {
    match a
    case None => [Octet(0)]
    case Some(v) => [Octet(1)] + ActivityFields(v)
  }

  lemma OptActivityWire(e: Endian, o: Bytes, a: Option<ActivityInfo>)
    ensures PutOptActivity(e, o, a) == Wire(e, o, OptActivityFields(a))
  {
    hide PutActivity, Add, Wire, ActivityFields;
    match a
    case None =>
      BoolField(e, o, false);
      Wire1(e, o, Octet(0));
    case Some(v) =>
      KindThen(e, o, 1, ActivityFields(v));
      ActivityWire(e, PutBool(o, true), v);
  }

  /** INFO: the related request, the two status bytes, the optional configuration and the optional activity. */
  ghost function InfoFields(i: Info): seq<Field> {
    RequestFields(i.related)
    + ([Octet(i.status), Octet(i.implementationStatus)]
       + (ConfigFields(i.object_.config) + OptActivityFields(i.object_.activity)))
  }

  lemma InfoWire(e: Endian, o: Bytes, i: Info)
    ensures PutInfo(e, o, i) == Wire(e, o, InfoFields(i))
  {
    hide PutRequest, PutByte, PutConfig, PutOptActivity, Add, Wire, RequestFields, ConfigFields, OptActivityFields;
    var o1 := PutRequest(o, i.related);
    var o2 := PutByte(o1, i.status);
    var o3 := PutByte(o2, i.implementationStatus);
    var o4 := PutConfig(e, o3, i.object_.config);
    var status := [Octet(i.status), Octet(i.implementationStatus)];
    var tail := ConfigFields(i.object_.config) + OptActivityFields(i.object_.activity);
    RequestThen(e, o, i.related, status + tail);
    ByteField(e, o1, i.status);
    ByteField(e, o2, i.implementationStatus);
    Wire2(e, o1, status[0], status[1]);
    WireConcat(e, o1, status, tail);
    WireConcat(e, o3, ConfigFields(i.object_.config), OptActivityFields(i.object_.activity));
    ConfigWire(e, o3, i.object_.config);
    OptActivityWire(e, o4, i.object_.activity);
  }

  lemma AcknackWire(e: Endian, o: Bytes, a: Acknack)
    ensures PutAcknack(e, o, a) == Wire(e, o, [Unsigned(2, a.firstUnacked), Octets(a.nackBitmap), Octet(a.streamId)])
  {
    hide PutUInt, PutArray, PutByte, Add, Wire;
    var o1 := PutU16(e, o, a.firstUnacked);
    UIntField(e, o, 2, a.firstUnacked);
    ArrayField(e, o1, a.nackBitmap);
    ByteField(e, PutArray(o1, a.nackBitmap), a.streamId);
    Wire3(e, o, Unsigned(2, a.firstUnacked), Octets(a.nackBitmap), Octet(a.streamId));
  }

  lemma HeartbeatWire(e: Endian, o: Bytes, h: Heartbeat)
    ensures PutHeartbeat(e, o, h)
         == Wire(e, o, [Unsigned(2, h.firstUnacked), Unsigned(2, h.lastUnacked), Octet(h.streamId)])
  {
    hide PutUInt, PutByte, Add, Wire;
    var o1 := PutU16(e, o, h.firstUnacked);
    UIntField(e, o, 2, h.firstUnacked);
    UIntField(e, o1, 2, h.lastUnacked);
    ByteField(e, PutU16(e, o1, h.lastUnacked), h.streamId);
    Wire3(e, o, Unsigned(2, h.firstUnacked), Unsigned(2, h.lastUnacked), Octet(h.streamId));
  }

  // ---------------------------------------------------------------- whole messages, byte by byte

  /** The two bytes of a 16-bit integer. */
  ghost function TwoBytes(e: Endian, v: uint16): Bytes {
    if e == Little then [v % 256, v / 256] else [v / 256, v % 256]
  }

  lemma TwoDigits(e: Endian, v: uint16)
    ensures IntBytes(e, 2, v) == TwoBytes(e, v)
  {
    hide Pow256;
    FirstPowers();
    assert v / 1 == v && v / 256 % 256 == v / 256;
  }

  lemma FirstPowers()
    ensures Pow256(0) == 1 && Pow256(1) == 256
  {
  }

  lemma TwoBytesAre(e: Endian, o: Bytes, v: uint16)
    requires |o| % 2 == 0
    ensures PutU16(e, o, v) == o + TwoBytes(e, v)
  {
    hide Encode, IntBytes, TwoBytes, LittleBytes;
    EncodeBytes(e, 2, v);
    TwoDigits(e, v);
    assert o + Zeros(0) == o;
  }

  /** A header: session, stream, sequence number low byte first, and below session 128 the four bytes of the key. */
  lemma HeaderBytes(e: Endian, h: MessageHeader)
    ensures PutHeader(e, [], h)
         == [h.sessionId, h.streamId, h.sequenceNr % 256, h.sequenceNr / 256]
            + if h.sessionId < 128 then h.clientKey else []
  {
    hide PutU16;
    var start := [h.sessionId, h.streamId];
    assert PutByte(PutByte([], h.sessionId), h.streamId) == start;
    TwoBytesAre(Little, start, h.sequenceNr);
    assert start + TwoBytes(Little, h.sequenceNr)
        == [h.sessionId, h.streamId, h.sequenceNr % 256, h.sequenceNr / 256];
  }

  /** A HEARTBEAT in either byte order: first and last unacknowledged number, stream. */
  lemma HeartbeatBytes(e: Endian, h: Heartbeat)
    ensures PutHeartbeat(e, [], h) == TwoBytes(e, h.firstUnacked) + TwoBytes(e, h.lastUnacked) + [h.streamId]
    ensures PutHeartbeat(Little, [], h)
         == [h.firstUnacked % 256, h.firstUnacked / 256, h.lastUnacked % 256, h.lastUnacked / 256, h.streamId]
  {
    hide PutU16;
    TwoBytesAre(e, [], h.firstUnacked);
    TwoBytesAre(e, TwoBytes(e, h.firstUnacked), h.lastUnacked);
    TwoBytesAre(Little, [], h.firstUnacked);
    TwoBytesAre(Little, TwoBytes(Little, h.firstUnacked), h.lastUnacked);
    assert [] + TwoBytes(e, h.firstUnacked) == TwoBytes(e, h.firstUnacked);
    assert [] + TwoBytes(Little, h.firstUnacked) == TwoBytes(Little, h.firstUnacked);
  }

  /** An ACKNACK in either byte order: first unacknowledged number, bitmap as it is, stream. */
  lemma AcknackBytes(e: Endian, a: Acknack)
    ensures PutAcknack(e, [], a) == TwoBytes(e, a.firstUnacked) + a.nackBitmap + [a.streamId]
  {
    hide PutU16;
    TwoBytesAre(e, [], a.firstUnacked);
    assert [] + TwoBytes(e, a.firstUnacked) == TwoBytes(e, a.firstUnacked);
  }

  /** The kind that the first byte of an object names. */
  ghost function KindOf(v: ObjectVariant): byte {
    match v
    case Agent(_) => 0x0D
    case Client(_) => 0x0E
    case Participant(_, _) => 0x01
    case Plain(k, _) => k
    case Child(k, _, _) => k
    case OtherObject(k) => k
  }

  lemma VariantStart(e: Endian, o: Bytes, v: ObjectVariant)
    ensures |PutVariant(e, o, v)| > |o| && PutVariant(e, o, v)[|o|] == KindOf(v)
  {
    hide PutRep, PutAgent, PutClient, PutUInt, PutArray;
    var o' := PutVariant(e, o, v);
    assert PutByte(o, KindOf(v)) <= o';
    assert PutByte(o, KindOf(v))[|o|] == KindOf(v);
  }

  /** A CREATE at the start of a buffer: request id, object id, kind of the object. */
  lemma CreateStart(e: Endian, c: Create)
    ensures var s := PutCreate(e, [], c);
            |s| >= 5 && s[0..2] == c.request.requestId && s[2..4] == c.request.objectId && s[4] == KindOf(c.object_)
  {
    hide PutVariant;
    var start := PutRequest([], c.request);
    assert start == c.request.requestId + c.request.objectId;
    VariantStart(e, start, c.object_);
    assert start <= PutCreate(e, [], c);
    assert PutCreate(e, [], c)[0..4] == start;
  }
}
