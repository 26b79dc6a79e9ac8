/** The object representations and the submessage payloads of `XRCETypes.cpp`. */
module XrcePayloads {
  import opened Options
  import opened Cdr
  import opened XrceTypes

  // ---------------------------------------------------------------- AGENT and CLIENT representations

  datatype AgentRep = AgentRep(cookie: Octets4, version: Octets2, vendor: Octets2, properties: Option<seq<Property>>)

  function PutAgent(e: Endian, o: Bytes, a: AgentRep): (o': Bytes)
    ensures o <= o'
  {
    var o1 := PutArray(o, a.cookie);
    var o2 := PutArray(o1, a.version);
    var o3 := PutArray(o2, a.vendor);
    PutOptProperties(e, o3, a.properties)
  }

  function GetAgent(e: Endian, buf: Bytes, pos: nat): Read<AgentRep> {
    var (cookie, p1) :- GetArray(buf, pos, 4);
    var (version, p2) :- GetArray(buf, p1, 2);
    var (vendor, p3) :- GetArray(buf, p2, 2);
    var (properties, p4) :- GetOptProperties(e, buf, p3);
    Some((AgentRep(cookie, version, vendor, properties), p4))
  }

  function AgentEnd(a: AgentRep, at: nat): nat {
    var c1 := at + 4 * 1 + Padding(at, 1);
    var c2 := c1 + 2 * 1 + Padding(c1, 1);
    var c3 := c2 + 2 * 1 + Padding(c2, 1);
    OptPropertiesEnd(a.properties, c3)
  }

  lemma AgentLaw(e: Endian, o: Bytes, a: AgentRep, buf: Bytes)
    requires WfOptProperties(a.properties) && PutAgent(e, o, a) <= buf
    ensures GetAgent(e, buf, |o|) == Some((a, |PutAgent(e, o, a)|))
  {
    hide PutArray, GetArray, PutOptProperties, GetOptProperties, WfOptProperties;
    var o1 := PutArray(o, a.cookie);
    var o2 := PutArray(o1, a.version);
    var o3 := PutArray(o2, a.vendor);
    ArrayLaw(o, a.cookie, 4, buf);
    ArrayLaw(o1, a.version, 2, buf);
    ArrayLaw(o2, a.vendor, 2, buf);
    OptPropertiesLaw(e, o3, a.properties, buf);
  }

  function AgentMissed(a: AgentRep, at: nat): nat {
    PropertiesMissed(a.properties, at + 8)
  }

  /** What the AGENT size misses; it is exact if and only if there are no properties. */
  lemma AgentSize(e: Endian, o: Bytes, a: AgentRep)
    requires WfOptProperties(a.properties)
    ensures |PutAgent(e, o, a)| == AgentEnd(a, |o|) + AgentMissed(a, |o|)
    ensures AgentMissed(a, |o|) == 0 <==> a.properties.None?
  {
    hide PutArray, PutOptProperties, OptPropertiesEnd, WfOptProperties;
    OptPropertiesSize(e, PutArray(PutArray(PutArray(o, a.cookie), a.version), a.vendor), a.properties);
  }

  datatype ClientRep = ClientRep(
    cookie: Octets4, version: Octets2, vendor: Octets2, key: Octets4, session: byte,
    properties: Option<seq<Property>>, mtu: uint16)

  /** Everything up to the MTU. */
  function PutClientStart(e: Endian, o: Bytes, c: ClientRep): (o': Bytes)
    ensures o <= o'
  {
    var o1 := PutArray(o, c.cookie);
    var o2 := PutArray(o1, c.version);
    var o3 := PutArray(o2, c.vendor);
    var o4 := PutArray(o3, c.key);
    var o5 := PutByte(o4, c.session);
    PutOptProperties(e, o5, c.properties)
  }

  function PutClient(e: Endian, o: Bytes, c: ClientRep): (o': Bytes)
    ensures o <= o'
  {
    PutU16(e, PutClientStart(e, o, c), c.mtu)
  }

  function GetClient(e: Endian, buf: Bytes, pos: nat): Read<ClientRep> {
    var (cookie, p1) :- GetArray(buf, pos, 4);
    var (version, p2) :- GetArray(buf, p1, 2);
    var (vendor, p3) :- GetArray(buf, p2, 2);
    var (key, p4) :- GetArray(buf, p3, 4);
    var (session, p5) :- GetByte(buf, p4);
    var (properties, p6) :- GetOptProperties(e, buf, p5);
    var (mtu, p7) :- GetU16(e, buf, p6);
    Some((ClientRep(cookie, version, vendor, key, session, properties, mtu), p7))
  }

  /** The size counts the two bytes of the MTU without aligning them. */
  function ClientEnd(c: ClientRep, at: nat): nat {
    var c1 := at + 4 * 1 + Padding(at, 1);
    var c2 := c1 + 2 * 1 + Padding(c1, 1);
    var c3 := c2 + 2 * 1 + Padding(c2, 1);
    var c4 := c3 + 4 * 1 + Padding(c3, 1);
    var c5 := c4 + 1 + Padding(c4, 1);
    var c6 := OptPropertiesEnd(c.properties, c5);
    c6 + 2 * 1 + Padding(c6, 1)
  }

  lemma ClientLaw(e: Endian, o: Bytes, c: ClientRep, buf: Bytes)
    requires WfOptProperties(c.properties) && PutClient(e, o, c) <= buf
    ensures GetClient(e, buf, |o|) == Some((c, |PutClient(e, o, c)|))
  {
    hide PutArray, PutByte, PutU16, GetArray, GetByte, GetU16, PutOptProperties, GetOptProperties, WfOptProperties;
    var o1 := PutArray(o, c.cookie);
    var o2 := PutArray(o1, c.version);
    var o3 := PutArray(o2, c.vendor);
    var o4 := PutArray(o3, c.key);
    var o5 := PutByte(o4, c.session);
    var o6 := PutOptProperties(e, o5, c.properties);
    U16Law(e, o6, c.mtu, buf);
    PrefixTransitive(o6, PutU16(e, o6, c.mtu), buf);
    OptPropertiesLaw(e, o5, c.properties, buf);
    PrefixTransitive(o5, o6, buf);
    ByteLaw(o4, c.session, buf);
    PrefixTransitive(o4, o5, buf);
    ArrayLaw(o3, c.key, 4, buf);
    ArrayLaw(o2, c.vendor, 2, buf);
    ArrayLaw(o1, c.version, 2, buf);
    ArrayLaw(o, c.cookie, 4, buf);
  }

  /** The count of the properties, the padding before it, and the padding before the MTU. */
  function ClientMissed(c: ClientRep, at: nat): nat {
    var missed := PropertiesMissed(c.properties, at + 13);
    missed + Padding(OptPropertiesEnd(c.properties, at + 13) + missed, 2)
  }

  /**
   Without properties only the padding before the MTU is missed, and only from an odd position; with them the count
   is too.
   */
  lemma ClientMissedIff(c: ClientRep, at: nat)
    ensures ClientMissed(c, at) == 0 <==> c.properties.None? && at % 2 == 0
  {
    hide PropertiesEnd;
  }

  lemma ClientEndIs(c: ClientRep, at: nat)
    ensures ClientEnd(c, at) == OptPropertiesEnd(c.properties, at + 13) + 2
  {
    hide OptPropertiesEnd;
  }

  /**
   What the CLIENT size misses; it is exact if and only if there are no properties and the representation starts at
   an even position.
   */
  lemma ClientSize(e: Endian, o: Bytes, c: ClientRep)
    requires WfOptProperties(c.properties)
    ensures |PutClient(e, o, c)| == ClientEnd(c, |o|) + ClientMissed(c, |o|)
    ensures ClientMissed(c, |o|) == 0 <==> c.properties.None? && |o| % 2 == 0
  {
    hide PutArray, PutByte, PutU16, PutOptProperties, OptPropertiesEnd, WfOptProperties, ClientEnd, Padding,
         PropertiesMissed;
    var o5 := PutByte(PutArray(PutArray(PutArray(PutArray(o, c.cookie), c.version), c.vendor), c.key), c.session);
    OptPropertiesSize(e, o5, c.properties);
    ClientEndIs(c, |o|);
    ClientMissedIff(c, |o|);
  }

  // ---------------------------------------------------------------- representation unions

  /** OBJK_Representation3Formats and its two-format relatives. */
  datatype Rep =
    | ByReference(reference: Bytes)
    | AsXml(xml: Bytes)
    | InBinary(binary: Bytes)
    | OtherRep(format: byte)

  const REF: byte := 0x01
  const XML: byte := 0x02
  const BIN: byte := 0x03

  /** Which of the three formats a union has a case for. */
  datatype Formats = Formats(ref: bool, bin: bool)

  const THREE := Formats(true, true)
  const REF_AND_XML := Formats(true, false)
  const BIN_AND_XML := Formats(false, true)

  ghost predicate WfRep(f: Formats, r: Rep) {
    match r
    case ByReference(s) => f.ref && Writable(s)
    case AsXml(s) => Writable(s)
    case InBinary(s) => f.bin && |s| < 0x1_0000_0000
    case OtherRep(d) => !(d == REF && f.ref) && d != XML && !(d == BIN && f.bin)
  }

  function PutRep(e: Endian, o: Bytes, r: Rep): (o': Bytes)
    ensures o <= o'
  {
    match r
    case ByReference(s) => PutString(e, PutByte(o, REF), s)
    case AsXml(s) => PutString(e, PutByte(o, XML), s)
    case InBinary(s) => PutOctets(e, PutByte(o, BIN), s)
    case OtherRep(d) => PutByte(o, d)
  }

  function GetRep(e: Endian, buf: Bytes, pos: nat, f: Formats): Read<Rep> {
    var (d, p) :- GetByte(buf, pos);
    if d == REF && f.ref then
      var (s, p1) :- GetString(e, buf, p);
      Some((ByReference(s), p1))
    else if d == XML then
      var (s, p1) :- GetString(e, buf, p);
      Some((AsXml(s), p1))
    else if d == BIN && f.bin then
      var (s, p1) :- GetOctets(e, buf, p);
      Some((InBinary(s), p1))
    else Some((OtherRep(d), p))
  }

  function RepEnd(r: Rep, at: nat): nat {
    var c := at + 1 + Padding(at, 1);
    match r
    case ByReference(s) => c + 4 + Padding(c, 4) + |s| + 1
    case AsXml(s) => c + 4 + Padding(c, 4) + |s| + 1
    case InBinary(s) => var c1 := c + 4 + Padding(c, 4); c1 + |s| * 1 + Padding(c1, 1)
    case OtherRep(_) => c
  }

  lemma RepLaw(e: Endian, o: Bytes, f: Formats, r: Rep, buf: Bytes)
    requires WfRep(f, r) && PutRep(e, o, r) <= buf
    ensures GetRep(e, buf, |o|, f) == Some((r, |PutRep(e, o, r)|))
    ensures |PutRep(e, o, r)| == RepEnd(r, |o|)
  {
    hide PutByte, PutString, PutOctets, GetByte, GetString, GetOctets, Writable, Padding;
    match r
    case ByReference(s) =>
      ByteLaw(o, REF, buf);
      StringLaw(e, PutByte(o, REF), s, buf);
    case AsXml(s) =>
      ByteLaw(o, XML, buf);
      StringLaw(e, PutByte(o, XML), s, buf);
    case InBinary(s) =>
      ByteLaw(o, BIN, buf);
      OctetsLaw(e, PutByte(o, BIN), s, buf);
    case OtherRep(d) =>
      ByteLaw(o, d, buf);
  }

  // ---------------------------------------------------------------- ObjectVariant

  const OBJK_PARTICIPANT: byte := 0x01
  const OBJK_TOPIC: byte := 0x02
  const OBJK_PUBLISHER: byte := 0x03
  const OBJK_SUBSCRIBER: byte := 0x04
  const OBJK_DATAWRITER: byte := 0x05
  const OBJK_DATAREADER: byte := 0x06
  const OBJK_REQUESTER: byte := 0x07
  const OBJK_REPLIER: byte := 0x08
  const OBJK_TYPE: byte := 0x0A
  const OBJK_QOSPROFILE: byte := 0x0B
  const OBJK_APPLICATION: byte := 0x0C
  const OBJK_AGENT: byte := 0x0D
  const OBJK_CLIENT: byte := 0x0E

  /** The kinds whose representation is one of the unions alone. */
  predicate IsPlain(kind: byte) {
    kind == OBJK_TYPE || kind == OBJK_QOSPROFILE || kind == OBJK_APPLICATION
  }

  /** The kinds whose representation is a union followed by the id of a parent. */
  predicate IsChild(kind: byte) {
    OBJK_TOPIC <= kind <= OBJK_REPLIER
  }

  function FormatsOf(kind: byte): Formats {
    if IsPlain(kind) then REF_AND_XML
    else if kind == OBJK_PUBLISHER || kind == OBJK_SUBSCRIBER then BIN_AND_XML
    else THREE
  }

  datatype ObjectVariant =
    | Agent(agent: AgentRep)
    | Client(client: ClientRep)
    | Participant(participant: Rep, domainId: int16)
    | Plain(plainKind: byte, rep: Rep)
    | Child(childKind: byte, childRep: Rep, parentId: Octets2)
    | OtherObject(kind: byte)

  ghost predicate WfVariant(v: ObjectVariant) {
    match v
    case Agent(a) => WfOptProperties(a.properties)
    case Client(c) => WfOptProperties(c.properties)
    case Participant(r, _) => WfRep(THREE, r)
    case Plain(k, r) => IsPlain(k) && WfRep(FormatsOf(k), r)
    case Child(k, r, _) => IsChild(k) && WfRep(FormatsOf(k), r)
    case OtherObject(k) => !IsPlain(k) && !IsChild(k) && k != OBJK_AGENT && k != OBJK_CLIENT && k != OBJK_PARTICIPANT
  }

  function PutVariant(e: Endian, o: Bytes, v: ObjectVariant): (o': Bytes)
    ensures o <= o'
  {
    match v
    case Agent(a) => PutAgent(e, PutByte(o, OBJK_AGENT), a)
    case Client(c) => PutClient(e, PutByte(o, OBJK_CLIENT), c)
    case Participant(r, d) => PutI16(e, PutRep(e, PutByte(o, OBJK_PARTICIPANT), r), d)
    case Plain(k, r) => PutRep(e, PutByte(o, k), r)
    case Child(k, r, id) => PutArray(PutRep(e, PutByte(o, k), r), id)
    case OtherObject(k) => PutByte(o, k)
  }

  function GetVariant(e: Endian, buf: Bytes, pos: nat): Read<ObjectVariant> {
    var (k, p) :- GetByte(buf, pos);
    if k == OBJK_AGENT then
      var (a, p1) :- GetAgent(e, buf, p);
      Some((Agent(a), p1))
    else if k == OBJK_CLIENT then
      var (c, p1) :- GetClient(e, buf, p);
      Some((Client(c), p1))
    else if k == OBJK_PARTICIPANT then
      var (r, p1) :- GetRep(e, buf, p, THREE);
      var (d, p2) :- GetI16(e, buf, p1);
      Some((Participant(r, d), p2))
    else if IsPlain(k) then
      var (r, p1) :- GetRep(e, buf, p, FormatsOf(k));
      Some((Plain(k, r), p1))
    else if IsChild(k) then
      var (r, p1) :- GetRep(e, buf, p, FormatsOf(k));
      var (id, p2) :- GetArray(buf, p1, 2);
      Some((Child(k, r, id), p2))
    else Some((OtherObject(k), p))
  }

  function VariantEnd(v: ObjectVariant, at: nat): nat {
    var c := at + 1 + Padding(at, 1);
    match v
    case Agent(a) => AgentEnd(a, c)
    case Client(r) => ClientEnd(r, c)
    case Participant(r, _) => var c1 := RepEnd(r, c); c1 + 2 + Padding(c1, 2)
    case Plain(_, r) => RepEnd(r, c)
    case Child(_, r, _) => var c1 := RepEnd(r, c); c1 + 2 * 1 + Padding(c1, 1)
    case OtherObject(_) => c
  }

  lemma VariantLaw(e: Endian, o: Bytes, v: ObjectVariant, buf: Bytes)
    requires WfVariant(v) && PutVariant(e, o, v) <= buf
    ensures GetVariant(e, buf, |o|) == Some((v, |PutVariant(e, o, v)|))
  {
    hide PutByte, PutArray, PutI16, PutRep, PutAgent, PutClient, GetByte, GetArray, GetI16, GetRep, GetAgent, GetClient,
         WfOptProperties, WfRep;
    match v
    case Agent(a) =>
      ByteLaw(o, OBJK_AGENT, buf);
      AgentLaw(e, PutByte(o, OBJK_AGENT), a, buf);
    case Client(c) =>
      ByteLaw(o, OBJK_CLIENT, buf);
      ClientLaw(e, PutByte(o, OBJK_CLIENT), c, buf);
    case Participant(r, d) =>
      var o1 := PutByte(o, OBJK_PARTICIPANT);
      ByteLaw(o, OBJK_PARTICIPANT, buf);
      RepLaw(e, o1, THREE, r, buf);
      I16Law(e, PutRep(e, o1, r), d, buf);
    case Plain(k, r) =>
      ByteLaw(o, k, buf);
      RepLaw(e, PutByte(o, k), FormatsOf(k), r, buf);
    case Child(k, r, id) =>
      var o1 := PutByte(o, k);
      ByteLaw(o, k, buf);
      RepLaw(e, o1, FormatsOf(k), r, buf);
      ArrayLaw(PutRep(e, o1, r), id, 2, buf);
    case OtherObject(k) =>
      ByteLaw(o, k, buf);
  }

  /** When the size of a variant that starts at `at` counts every byte that is written. */
  predicate SizeExact(v: ObjectVariant, at: nat) {
    match v
    case Agent(a) => a.properties.None?
    case Client(c) => c.properties.None? && at % 2 == 1
    case _ => true
  }

  function VariantMissed(v: ObjectVariant, at: nat): nat {
    match v
    case Agent(a) => AgentMissed(a, at + 1)
    case Client(c) => ClientMissed(c, at + 1)
    case _ => 0
  }

  /** Exactly how many of the bytes written the size misses, and when it misses none. */
  lemma VariantSize(e: Endian, o: Bytes, v: ObjectVariant)
    requires WfVariant(v)
    ensures |PutVariant(e, o, v)| == VariantEnd(v, |o|) + VariantMissed(v, |o|)
    ensures VariantMissed(v, |o|) == 0 <==> SizeExact(v, |o|)
  {
    hide PutByte, PutArray, PutI16, PutRep, PutAgent, PutClient, WfOptProperties, WfRep, AgentEnd, ClientEnd, RepEnd,
         AgentMissed, ClientMissed, Padding;
    NoPadding();
    match v
    case Agent(a) => AgentSize(e, PutByte(o, OBJK_AGENT), a);
    case Client(c) => ClientSize(e, PutByte(o, OBJK_CLIENT), c);
    case Participant(r, d) =>
      var o1 := PutByte(o, OBJK_PARTICIPANT);
      RepLaw(e, o1, THREE, r, PutRep(e, o1, r));
    case Plain(k, r) =>
      var o1 := PutByte(o, k);
      RepLaw(e, o1, FormatsOf(k), r, PutRep(e, o1, r));
    case Child(k, r, id) =>
      var o1 := PutByte(o, k);
      RepLaw(e, o1, FormatsOf(k), r, PutRep(e, o1, r));
    case OtherObject(k) =>
  }
}
