/** The CREATE, READ_DATA, INFO, ACKNACK and HEARTBEAT payloads of `XRCETypes.cpp`. */
module XrceSubmessages {
  import opened Options
  import opened Cdr
  import opened XrceTypes
  import opened XrcePayloads

  // ---------------------------------------------------------------- BaseObjectRequest

  datatype Request = Request(requestId: Octets2, objectId: Octets2)

  function PutRequest(o: Bytes, r: Request): (o': Bytes)
    ensures o <= o' && |o'| == RequestEnd(|o|)
  {
    PutArray(PutArray(o, r.requestId), r.objectId)
  }

  function GetRequest(buf: Bytes, pos: nat): Read<Request> {
    var (requestId, p1) :- GetArray(buf, pos, 2);
    var (objectId, p2) :- GetArray(buf, p1, 2);
    Some((Request(requestId, objectId), p2))
  }

  function RequestEnd(at: nat): nat {
    var c := at + 2 * 1 + Padding(at, 1);
    c + 2 * 1 + Padding(c, 1)
  }

  lemma RequestLaw(o: Bytes, r: Request, buf: Bytes)
    requires PutRequest(o, r) <= buf
    ensures GetRequest(buf, |o|) == Some((r, |PutRequest(o, r)|))
  {
    hide PutArray, GetArray;
    ArrayLaw(o, r.requestId, 2, buf);
    ArrayLaw(PutArray(o, r.requestId), r.objectId, 2, buf);
  }

  // ---------------------------------------------------------------- CREATE

  datatype Create = Create(request: Request, object_: ObjectVariant)

  function PutCreate(e: Endian, o: Bytes, c: Create): (o': Bytes)
    ensures o <= o'
  {
    PutVariant(e, PutRequest(o, c.request), c.object_)
  }

  function GetCreate(e: Endian, buf: Bytes, pos: nat): Read<Create> {
    var (request, p1) :- GetRequest(buf, pos);
    var (object_, p2) :- GetVariant(e, buf, p1);
    Some((Create(request, object_), p2))
  }

  function CreateEnd(c: Create, at: nat): nat {
    VariantEnd(c.object_, RequestEnd(at))
  }

  /** CREATE: reading what was written, at any position and before any suffix, gives the payload back. */
  lemma CreateLaw(e: Endian, o: Bytes, c: Create, buf: Bytes)
    requires WfVariant(c.object_) && PutCreate(e, o, c) <= buf
    ensures GetCreate(e, buf, |o|) == Some((c, |PutCreate(e, o, c)|))
  {
    hide PutRequest, PutVariant, GetRequest, GetVariant, WfVariant;
    RequestLaw(o, c.request, buf);
    VariantLaw(e, PutRequest(o, c.request), c.object_, buf);
  }

  /**
   The CREATE size is exact except for AGENT with properties and for CLIENT with properties or at an even
   position: there the four bytes of the request and the discriminator put the MTU at an odd one.
   */
  lemma CreateSize(e: Endian, o: Bytes, c: Create)
    requires WfVariant(c.object_)
    ensures |PutCreate(e, o, c)| == CreateEnd(c, |o|) + VariantMissed(c.object_, |o| + 4)
    ensures |PutCreate(e, o, c)| == CreateEnd(c, |o|) <==> SizeExact(c.object_, |o|)
  {
    hide PutRequest, PutVariant, WfVariant, VariantEnd, VariantMissed;
    VariantSize(e, PutRequest(o, c.request), c.object_);
  }

  // ---------------------------------------------------------------- READ_DATA

  datatype DeliveryControl = DeliveryControl(maxSamples: uint16, maxElapsed: uint16, maxBytesPerSecond: uint16,
                                             minPace: uint16)

  function PutDelivery(e: Endian, o: Bytes, d: DeliveryControl): (o': Bytes)
    ensures o <= o' && |o'| == DeliveryEnd(|o|)
  {
    PutU16(e, PutU16(e, PutU16(e, PutU16(e, o, d.maxSamples), d.maxElapsed), d.maxBytesPerSecond), d.minPace)
  }

  function GetDelivery(e: Endian, buf: Bytes, pos: nat): Read<DeliveryControl> {
    var (maxSamples, p1) :- GetU16(e, buf, pos);
    var (maxElapsed, p2) :- GetU16(e, buf, p1);
    var (maxBytes, p3) :- GetU16(e, buf, p2);
    var (minPace, p4) :- GetU16(e, buf, p3);
    Some((DeliveryControl(maxSamples, maxElapsed, maxBytes, minPace), p4))
  }

  function DeliveryEnd(at: nat): nat {
    var c1 := at + 2 + Padding(at, 2);
    var c2 := c1 + 2 + Padding(c1, 2);
    var c3 := c2 + 2 + Padding(c2, 2);
    c3 + 2 + Padding(c3, 2)
  }

  lemma DeliveryLaw(e: Endian, o: Bytes, d: DeliveryControl, buf: Bytes)
    requires PutDelivery(e, o, d) <= buf
    ensures GetDelivery(e, buf, |o|) == Some((d, |PutDelivery(e, o, d)|))
  {
    hide PutU16, GetU16;
    var o1 := PutU16(e, o, d.maxSamples);
    var o2 := PutU16(e, o1, d.maxElapsed);
    var o3 := PutU16(e, o2, d.maxBytesPerSecond);
    U16Law(e, o3, d.minPace, buf);
    PrefixTransitive(o3, PutDelivery(e, o, d), buf);
    U16Law(e, o2, d.maxBytesPerSecond, buf);
    PrefixTransitive(o2, o3, buf);
    U16Law(e, o1, d.maxElapsed, buf);
    U16Law(e, o, d.maxSamples, buf);
  }

  datatype ReadSpec = ReadSpec(preferredStream: byte, dataFormat: byte, filter: Option<Bytes>,
                               control: Option<DeliveryControl>)

  function PutOptString(e: Endian, o: Bytes, s: Option<Bytes>): (o': Bytes)
    ensures o <= o' && |o'| == OptStringEnd(s, |o|)
  {
    match s
    case None => PutBool(o, false)
    case Some(t) => PutString(e, PutBool(o, true), t)
  }

  function GetOptString(e: Endian, buf: Bytes, pos: nat): Read<Option<Bytes>> {
    var (flag, p) :- GetBool(buf, pos);
    if !flag then Some((None, p))
    else
      var (s, p1) :- GetString(e, buf, p);
      Some((Some(s), p1))
  }

  function OptStringEnd(s: Option<Bytes>, at: nat): nat {
    var c := at + 1 + Padding(at, 1);
    match s
    case None => c
    case Some(t) => c + 4 + Padding(c, 4) + |t| + 1
  }

  ghost predicate WfOptString(s: Option<Bytes>) {
    s.Some? ==> Writable(s.value)
  }

  lemma OptStringLaw(e: Endian, o: Bytes, s: Option<Bytes>, buf: Bytes)
    requires WfOptString(s) && PutOptString(e, o, s) <= buf
    ensures GetOptString(e, buf, |o|) == Some((s, |PutOptString(e, o, s)|))
  {
    hide PutBool, PutString, GetBool, GetString, Writable;
    match s
    case None => BoolLaw(o, false, buf);
    case Some(t) =>
      BoolLaw(o, true, buf);
      StringLaw(e, PutBool(o, true), t, buf);
  }

  function PutOptDelivery(e: Endian, o: Bytes, d: Option<DeliveryControl>): (o': Bytes)
    ensures o <= o' && |o'| == OptDeliveryEnd(d, |o|)
  {
    match d
    case None => PutBool(o, false)
    case Some(c) => PutDelivery(e, PutBool(o, true), c)
  }

  function GetOptDelivery(e: Endian, buf: Bytes, pos: nat): Read<Option<DeliveryControl>> {
    var (flag, p) :- GetBool(buf, pos);
    if !flag then Some((None, p))
    else
      var (d, p1) :- GetDelivery(e, buf, p);
      Some((Some(d), p1))
  }

  function OptDeliveryEnd(d: Option<DeliveryControl>, at: nat): nat {
    var c := at + 1 + Padding(at, 1);
    if d.None? then c else DeliveryEnd(c)
  }

  lemma OptDeliveryLaw(e: Endian, o: Bytes, d: Option<DeliveryControl>, buf: Bytes)
    requires PutOptDelivery(e, o, d) <= buf
    ensures GetOptDelivery(e, buf, |o|) == Some((d, |PutOptDelivery(e, o, d)|))
  {
    hide PutBool, PutDelivery, GetBool, GetDelivery;
    match d
    case None => BoolLaw(o, false, buf);
    case Some(c) =>
      BoolLaw(o, true, buf);
      DeliveryLaw(e, PutBool(o, true), c, buf);
  }

  datatype ReadData = ReadData(request: Request, spec: ReadSpec)

  function PutReadData(e: Endian, o: Bytes, r: ReadData): (o': Bytes)
    ensures o <= o'
  {
    var o1 := PutRequest(o, r.request);
    var o2 := PutByte(o1, r.spec.preferredStream);
    var o3 := PutByte(o2, r.spec.dataFormat);
    var o4 := PutOptString(e, o3, r.spec.filter);
    PutOptDelivery(e, o4, r.spec.control)
  }

  function GetReadData(e: Endian, buf: Bytes, pos: nat): Read<ReadData> {
    var (request, p1) :- GetRequest(buf, pos);
    var (stream, p2) :- GetByte(buf, p1);
    var (format, p3) :- GetByte(buf, p2);
    var (filter, p4) :- GetOptString(e, buf, p3);
    var (control, p5) :- GetOptDelivery(e, buf, p4);
    Some((ReadData(request, ReadSpec(stream, format, filter, control)), p5))
  }

  function ReadDataEnd(r: ReadData, at: nat): nat {
    var c1 := RequestEnd(at);
    var c2 := c1 + 1 + Padding(c1, 1);
    var c3 := c2 + 1 + Padding(c2, 1);
    OptDeliveryEnd(r.spec.control, OptStringEnd(r.spec.filter, c3))
  }

  /** READ_DATA: round trip and exact size, for every payload whose filter can be written. */
  lemma ReadDataLaw(e: Endian, o: Bytes, r: ReadData, buf: Bytes)
    requires WfOptString(r.spec.filter) && PutReadData(e, o, r) <= buf
    ensures GetReadData(e, buf, |o|) == Some((r, |PutReadData(e, o, r)|))
    ensures |PutReadData(e, o, r)| == ReadDataEnd(r, |o|)
  {
    hide PutRequest, PutByte, PutOptString, PutOptDelivery, GetRequest, GetByte, GetOptString, GetOptDelivery,
         OptStringEnd, OptDeliveryEnd, RequestEnd, WfOptString;
    var o1 := PutRequest(o, r.request);
    var o2 := PutByte(o1, r.spec.preferredStream);
    var o3 := PutByte(o2, r.spec.dataFormat);
    var o4 := PutOptString(e, o3, r.spec.filter);
    OptDeliveryLaw(e, o4, r.spec.control, buf);
    PrefixTransitive(o4, PutReadData(e, o, r), buf);
    OptStringLaw(e, o3, r.spec.filter, buf);
    PrefixTransitive(o3, o4, buf);
    ByteLaw(o2, r.spec.dataFormat, buf);
    ByteLaw(o1, r.spec.preferredStream, buf);
    RequestLaw(o, r.request, buf);
  }

  // ---------------------------------------------------------------- INFO

  datatype ActivityInfo =
    | AgentActivity(availability: int16, addresses: seq<TransportAddress>)
    | WriterActivity(streamSeq: uint16, sampleSeq: uint64)
    | ReaderActivity(highestAcked: uint16)
    | OtherActivity(kind: byte)

  function PutAddresses(e: Endian, o: Bytes, s: seq<TransportAddress>): (o': Bytes)
    ensures o <= o'
    decreases |s|
  {
    if s == [] then o else PutAddresses(e, PutAddress(e, o, s[0]), s[1..])
  }

  function GetAddresses(e: Endian, buf: Bytes, pos: nat, n: nat): Read<seq<TransportAddress>>
    decreases n
  {
    if n == 0 then Some(([], pos))
    else
      var (a, p1) :- GetAddress(e, buf, pos);
      var (s, p2) :- GetAddresses(e, buf, p1, n - 1);
      Some(([a] + s, p2))
  }

  function AddressesEnd(s: seq<TransportAddress>, at: nat): nat
    decreases |s|
  {
    if s == [] then at else AddressesEnd(s[1..], AddressEnd(s[0], at))
  }

  lemma {:induction false} AddressesLaw(e: Endian, o: Bytes, s: seq<TransportAddress>, buf: Bytes)
    requires (forall a :: a in s ==> WfAddress(a)) && PutAddresses(e, o, s) <= buf
    ensures GetAddresses(e, buf, |o|, |s|) == Some((s, |PutAddresses(e, o, s)|))
    ensures |PutAddresses(e, o, s)| == AddressesEnd(s, |o|)
    decreases |s|
  {
    hide PutAddress, GetAddress, AddressEnd, WfAddress;
    if s != [] {
      AddressLaw(e, o, s[0], buf);
      AddressesLaw(e, PutAddress(e, o, s[0]), s[1..], buf);
      assert [s[0]] + s[1..] == s;
    }
  }

  ghost predicate WfActivity(a: ActivityInfo) {
    match a
    case AgentActivity(_, s) => |s| < 0x1_0000_0000 && forall x :: x in s ==> WfAddress(x)
    case OtherActivity(k) => k != OBJK_AGENT && k != OBJK_DATAWRITER && k != OBJK_DATAREADER
    case _ => true
  }

  function PutActivity(e: Endian, o: Bytes, a: ActivityInfo): (o': Bytes)
    ensures o <= o'
  {
    match a
    case AgentActivity(v, s) => PutAddresses(e, PutUInt(e, PutI16(e, PutByte(o, OBJK_AGENT), v), 4, |s|), s)
    case WriterActivity(n, m) => PutU64(e, PutU16(e, PutByte(o, OBJK_DATAWRITER), n), m)
    case ReaderActivity(n) => PutU16(e, PutByte(o, OBJK_DATAREADER), n)
    case OtherActivity(k) => PutByte(o, k)
  }

  function GetActivity(e: Endian, buf: Bytes, pos: nat): Read<ActivityInfo> {
    var (k, p) :- GetByte(buf, pos);
    if k == OBJK_AGENT then
      var (v, p1) :- GetI16(e, buf, p);
      var (n, p2) :- GetUInt(e, buf, p1, 4);
      var (s, p3) :- GetAddresses(e, buf, p2, n);
      Some((AgentActivity(v, s), p3))
    else if k == OBJK_DATAWRITER then
      var (n, p1) :- GetU16(e, buf, p);
      var (m, p2) :- GetU64(e, buf, p1);
      Some((WriterActivity(n, m), p2))
    else if k == OBJK_DATAREADER then
      var (n, p1) :- GetU16(e, buf, p);
      Some((ReaderActivity(n), p1))
    else Some((OtherActivity(k), p))
  }

  function ActivityEnd(a: ActivityInfo, at: nat): nat {
    var c := at + 1 + Padding(at, 1);
    match a
    case AgentActivity(_, s) =>
      var c1 := c + 2 + Padding(c, 2);
      var c2 := c1 + 4 + Padding(c1, 4);
      AddressesEnd(s, c2)
    case WriterActivity(_, _) => var c1 := c + 2 + Padding(c, 2); c1 + 8 + Padding(c1, 8)
    case ReaderActivity(_) => c + 2 + Padding(c, 2)
    case OtherActivity(_) => c
  }

  lemma AgentActivityLaw(e: Endian, o: Bytes, v: int16, s: seq<TransportAddress>, buf: Bytes)
    requires WfActivity(AgentActivity(v, s)) && PutActivity(e, o, AgentActivity(v, s)) <= buf
    ensures GetActivity(e, buf, |o|) == Some((AgentActivity(v, s), |PutActivity(e, o, AgentActivity(v, s))|))
    ensures |PutActivity(e, o, AgentActivity(v, s))| == ActivityEnd(AgentActivity(v, s), |o|)
  {
    hide PutByte, PutI16, PutUInt, PutAddresses, GetByte, GetI16, GetUInt, GetAddresses, AddressesEnd, WfAddress,
         Padding;
    var o1 := PutByte(o, OBJK_AGENT);
    var o2 := PutI16(e, o1, v);
    var o3 := PutUInt(e, o2, 4, |s|);
    AddressesLaw(e, o3, s, buf);
    PrefixTransitive(o3, PutAddresses(e, o3, s), buf);
    Pow256Values();
    UIntLaw(e, o2, 4, |s|, buf);
    I16Law(e, o1, v, buf);
    ByteLaw(o, OBJK_AGENT, buf);
  }

  lemma ActivityLaw(e: Endian, o: Bytes, a: ActivityInfo, buf: Bytes)
    requires WfActivity(a) && PutActivity(e, o, a) <= buf
    ensures GetActivity(e, buf, |o|) == Some((a, |PutActivity(e, o, a)|))
    ensures |PutActivity(e, o, a)| == ActivityEnd(a, |o|)
  {
    hide PutByte, PutU16, PutU64, PutI16, PutUInt, PutAddresses, GetByte, GetU16, GetU64, GetI16, GetUInt, GetAddresses,
         AddressesEnd, WfAddress, Padding;
    match a
    case AgentActivity(v, s) => AgentActivityLaw(e, o, v, s, buf);
    case WriterActivity(n, m) =>
      var o1 := PutByte(o, OBJK_DATAWRITER);
      ByteLaw(o, OBJK_DATAWRITER, buf);
      U16Law(e, o1, n, buf);
      U64Law(e, PutU16(e, o1, n), m, buf);
    case ReaderActivity(n) =>
      ByteLaw(o, OBJK_DATAREADER, buf);
      U16Law(e, PutByte(o, OBJK_DATAREADER), n, buf);
    case OtherActivity(k) =>
      ByteLaw(o, k, buf);
  }

  datatype ObjectInfo = ObjectInfo(config: Option<ObjectVariant>, activity: Option<ActivityInfo>)

  ghost predicate WfInfo(i: ObjectInfo) {
    (i.config.Some? ==> WfVariant(i.config.value)) && (i.activity.Some? ==> WfActivity(i.activity.value))
  }

  function PutConfig(e: Endian, o: Bytes, c: Option<ObjectVariant>): (o': Bytes)
    ensures o <= o'
  {
    match c
    case None => PutBool(o, false)
    case Some(v) => PutVariant(e, PutBool(o, true), v)
  }

  /** The copy assignment of an ObjectVariant into a fresh one: that of AGENT leaves the properties behind. */
  function Copied(v: ObjectVariant): ObjectVariant {
    match v
    case Agent(a) => Agent(a.(properties := None))
    case _ => v
  }

  function CopiedConfig(c: Option<ObjectVariant>): Option<ObjectVariant> {
    match c
    case None => None
    case Some(v) => Some(Copied(v))
  }

  /** The variant is read into a temporary and copied from there. */
  function GetConfig(e: Endian, buf: Bytes, pos: nat): Read<Option<ObjectVariant>> {
    var (flag, p) :- GetBool(buf, pos);
    if !flag then Some((None, p))
    else
      var (v, p1) :- GetVariant(e, buf, p);
      Some((Some(Copied(v)), p1))
  }

  function ConfigEnd(c: Option<ObjectVariant>, at: nat): nat {
    var c1 := at + 1 + Padding(at, 1);
    if c.None? then c1 else VariantEnd(c.value, c1)
  }

  lemma ConfigLaw(e: Endian, o: Bytes, c: Option<ObjectVariant>, buf: Bytes)
    requires (c.Some? ==> WfVariant(c.value)) && PutConfig(e, o, c) <= buf
    ensures GetConfig(e, buf, |o|) == Some((CopiedConfig(c), |PutConfig(e, o, c)|))
  {
    hide PutBool, PutVariant, GetBool, GetVariant, WfVariant, Copied;
    match c
    case None => BoolLaw(o, false, buf);
    case Some(v) =>
      BoolLaw(o, true, buf);
      VariantLaw(e, PutBool(o, true), v, buf);
  }

  function PutOptActivity(e: Endian, o: Bytes, a: Option<ActivityInfo>): (o': Bytes)
    ensures o <= o'
  {
    match a
    case None => PutBool(o, false)
    case Some(v) => PutActivity(e, PutBool(o, true), v)
  }

  function GetOptActivity(e: Endian, buf: Bytes, pos: nat): Read<Option<ActivityInfo>> {
    var (flag, p) :- GetBool(buf, pos);
    if !flag then Some((None, p))
    else
      var (v, p1) :- GetActivity(e, buf, p);
      Some((Some(v), p1))
  }

  function OptActivityEnd(a: Option<ActivityInfo>, at: nat): nat {
    var c := at + 1 + Padding(at, 1);
    if a.None? then c else ActivityEnd(a.value, c)
  }

  lemma OptActivityLaw(e: Endian, o: Bytes, a: Option<ActivityInfo>, buf: Bytes)
    requires (a.Some? ==> WfActivity(a.value)) && PutOptActivity(e, o, a) <= buf
    ensures GetOptActivity(e, buf, |o|) == Some((a, |PutOptActivity(e, o, a)|))
    ensures |PutOptActivity(e, o, a)| == OptActivityEnd(a, |o|)
  {
    hide PutBool, PutActivity, GetBool, GetActivity, WfActivity, ActivityEnd;
    match a
    case None => BoolLaw(o, false, buf);
    case Some(v) =>
      BoolLaw(o, true, buf);
      ActivityLaw(e, PutBool(o, true), v, buf);
  }

  datatype Info = Info(related: Request, status: byte, implementationStatus: byte, object_: ObjectInfo)

  /** BaseObjectReply: the related request and the result status. */
  function PutReply(o: Bytes, i: Info): (o': Bytes)
    ensures o <= o' && |o'| == ReplyEnd(|o|)
  {
    PutByte(PutByte(PutRequest(o, i.related), i.status), i.implementationStatus)
  }

  function ReplyEnd(at: nat): nat {
    var c1 := RequestEnd(at);
    var c2 := c1 + 1 + Padding(c1, 1);
    c2 + 1 + Padding(c2, 1)
  }

  function PutInfo(e: Endian, o: Bytes, i: Info): (o': Bytes)
    ensures o <= o'
  {
    PutOptActivity(e, PutConfig(e, PutReply(o, i), i.object_.config), i.object_.activity)
  }

  function GetInfo(e: Endian, buf: Bytes, pos: nat): Read<Info> {
    var (related, p1) :- GetRequest(buf, pos);
    var (status, p2) :- GetByte(buf, p1);
    var (implementationStatus, p3) :- GetByte(buf, p2);
    var (config, p4) :- GetConfig(e, buf, p3);
    var (activity, p5) :- GetOptActivity(e, buf, p4);
    Some((Info(related, status, implementationStatus, ObjectInfo(config, activity)), p5))
  }

  function InfoEnd(i: Info, at: nat): nat {
    OptActivityEnd(i.object_.activity, ConfigEnd(i.object_.config, ReplyEnd(at)))
  }

  /** What reading an INFO gives back. */
  function Received(i: Info): Info {
    i.(object_ := i.object_.(config := CopiedConfig(i.object_.config)))
  }

  /** An AGENT configuration with properties: the one that does not survive the copy. */
  predicate LosesProperties(i: Info) {
    match i.object_.config
    case Some(Agent(a)) => a.properties.Some?
    case _ => false
  }

  /**
   INFO: reading what was written, at any position and before any suffix, gives the payload back with
   the properties of an AGENT configuration dropped, and stops right behind it. It is the payload that was
   written if and only if there were none to drop.
   */
  lemma InfoLaw(e: Endian, o: Bytes, i: Info, buf: Bytes)
    requires WfInfo(i.object_) && PutInfo(e, o, i) <= buf
    ensures GetInfo(e, buf, |o|) == Some((Received(i), |PutInfo(e, o, i)|))
    ensures Received(i) == i <==> !LosesProperties(i)
  {
    hide PutRequest, PutByte, PutConfig, PutOptActivity, GetRequest, GetByte, GetConfig, GetOptActivity,
         WfVariant, WfActivity;
    var o1 := PutRequest(o, i.related);
    var o2 := PutByte(o1, i.status);
    var o3 := PutByte(o2, i.implementationStatus);
    var o4 := PutConfig(e, o3, i.object_.config);
    OptActivityLaw(e, o4, i.object_.activity, buf);
    PrefixTransitive(o4, PutInfo(e, o, i), buf);
    ConfigLaw(e, o3, i.object_.config, buf);
    PrefixTransitive(o3, o4, buf);
    ByteLaw(o2, i.implementationStatus, buf);
    ByteLaw(o1, i.status, buf);
    RequestLaw(o, i.related, buf);
  }

  /** An agent's own INFO, with one property: the reader sees none. */
  lemma InfoDropsAgentProperties(e: Endian, buf: Bytes)
    ensures var agent := AgentRep([0x58, 0x52, 0x43, 0x45], [1, 0], [1, 0x0F], Some([Property([65], [66])]));
            var i := Info(Request([0, 1], [0xFF, 0xFD]), 0, 0, ObjectInfo(Some(Agent(agent)), None));
            PutInfo(e, [], i) <= buf ==>
              && GetInfo(e, buf, 0).Some?
              && GetInfo(e, buf, 0).value.0.object_.config == Some(Agent(agent.(properties := None)))
              && GetInfo(e, buf, 0).value.0 != i
  {
    hide PutInfo, GetInfo;
    var agent := AgentRep([0x58, 0x52, 0x43, 0x45], [1, 0], [1, 0x0F], Some([Property([65], [66])]));
    var i := Info(Request([0, 1], [0xFF, 0xFD]), 0, 0, ObjectInfo(Some(Agent(agent)), None));
    if PutInfo(e, [], i) <= buf { InfoLaw(e, [], i, buf); }
  }

  /** The bytes that the size of the configuration of an INFO at `at` misses. */
  function ConfigMissed(i: Info, at: nat): nat {
    if i.object_.config.Some? then VariantMissed(i.object_.config.value, at + 7) else 0
  }

  lemma ConfigSize(e: Endian, o: Bytes, i: Info)
    requires WfInfo(i.object_)
    ensures |PutConfig(e, PutReply(o, i), i.object_.config)|
         == ConfigEnd(i.object_.config, ReplyEnd(|o|)) + ConfigMissed(i, |o|)
  {
    hide PutReply, PutVariant, WfVariant, WfActivity, VariantEnd, VariantMissed, SizeExact, PutBool;
    if i.object_.config.Some? {
      VariantSize(e, PutBool(PutReply(o, i), true), i.object_.config.value);
    }
  }

  /** The next multiple of a width. */
  function Ceil(n: nat, width: Width): nat {
    n + Padding(n, width)
  }

  /**
   Missing the `missed` bytes before position `at` makes no difference: the padding of the activity's widest field
   takes them up.
   */
  predicate Absorbs(a: Option<ActivityInfo>, at: nat, missed: nat) {
    match a
    case Some(AgentActivity(_, _)) => Ceil(at, 4) == Ceil(at + missed, 4)
    case Some(WriterActivity(_, _)) => Ceil(at + 4, 8) == Ceil(at + missed + 4, 8)
    case Some(ReaderActivity(_)) => Ceil(at, 2) == Ceil(at + missed, 2)
    case _ => missed == 0
  }

  lemma PaddingShift(at: nat, d: nat)
    requires d % 4 == 0
    ensures Padding(at + d, 1) == Padding(at, 1) && Padding(at + d, 2) == Padding(at, 2)
    ensures Padding(at + d, 4) == Padding(at, 4)
  {
  }

  lemma AddressEndShift(a: TransportAddress, at: nat, d: nat)
    requires d % 4 == 0
    ensures AddressEnd(a, at + d) == AddressEnd(a, at) + d
  {
    NoPadding();
    hide Padding;
    PaddingShift(at + 1, d);
    PaddingShift(at + 5, d);
    PaddingShift(at + 17, d);
  }

  lemma {:induction false} AddressesEndShift(s: seq<TransportAddress>, at: nat, d: nat)
    requires d % 4 == 0
    ensures AddressesEnd(s, at + d) == AddressesEnd(s, at) + d
    decreases |s|
  {
    hide AddressEnd;
    if s != [] {
      AddressEndShift(s[0], at, d);
      AddressesEndShift(s[1..], AddressEnd(s[0], at), d);
    }
  }

  /** Where the addresses of an AGENT activity start: always at a multiple of four. */
  lemma AgentActivityStart(s: seq<TransportAddress>, v: int16, at: nat)
    ensures OptActivityEnd(Some(AgentActivity(v, s)), at) == AddressesEnd(s, Ceil(at, 4) + 8)
  {
    hide AddressesEnd;
  }

  lemma WriterActivityEnd(n: uint16, m: uint64, at: nat)
    ensures OptActivityEnd(Some(WriterActivity(n, m)), at) == Ceil(at + 4, 8) + 8
  {
    NoPadding();
    EvenThenEight(at + 4);
    assert Padding(at + 4, 2) == Padding(at + 2, 2) == Padding(at + 1 + 1, 2);
    hide Padding;
  }

  lemma EvenThenEight(x: nat)
    ensures Ceil(x + Padding(x, 2), 8) == Ceil(x, 8)
  {
    assert x % 2 == 1 ==> (x + 1) % 8 == if x % 8 == 7 then 0 else x % 8 + 1;
  }

  lemma ReaderActivityEnd(n: uint16, at: nat)
    ensures OptActivityEnd(Some(ReaderActivity(n)), at) == Ceil(at, 2) + 4
  {
  }

  lemma MultiplesOfFour(x: nat, y: nat)
    requires x % 4 == 0 && y % 4 == 0 && x < y + 4
    ensures x <= y && (y - x) % 4 == 0
  {
    var a, b := x / 4, y / 4;
    assert x == 4 * a && y == 4 * b;
  }

  lemma CeilGrows(at: nat, missed: nat)
    ensures Ceil(at, 4) <= Ceil(at + missed, 4) && (Ceil(at + missed, 4) - Ceil(at, 4)) % 4 == 0
  {
    hide Padding;
    WordAligned(at);
    WordAligned(at + missed);
    MultiplesOfFour(Ceil(at, 4), Ceil(at + missed, 4));
  }

  lemma AbsorbedIff(a: Option<ActivityInfo>, at: nat, missed: nat)
    ensures OptActivityEnd(a, at + missed) == OptActivityEnd(a, at) <==> Absorbs(a, at, missed)
  {
    hide OptActivityEnd, Ceil, AddressesEnd;
    match a
    case Some(AgentActivity(v, s)) =>
      AgentActivityStart(s, v, at);
      AgentActivityStart(s, v, at + missed);
      CeilGrows(at, missed);
      AddressesEndShift(s, Ceil(at, 4) + 8, Ceil(at + missed, 4) - Ceil(at, 4));
    case Some(WriterActivity(n, m)) =>
      WriterActivityEnd(n, m, at);
      WriterActivityEnd(n, m, at + missed);
    case Some(ReaderActivity(n)) =>
      ReaderActivityEnd(n, at);
      ReaderActivityEnd(n, at + missed);
    case _ =>
      ShortActivityEnd(a, at);
      ShortActivityEnd(a, at + missed);
  }

  lemma ShortActivityEnd(a: Option<ActivityInfo>, at: nat)
    requires a.Some? ==> a.value.OtherActivity?
    ensures OptActivityEnd(a, at) == if a.Some? then at + 2 else at + 1
  {
  }

  /**
   The INFO size is exact if and only if the padding of its activity takes up what the size of its configuration
   misses.
   */
  lemma InfoSize(e: Endian, o: Bytes, i: Info)
    requires WfInfo(i.object_)
    ensures |PutInfo(e, o, i)| == InfoEnd(i, |o|)
       <==> Absorbs(i.object_.activity, ConfigEnd(i.object_.config, ReplyEnd(|o|)), ConfigMissed(i, |o|))
  {
    hide PutReply, PutConfig, ConfigEnd, PutActivity, OptActivityEnd, WfVariant, WfActivity, ConfigMissed, Absorbs;
    ConfigSize(e, o, i);
    var o4 := PutConfig(e, PutReply(o, i), i.object_.config);
    OptActivityLaw(e, o4, i.object_.activity, PutOptActivity(e, o4, i.object_.activity));
    AbsorbedIff(i.object_.activity, ConfigEnd(i.object_.config, ReplyEnd(|o|)), ConfigMissed(i, |o|));
  }

  // ---------------------------------------------------------------- ACKNACK and HEARTBEAT

  datatype Acknack = Acknack(firstUnacked: uint16, nackBitmap: Octets2, streamId: byte)

  function PutAcknack(e: Endian, o: Bytes, a: Acknack): (o': Bytes)
    ensures o <= o'
  {
    PutByte(PutArray(PutU16(e, o, a.firstUnacked), a.nackBitmap), a.streamId)
  }

  function GetAcknack(e: Endian, buf: Bytes, pos: nat): Read<Acknack> {
    var (first, p1) :- GetU16(e, buf, pos);
    var (bitmap, p2) :- GetArray(buf, p1, 2);
    var (stream, p3) :- GetByte(buf, p2);
    Some((Acknack(first, bitmap, stream), p3))
  }

  function AcknackEnd(at: nat): nat {
    var c1 := at + 2 + Padding(at, 2);
    var c2 := c1 + 2 * 1 + Padding(c1, 1);
    c2 + 1 + Padding(c2, 1)
  }

  lemma AcknackLaw(e: Endian, o: Bytes, a: Acknack, buf: Bytes)
    requires PutAcknack(e, o, a) <= buf
    ensures GetAcknack(e, buf, |o|) == Some((a, |PutAcknack(e, o, a)|))
    ensures |PutAcknack(e, o, a)| == AcknackEnd(|o|)
  {
    hide PutU16, PutArray, PutByte, GetU16, GetArray, GetByte;
    var o1 := PutU16(e, o, a.firstUnacked);
    U16Law(e, o, a.firstUnacked, buf);
    ArrayLaw(o1, a.nackBitmap, 2, buf);
    ByteLaw(PutArray(o1, a.nackBitmap), a.streamId, buf);
  }

  datatype Heartbeat = Heartbeat(firstUnacked: uint16, lastUnacked: uint16, streamId: byte)

  function PutHeartbeat(e: Endian, o: Bytes, h: Heartbeat): (o': Bytes)
    ensures o <= o'
  {
    PutByte(PutU16(e, PutU16(e, o, h.firstUnacked), h.lastUnacked), h.streamId)
  }

  function GetHeartbeat(e: Endian, buf: Bytes, pos: nat): Read<Heartbeat> {
    var (first, p1) :- GetU16(e, buf, pos);
    var (last, p2) :- GetU16(e, buf, p1);
    var (stream, p3) :- GetByte(buf, p2);
    Some((Heartbeat(first, last, stream), p3))
  }

  function HeartbeatEnd(at: nat): nat {
    var c1 := at + 2 + Padding(at, 2);
    var c2 := c1 + 2 + Padding(c1, 2);
    c2 + 1 + Padding(c2, 1)
  }

  lemma HeartbeatLaw(e: Endian, o: Bytes, h: Heartbeat, buf: Bytes)
    requires PutHeartbeat(e, o, h) <= buf
    ensures GetHeartbeat(e, buf, |o|) == Some((h, |PutHeartbeat(e, o, h)|))
    ensures |PutHeartbeat(e, o, h)| == HeartbeatEnd(|o|)
  {
    hide PutU16, PutByte, GetU16, GetByte;
    var o1 := PutU16(e, o, h.firstUnacked);
    U16Law(e, o, h.firstUnacked, buf);
    U16Law(e, o1, h.lastUnacked, buf);
    ByteLaw(PutU16(e, o1, h.lastUnacked), h.streamId, buf);
  }
}
