/** The serialisers as they run: on a Cdr object whose buffer grows and whose read position advances. */
module XrceStream {
  import opened Options
  import opened Cdr
  import opened XrceTypes
  import opened XrcePayloads
  import opened XrceSubmessages

  class CdrStream {
    const e: Endian
    var buffer: Bytes
    var position: nat

    constructor (e: Endian, buffer: Bytes, position: nat)
      ensures this.e == e && this.buffer == buffer && this.position == position
    {
      this.e, this.buffer, this.position := e, buffer, position;
    }

    // -------------------------------------------------------------- primitives

    method WriteByte(v: byte)
      modifies this`buffer
      ensures buffer == PutByte(old(buffer), v)
    {
      buffer := buffer + [v];
    }

    method WriteArray(s: Bytes)
      modifies this`buffer
      ensures buffer == PutArray(old(buffer), s)
    {
      buffer := buffer + s;
    }

    method WriteUInt(e: Endian, size: Width, v: nat)
      modifies this`buffer
      ensures buffer == PutUInt(e, old(buffer), size, v)
    {
      hide Encode;
      buffer := buffer + Zeros(Padding(|buffer|, size));
      buffer := buffer + Encode(e, size, v);
    }

    method WriteString(s: Bytes)
      modifies this`buffer
      ensures buffer == PutString(e, old(buffer), s)
    {
      hide PutUInt;
      WriteUInt(e, 4, |s| + 1);
      buffer := buffer + s;
      buffer := buffer + [0];
    }

    method WriteOctets(s: Bytes)
      modifies this`buffer
      ensures buffer == PutOctets(e, old(buffer), s)
    {
      hide PutUInt;
      WriteUInt(e, 4, |s|);
      buffer := buffer + s;
    }

    method WriteFlag(v: bool)
      modifies this`buffer
      ensures buffer == PutBool(old(buffer), v)
    {
      buffer := buffer + [if v then 1 else 0];
    }

    method WriteI16(v: int16)
      modifies this`buffer
      ensures buffer == PutI16(e, old(buffer), v)
    {
      hide PutUInt;
      WriteUInt(e, 2, if v < 0 then v + 0x1_0000 else v);
    }

    method ReadByte() returns (r: Option<byte>)
      modifies this`position
      ensures Got(GetByte(buffer, old(position)), r, position)
    {
      if position >= |buffer| { return None; }
      r := Some(buffer[position]);
      position := position + 1;
    }

    method ReadFlag() returns (r: Option<bool>)
      modifies this`position
      ensures Got(GetBool(buffer, old(position)), r, position)
    {
      if position >= |buffer| || buffer[position] > 1 { return None; }
      r := Some(buffer[position] == 1);
      position := position + 1;
    }

    method ReadArray(n: nat) returns (r: Option<Bytes>)
      modifies this`position
      ensures Got(GetArray(buffer, old(position), n), r, position)
      ensures r.Some? ==> |r.value| == n
    {
      if position + n > |buffer| { return None; }
      r := Some(buffer[position..position + n]);
      position := position + n;
    }

    method ReadUInt(e: Endian, size: Width) returns (r: Option<nat>)
      modifies this`position
      ensures Got(GetUInt(e, buffer, old(position), size), r, position)
      ensures r.Some? ==> r.value < Pow256(size)
    {
      hide Decode;
      var p := position + Padding(position, size);
      if p + size > |buffer| { return None; }
      r := Some(Decode(e, buffer[p..p + size]));
      position := p + size;
    }

    method ReadU16(e: Endian) returns (r: Option<uint16>)
      modifies this`position
      ensures Got(GetU16(e, buffer, old(position)), r, position)
    {
      hide GetUInt;
      Pow256Values();
      var v :- ReadUInt(e, 2);
      r := Some(v);
    }

    method ReadI16() returns (r: Option<int16>)
      modifies this`position
      ensures Got(GetI16(e, buffer, old(position)), r, position)
    {
      hide GetUInt;
      Pow256Values();
      var raw :- ReadUInt(e, 2);
      var v: int := raw;
      r := Some(if v < 0x8000 then v else v - 0x1_0000);
    }

    method ReadString() returns (r: Option<Bytes>)
      modifies this`position
      ensures Got(GetString(e, buffer, old(position)), r, position)
    {
      hide GetUInt;
      var n :- ReadUInt(e, 4);
      var p := position;
      if p + n > |buffer| { return None; }
      r := Some(if n > 0 && buffer[p + n - 1] == 0 then buffer[p..p + n - 1] else buffer[p..p + n]);
      position := p + n;
    }

    method ReadOctets() returns (r: Option<Bytes>)
      modifies this`position
      ensures Got(GetOctets(e, buffer, old(position)), r, position)
    {
      hide GetUInt, GetArray;
      var n :- ReadUInt(e, 4);
      r := ReadArray(n);
    }

    // -------------------------------------------------------------- MessageHeader

    method SerializeHeader(h: MessageHeader)
      modifies this`buffer
      ensures buffer == PutHeader(e, old(buffer), h)
    {
      hide PutByte, PutArray, PutUInt;
      WriteByte(h.sessionId);
      WriteByte(h.streamId);
      WriteUInt(Little, 2, h.sequenceNr);
      if 128 > h.sessionId {
        WriteArray(h.clientKey);
      }
    }

    /** Into a fresh header; a failed read leaves no header. */
    method DeserializeHeader() returns (r: Option<MessageHeader>)
      modifies this`position
      ensures Got(GetHeader(e, buffer, old(position)), r, position)
    {
      hide GetByte, GetArray, GetU16;
      var session :- ReadByte();
      var stream :- ReadByte();
      var nr :- ReadU16(Little);
      var key: Octets4 := [0, 0, 0, 0];
      if 128 > session {
        key :- ReadArray(4);
      }
      r := Some(MessageHeader(session, stream, nr, key));
    }

    // -------------------------------------------------------------- ACKNACK and HEARTBEAT

    method SerializeAcknack(a: Acknack)
      modifies this`buffer
      ensures buffer == PutAcknack(e, old(buffer), a)
    {
      hide PutByte, PutArray, PutUInt;
      WriteUInt(e, 2, a.firstUnacked);
      WriteArray(a.nackBitmap);
      WriteByte(a.streamId);
    }

    method DeserializeAcknack() returns (r: Option<Acknack>)
      modifies this`position
      ensures Got(GetAcknack(e, buffer, old(position)), r, position)
    {
      hide GetByte, GetArray, GetU16;
      var first :- ReadU16(e);
      var bitmap :- ReadArray(2);
      var stream :- ReadByte();
      r := Some(Acknack(first, bitmap, stream));
    }

    method SerializeHeartbeat(h: Heartbeat)
      modifies this`buffer
      ensures buffer == PutHeartbeat(e, old(buffer), h)
    {
      hide PutByte, PutUInt;
      WriteUInt(e, 2, h.firstUnacked);
      WriteUInt(e, 2, h.lastUnacked);
      WriteByte(h.streamId);
    }

    method DeserializeHeartbeat() returns (r: Option<Heartbeat>)
      modifies this`position
      ensures Got(GetHeartbeat(e, buffer, old(position)), r, position)
    {
      hide GetByte, GetU16;
      var first :- ReadU16(e);
      var last :- ReadU16(e);
      var stream :- ReadByte();
      r := Some(Heartbeat(first, last, stream));
    }

    // -------------------------------------------------------------- AGENT and CLIENT representations

    method SerializeProperties(ps: seq<Property>)
      modifies this`buffer
      ensures buffer == PutProperties(e, old(buffer), ps)
    {
      hide PutString;
      var i := 0;
      while i < |ps|
        invariant i <= |ps|
        invariant PutProperties(e, buffer, ps[i..]) == PutProperties(e, old(buffer), ps)
      {
        WriteString(ps[i].name);
        WriteString(ps[i].value);
        assert ps[i..][1..] == ps[i + 1..];
        i := i + 1;
      }
      assert ps[i..] == [];
    }

    method SerializeOptProperties(ps: Option<seq<Property>>)
      modifies this`buffer
      ensures buffer == PutOptProperties(e, old(buffer), ps)
    {
      hide PutBool, PutUInt, PutProperties;
      WriteFlag(ps.Some?);
      if ps.Some? {
        WriteUInt(e, 4, |ps.value|);
        SerializeProperties(ps.value);
      }
    }

    method DeserializeProperty() returns (r: Option<Property>)
      modifies this`position
      ensures Got(GetProperty(e, buffer, old(position)), r, position)
    {
      hide GetString;
      var name :- ReadString();
      var value :- ReadString();
      r := Some(Property(name, value));
    }

    method DeserializeProperties(n: nat) returns (r: Option<seq<Property>>)
      modifies this`position
      ensures Got(GetProperties(e, buffer, old(position), n), r, position)
    {
      hide GetProperty;
      var i, ps := 0, [];
      NothingPrefixed(GetProperties(e, buffer, position, n));
      while i < n
        invariant i <= n
        invariant GetProperties(e, buffer, old(position), n) == Prefixed(ps, GetProperties(e, buffer, position, n - i))
      {
        var p := DeserializeProperty();
        if p.None? { return None; }
        PrefixedOnce(ps, p.value, GetProperties(e, buffer, position, n - i - 1));
        ps := ps + [p.value];
        i := i + 1;
      }
      assert ps + [] == ps;
      r := Some(ps);
    }

    method DeserializeOptProperties() returns (r: Option<Option<seq<Property>>>)
      modifies this`position
      ensures Got(GetOptProperties(e, buffer, old(position)), r, position)
    {
      hide GetBool, GetUInt, GetProperties;
      var flag :- ReadFlag();
      if !flag { return Some(None); }
      var n :- ReadUInt(e, 4);
      var ps :- DeserializeProperties(n);
      r := Some(Some(ps));
    }

    method SerializeAgent(a: AgentRep)
      modifies this`buffer
      ensures buffer == PutAgent(e, old(buffer), a)
    {
      hide PutArray, PutOptProperties;
      WriteArray(a.cookie);
      WriteArray(a.version);
      WriteArray(a.vendor);
      SerializeOptProperties(a.properties);
    }

    method DeserializeAgent() returns (r: Option<AgentRep>)
      modifies this`position
      ensures Got(GetAgent(e, buffer, old(position)), r, position)
    {
      hide GetArray, GetOptProperties;
      var cookie :- ReadArray(4);
      var version :- ReadArray(2);
      var vendor :- ReadArray(2);
      var properties :- DeserializeOptProperties();
      r := Some(AgentRep(cookie, version, vendor, properties));
    }

    method SerializeClient(c: ClientRep)
      modifies this`buffer
      ensures buffer == PutClient(e, old(buffer), c)
    {
      hide PutByte, PutArray, PutUInt, PutOptProperties;
      WriteArray(c.cookie);
      WriteArray(c.version);
      WriteArray(c.vendor);
      WriteArray(c.key);
      WriteByte(c.session);
      SerializeOptProperties(c.properties);
      WriteUInt(e, 2, c.mtu);
    }

    method DeserializeClient() returns (r: Option<ClientRep>)
      modifies this`position
      ensures Got(GetClient(e, buffer, old(position)), r, position)
    {
      hide GetByte, GetArray, GetU16, GetOptProperties;
      var cookie :- ReadArray(4);
      var version :- ReadArray(2);
      var vendor :- ReadArray(2);
      var key :- ReadArray(4);
      var session :- ReadByte();
      var properties :- DeserializeOptProperties();
      var mtu :- ReadU16(e);
      r := Some(ClientRep(cookie, version, vendor, key, session, properties, mtu));
    }

    // -------------------------------------------------------------- representation unions, ObjectVariant, CREATE

    method SerializeRep(rep: Rep)
      modifies this`buffer
      ensures buffer == PutRep(e, old(buffer), rep)
    {
      hide PutByte, PutString, PutOctets;
      match rep {
        case ByReference(s) => WriteByte(REF); WriteString(s);
        case AsXml(s) => WriteByte(XML); WriteString(s);
        case InBinary(s) => WriteByte(BIN); WriteOctets(s);
        case OtherRep(d) => WriteByte(d);
      }
    }

    method DeserializeRep(f: Formats) returns (r: Option<Rep>)
      modifies this`position
      ensures Got(GetRep(e, buffer, old(position), f), r, position)
    {
      hide GetByte, GetString, GetOctets;
      var d :- ReadByte();
      if d == REF && f.ref {
        var s :- ReadString();
        r := Some(ByReference(s));
      } else if d == XML {
        var s :- ReadString();
        r := Some(AsXml(s));
      } else if d == BIN && f.bin {
        var s :- ReadOctets();
        r := Some(InBinary(s));
      } else {
        r := Some(OtherRep(d));
      }
    }

    method SerializeVariant(v: ObjectVariant)
      modifies this`buffer
      ensures buffer == PutVariant(e, old(buffer), v)
    {
      hide PutByte, PutArray, PutI16, PutRep, PutAgent, PutClient;
      match v {
        case Agent(a) => WriteByte(OBJK_AGENT); SerializeAgent(a);
        case Client(c) => WriteByte(OBJK_CLIENT); SerializeClient(c);
        case Participant(rep, d) => WriteByte(OBJK_PARTICIPANT); SerializeRep(rep); WriteI16(d);
        case Plain(k, rep) => WriteByte(k); SerializeRep(rep);
        case Child(k, rep, id) => WriteByte(k); SerializeRep(rep); WriteArray(id);
        case OtherObject(k) => WriteByte(k);
      }
    }

    method DeserializeVariant() returns (r: Option<ObjectVariant>)
      modifies this`position
      ensures Got(GetVariant(e, buffer, old(position)), r, position)
    {
      hide GetByte, GetArray, GetI16, GetRep, GetAgent, GetClient;
      var k :- ReadByte();
      if k == OBJK_AGENT {
        var a :- DeserializeAgent();
        r := Some(Agent(a));
      } else if k == OBJK_CLIENT {
        var c :- DeserializeClient();
        r := Some(Client(c));
      } else if k == OBJK_PARTICIPANT {
        var rep :- DeserializeRep(THREE);
        var d :- ReadI16();
        r := Some(Participant(rep, d));
      } else if IsPlain(k) {
        var rep :- DeserializeRep(FormatsOf(k));
        r := Some(Plain(k, rep));
      } else if IsChild(k) {
        var rep :- DeserializeRep(FormatsOf(k));
        var id :- ReadArray(2);
        r := Some(Child(k, rep, id));
      } else {
        r := Some(OtherObject(k));
      }
    }

    method SerializeRequest(q: Request)
      modifies this`buffer
      ensures buffer == PutRequest(old(buffer), q)
    {
      hide PutArray;
      WriteArray(q.requestId);
      WriteArray(q.objectId);
    }

    method DeserializeRequest() returns (r: Option<Request>)
      modifies this`position
      ensures Got(GetRequest(buffer, old(position)), r, position)
    {
      hide GetArray;
      var requestId :- ReadArray(2);
      var objectId :- ReadArray(2);
      r := Some(Request(requestId, objectId));
    }

    method SerializeCreate(c: Create)
      modifies this`buffer
      ensures buffer == PutCreate(e, old(buffer), c)
    {
      hide PutRequest, PutVariant;
      SerializeRequest(c.request);
      SerializeVariant(c.object_);
    }

    method DeserializeCreate() returns (r: Option<Create>)
      modifies this`position
      ensures Got(GetCreate(e, buffer, old(position)), r, position)
    {
      hide GetRequest, GetVariant;
      var request :- DeserializeRequest();
      var object_ :- DeserializeVariant();
      r := Some(Create(request, object_));
    }

    // -------------------------------------------------------------- READ_DATA

    method SerializeDelivery(d: DeliveryControl)
      modifies this`buffer
      ensures buffer == PutDelivery(e, old(buffer), d)
    {
      hide PutUInt;
      WriteUInt(e, 2, d.maxSamples);
      WriteUInt(e, 2, d.maxElapsed);
      WriteUInt(e, 2, d.maxBytesPerSecond);
      WriteUInt(e, 2, d.minPace);
    }

    method DeserializeDelivery() returns (r: Option<DeliveryControl>)
      modifies this`position
      ensures Got(GetDelivery(e, buffer, old(position)), r, position)
    {
      hide GetU16;
      var maxSamples :- ReadU16(e);
      var maxElapsed :- ReadU16(e);
      var maxBytes :- ReadU16(e);
      var minPace :- ReadU16(e);
      r := Some(DeliveryControl(maxSamples, maxElapsed, maxBytes, minPace));
    }

    method SerializeReadData(q: ReadData)
      modifies this`buffer
      ensures buffer == PutReadData(e, old(buffer), q)
    {
      hide PutRequest, PutByte, PutBool, PutString, PutDelivery;
      SerializeRequest(q.request);
      WriteByte(q.spec.preferredStream);
      WriteByte(q.spec.dataFormat);
      WriteFlag(q.spec.filter.Some?);
      if q.spec.filter.Some? {
        WriteString(q.spec.filter.value);
      }
      WriteFlag(q.spec.control.Some?);
      if q.spec.control.Some? {
        SerializeDelivery(q.spec.control.value);
      }
    }

    method DeserializeOptString() returns (r: Option<Option<Bytes>>)
      modifies this`position
      ensures Got(GetOptString(e, buffer, old(position)), r, position)
    {
      hide GetBool, GetString;
      var flag :- ReadFlag();
      if !flag { return Some(None); }
      var s :- ReadString();
      r := Some(Some(s));
    }

    method DeserializeOptDelivery() returns (r: Option<Option<DeliveryControl>>)
      modifies this`position
      ensures Got(GetOptDelivery(e, buffer, old(position)), r, position)
    {
      hide GetBool, GetDelivery;
      var flag :- ReadFlag();
      if !flag { return Some(None); }
      var d :- DeserializeDelivery();
      r := Some(Some(d));
    }

    method DeserializeReadData() returns (r: Option<ReadData>)
      modifies this`position
      ensures Got(GetReadData(e, buffer, old(position)), r, position)
    {
      hide GetRequest, GetByte, GetOptString, GetOptDelivery;
      var request :- DeserializeRequest();
      var stream :- ReadByte();
      var format :- ReadByte();
      var filter :- DeserializeOptString();
      var control :- DeserializeOptDelivery();
      r := Some(ReadData(request, ReadSpec(stream, format, filter, control)));
    }

    // -------------------------------------------------------------- INFO

    method SerializeAddress(a: TransportAddress)
      modifies this`buffer
      ensures buffer == PutAddress(e, old(buffer), a)
    {
      hide PutByte, PutArray, PutUInt, PutString;
      match a {
        case Small(address, port) => WriteByte(0); WriteArray(address); WriteByte(port);
        case Medium(address, port) => WriteByte(1); WriteArray(address); WriteUInt(e, 2, port);
        case Large(address, port) => WriteByte(2); WriteArray(address); WriteUInt(e, 4, port);
        case Text(value) => WriteByte(3); WriteString(value);
        case OtherAddress(format) => WriteByte(format);
      }
    }

    method SerializeAddresses(s: seq<TransportAddress>)
      modifies this`buffer
      ensures buffer == PutAddresses(e, old(buffer), s)
    {
      hide PutAddress;
      var i := 0;
      while i < |s|
        invariant i <= |s|
        invariant PutAddresses(e, buffer, s[i..]) == PutAddresses(e, old(buffer), s)
      {
        SerializeAddress(s[i]);
        assert s[i..][1..] == s[i + 1..];
        i := i + 1;
      }
      assert s[i..] == [];
    }

    method DeserializeAddress() returns (r: Option<TransportAddress>)
      modifies this`position
      ensures Got(GetAddress(e, buffer, old(position)), r, position)
    {
      hide GetByte, GetArray, GetUInt, GetString;
      Pow256Values();
      var d :- ReadByte();
      match d {
        case 0 =>
          var address :- ReadArray(2);
          var port :- ReadByte();
          r := Some(Small(address, port));
        case 1 =>
          var address :- ReadArray(4);
          var port :- ReadU16(e);
          r := Some(Medium(address, port));
        case 2 =>
          var address :- ReadArray(16);
          var port :- ReadUInt(e, 4);
          r := Some(Large(address, port));
        case 3 =>
          var value :- ReadString();
          r := Some(Text(value));
        case _ =>
          r := Some(OtherAddress(d));
      }
    }

    method DeserializeAddresses(n: nat) returns (r: Option<seq<TransportAddress>>)
      modifies this`position
      ensures Got(GetAddresses(e, buffer, old(position), n), r, position)
    {
      hide GetAddress;
      var i, s := 0, [];
      NothingPrefixed(GetAddresses(e, buffer, position, n));
      while i < n
        invariant i <= n
        invariant GetAddresses(e, buffer, old(position), n) == Prefixed(s, GetAddresses(e, buffer, position, n - i))
      {
        var a := DeserializeAddress();
        if a.None? { return None; }
        PrefixedOnce(s, a.value, GetAddresses(e, buffer, position, n - i - 1));
        s := s + [a.value];
        i := i + 1;
      }
      assert s + [] == s;
      r := Some(s);
    }

    method SerializeActivity(a: ActivityInfo)
      modifies this`buffer
      ensures buffer == PutActivity(e, old(buffer), a)
    {
      hide PutByte, PutI16, PutUInt, PutAddresses;
      match a {
        case AgentActivity(v, s) => WriteByte(OBJK_AGENT); WriteI16(v); WriteUInt(e, 4, |s|); SerializeAddresses(s);
        case WriterActivity(n, m) => WriteByte(OBJK_DATAWRITER); WriteUInt(e, 2, n); WriteUInt(e, 8, m);
        case ReaderActivity(n) => WriteByte(OBJK_DATAREADER); WriteUInt(e, 2, n);
        case OtherActivity(k) => WriteByte(k);
      }
    }

    method DeserializeActivity() returns (r: Option<ActivityInfo>)
      modifies this`position
      ensures Got(GetActivity(e, buffer, old(position)), r, position)
    {
      hide GetByte, GetI16, GetU16, GetUInt, GetAddresses, Pow256;
      var k :- ReadByte();
      if k == OBJK_AGENT {
        var v :- ReadI16();
        var n :- ReadUInt(e, 4);
        var s :- DeserializeAddresses(n);
        r := Some(AgentActivity(v, s));
      } else if k == OBJK_DATAWRITER {
        var n :- ReadU16(e);
        var m :- ReadUInt(e, 8);
        r := Some(WriterActivity(n, m));
      } else if k == OBJK_DATAREADER {
        var n :- ReadU16(e);
        r := Some(ReaderActivity(n));
      } else {
        r := Some(OtherActivity(k));
      }
    }

    method SerializeInfo(i: Info)
      modifies this`buffer
      ensures buffer == PutInfo(e, old(buffer), i)
    {
      hide PutRequest, PutByte, PutBool, PutVariant, PutActivity;
      SerializeRequest(i.related);
      WriteByte(i.status);
      WriteByte(i.implementationStatus);
      WriteFlag(i.object_.config.Some?);
      if i.object_.config.Some? {
        SerializeVariant(i.object_.config.value);
      }
      WriteFlag(i.object_.activity.Some?);
      if i.object_.activity.Some? {
        SerializeActivity(i.object_.activity.value);
      }
    }

    method DeserializeConfig() returns (r: Option<Option<ObjectVariant>>)
      modifies this`position
      ensures Got(GetConfig(e, buffer, old(position)), r, position)
    {
      hide GetBool, GetVariant;
      var flag :- ReadFlag();
      if !flag { return Some(None); }
      var v :- DeserializeVariant();
      var config := v;
      if v.Agent? {
        config := Agent(AgentRep(v.agent.cookie, v.agent.version, v.agent.vendor, None));
      }
      r := Some(Some(config));
    }

    method DeserializeOptActivity() returns (r: Option<Option<ActivityInfo>>)
      modifies this`position
      ensures Got(GetOptActivity(e, buffer, old(position)), r, position)
    {
      hide GetBool, GetActivity;
      var flag :- ReadFlag();
      if !flag { return Some(None); }
      var a :- DeserializeActivity();
      r := Some(Some(a));
    }

    method DeserializeInfo() returns (r: Option<Info>)
      modifies this`position
      ensures Got(GetInfo(e, buffer, old(position)), r, position)
    {
      hide GetRequest, GetByte, GetConfig, GetOptActivity;
      var related :- DeserializeRequest();
      var status :- ReadByte();
      var implementationStatus :- ReadByte();
      var config :- DeserializeConfig();
      var activity :- DeserializeOptActivity();
      r := Some(Info(related, status, implementationStatus, ObjectInfo(config, activity)));
    }
  }

  /**
   What a reading method did: the value that the function reads, and the position after it; nothing where fastcdr
   throws.
   */
  ghost predicate Got<T>(expected: Read<T>, got: Option<T>, after: nat) {
    match expected
    case Some((v, p)) => got == Some(v) && after == p
    case None => got == None
  }

  /** Elements already read, before those still to come. */
  ghost function Prefixed<T>(done: seq<T>, rest: Read<seq<T>>): Read<seq<T>> {
    match rest
    case Some((s, p)) => Some((done + s, p))
    case None => None
  }

  lemma NothingPrefixed<T>(rest: Read<seq<T>>)
    ensures Prefixed([], rest) == rest
  {
    assert rest.Some? ==> [] + rest.value.0 == rest.value.0;
  }

  lemma PrefixedOnce<T>(done: seq<T>, x: T, rest: Read<seq<T>>)
    ensures Prefixed(done, Prefixed([x], rest)) == Prefixed(done + [x], rest)
  {
    match rest
    case Some((s, _)) => assert done + ([x] + s) == done + [x] + s;
    case None =>
  }

  // ---------------------------------------------------------------- size calculators with loops

  /** MessageHeader::getCdrSerializedSize. */
  method HeaderSize(h: MessageHeader, initialAlignment: nat) returns (size: nat)
    ensures size == HeaderEnd(h, initialAlignment) - initialAlignment
  {
    var currentAlignment := initialAlignment;
    currentAlignment := currentAlignment + 1 + Padding(currentAlignment, 1);
    currentAlignment := currentAlignment + 1 + Padding(currentAlignment, 1);
    currentAlignment := currentAlignment + 2 + Padding(currentAlignment, 2);
    if 128 > h.sessionId {
      currentAlignment := currentAlignment + 4 * 1 + Padding(currentAlignment, 1);
    }
    size := currentAlignment - initialAlignment;
  }

  /** CLIENT_Representation::getCdrSerializedSize, with its loop over the properties. */
  method ClientRepSize(c: ClientRep, initialAlignment: nat) returns (size: nat)
    ensures size == ClientEnd(c, initialAlignment) - initialAlignment
  {
    hide PropertyEnd;
    var currentAlignment := initialAlignment;
    currentAlignment := currentAlignment + 4 * 1 + Padding(currentAlignment, 1);
    currentAlignment := currentAlignment + 2 * 1 + Padding(currentAlignment, 1);
    currentAlignment := currentAlignment + 2 * 1 + Padding(currentAlignment, 1);
    currentAlignment := currentAlignment + 4 * 1 + Padding(currentAlignment, 1);
    currentAlignment := currentAlignment + 1 + Padding(currentAlignment, 1);
    currentAlignment := currentAlignment + 1 + Padding(currentAlignment, 1);
    if c.properties.Some? {
      var ps := c.properties.value;
      var a, start := 0, currentAlignment;
      while a < |ps|
        invariant a <= |ps|
        invariant initialAlignment <= currentAlignment
        invariant PropertiesEnd(ps[a..], currentAlignment) == PropertiesEnd(ps, start)
      {
        PropertyGrows(ps[a], currentAlignment);
        currentAlignment := PropertyEnd(ps[a], currentAlignment);
        assert ps[a..][1..] == ps[a + 1..];
        a := a + 1;
      }
      assert ps[a..] == [];
    }
    currentAlignment := currentAlignment + 2 * 1 + Padding(currentAlignment, 1);
    size := currentAlignment - initialAlignment;
  }

  lemma PropertyGrows(p: Property, at: nat)
    ensures at <= PropertyEnd(p, at)
  {
  }
}
