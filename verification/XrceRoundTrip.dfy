/** Writing a payload to a stream and reading it back from the same stream, with anything written behind it. */
module XrceRoundTrip {
  import opened Options
  import opened Cdr
  import opened XrceTypes
  import opened XrcePayloads
  import opened XrceSubmessages
  import opened XrceStream

  /** The stream has been read up to the suffix. */
  ghost predicate ReadUpTo(s: CdrStream, written: Bytes, suffix: Bytes)
    reads s
  {
    s.buffer == written + suffix && s.position == |written|
  }

  method HeaderThereAndBack(s: CdrStream, h: MessageHeader, suffix: Bytes) returns (r: Option<MessageHeader>)
    requires s.position == |s.buffer|
    modifies s
    ensures r == Some(if h.sessionId < 128 then h else h.(clientKey := [0, 0, 0, 0]))
    ensures ReadUpTo(s, PutHeader(s.e, old(s.buffer), h), suffix)
  {
    hide PutHeader, GetHeader;
    s.SerializeHeader(h);
    s.WriteArray(suffix);
    HeaderLaw(s.e, old(s.buffer), h, s.buffer);
    r := s.DeserializeHeader();
  }

  method CreateThereAndBack(s: CdrStream, c: Create, suffix: Bytes) returns (r: Option<Create>)
    requires WfVariant(c.object_) && s.position == |s.buffer|
    modifies s
    ensures r == Some(c)
    ensures ReadUpTo(s, PutCreate(s.e, old(s.buffer), c), suffix)
  {
    hide PutCreate, GetCreate;
    s.SerializeCreate(c);
    s.WriteArray(suffix);
    CreateLaw(s.e, old(s.buffer), c, s.buffer);
    r := s.DeserializeCreate();
  }

  method ReadDataThereAndBack(s: CdrStream, q: ReadData, suffix: Bytes) returns (r: Option<ReadData>)
    requires WfOptString(q.spec.filter) && s.position == |s.buffer|
    modifies s
    ensures r == Some(q)
    ensures ReadUpTo(s, PutReadData(s.e, old(s.buffer), q), suffix)
  {
    hide PutReadData, GetReadData;
    s.SerializeReadData(q);
    s.WriteArray(suffix);
    ReadDataLaw(s.e, old(s.buffer), q, s.buffer);
    r := s.DeserializeReadData();
  }

  method InfoThereAndBack(s: CdrStream, i: Info, suffix: Bytes) returns (r: Option<Info>)
    requires WfInfo(i.object_) && s.position == |s.buffer|
    modifies s
    ensures r == Some(Received(i))
    ensures ReadUpTo(s, PutInfo(s.e, old(s.buffer), i), suffix)
  {
    hide PutInfo, GetInfo;
    s.SerializeInfo(i);
    s.WriteArray(suffix);
    InfoLaw(s.e, old(s.buffer), i, s.buffer);
    r := s.DeserializeInfo();
  }

  method AcknackThereAndBack(s: CdrStream, a: Acknack, suffix: Bytes) returns (r: Option<Acknack>)
    requires s.position == |s.buffer|
    modifies s
    ensures r == Some(a)
    ensures ReadUpTo(s, PutAcknack(s.e, old(s.buffer), a), suffix)
  {
    hide PutAcknack, GetAcknack;
    s.SerializeAcknack(a);
    s.WriteArray(suffix);
    AcknackLaw(s.e, old(s.buffer), a, s.buffer);
    r := s.DeserializeAcknack();
  }

  method HeartbeatThereAndBack(s: CdrStream, h: Heartbeat, suffix: Bytes) returns (r: Option<Heartbeat>)
    requires s.position == |s.buffer|
    modifies s
    ensures r == Some(h)
    ensures ReadUpTo(s, PutHeartbeat(s.e, old(s.buffer), h), suffix)
  {
    hide PutHeartbeat, GetHeartbeat;
    s.SerializeHeartbeat(h);
    s.WriteArray(suffix);
    HeartbeatLaw(s.e, old(s.buffer), h, s.buffer);
    r := s.DeserializeHeartbeat();
  }
}
