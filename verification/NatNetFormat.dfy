/** The NatNet frame of mocap data, laid out under its version gates (`optitrack.cpp`). */
module NatNetFormat {
  import opened Cdr

  /** Four bytes copied as they are: a float, an id. */
  type Word = s: Bytes | |s| == 4 witness [0, 0, 0, 0]
  type HalfWord = s: Bytes | |s| == 2 witness [0, 0]
  type DoubleWord = s: Bytes | |s| == 8 witness [0, 0, 0, 0, 0, 0, 0, 0]

  datatype Version = Version(major: nat, minor: nat)

  predicate HasSizes(v: Version) { (v.major == 4 && v.minor > 0) || v.major > 4 }
  predicate HasError(v: Version) { v.major >= 2 }
  predicate HasParams(v: Version) { (v.major == 2 && v.minor >= 6) || v.major > 2 || v.major == 0 }
  predicate HasSkeletons(v: Version) { (v.major == 2 && v.minor > 0) || v.major > 2 }
  predicate HasLabeled(v: Version) { (v.major == 2 && v.minor >= 3) || v.major > 2 }
  predicate HasResidual(v: Version) { v.major >= 3 || v.major == 0 }
  predicate HasForcePlates(v: Version) { (v.major == 2 && v.minor >= 9) || v.major > 2 }
  predicate HasDevices(v: Version) { (v.major == 2 && v.minor >= 11) || v.major > 2 }
  predicate HasLatency(v: Version) { v.major < 3 }
  predicate HasLongTimestamp(v: Version) { (v.major == 2 && v.minor >= 7) || v.major > 2 }
  predicate HasHighResTimestamps(v: Version) { v.major >= 3 || v.major == 0 }

  datatype Marker = Marker(x: Word, y: Word, z: Word)
  datatype MarkerSet = MarkerSet(name: Bytes, markers: seq<Marker>)
  datatype RigidBody = RigidBody(id: Word, x: Word, y: Word, z: Word, qx: Word, qy: Word, qz: Word, qw: Word,
                                 error: Word, params: HalfWord)
  datatype Skeleton = Skeleton(id: Word, bones: seq<RigidBody>)
  datatype LabeledMarker = LabeledMarker(id: Word, position: Marker, size: Word, params: HalfWord, residual: Word)
  datatype Device = Device(id: Word, channels: seq<seq<Word>>)

  datatype Frame = Frame(
    frameNumber: Word,
    markerSets: seq<MarkerSet>,
    otherMarkers: seq<Marker>,
    rigidBodies: seq<RigidBody>,
    skeletons: seq<Skeleton>,
    assetCount: Word,
    assets: Bytes,
    labeled: seq<LabeledMarker>,
    forcePlates: seq<Device>,
    devices: seq<Device>,
    latency: Word,
    timecode: DoubleWord,
    timestamp: DoubleWord,
    shortTimestamp: Word,
    midExposure: DoubleWord,
    dataReceived: DoubleWord,
    transmit: DoubleWord,
    params: HalfWord)

  // ---------------------------------------------------------------- layout

  function Int(n: nat): (s: Bytes)
    ensures |s| == 4
  {
    LittleBytes(4, n)
  }

  /** Elements one after the other. */
  function Concat<T>(s: seq<T>, enc: T -> Bytes): Bytes
    decreases |s|
  {
    if s == [] then [] else enc(s[0]) + Concat(s[1..], enc)
  }

  function EncMarker(m: Marker): (s: Bytes)
    ensures |s| == 12
  {
    m.x + m.y + m.z
  }

  function EncMarkerSet(m: MarkerSet): Bytes {
    m.name + [0] + Int(|m.markers|) + Concat(m.markers, EncMarker)
  }

  function EncBody(v: Version, b: RigidBody): (s: Bytes)
    ensures |s| == BodySize(v)
  {
    b.id + (b.x + (b.y + (b.z + (b.qx + (b.qy + (b.qz + (b.qw + BodyTail(v, b))))))))
  }

  function BodyTail(v: Version, b: RigidBody): Bytes {
    (if HasError(v) then b.error else []) + (if HasParams(v) then b.params else [])
  }

  function BodySize(v: Version): nat {
    32 + (if HasError(v) then 4 else 0) + (if HasParams(v) then 2 else 0)
  }

  function EncSkeleton(v: Version, s: Skeleton): Bytes {
    s.id + Int(|s.bones|) + Concat(s.bones, b => EncBody(v, b))
  }

  function EncLabeled(v: Version, m: LabeledMarker): (s: Bytes)
    ensures |s| == LabeledSize(v)
  {
    m.id + EncMarker(m.position) + m.size
    + (if HasParams(v) then m.params else []) + (if HasResidual(v) then m.residual else [])
  }

  function LabeledSize(v: Version): nat {
    20 + (if HasParams(v) then 2 else 0) + (if HasResidual(v) then 4 else 0)
  }

  function EncWord(w: Word): Bytes { w }

  function EncChannel(c: seq<Word>): Bytes {
    Int(|c|) + Concat(c, EncWord)
  }

  function EncDevice(d: Device): Bytes {
    d.id + Int(|d.channels|) + Concat(d.channels, EncChannel)
  }

  /** A counted section: the count, from 4.1 on the number of bytes, the elements. */
  function Section<T>(v: Version, s: seq<T>, enc: T -> Bytes): Bytes {
    Int(|s|) + (if HasSizes(v) then Int(|Concat(s, enc)|) else []) + Concat(s, enc)
  }

  function LatencyBytes(v: Version, f: Frame): Bytes {
    if HasLatency(v) then f.latency else []
  }

  function StampBytes(v: Version, f: Frame): Bytes {
    if HasLongTimestamp(v) then f.timestamp else f.shortTimestamp
  }

  function HighResBytes(v: Version, f: Frame): Bytes {
    if HasHighResTimestamps(v) then f.midExposure + (f.dataReceived + f.transmit) else []
  }

  function EncTimes(v: Version, f: Frame): Bytes {
    LatencyBytes(v, f) + (f.timecode + (StampBytes(v, f) + (HighResBytes(v, f) + f.params)))
  }

  function EncDevicesOn(v: Version, f: Frame): Bytes {
    (if HasDevices(v) then Section(v, f.devices, EncDevice) else []) + EncTimes(v, f)
  }

  function EncForcePlatesOn(v: Version, f: Frame): Bytes {
    (if HasForcePlates(v) then Section(v, f.forcePlates, EncDevice) else []) + EncDevicesOn(v, f)
  }

  function EncLabeledOn(v: Version, f: Frame): Bytes {
    (if HasLabeled(v) then Section(v, f.labeled, m => EncLabeled(v, m)) else []) + EncForcePlatesOn(v, f)
  }

  function AssetBytes(f: Frame): Bytes {
    f.assetCount + (Int(|f.assets|) + f.assets)
  }

  function EncAssetsOn(v: Version, f: Frame): Bytes {
    (if HasSizes(v) then AssetBytes(f) else []) + EncLabeledOn(v, f)
  }

  function EncSkeletonsOn(v: Version, f: Frame): Bytes {
    (if HasSkeletons(v) then Section(v, f.skeletons, s => EncSkeleton(v, s)) else []) + EncAssetsOn(v, f)
  }

  function EncBodiesOn(v: Version, f: Frame): Bytes {
    Section(v, f.rigidBodies, b => EncBody(v, b)) + EncSkeletonsOn(v, f)
  }

  function EncFrame(v: Version, f: Frame): Bytes {
    f.frameNumber
    + (Section(v, f.markerSets, EncMarkerSet) + (Section(v, f.otherMarkers, EncMarker) + EncBodiesOn(v, f)))
  }

  const NAT_FRAME: nat := 7

  /** Message id, payload length, payload. */
  function Packet(id: nat, payload: Bytes): Bytes {
    LittleBytes(2, id) + LittleBytes(2, |payload| % 0x1_0000) + payload
  }

  // ---------------------------------------------------------------- frames that fit their fields

  ghost predicate Countable(n: nat) { n < 0x8000_0000 }

  ghost predicate WfName(s: Bytes) { NulFree(s) }

  ghost predicate WfDevice(d: Device) {
    Countable(|d.channels|) && forall c :: c in d.channels ==> Countable(|c|)
  }

  ghost predicate WfFrame(v: Version, f: Frame) {
    && Countable(|f.markerSets|) && (forall m :: m in f.markerSets ==> WfName(m.name) && Countable(|m.markers|))
    && Countable(|f.otherMarkers|) && Countable(|f.rigidBodies|)
    && Countable(|f.skeletons|) && (forall s :: s in f.skeletons ==> Countable(|s.bones|))
    && Countable(|f.assets|) && Countable(|f.labeled|)
    && Countable(|f.forcePlates|) && (forall d :: d in f.forcePlates ==> WfDevice(d))
    && Countable(|f.devices|) && (forall d :: d in f.devices ==> WfDevice(d))
  }

  // ---------------------------------------------------------------- reading at a position

  /** `s` is what the buffer holds from `ptr` on. */
  ghost predicate Holds(buf: Bytes, ptr: nat, s: Bytes) {
    ptr + |s| <= |buf| && buf[ptr..ptr + |s|] == s
  }

  lemma HoldsSplit(buf: Bytes, ptr: nat, a: Bytes, b: Bytes)
    requires Holds(buf, ptr, a + b)
    ensures Holds(buf, ptr, a) && Holds(buf, ptr + |a|, b)
  {
    var s := a + b;
    assert buf[ptr..ptr + |a|] == s[..|a|] == a;
    assert buf[ptr + |a|..ptr + |s|] == s[|a|..] == b;
  }

  /** The count that a little-endian field holds. */
  lemma HoldsInt(buf: Bytes, ptr: nat, n: nat)
    requires n < 0x1_0000_0000 && Holds(buf, ptr, Int(n))
    ensures FromLittle(buf[ptr..ptr + 4]) == n
  {
    Pow256Values();
    LittleRoundTrip(4, n);
  }

  lemma ConcatStep<T>(s: seq<T>, enc: T -> Bytes, j: nat)
    requires j < |s|
    ensures Concat(s[j..], enc) == enc(s[j]) + Concat(s[j + 1..], enc)
  {
    assert s[j..][1..] == s[j + 1..];
  }
}
