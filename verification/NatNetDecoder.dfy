/**
 The NatNet frame decoder (`waitForNextFrame` in `optitrack.cpp`): a byte pointer moves through the packet.
 Every read is shown to stay inside the packet, for every version and every well-formed frame.
 */
module NatNetDecoder {
  import opened Options
  import opened Cdr
  import opened NatNetFormat

  /** `struct rigidBody` as the decoder fills it. */
  datatype Body = Body(id: Word, x: Word, y: Word, z: Word, qx: Word, qy: Word, qz: Word, qw: Word, error: Word,
                       trackingValid: bool)

  const ZERO_WORD: Word := [0, 0, 0, 0]
  const NEW_BODY := Body(ZERO_WORD, ZERO_WORD, ZERO_WORD, ZERO_WORD, ZERO_WORD, ZERO_WORD, ZERO_WORD, ZERO_WORD,
                         ZERO_WORD, false)

  /** The body that a frame describes, read over an element; fields that the version lacks keep their value. */
  function DecodedOver(v: Version, b: RigidBody, stale: Body): Body {
    Body(b.id, b.x, b.y, b.z, b.qx, b.qy, b.qz, b.qw,
         if HasError(v) then b.error else stale.error,
         if HasParams(v) then b.params[0] % 2 == 1 else stale.trackingValid)
  }

  /** The body that a frame describes; fields that the version lacks have their initial value. */
  function Decoded(v: Version, b: RigidBody): Body {
    DecodedOver(v, b, NEW_BODY)
  }

  function AllDecoded(v: Version, s: seq<RigidBody>): seq<Body> {
    seq(|s|, i requires 0 <= i < |s| => Decoded(v, s[i]))
  }

  /** Fields that the version lacks have never been written. */
  ghost predicate Clean(v: Version, bodies: seq<Body>) {
    forall b :: b in bodies ==> (!HasError(v) ==> b.error == ZERO_WORD) && (!HasParams(v) ==> !b.trackingValid)
  }

  /** Reading over clean elements leaves nothing of them, and clean elements again. */
  lemma CleanDecoded(v: Version, bodies: seq<Body>, s: seq<RigidBody>, before: seq<Body>)
    requires Clean(v, before) && BodiesDecoded(v, bodies, s, Resized(before, |s|), |s|)
    ensures bodies == AllDecoded(v, s) && Clean(v, bodies)
  {
    var resized := Resized(before, |s|);
    forall i | 0 <= i < |s|
      ensures bodies[i] == Decoded(v, s[i])
    {
      assert resized[i] == if i < |before| then before[i] else NEW_BODY;
    }
  }

  /** std::vector::resize on the rigid bodies. */
  function Resized(s: seq<Body>, n: nat): (r: seq<Body>)
    ensures |r| == n
  {
    if n <= |s| then s[..n] else s + seq(n - |s|, _ => NEW_BODY)
  }

  // ---------------------------------------------------------------- stepping through the layout

  lemma NextElement<T>(buf: Bytes, ptr: nat, s: seq<T>, enc: T -> Bytes, j: nat, rest: Bytes)
    requires j < |s| && Holds(buf, ptr, Concat(s[j..], enc) + rest)
    ensures Holds(buf, ptr, enc(s[j]))
    ensures Holds(buf, ptr + |enc(s[j])|, Concat(s[j + 1..], enc) + rest)
    ensures |Concat(s[j..], enc)| == |enc(s[j])| + |Concat(s[j + 1..], enc)|
  {
    ConcatStep(s, enc, j);
    assert Concat(s[j..], enc) + rest == enc(s[j]) + (Concat(s[j + 1..], enc) + rest);
    HoldsSplit(buf, ptr, enc(s[j]), Concat(s[j + 1..], enc) + rest);
  }

  lemma NoMoreElements<T>(buf: Bytes, ptr: nat, s: seq<T>, enc: T -> Bytes, rest: Bytes)
    requires Holds(buf, ptr, Concat(s[|s|..], enc) + rest)
    ensures Holds(buf, ptr, rest) && |Concat(s[|s|..], enc)| == 0
  {
  }

  lemma ConcatEnds<T>(s: seq<T>, enc: T -> Bytes)
    ensures Concat(s[0..], enc) == Concat(s, enc) == Concat(s, enc) + [] && Concat(s[|s|..], enc) == []
  {
    assert s[0..] == s && s[|s|..] == [];
  }

  /** Reads a count. */
  method ReadInt(buf: Bytes, ptr: nat, ghost n: nat, ghost rest: Bytes) returns (value: nat, p: nat)
    requires n < 0x1_0000_0000 && Holds(buf, ptr, Int(n) + rest)
    ensures value == n && p == ptr + 4 && Holds(buf, p, rest)
  {
    HoldsSplit(buf, ptr, Int(n), rest);
    HoldsInt(buf, ptr, n);
    value := FromLittle(buf[ptr..ptr + 4]);
    p := ptr + 4;
  }

  /** Copies four bytes. */
  method ReadWord(buf: Bytes, ptr: nat, ghost w: Word, ghost rest: Bytes) returns (value: Word, p: nat)
    requires Holds(buf, ptr, w + rest)
    ensures value == w && p == ptr + 4 && Holds(buf, p, rest)
  {
    HoldsSplit(buf, ptr, w, rest);
    value := buf[ptr..ptr + 4];
    p := ptr + 4;
  }

  /** UnpackDataSize. */
  method UnpackDataSize(buf: Bytes, ptr: nat, v: Version) returns (p: nat, nBytes: nat)
    requires HasSizes(v) ==> ptr + 4 <= |buf|
    ensures p == if HasSizes(v) then ptr + 4 else ptr
    ensures nBytes == if HasSizes(v) then FromLittle(buf[ptr..ptr + 4]) else 0
  {
    p, nBytes := ptr, 0;
    if (v.major == 4 && v.minor > 0) || v.major > 4 {
      nBytes := FromLittle(buf[p..p + 4]);
      p := p + 4;
    }
  }

  ghost function SectionSize<T>(v: Version, s: seq<T>, enc: T -> Bytes): (r: Bytes)
    ensures |r| == if HasSizes(v) then 4 else 0
  {
    if HasSizes(v) then Int(|Concat(s, enc)|) else []
  }

  lemma SectionLayout<T>(v: Version, s: seq<T>, enc: T -> Bytes, rest: Bytes)
    ensures Section(v, s, enc) + rest == Int(|s|) + (SectionSize(v, s, enc) + (Concat(s, enc) + rest))
  {
    hide Concat, Int, HasSizes;
    Regrouped(Int(|s|), SectionSize(v, s, enc), Concat(s, enc), rest);
  }

  lemma Regrouped(a: Bytes, b: Bytes, c: Bytes, d: Bytes)
    ensures a + b + c + d == a + (b + (c + d))
  {
  }

  lemma HoldsRoom(buf: Bytes, ptr: nat, s: Bytes)
    requires Holds(buf, ptr, s)
    ensures ptr + |s| <= |buf|
  {
  }

  /** The start of a counted section. */
  method OpenSection<T>(buf: Bytes, ptr: nat, v: Version, ghost s: seq<T>, ghost enc: T -> Bytes, ghost rest: Bytes)
    returns (n: nat, p: nat)
    requires Countable(|s|) && Holds(buf, ptr, Section(v, s, enc) + rest)
    ensures n == |s| && Holds(buf, p, Concat(s, enc) + rest)
    ensures p + |Concat(s, enc)| == ptr + |Section(v, s, enc)|
  {
    hide Holds, Concat, Int, Section, HasSizes;
    ghost var size := SectionSize(v, s, enc);
    ghost var body := Concat(s, enc) + rest;
    SectionLayout(v, s, enc, rest);
    n, p := ReadInt(buf, ptr, |s|, size + body);
    HoldsSplit(buf, p, size, body);
    HoldsRoom(buf, p, size);
    var nBytes;
    p, nBytes := UnpackDataSize(buf, p, v);
  }

  /** strlen. */
  method StrLen(buf: Bytes, ptr: nat, ghost name: Bytes, ghost rest: Bytes) returns (n: nat)
    requires WfName(name) && Holds(buf, ptr, name + ([0] + rest))
    ensures n == |name| && Holds(buf, ptr, name) && Holds(buf, ptr + n + 1, rest)
  {
    HoldsSplit(buf, ptr, name, [0] + rest);
    HoldsSplit(buf, ptr + |name|, [0], rest);
    assert forall i :: 0 <= i < |name| ==> name[i] == buf[ptr + i];
    assert buf[ptr + |name|] == buf[ptr + |name|..ptr + |name| + 1][0] == 0;
    n := 0;
    while buf[ptr + n] != 0
      invariant n <= |name|
      decreases |name| - n
    {
      n := n + 1;
    }
  }

  // ---------------------------------------------------------------- sections

  lemma {:induction false} FixedSize<T>(s: seq<T>, enc: T -> Bytes, size: nat)
    requires forall x :: x in s ==> |enc(x)| == size
    ensures |Concat(s, enc)| == size * |s|
    decreases |s|
  {
    if s != [] {
      FixedSize(s[1..], enc, size);
      assert size * |s| == size + size * (|s| - 1);
    }
  }

  method SkipMarkerSet(buf: Bytes, ptr: nat, ghost m: MarkerSet) returns (p: nat)
    requires Holds(buf, ptr, EncMarkerSet(m)) && WfName(m.name) && Countable(|m.markers|)
    ensures p == ptr + |EncMarkerSet(m)|
  {
    ghost var body := Concat(m.markers, EncMarker);
    assert EncMarkerSet(m) == m.name + ([0] + (Int(|m.markers|) + body));
    hide Holds, Concat, Int, EncMarkerSet;
    var len := StrLen(buf, ptr, m.name, Int(|m.markers|) + body);
    p := ptr + len + 1;
    var nMarkers;
    nMarkers, p := ReadInt(buf, p, |m.markers|, body);
    FixedSize(m.markers, EncMarker, 12);
    p := p + nMarkers * 12;
  }

  method SkipMarkerSets(buf: Bytes, ptr: nat, n: nat, ghost s: seq<MarkerSet>, ghost rest: Bytes) returns (p: nat)
    requires n == |s| && Holds(buf, ptr, Concat(s, EncMarkerSet) + rest)
    requires forall m :: m in s ==> WfName(m.name) && Countable(|m.markers|)
    ensures Holds(buf, p, rest) && p == ptr + |Concat(s, EncMarkerSet)|
  {
    hide Holds, Concat, EncMarkerSet, WfName, Countable;
    p := ptr;
    var i := 0;
    assert s[0..] == s;
    while i < n
      invariant i <= n && Holds(buf, p, Concat(s[i..], EncMarkerSet) + rest)
      invariant p + |Concat(s[i..], EncMarkerSet)| == ptr + |Concat(s, EncMarkerSet)|
    {
      NextElement(buf, p, s, EncMarkerSet, i, rest);
      p := SkipMarkerSet(buf, p, s[i]);
      i := i + 1;
    }
    NoMoreElements(buf, p, s, EncMarkerSet, rest);
  }

  method ReadMarkers(buf: Bytes, ptr: nat, n: nat, ghost s: seq<Marker>, ghost rest: Bytes)
    returns (markers: seq<Marker>, p: nat)
    requires n == |s| && Holds(buf, ptr, Concat(s, EncMarker) + rest)
    ensures markers == s && Holds(buf, p, rest) && p == ptr + |Concat(s, EncMarker)|
  {
    p, markers := ptr, [];
    var j := 0;
    assert s[0..] == s;
    while j < n
      invariant j <= n && Holds(buf, p, Concat(s[j..], EncMarker) + rest)
      invariant p + |Concat(s[j..], EncMarker)| == ptr + |Concat(s, EncMarker)|
      invariant markers == s[..j]
    {
      NextElement(buf, p, s, EncMarker, j, rest);
      var m;
      m, p := ReadMarker(buf, p, s[j], Concat(s[j + 1..], EncMarker) + rest);
      markers := markers + [m];
      j := j + 1;
    }
    NoMoreElements(buf, p, s, EncMarker, rest);
  }

  method ReadMarker(buf: Bytes, ptr: nat, ghost m: Marker, ghost rest: Bytes) returns (marker: Marker, p: nat)
    requires Holds(buf, ptr, EncMarker(m)) && Holds(buf, ptr + 12, rest)
    ensures marker == m && p == ptr + 12 && Holds(buf, p, rest)
  {
    assert EncMarker(m) == m.x + (m.y + (m.z + []));
    var x, y, z;
    x, p := ReadWord(buf, ptr, m.x, m.y + (m.z + []));
    y, p := ReadWord(buf, p, m.y, m.z + []);
    z, p := ReadWord(buf, p, m.z, []);
    marker := Marker(x, y, z);
  }

  lemma BodyTailLayout(v: Version, b: RigidBody)
    ensures BodyTail(v, b) ==
            if HasError(v)
            then b.error + (if HasParams(v) then b.params else [])
            else (if HasParams(v) then b.params else [])
  {
  }

  /** One rigid body, read over the element that the vector held before. */
  method ReadBody(buf: Bytes, ptr: nat, v: Version, stale: Body, ghost b: RigidBody) returns (body: Body, p: nat)
    requires Holds(buf, ptr, EncBody(v, b))
    ensures body == DecodedOver(v, b, stale) && p == ptr + BodySize(v)
  {
    hide Holds, BodyTail;
    BodyTailLayout(v, b);
    ghost var tail := BodyTail(v, b);
    ghost var r3 := b.qz + (b.qw + tail);
    ghost var r2 := b.z + (b.qx + (b.qy + r3));
    var id, x, y, z, qx, qy, qz, qw;
    id, p := ReadWord(buf, ptr, b.id, b.x + (b.y + r2));
    x, p := ReadWord(buf, p, b.x, b.y + r2);
    y, p := ReadWord(buf, p, b.y, r2);
    z, p := ReadWord(buf, p, b.z, b.qx + (b.qy + r3));
    qx, p := ReadWord(buf, p, b.qx, b.qy + r3);
    qy, p := ReadWord(buf, p, b.qy, r3);
    qz, p := ReadWord(buf, p, b.qz, b.qw + tail);
    qw, p := ReadWord(buf, p, b.qw, tail);
    body := stale.(id := id, x := x, y := y, z := z, qx := qx, qy := qy, qz := qz, qw := qw);
    if v.major >= 2 {
      var error;
      error, p := ReadWord(buf, p, b.error, if HasParams(v) then b.params else []);
      body := body.(error := error);
    }
    if (v.major == 2 && v.minor >= 6) || v.major > 2 || v.major == 0 {
      var valid := TrackingValid(buf, p, b.params);
      body := body.(trackingValid := valid);
      p := p + 2;
    }
  }

  /** The lowest bit of the parameters. */
  method TrackingValid(buf: Bytes, ptr: nat, ghost params: HalfWord) returns (valid: bool)
    requires Holds(buf, ptr, params)
    ensures valid == (params[0] % 2 == 1)
  {
    assert buf[ptr] == buf[ptr..ptr + 2][0];
    valid := buf[ptr] % 2 == 1;
  }

  ghost predicate BodiesDecoded(v: Version, bodies: seq<Body>, s: seq<RigidBody>, before: seq<Body>, j: nat) {
    && |bodies| == |s| == |before| && j <= |s|
    && (forall i :: 0 <= i < j ==> bodies[i] == DecodedOver(v, s[i], before[i]))
    && (forall i :: j <= i < |s| ==> bodies[i] == before[i])
  }

  method ReadBodies(buf: Bytes, ptr: nat, v: Version, n: nat, before: seq<Body>, ghost s: seq<RigidBody>,
                    ghost rest: Bytes)
    returns (bodies: seq<Body>, p: nat)
    requires n == |s| == |before| && Holds(buf, ptr, Concat(s, b => EncBody(v, b)) + rest)
    ensures BodiesDecoded(v, bodies, s, before, n) && Holds(buf, p, rest) && p == ptr + |Concat(s, b => EncBody(v, b))|
  {
    hide Holds, Concat, EncBody, DecodedOver;
    ghost var enc := (b: RigidBody) => EncBody(v, b);
    p, bodies := ptr, before;
    var j := 0;
    assert s[0..] == s;
    while j < n
      invariant j <= n && Holds(buf, p, Concat(s[j..], enc) + rest)
      invariant p + |Concat(s[j..], enc)| == ptr + |Concat(s, enc)|
      invariant BodiesDecoded(v, bodies, s, before, j)
    {
      NextElement(buf, p, s, enc, j, rest);
      var body;
      body, p := ReadBody(buf, p, v, bodies[j], s[j]);
      bodies := bodies[j := body];
      j := j + 1;
    }
    NoMoreElements(buf, p, s, enc, rest);
  }

  method SkipSkeleton(buf: Bytes, ptr: nat, v: Version, ghost k: Skeleton) returns (p: nat)
    requires Holds(buf, ptr, EncSkeleton(v, k)) && Countable(|k.bones|)
    ensures p == ptr + |EncSkeleton(v, k)|
  {
    ghost var enc := (b: RigidBody) => EncBody(v, b);
    ghost var body := Concat(k.bones, enc);
    assert EncSkeleton(v, k) == k.id + (Int(|k.bones|) + body);
    hide Holds, Concat, Int, EncSkeleton;
    HoldsSplit(buf, ptr, k.id, Int(|k.bones|) + body);
    p := ptr + 4;
    var nBones;
    nBones, p := ReadInt(buf, p, |k.bones|, body);
    FixedSize(k.bones, enc, BodySize(v));
    p := SkipBones(p, v, nBones);
  }

  method SkipSkeletons(buf: Bytes, ptr: nat, v: Version, n: nat, ghost s: seq<Skeleton>, ghost rest: Bytes)
    returns (p: nat)
    requires n == |s| && Holds(buf, ptr, Concat(s, k => EncSkeleton(v, k)) + rest)
    requires forall k :: k in s ==> Countable(|k.bones|)
    ensures Holds(buf, p, rest) && p == ptr + |Concat(s, k => EncSkeleton(v, k))|
  {
    hide Holds, Concat, EncSkeleton, Countable;
    ghost var enc := (k: Skeleton) => EncSkeleton(v, k);
    p := ptr;
    var j := 0;
    assert s[0..] == s;
    while j < n
      invariant j <= n && Holds(buf, p, Concat(s[j..], enc) + rest)
      invariant p + |Concat(s[j..], enc)| == ptr + |Concat(s, enc)|
    {
      NextElement(buf, p, s, enc, j, rest);
      p := SkipSkeleton(buf, p, v, s[j]);
      j := j + 1;
    }
    NoMoreElements(buf, p, s, enc, rest);
  }

  /** The loop over the bones of a skeleton, which only moves the pointer. */
  method SkipBones(ptr: nat, v: Version, n: nat) returns (p: nat)
    ensures p == ptr + BodySize(v) * n
  {
    p := ptr;
    var j := 0;
    while j < n
      invariant j <= n && p == ptr + BodySize(v) * j
    {
      p := p + 8 * 4;
      if v.major >= 2 { p := p + 4; }
      if (v.major == 2 && v.minor >= 6) || v.major > 2 || v.major == 0 { p := p + 2; }
      assert BodySize(v) * (j + 1) == BodySize(v) * j + BodySize(v);
      j := j + 1;
    }
  }

  method SkipAssets(buf: Bytes, ptr: nat, v: Version, ghost f: Frame, ghost rest: Bytes) returns (p: nat)
    requires HasSizes(v) && Countable(|f.assets|)
    requires Holds(buf, ptr, AssetBytes(f) + rest)
    ensures Holds(buf, p, rest) && p == ptr + |AssetBytes(f)|
  {
    assert AssetBytes(f) + rest == f.assetCount + (Int(|f.assets|) + (f.assets + rest));
    HoldsSplit(buf, ptr, f.assetCount, Int(|f.assets|) + (f.assets + rest));
    p := ptr + 4;
    HoldsSplit(buf, p, Int(|f.assets|), f.assets + rest);
    HoldsInt(buf, p, |f.assets|);
    var nBytes;
    p, nBytes := UnpackDataSize(buf, p, v);
    HoldsSplit(buf, p, f.assets, rest);
    p := p + nBytes;
  }

  function Positions(s: seq<LabeledMarker>): seq<Marker> {
    seq(|s|, i requires 0 <= i < |s| => s[i].position)
  }

  method ReadLabeled(buf: Bytes, ptr: nat, v: Version, n: nat, ghost s: seq<LabeledMarker>, ghost rest: Bytes)
    returns (markers: seq<Marker>, p: nat)
    requires n == |s| && Holds(buf, ptr, Concat(s, m => EncLabeled(v, m)) + rest)
    ensures markers == Positions(s) && Holds(buf, p, rest) && p == ptr + |Concat(s, m => EncLabeled(v, m))|
  {
    ghost var enc := (m: LabeledMarker) => EncLabeled(v, m);
    p, markers := ptr, [];
    var j := 0;
    assert s[0..] == s;
    while j < n
      invariant j <= n && Holds(buf, p, Concat(s[j..], enc) + rest)
      invariant p + |Concat(s[j..], enc)| == ptr + |Concat(s, enc)|
      invariant markers == Positions(s)[..j]
    {
      NextElement(buf, p, s, enc, j, rest);
      var m;
      m, p := ReadLabeledMarker(buf, p, v, s[j]);
      markers := markers + [m];
      j := j + 1;
    }
    NoMoreElements(buf, p, s, enc, rest);
  }

  method ReadLabeledMarker(buf: Bytes, ptr: nat, v: Version, ghost m: LabeledMarker) returns (marker: Marker, p: nat)
    requires Holds(buf, ptr, EncLabeled(v, m))
    ensures marker == m.position && p == ptr + LabeledSize(v)
  {
    ghost var tail := m.size + ((if HasParams(v) then m.params else []) + (if HasResidual(v) then m.residual else []));
    assert EncLabeled(v, m) == m.id + (EncMarker(m.position) + tail);
    HoldsSplit(buf, ptr, m.id, EncMarker(m.position) + tail);
    p := ptr + 4;
    HoldsSplit(buf, p, EncMarker(m.position), tail);
    marker, p := ReadMarker(buf, p, m.position, tail);
    p := p + 4;
    if (v.major == 2 && v.minor >= 6) || v.major > 2 || v.major == 0 { p := p + 2; }
    if v.major >= 3 || v.major == 0 { p := p + 4; }
  }

  method SkipDevices(buf: Bytes, ptr: nat, n: nat, ghost s: seq<Device>, ghost rest: Bytes) returns (p: nat)
    requires n == |s| && Holds(buf, ptr, Concat(s, EncDevice) + rest)
    requires forall d :: d in s ==> WfDevice(d)
    ensures Holds(buf, p, rest) && p == ptr + |Concat(s, EncDevice)|
  {
    hide Holds, Concat, EncDevice, WfDevice;
    p := ptr;
    var i := 0;
    assert s[0..] == s;
    while i < n
      invariant i <= n && Holds(buf, p, Concat(s[i..], EncDevice) + rest)
      invariant p + |Concat(s[i..], EncDevice)| == ptr + |Concat(s, EncDevice)|
    {
      NextElement(buf, p, s, EncDevice, i, rest);
      p := SkipDevice(buf, p, s[i]);
      i := i + 1;
    }
    NoMoreElements(buf, p, s, EncDevice, rest);
  }

  method SkipDevice(buf: Bytes, ptr: nat, ghost d: Device) returns (p: nat)
    requires Holds(buf, ptr, EncDevice(d)) && WfDevice(d)
    ensures p == ptr + |EncDevice(d)|
  {
    ghost var body := Concat(d.channels, EncChannel);
    assert EncDevice(d) == d.id + (Int(|d.channels|) + body);
    hide Holds, Concat, Int, EncDevice;
    HoldsSplit(buf, ptr, d.id, Int(|d.channels|) + body);
    p := ptr + 4;
    var nChannels;
    nChannels, p := ReadInt(buf, p, |d.channels|, body);
    p := SkipChannels(buf, p, nChannels, d.channels);
  }

  method SkipChannels(buf: Bytes, ptr: nat, n: nat, ghost s: seq<seq<Word>>) returns (p: nat)
    requires n == |s| && Holds(buf, ptr, Concat(s, EncChannel))
    requires forall c :: c in s ==> Countable(|c|)
    ensures p == ptr + |Concat(s, EncChannel)|
  {
    hide Holds, Concat, EncChannel, Countable;
    ConcatEnds(s, EncChannel);
    p := ptr;
    var i := 0;
    while i < n
      invariant i <= n && Holds(buf, p, Concat(s[i..], EncChannel) + [])
      invariant p + |Concat(s[i..], EncChannel)| == ptr + |Concat(s, EncChannel)|
    {
      NextElement(buf, p, s, EncChannel, i, []);
      ConcatStep(s, EncChannel, i);
      p := SkipChannel(buf, p, s[i]);
      i := i + 1;
    }
  }

  method SkipChannel(buf: Bytes, ptr: nat, ghost c: seq<Word>) returns (p: nat)
    requires Holds(buf, ptr, EncChannel(c)) && Countable(|c|)
    ensures p == ptr + |EncChannel(c)|
  {
    FixedSize(c, EncWord, 4);
    var nFrames;
    nFrames, p := ReadInt(buf, ptr, |c|, Concat(c, EncWord));
    var j, start := 0, p;
    while j < nFrames
      invariant j <= nFrames && p == start + 4 * j
    {
      p := p + 4;
      j := j + 1;
    }
  }

  // ---------------------------------------------------------------- the frame

  datatype Timestamps = Timestamps(midExposure: nat, dataReceived: nat, transmit: nat)

  class OptitrackClient {
    const version: Version
    var rigidBodies: seq<Body>
    var markers: seq<Marker>
    var timestamps: Option<Timestamps>  // of the last frame; latencies_ holds their differences
    var shutterTicks: nat               // the last mid-exposure ever read, from which timestamp_ is computed

    constructor (version: Version)
      ensures this.version == version && rigidBodies == [] && markers == [] && timestamps == None && shutterTicks == 0
      ensures Valid()
    {
      this.version, rigidBodies, markers, timestamps, shutterTicks := version, [], [], None, 0;
    }

    /** The markers that a frame leaves behind: the unlabelled ones, then the labelled ones. */
    /** No body has a field that the version lacks. */
    ghost predicate Valid()
      reads this
    {
      Clean(version, rigidBodies)
    }

    ghost function MarkersOf(f: Frame): seq<Marker> {
      f.otherMarkers + if HasLabeled(version) then Positions(f.labeled) else []
    }

    ghost function TimestampsOf(f: Frame): Option<Timestamps> {
      if HasHighResTimestamps(version)
      then Some(Timestamps(FromLittle(f.midExposure), FromLittle(f.dataReceived), FromLittle(f.transmit)))
      else None
    }

    /** A version without timestamps leaves the last mid-exposure as it was. */
    ghost function ShutterAfter(f: Frame, before: nat): nat {
      match TimestampsOf(f)
      case Some(t) => t.midExposure
      case None => before
    }

    /** The sections from the force plates to the end of the frame. */
    method DecodeTail(buf: Bytes, ptr: nat, ghost f: Frame, ghost rest: Bytes) returns (p: nat)
      requires WfFrame(version, f) && Holds(buf, ptr, EncForcePlatesOn(version, f) + rest)
      modifies this`timestamps, this`shutterTicks
      ensures p == ptr + |EncForcePlatesOn(version, f)|
      ensures timestamps == TimestampsOf(f) && shutterTicks == ShutterAfter(f, old(shutterTicks)) && Holds(buf, p, rest)
    {
      hide Holds, Section, Concat, EncTimes, EncDevicesOn, EncForcePlatesOn, TimestampsOf, ShutterAfter, WfDevice;
      ForcePlatesLayout(version, f, rest);
      DevicesLayout(version, f, rest);
      ghost var times := EncTimes(version, f) + rest;
      ghost var devices := EncDevicesOn(version, f) + rest;
      p := ptr;
      var n;
      if HasForcePlates(version) {
        n, p := OpenSection(buf, p, version, f.forcePlates, EncDevice, devices);
        p := SkipDevices(buf, p, n, f.forcePlates, devices);
      }
      if HasDevices(version) {
        n, p := OpenSection(buf, p, version, f.devices, EncDevice, times);
        p := SkipDevices(buf, p, n, f.devices, times);
      }
      p := DecodeTimes(buf, p, f, rest);
    }

    /** Latency, timecode and the software timestamp are passed over. */
    method SkipStamps(buf: Bytes, ptr: nat, ghost f: Frame, ghost rest: Bytes) returns (p: nat)
      requires Holds(buf, ptr, LatencyBytes(version, f) + (f.timecode + (StampBytes(version, f) + rest)))
      ensures Holds(buf, p, rest) && p == ptr + |LatencyBytes(version, f)| + 8 + |StampBytes(version, f)|
    {
      hide Holds;
      ghost var stamp := StampBytes(version, f);
      HoldsSplit(buf, ptr, LatencyBytes(version, f), f.timecode + (stamp + rest));
      p := ptr;
      if version.major < 3 { p := p + 4; }
      HoldsSplit(buf, p, f.timecode, stamp + rest);
      p := p + 4;
      p := p + 4;
      HoldsSplit(buf, p, stamp, rest);
      if (version.major == 2 && version.minor >= 7) || version.major > 2 { p := p + 8; } else { p := p + 4; }
    }

    /** Latency, timecode, timestamps and frame parameters. */
    method DecodeTimes(buf: Bytes, ptr: nat, ghost f: Frame, ghost rest: Bytes) returns (p: nat)
      requires Holds(buf, ptr, EncTimes(version, f) + rest)
      modifies this`timestamps, this`shutterTicks
      ensures p == ptr + |EncTimes(version, f)|
      ensures timestamps == TimestampsOf(f) && shutterTicks == ShutterAfter(f, old(shutterTicks)) && Holds(buf, p, rest)
    {
      ghost var high := HighResBytes(version, f);
      hide Holds, EncTimes, LatencyBytes, StampBytes;
      TimesLayout(version, f, rest);
      p := SkipStamps(buf, ptr, f, high + (f.params + rest));
      HoldsSplit(buf, p, high, f.params + rest);
      timestamps := None;
      if version.major >= 3 || version.major == 0 {
        timestamps, p := DecodeHighRes(buf, p, f);
        shutterTicks := timestamps.value.midExposure;
      }
      HoldsSplit(buf, p, f.params, rest);
      p := p + 2;
    }

    method DecodeHighRes(buf: Bytes, ptr: nat, ghost f: Frame) returns (t: Option<Timestamps>, p: nat)
      requires Holds(buf, ptr, f.midExposure + (f.dataReceived + f.transmit))
      ensures t == Some(Timestamps(FromLittle(f.midExposure), FromLittle(f.dataReceived), FromLittle(f.transmit)))
      ensures p == ptr + 24
    {
      HoldsSplit(buf, ptr, f.midExposure, f.dataReceived + f.transmit);
      HoldsSplit(buf, ptr + 8, f.dataReceived, f.transmit);
      var mid := FromLittle(buf[ptr..ptr + 8]);
      var received := FromLittle(buf[ptr + 8..ptr + 16]);
      var transmit := FromLittle(buf[ptr + 16..ptr + 24]);
      t, p := Some(Timestamps(mid, received, transmit)), ptr + 24;
    }

    /** From the skeletons to the end: skipped sections, labelled markers, times. */
    method DecodeAfterBodies(buf: Bytes, ptr: nat, ghost f: Frame, ghost rest: Bytes) returns (p: nat)
      requires WfFrame(version, f) && Holds(buf, ptr, EncSkeletonsOn(version, f) + rest)
      requires markers == f.otherMarkers
      modifies this`timestamps, this`shutterTicks, this`markers
      ensures timestamps == TimestampsOf(f) && shutterTicks == ShutterAfter(f, old(shutterTicks))
      ensures markers == MarkersOf(f) && Holds(buf, p, rest) && p == ptr + |EncSkeletonsOn(version, f)|
    {
      hide Holds, Section, EncForcePlatesOn, EncLabeledOn, EncAssetsOn, EncSkeletonsOn, AssetBytes, Concat,
           TimestampsOf, ShutterAfter, WfDevice, EncSkeleton, EncLabeled;
      ghost var v := version;
      ghost var assets := EncAssetsOn(v, f) + rest;
      ghost var labeled := EncLabeledOn(v, f) + rest;
      ghost var tail := EncForcePlatesOn(v, f) + rest;
      SkeletonsLayout(v, f, rest);
      AssetsLayout(v, f, rest);
      LabeledLayout(v, f, rest);
      p := ptr;
      var n;
      if HasSkeletons(version) {
        n, p := OpenSection(buf, p, version, f.skeletons, s => EncSkeleton(v, s), assets);
        p := SkipSkeletons(buf, p, version, n, f.skeletons, assets);
      }
      if HasSizes(version) {
        p := SkipAssets(buf, p, version, f, labeled);
      }
      if HasLabeled(version) {
        n, p := OpenSection(buf, p, version, f.labeled, m => EncLabeled(v, m), tail);
        var more;
        more, p := ReadLabeled(buf, p, version, n, f.labeled, tail);
        markers := markers + more;
      }
      p := DecodeTail(buf, p, f, rest);
    }

    /**
     A frame packet of the client's version is decoded exactly: its rigid bodies, its unlabelled then its
     labelled markers, its three timestamps. The pointer ends just behind the frame.
     */
    method DecodeFrame(buf: Bytes, ptr: nat, ghost f: Frame, ghost rest: Bytes) returns (p: nat)
      requires Valid() && WfFrame(version, f) && Holds(buf, ptr, EncFrame(version, f) + rest)
      modifies this
      ensures Valid() && rigidBodies == AllDecoded(version, f.rigidBodies)
      ensures markers == MarkersOf(f)
      ensures timestamps == TimestampsOf(f) && shutterTicks == ShutterAfter(f, old(shutterTicks))
      ensures Holds(buf, p, rest) && p == ptr + |EncFrame(version, f)|
    {
      ghost var v := version;
      ghost var after := EncSkeletonsOn(v, f) + rest;
      ghost var bodies := Section(v, f.rigidBodies, b => EncBody(v, b)) + after;
      ghost var others := Section(v, f.otherMarkers, EncMarker) + bodies;
      FrameLayout(v, f, rest);
      hide Holds, Section, EncFrame, EncSkeletonsOn, Concat, TimestampsOf, ShutterAfter, MarkersOf, EncBody,
           EncMarker, EncMarkerSet, WfDevice, WfName, BodiesDecoded, Resized, Clean, AllDecoded;
      HoldsSplit(buf, ptr, f.frameNumber, Section(v, f.markerSets, EncMarkerSet) + others);
      p := ptr + 4;
      var n;
      n, p := OpenSection(buf, p, version, f.markerSets, EncMarkerSet, others);
      p := SkipMarkerSets(buf, p, n, f.markerSets, others);
      n, p := OpenSection(buf, p, version, f.otherMarkers, EncMarker, bodies);
      var unlabeled;
      unlabeled, p := ReadMarkers(buf, p, n, f.otherMarkers, bodies);
      markers := unlabeled;
      n, p := OpenSection(buf, p, version, f.rigidBodies, b => EncBody(v, b), after);
      rigidBodies := Resized(rigidBodies, n);
      rigidBodies, p := ReadBodies(buf, p, version, n, rigidBodies, f.rigidBodies, after);
      CleanDecoded(version, rigidBodies, f.rigidBodies, old(rigidBodies));
      p := DecodeAfterBodies(buf, p, f, rest);
    }

    /** waitForNextFrame, once the packet is there: other messages and short packets change nothing. */
    method HandlePacket(buf: Bytes, ghost f: Option<Frame>, ghost suffix: Bytes)
      requires Valid()
      requires f.Some? ==> WfFrame(version, f.value) && buf == Packet(NAT_FRAME, EncFrame(version, f.value) + suffix)
      requires f.None? && |buf| > 4 ==> FromLittle(buf[0..2]) != NAT_FRAME
      modifies this
      ensures Valid()
      ensures f.Some? ==>
                && rigidBodies == AllDecoded(version, f.value.rigidBodies)
                && markers == MarkersOf(f.value) && timestamps == TimestampsOf(f.value)
                && shutterTicks == ShutterAfter(f.value, old(shutterTicks))
      ensures f.None? ==>
                && rigidBodies == old(rigidBodies) && markers == old(markers)
                && timestamps == old(timestamps) && shutterTicks == old(shutterTicks)
    {
      hide EncFrame, Clean, AllDecoded, MarkersOf, TimestampsOf, ShutterAfter, WfFrame, LittleBytes, FromLittle;
      if f.Some? { FramePacket(version, f.value, suffix); }
      if |buf| > 4 {
        var messageId := FromLittle(buf[0..2]);
        if messageId == NAT_FRAME {
          var _ := DecodeFrame(buf, 4, f.value, suffix);
        }
      }
    }
  }

  // ---------------------------------------------------------------- how the layout nests

  /** An optional part, what follows it, and what follows that. */
  lemma Regroup(part: Bytes, there: bool, more: Bytes, rest: Bytes)
    ensures (if there then part else []) + more + rest == if there then part + (more + rest) else more + rest
  {
    assert there ==> part + more + rest == part + (more + rest);
  }

  lemma TimesLayout(v: Version, f: Frame, rest: Bytes)
    ensures EncTimes(v, f) + rest
         == LatencyBytes(v, f) + (f.timecode + (StampBytes(v, f) + (HighResBytes(v, f) + (f.params + rest))))
  {
    hide LatencyBytes, StampBytes, HighResBytes;
  }

  lemma DevicesLayout(v: Version, f: Frame, rest: Bytes)
    ensures EncDevicesOn(v, f) + rest
         == if HasDevices(v) then Section(v, f.devices, EncDevice) + (EncTimes(v, f) + rest) else EncTimes(v, f) + rest
  {
    hide Section, EncTimes, HasDevices;
    Regroup(Section(v, f.devices, EncDevice), HasDevices(v), EncTimes(v, f), rest);
  }

  lemma ForcePlatesLayout(v: Version, f: Frame, rest: Bytes)
    ensures EncForcePlatesOn(v, f) + rest
         == if HasForcePlates(v) then Section(v, f.forcePlates, EncDevice) + (EncDevicesOn(v, f) + rest)
            else EncDevicesOn(v, f) + rest
  {
    hide Section, EncDevicesOn, HasForcePlates;
    Regroup(Section(v, f.forcePlates, EncDevice), HasForcePlates(v), EncDevicesOn(v, f), rest);
  }

  lemma LabeledLayout(v: Version, f: Frame, rest: Bytes)
    ensures EncLabeledOn(v, f) + rest
         == if HasLabeled(v) then Section(v, f.labeled, m => EncLabeled(v, m)) + (EncForcePlatesOn(v, f) + rest)
            else EncForcePlatesOn(v, f) + rest
  {
    hide Section, EncForcePlatesOn, HasLabeled, EncLabeled;
    Regroup(Section(v, f.labeled, m => EncLabeled(v, m)), HasLabeled(v), EncForcePlatesOn(v, f), rest);
  }

  lemma AssetsLayout(v: Version, f: Frame, rest: Bytes)
    ensures EncAssetsOn(v, f) + rest ==
            if HasSizes(v)
            then AssetBytes(f) + (EncLabeledOn(v, f) + rest)
            else EncLabeledOn(v, f) + rest
  {
    hide AssetBytes, EncLabeledOn, HasSizes;
    Regroup(AssetBytes(f), HasSizes(v), EncLabeledOn(v, f), rest);
  }

  lemma SkeletonsLayout(v: Version, f: Frame, rest: Bytes)
    ensures EncSkeletonsOn(v, f) + rest
         == if HasSkeletons(v) then Section(v, f.skeletons, s => EncSkeleton(v, s)) + (EncAssetsOn(v, f) + rest)
            else EncAssetsOn(v, f) + rest
  {
    hide Section, EncAssetsOn, HasSkeletons, EncSkeleton;
    Regroup(Section(v, f.skeletons, s => EncSkeleton(v, s)), HasSkeletons(v), EncAssetsOn(v, f), rest);
  }

  lemma FramePacket(v: Version, f: Frame, suffix: Bytes)
    ensures var buf := Packet(NAT_FRAME, EncFrame(v, f) + suffix);
            |buf| > 4 && FromLittle(buf[0..2]) == NAT_FRAME && Holds(buf, 4, EncFrame(v, f) + suffix)
  {
    FrameLength(v, f);
    hide EncFrame;
    PacketHolds(NAT_FRAME, EncFrame(v, f) + suffix);
  }

  lemma FrameLength(v: Version, f: Frame)
    ensures |EncFrame(v, f)| >= 4
  {
    hide Section, EncBodiesOn;
  }

  /** A packet starts with its message id, and its payload is four bytes in. */
  lemma PacketHolds(id: nat, payload: Bytes)
    requires id < 0x1_0000
    ensures |Packet(id, payload)| == 4 + |payload|
    ensures FromLittle(Packet(id, payload)[0..2]) == id && Holds(Packet(id, payload), 4, payload)
  {
    var buf := Packet(id, payload);
    Pow256Values();
    LittleRoundTrip(2, id);
    assert buf[0..2] == LittleBytes(2, id);
    assert payload == buf[4..4 + |payload|];
  }

  lemma FrameLayout(v: Version, f: Frame, rest: Bytes)
    ensures EncFrame(v, f) + rest
         == f.frameNumber + (Section(v, f.markerSets, EncMarkerSet) + (Section(v, f.otherMarkers, EncMarker)
            + (Section(v, f.rigidBodies, b => EncBody(v, b)) + (EncSkeletonsOn(v, f) + rest))))
  {
    hide Section, EncSkeletonsOn;
  }
}
