/**
 The NatNet layout byte by byte: which version sends which field, and where in the packet each field lies. The decoders
 are proved against the functions of `NatNetFormat` and `NatNetModel`; here those functions are spelt out.
 */
module NatNetLayout {
  import opened Cdr
  import opened NatNetFormat
  import opened NatNetModel

  /** Version v is major.minor or later. */
  predicate AtLeast(v: Version, major: nat, minor: nat) {
    v.major > major || (v.major == major && v.minor >= minor)
  }

  /** From which version on each field is sent; version 0 is taken for the newest where a test asks for it. */
  lemma Gates(v: Version)
    ensures HasSizes(v) <==> AtLeast(v, 4, 1)
    ensures HasError(v) <==> AtLeast(v, 2, 0)
    ensures HasParams(v) <==> AtLeast(v, 2, 6) || v.major == 0
    ensures HasSkeletons(v) <==> AtLeast(v, 2, 1)
    ensures HasLabeled(v) <==> AtLeast(v, 2, 3)
    ensures HasResidual(v) <==> AtLeast(v, 3, 0) || v.major == 0
    ensures HasForcePlates(v) <==> AtLeast(v, 2, 9)
    ensures HasDevices(v) <==> AtLeast(v, 2, 11)
    ensures HasLatency(v) <==> !AtLeast(v, 3, 0)
    ensures HasLongTimestamp(v) <==> AtLeast(v, 2, 7)
    ensures HasHighResTimestamps(v) <==> AtLeast(v, 3, 0) || v.major == 0
  {
  }

  /** A later version sends every section that an earlier one from 1.0 on sends. */
  lemma SectionsOnlyGrow(v: Version, w: Version)
    requires v.major >= 1 && AtLeast(w, v.major, v.minor)
    ensures HasSkeletons(v) ==> HasSkeletons(w)
    ensures HasLabeled(v) ==> HasLabeled(w)
    ensures HasForcePlates(v) ==> HasForcePlates(w)
    ensures HasDevices(v) ==> HasDevices(w)
    ensures HasSizes(v) ==> HasSizes(w)
    ensures BodySize(v) <= BodySize(w) && LabeledSize(v) <= LabeledSize(w)
  {
  }

  // ---------------------------------------------------------------- integers, packets, sections

  lemma FourBytes(n: nat)
    ensures Int(n) == [n % 256, n / 0x100 % 256, n / 0x1_0000 % 256, n / 0x100_0000 % 256]
  {
    TwoLow(n);
    TwoLow(n / 0x1_0000);
    FourIsTwoAndTwo(n);
    assert n / 256 / 256 == n / 0x1_0000;
    assert n / 0x1_0000 / 0x100 == n / 0x100_0000;
  }

  lemma TwoLow(n: nat)
    ensures LittleBytes(2, n) == [n % 256, n / 0x100 % 256]
  {
    assert LittleBytes(2, n) == [n % 256] + LittleBytes(1, n / 256);
    assert LittleBytes(1, n / 256) == [n / 256 % 256] + LittleBytes(0, n / 256 / 256);
  }

  lemma FourIsTwoAndTwo(n: nat)
    ensures LittleBytes(4, n) == LittleBytes(2, n) + LittleBytes(2, n / 256 / 256)
  {
    assert LittleBytes(4, n) == [n % 256] + LittleBytes(3, n / 256);
    assert LittleBytes(3, n / 256) == [n / 256 % 256] + LittleBytes(2, n / 256 / 256);
    TwoLow(n);
  }

  /** Message id and payload length, low bytes first, and the payload; a frame is message 7. */
  lemma PacketBytes(payload: Bytes)
    ensures Packet(NAT_FRAME, payload) == [7, 0, |payload| % 256, |payload| / 256 % 256] + payload
    ensures Packet(NAT_MODELDEF, payload) == [5, 0, |payload| % 256, |payload| / 256 % 256] + payload
  {
    hide LittleBytes;
    TwoLow(7);
    TwoLow(5);
    var n := |payload| % 0x1_0000;
    TwoLow(n);
    LowBytes(|payload|);
  }

  lemma LowBytes(n: nat)
    ensures n % 0x1_0000 % 256 == n % 256 && n % 0x1_0000 / 256 % 256 == n / 256 % 256
  {
  }

  /** Elements lie one after the other, in order. */
  lemma {:induction false} ConcatAppends<T>(s: seq<T>, t: seq<T>, enc: T -> Bytes)
    ensures Concat(s + t, enc) == Concat(s, enc) + Concat(t, enc)
    decreases |s|
  {
    if s == [] {
      assert s + t == t;
    } else {
      assert (s + t)[1..] == s[1..] + t;
      ConcatAppends(s[1..], t, enc);
    }
  }

  lemma ConcatOne<T>(x: T, enc: T -> Bytes)
    ensures Concat([x], enc) == enc(x)
  {
    assert [x][1..] == [];
  }

  /** A section: how many elements, from 4.1 on how many bytes, the elements. */
  lemma SectionBytes<T>(v: Version, s: seq<T>, enc: T -> Bytes)
    ensures Section(v, s, enc)
         == Int(|s|) + (if AtLeast(v, 4, 1) then Int(|Concat(s, enc)|) else []) + Concat(s, enc)
  {
    hide Int, Concat;
  }

  // ---------------------------------------------------------------- bodies and markers

  /** A rigid body: id, position, quaternion with the real part last, then what the version adds. */
  lemma BodyBytes(v: Version, b: RigidBody)
    ensures EncBody(v, b) == b.id + (b.x + b.y + b.z) + (b.qx + b.qy + b.qz + b.qw)
                             + (if AtLeast(v, 2, 0) then b.error else [])
                             + (if AtLeast(v, 2, 6) || v.major == 0 then b.params else [])
  {
    Gates(v);
    hide HasError, HasParams;
  }

  /** A labelled marker: id, position, size, then what the version adds. */
  lemma LabeledBytes(v: Version, m: LabeledMarker)
    ensures EncLabeled(v, m) == m.id + m.position.x + m.position.y + m.position.z + m.size
                                + (if AtLeast(v, 2, 6) || v.major == 0 then m.params else [])
                                + (if AtLeast(v, 3, 0) || v.major == 0 then m.residual else [])
  {
    Gates(v);
    hide HasParams, HasResidual;
  }

  /** A marker set: name, terminator, count, positions. A skeleton: id, count, bones. A device: id, count, channels. */
  lemma PartBytes(v: Version, m: MarkerSet, s: Skeleton, d: Device, c: seq<Word>)
    ensures EncMarkerSet(m) == m.name + [0] + Int(|m.markers|) + Concat(m.markers, EncMarker)
    ensures EncSkeleton(v, s) == s.id + Int(|s.bones|) + Concat(s.bones, b => EncBody(v, b))
    ensures EncDevice(d) == d.id + Int(|d.channels|) + Concat(d.channels, EncChannel)
    ensures EncChannel(c) == Int(|c|) + Concat(c, EncWord)
  {
    hide Int, Concat, EncMarker, EncBody;
  }

  // ---------------------------------------------------------------- the frame

  /** The end of a frame: latency before 3.0, timecode, timestamp, the three high-resolution times, parameters. */
  lemma TimesBytes(v: Version, f: Frame)
    ensures EncTimes(v, f) == (if AtLeast(v, 3, 0) then [] else f.latency) + f.timecode
                              + (if AtLeast(v, 2, 7) then f.timestamp else f.shortTimestamp)
                              + (if AtLeast(v, 3, 0) || v.major == 0
                                 then f.midExposure + f.dataReceived + f.transmit else [])
                              + f.params
  {
    Gates(v);
    hide HasLatency, HasLongTimestamp, HasHighResTimestamps;
    Five(LatencyBytes(v, f), f.timecode, StampBytes(v, f), HighResBytes(v, f), f.params);
    assert f.midExposure + (f.dataReceived + f.transmit) == f.midExposure + f.dataReceived + f.transmit;
  }

  lemma Five(a: Bytes, b: Bytes, c: Bytes, d: Bytes, e: Bytes)
    ensures a + (b + (c + (d + e))) == a + b + c + d + e
  {
  }

  lemma Four(a: Bytes, b: Bytes, c: Bytes, d: Bytes)
    ensures a + (b + (c + d)) == a + b + c + d
  {
  }

  /** The sections behind the rigid bodies, each where the version sends it, in this order. */
  lemma TailBytes(v: Version, f: Frame)
    ensures EncSkeletonsOn(v, f)
         == (if AtLeast(v, 2, 1) then Section(v, f.skeletons, s => EncSkeleton(v, s)) else [])
            + (if AtLeast(v, 4, 1) then f.assetCount + Int(|f.assets|) + f.assets else [])
            + (if AtLeast(v, 2, 3) then Section(v, f.labeled, m => EncLabeled(v, m)) else [])
            + ((if AtLeast(v, 2, 9) then Section(v, f.forcePlates, EncDevice) else [])
               + (if AtLeast(v, 2, 11) then Section(v, f.devices, EncDevice) else [])
               + EncTimes(v, f))
  {
    Gates(v);
    hide HasSkeletons, HasSizes, HasLabeled, HasForcePlates, HasDevices, Section, EncTimes, Int, EncSkeleton,
         EncLabeled, EncDevice;
    var skeletons := if HasSkeletons(v) then Section(v, f.skeletons, s => EncSkeleton(v, s)) else [];
    var assets := if HasSizes(v) then AssetBytes(f) else [];
    var labeled := if HasLabeled(v) then Section(v, f.labeled, m => EncLabeled(v, m)) else [];
    var plates := if HasForcePlates(v) then Section(v, f.forcePlates, EncDevice) else [];
    var devices := if HasDevices(v) then Section(v, f.devices, EncDevice) else [];
    Four(skeletons, assets, labeled, plates + (devices + EncTimes(v, f)));
    assert plates + (devices + EncTimes(v, f)) == plates + devices + EncTimes(v, f);
    assert AssetBytes(f) == f.assetCount + Int(|f.assets|) + f.assets;
  }

  /** A frame: its number, the marker sets, the unlabelled markers, the rigid bodies, and the sections behind them. */
  lemma FrameBytes(v: Version, f: Frame)
    ensures EncFrame(v, f)
         == f.frameNumber + Section(v, f.markerSets, EncMarkerSet) + Section(v, f.otherMarkers, EncMarker)
            + Section(v, f.rigidBodies, b => EncBody(v, b)) + EncSkeletonsOn(v, f)
  {
    hide Section, EncSkeletonsOn, EncMarkerSet, EncMarker, EncBody;
    Five(f.frameNumber, Section(v, f.markerSets, EncMarkerSet), Section(v, f.otherMarkers, EncMarker),
         Section(v, f.rigidBodies, b => EncBody(v, b)), EncSkeletonsOn(v, f));
  }

  // ---------------------------------------------------------------- data descriptions

  /** A dataset: its kind, from 4.1 on its size, its description; marker sets are kind 0, bodies 1, skeletons 2. */
  lemma DatasetBytes(v: Version, d: Dataset)
    ensures EncDataset(v, d)
         == Int(match d case MarkerSetDef(_, _) => 0 case BodyDef(_, _, _, _, _, _, _, _, _) => 1
                case SkeletonDef(_, _, _) => 2 case OtherDef(kind, _) => kind)
            + (if AtLeast(v, 4, 1) then Int(|EncDescription(v, d)|) else []) + EncDescription(v, d)
  {
    hide Int, EncDescription;
  }

  /** A rigid body's description: from 2.0 its name, ids and offset, from 3.0 its markers, from 4.0 their names. */
  lemma DescriptionBytes(v: Version, d: Dataset)
    requires d.BodyDef?
    ensures EncDescription(v, d)
         == (if AtLeast(v, 2, 0) then d.name + [0] else [])
            + (d.id + d.parent + d.x + d.y + d.z)
            + if AtLeast(v, 3, 0)
              then Int(|d.positions|) + Concat(d.positions, EncMarker) + Concat(d.labels, EncWord)
                   + (if AtLeast(v, 4, 0) then Concat(d.markerNames, EncName) else [])
              else []
  {
    hide Int, Concat, EncMarker, EncWord;
    Five(d.id, d.parent, d.x, d.y, d.z);
    Four(Int(|d.positions|), Concat(d.positions, EncMarker), Concat(d.labels, EncWord), EncMarkerNames(v, d));
  }
}
