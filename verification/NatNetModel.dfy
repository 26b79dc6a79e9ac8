/** NatNet data descriptions and their decoder (`parseModelDef` in `optitrack.cpp`). */
module NatNetModel {
  import opened Options
  import opened Cdr
  import opened NatNetFormat
  import opened NatNetDecoder

  datatype Bone = Bone(name: Bytes, id: Word, parent: Word, x: Word, y: Word, z: Word)

  datatype Dataset =
    | MarkerSetDef(name: Bytes, markerNames: seq<Bytes>)
    | BodyDef(name: Bytes, id: Word, parent: Word, x: Word, y: Word, z: Word, positions: seq<Marker>,
              labels: seq<Word>, markerNames: seq<Bytes>)
    | SkeletonDef(name: Bytes, id: Word, bones: seq<Bone>)
    | OtherDef(kind: nat, body: Bytes)

  /** `struct rigidBodyDefinition`. */
  datatype Definition = Definition(name: Bytes, id: Word, parent: Word, x: Word, y: Word, z: Word)

  const NAT_MODELDEF: nat := 5
  const MAX_NAMELENGTH: nat := 256

  // ---------------------------------------------------------------- layout

  function EncName(s: Bytes): Bytes { s + [0] }

  function EncBone(v: Version, b: Bone): Bytes {
    (if v.major >= 2 then EncName(b.name) else []) + (b.id + (b.parent + (b.x + (b.y + b.z))))
  }

  function EncMarkerNames(v: Version, d: Dataset): Bytes
    requires d.BodyDef?
  {
    if v.major >= 4 then Concat(d.markerNames, EncName) else []
  }

  function EncBodyMarkers(v: Version, d: Dataset): Bytes
    requires d.BodyDef?
  {
    if v.major >= 3 then
      Int(|d.positions|) + (Concat(d.positions, EncMarker) + (Concat(d.labels, EncWord) + EncMarkerNames(v, d)))
    else []
  }

  function EncBodyFields(d: Dataset): Bytes
    requires d.BodyDef?
  {
    d.id + (d.parent + (d.x + (d.y + d.z)))
  }

  function EncDescription(v: Version, d: Dataset): Bytes {
    match d
    case MarkerSetDef(name, names) => name + ([0] + (Int(|names|) + Concat(names, EncName)))
    case BodyDef(name, _, _, _, _, _, _, _, _) =>
      (if v.major >= 2 then EncName(name) else []) + (EncBodyFields(d) + EncBodyMarkers(v, d))
    case SkeletonDef(name, id, bones) => name + ([0] + (id + (Int(|bones|) + Concat(bones, b => EncBone(v, b)))))
    case OtherDef(_, body) => body
  }

  function Kind(d: Dataset): nat {
    match d
    case MarkerSetDef(_, _) => 0
    case BodyDef(_, _, _, _, _, _, _, _, _) => 1
    case SkeletonDef(_, _, _) => 2
    case OtherDef(kind, _) => kind
  }

  function SizeBytes(v: Version, d: Dataset): Bytes {
    if HasSizes(v) then Int(|EncDescription(v, d)|) else []
  }

  function EncDataset(v: Version, d: Dataset): Bytes {
    Int(Kind(d)) + (SizeBytes(v, d) + EncDescription(v, d))
  }

  function EncModel(v: Version, ds: seq<Dataset>): Bytes {
    Int(|ds|) + Concat(ds, d => EncDataset(v, d))
  }

  ghost predicate AllNames(s: seq<Bytes>) { forall n :: n in s ==> WfName(n) }

  ghost predicate AllBones(s: seq<Bone>) { forall b :: b in s ==> WfName(b.name) }

  /** Datasets of the kinds that the decoder knows; other kinds only where a size lets it skip them. */
  ghost predicate WfDataset(v: Version, d: Dataset) {
    && Countable(|EncDescription(v, d)|)
    && match d
       case MarkerSetDef(name, names) => WfName(name) && Countable(|names|) && AllNames(names)
       case BodyDef(name, _, _, _, _, _, positions, labels, names) =>
         && WfName(name) && |name| < MAX_NAMELENGTH && AllNames(names)
         && Countable(12 * |positions|) && |positions| == |labels| == |names|
       case SkeletonDef(name, _, bones) => WfName(name) && Countable(|bones|) && AllBones(bones)
       case OtherDef(kind, _) => HasSizes(v) && 2 <= kind < 0x8000_0000
  }

  ghost predicate WfModel(v: Version, ds: seq<Dataset>) {
    Countable(|ds|) && forall d :: d in ds ==> WfDataset(v, d)
  }

  // ---------------------------------------------------------------- what the definitions are

  /** Before version 2 there is no name on the wire and the name comes from an uninitialised buffer. */
  function DefinitionOf(v: Version, d: Dataset, uninit: Bytes): Definition
    requires d.BodyDef?
  {
    Definition(if v.major >= 2 then d.name else uninit, d.id, d.parent, d.x, d.y, d.z)
  }

  predicate Describes(d: Dataset, id: Word) { d.BodyDef? && d.id == id }

  /** Dataset `j` is the last of the first `k` that describes `id`. */
  ghost predicate LastFor(ds: seq<Dataset>, k: nat, id: Word, j: nat)
    requires k <= |ds|
  {
    j < k && Describes(ds[j], id) && forall i :: j < i < k ==> !Describes(ds[i], id)
  }

  /** Every id has the definition of the last dataset that describes it, else the one it had before. */
  ghost predicate LastWins(v: Version, ds: seq<Dataset>, k: nat, uninit: nat -> Bytes, before: map<Word, Definition>,
                           after: map<Word, Definition>)
    requires k <= |ds|
  {
    && (forall id, j: nat :: LastFor(ds, k, id, j) ==> id in after && after[id] == DefinitionOf(v, ds[j], uninit(j)))
    && (forall id: Word :: (forall i :: 0 <= i < k ==> !Describes(ds[i], id)) ==>
          (id in after <==> id in before) && (id in before ==> after[id] == before[id]))
  }

  lemma LastWinsBody(v: Version, ds: seq<Dataset>, k: nat, uninit: nat -> Bytes, before: map<Word, Definition>,
                     after: map<Word, Definition>)
    requires k < |ds| && ds[k].BodyDef? && LastWins(v, ds, k, uninit, before, after)
    ensures LastWins(v, ds, k + 1, uninit, before, after[ds[k].id := DefinitionOf(v, ds[k], uninit(k))])
  {
    var now := after[ds[k].id := DefinitionOf(v, ds[k], uninit(k))];
    forall id, j: nat | LastFor(ds, k + 1, id, j)
      ensures id in now && now[id] == DefinitionOf(v, ds[j], uninit(j))
    {
      if j < k {
        assert !Describes(ds[k], id);
        assert LastFor(ds, k, id, j);
      }
    }
    forall id: Word | forall i :: 0 <= i < k + 1 ==> !Describes(ds[i], id)
      ensures (id in now <==> id in before) && (id in before ==> now[id] == before[id])
    {
      assert !Describes(ds[k], id);
    }
  }

  lemma LastWinsOther(v: Version, ds: seq<Dataset>, k: nat, uninit: nat -> Bytes, before: map<Word, Definition>,
                      after: map<Word, Definition>)
    requires k < |ds| && !ds[k].BodyDef? && LastWins(v, ds, k, uninit, before, after)
    ensures LastWins(v, ds, k + 1, uninit, before, after)
  {
  }

  /** The rule leaves no freedom: the whole map is determined. */
  lemma LastWinsDetermines(v: Version, ds: seq<Dataset>, k: nat, uninit: nat -> Bytes, before: map<Word, Definition>,
                           a: map<Word, Definition>, b: map<Word, Definition>)
    requires k <= |ds| && LastWins(v, ds, k, uninit, before, a) && LastWins(v, ds, k, uninit, before, b)
    ensures a == b
  {
    forall id: Word
      ensures (id in a <==> id in b) && (id in a && id in b ==> a[id] == b[id])
    {
      if exists i :: 0 <= i < k && Describes(ds[i], id) {
        var j := FindLast(ds, k, id);
      }
    }
  }

  lemma FindLast(ds: seq<Dataset>, k: nat, id: Word) returns (j: nat)
    requires k <= |ds| && exists i :: 0 <= i < k && Describes(ds[i], id)
    ensures LastFor(ds, k, id, j)
  {
    j := k - 1;
    while !Describes(ds[j], id)
      invariant j < k && forall i :: j < i < k ==> !Describes(ds[i], id)
      decreases j
    {
      j := j - 1;
    }
  }

  // ---------------------------------------------------------------- the pointer

  /** Passes a run of names. */
  method SkipNames(buf: Bytes, ptr: nat, n: nat, ghost s: seq<Bytes>) returns (p: nat)
    requires n == |s| && Holds(buf, ptr, Concat(s, EncName)) && AllNames(s)
    ensures p == ptr + |Concat(s, EncName)|
  {
    ConcatEnds(s, EncName);
    hide Holds, Concat;
    p := ptr;
    var j := 0;
    ghost var end := ptr + |Concat(s, EncName)|;
    while j < n
      invariant j <= n && Holds(buf, p, Concat(s[j..], EncName) + []) && p + |Concat(s[j..], EncName)| == end
    {
      NextElement(buf, p, s, EncName, j, []);
      ConcatStep(s, EncName, j);
      p := SkipName(buf, p, s[j]);
      j := j + 1;
    }
  }

  method SkipName(buf: Bytes, ptr: nat, ghost name: Bytes) returns (p: nat)
    requires Holds(buf, ptr, EncName(name)) && WfName(name)
    ensures p == ptr + |EncName(name)|
  {
    assert EncName(name) == name + ([0] + []);
    var len := StrLen(buf, ptr, name, []);
    p := ptr + len + 1;
  }

  method SkipBone(buf: Bytes, ptr: nat, v: Version, ghost b: Bone) returns (p: nat)
    requires Holds(buf, ptr, EncBone(v, b)) && WfName(b.name)
    ensures p == ptr + |EncBone(v, b)|
  {
    hide WfName;
    p := ptr;
    if v.major >= 2 {
      HoldsSplit(buf, ptr, EncName(b.name), b.id + (b.parent + (b.x + (b.y + b.z))));
      p := SkipName(buf, p, b.name);
    }
    p := p + 4;
    p := p + 4;
    p := p + 4;
    p := p + 4;
    p := p + 4;
  }

  method SkipBoneDefs(buf: Bytes, ptr: nat, v: Version, n: nat, ghost s: seq<Bone>) returns (p: nat)
    requires n == |s| && Holds(buf, ptr, Concat(s, b => EncBone(v, b))) && AllBones(s)
    ensures p == ptr + |Concat(s, b => EncBone(v, b))|
  {
    ghost var enc := (b: Bone) => EncBone(v, b);
    ConcatEnds(s, enc);
    hide Holds, Concat, EncBone;
    p := ptr;
    var j := 0;
    ghost var end := ptr + |Concat(s, enc)|;
    while j < n
      invariant j <= n && Holds(buf, p, Concat(s[j..], enc) + []) && p + |Concat(s[j..], enc)| == end
    {
      NextElement(buf, p, s, enc, j, []);
      ConcatStep(s, enc, j);
      p := SkipBone(buf, p, v, s[j]);
      j := j + 1;
    }
  }

  method SkipMarkerSetDef(buf: Bytes, ptr: nat, ghost v: Version, ghost d: Dataset) returns (p: nat)
    requires d.MarkerSetDef? && WfDataset(v, d) && Holds(buf, ptr, EncDescription(v, d))
    ensures p == ptr + |EncDescription(v, d)|
  {
    ghost var names := Concat(d.markerNames, EncName);
    assert EncDescription(v, d) == d.name + ([0] + (Int(|d.markerNames|) + names));
    hide Holds, Concat, Int, EncDescription, AllNames, WfName;
    var len := StrLen(buf, ptr, d.name, Int(|d.markerNames|) + names);
    p := ptr + len + 1;
    var nMarkers;
    nMarkers, p := ReadInt(buf, p, |d.markerNames|, names);
    p := SkipNames(buf, p, nMarkers, d.markerNames);
  }

  lemma SkeletonLayout(v: Version, d: Dataset)
    requires d.SkeletonDef?
    ensures EncDescription(v, d) == d.name + ([0] + (d.id + (Int(|d.bones|) + Concat(d.bones, b => EncBone(v, b)))))
  {
    hide Concat, Int, EncBone;
  }

  method SkipSkeletonDef(buf: Bytes, ptr: nat, v: Version, ghost d: Dataset) returns (p: nat)
    requires d.SkeletonDef? && WfDataset(v, d) && Holds(buf, ptr, EncDescription(v, d))
    ensures p == ptr + |EncDescription(v, d)|
  {
    ghost var bones := Concat(d.bones, b => EncBone(v, b));
    ghost var n := Int(|d.bones|);
    SkeletonLayout(v, d);
    hide Holds, Concat, Int, AllBones, WfName, EncBone, EncDescription;
    var len := StrLen(buf, ptr, d.name, d.id + (n + bones));
    p := ptr + len + 1;
    HoldsSplit(buf, p, d.id, n + bones);
    p := p + 4;
    var nBones;
    nBones, p := ReadInt(buf, p, |d.bones|, bones);
    p := SkipBoneDefs(buf, p, v, nBones, d.bones);
  }

  /** strcpy into `szName`: the copy and its terminator fit the buffer. */
  method ReadName(buf: Bytes, ptr: nat, ghost name: Bytes, ghost rest: Bytes) returns (szName: Bytes, p: nat)
    requires WfName(name) && |name| < MAX_NAMELENGTH && Holds(buf, ptr, EncName(name) + rest)
    ensures szName == name && |szName| + 1 <= MAX_NAMELENGTH
    ensures p == ptr + |EncName(name)| && Holds(buf, p, rest)
  {
    assert EncName(name) + rest == name + ([0] + rest);
    var len := StrLen(buf, ptr, name, rest);
    szName := buf[ptr..ptr + len];
    p := ptr + len + 1;
  }

  method ReadBodyFields(buf: Bytes, ptr: nat, szName: Bytes, ghost d: Dataset, ghost rest: Bytes)
    returns (def: Definition, p: nat)
    requires d.BodyDef? && Holds(buf, ptr, EncBodyFields(d) + rest)
    ensures def == Definition(szName, d.id, d.parent, d.x, d.y, d.z) && p == ptr + 20 && Holds(buf, p, rest)
  {
    assert EncBodyFields(d) + rest == d.id + (d.parent + (d.x + (d.y + (d.z + rest))));
    hide Holds, EncBodyFields;
    var id, parent, x, y, z;
    id, p := ReadWord(buf, ptr, d.id, d.parent + (d.x + (d.y + (d.z + rest))));
    parent, p := ReadWord(buf, p, d.parent, d.x + (d.y + (d.z + rest)));
    x, p := ReadWord(buf, p, d.x, d.y + (d.z + rest));
    y, p := ReadWord(buf, p, d.y, d.z + rest);
    z, p := ReadWord(buf, p, d.z, rest);
    def := Definition(szName, id, parent, x, y, z);
  }

  method SkipBodyMarkers(buf: Bytes, ptr: nat, v: Version, ghost d: Dataset) returns (p: nat)
    requires d.BodyDef? && WfDataset(v, d) && Holds(buf, ptr, EncBodyMarkers(v, d))
    ensures p == ptr + |EncBodyMarkers(v, d)|
  {
    hide Holds, Concat, Int, EncDescription, WfName, AllNames;
    p := ptr;
    if v.major >= 3 {
      FixedSize(d.positions, EncMarker, 12);
      FixedSize(d.labels, EncWord, 4);
      ghost var names := EncMarkerNames(v, d);
      ghost var labels := Concat(d.labels, EncWord);
      ghost var positions := Concat(d.positions, EncMarker);
      var nMarkers;
      nMarkers, p := ReadInt(buf, ptr, |d.positions|, positions + (labels + names));
      HoldsSplit(buf, p, positions, labels + names);
      p := p + nMarkers * 3 * 4;
      HoldsSplit(buf, p, labels, names);
      p := p + nMarkers * 4;
      if v.major >= 4 {
        p := SkipNames(buf, p, nMarkers, d.markerNames);
      }
    }
  }

  method ReadBodyDef(buf: Bytes, ptr: nat, v: Version, uninit: Bytes, ghost d: Dataset)
    returns (def: Definition, p: nat)
    requires d.BodyDef? && WfDataset(v, d) && Holds(buf, ptr, EncDescription(v, d))
    ensures def == DefinitionOf(v, d, uninit) && p == ptr + |EncDescription(v, d)|
  {
    ghost var markers := EncBodyMarkers(v, d);
    ghost var fields := EncBodyFields(d);
    assert EncDescription(v, d) == (if v.major >= 2 then EncName(d.name) else []) + (fields + markers);
    assert |fields| == 20;
    hide Holds, EncDescription, EncBodyMarkers, EncBodyFields, WfName, AllNames, EncName;
    assert v.major < 2 ==> EncDescription(v, d) == fields + markers;
    var szName := uninit;
    p := ptr;
    if v.major >= 2 {
      szName, p := ReadName(buf, p, d.name, fields + markers);
    }
    def, p := ReadBodyFields(buf, p, szName, d, markers);
    p := SkipBodyMarkers(buf, p, v, d);
  }

  // ---------------------------------------------------------------- the model

  class RigidBodyDefinitions {
    const version: Version
    var definitions: map<Word, Definition>

    constructor (version: Version)
      ensures this.version == version && definitions == map[]
    {
      this.version, definitions := version, map[];
    }

    /** One description behind its type and size; only rigid bodies are recorded. */
    method ParseDescription(buf: Bytes, ptr: nat, kind: nat, size: nat, uninit: Bytes, ghost d: Dataset)
      returns (p: nat)
      requires WfDataset(version, d) && Holds(buf, ptr, EncDescription(version, d))
      requires kind == Kind(d) && (HasSizes(version) ==> size == |EncDescription(version, d)|)
      modifies this
      ensures p == ptr + |EncDescription(version, d)|
      ensures definitions ==
              if d.BodyDef?
              then old(definitions)[d.id := DefinitionOf(version, d, uninit)]
              else old(definitions)
    {
      hide Holds, EncDescription;
      p := ptr;
      if kind == 0 {
        p := SkipMarkerSetDef(buf, p, version, d);
      } else if kind == 1 {
        var def;
        def, p := ReadBodyDef(buf, p, version, uninit, d);
        definitions := definitions[def.id := def];
      } else if (version.major == 4 && version.minor >= 1) || version.major > 4 {
        p := p + size;
      } else if kind == 2 {
        p := SkipSkeletonDef(buf, p, version, d);
      }
    }

    method ParseDataset(buf: Bytes, ptr: nat, uninit: Bytes, ghost d: Dataset) returns (p: nat)
      requires WfDataset(version, d) && Holds(buf, ptr, EncDataset(version, d))
      modifies this
      ensures p == ptr + |EncDataset(version, d)|
      ensures definitions ==
              if d.BodyDef?
              then old(definitions)[d.id := DefinitionOf(version, d, uninit)]
              else old(definitions)
    {
      hide Holds, EncDescription, Int, DefinitionOf;
      ghost var body := EncDescription(version, d);
      var kind, size := 0, 0;
      kind, p := ReadInt(buf, ptr, Kind(d), SizeBytes(version, d) + body);
      HoldsSplit(buf, p, SizeBytes(version, d), body);
      if (version.major == 4 && version.minor >= 1) || version.major > 4 {
        size, p := ReadInt(buf, p, |body|, body);
      }
      p := ParseDescription(buf, p, kind, size, uninit, d);
    }

    /** All datasets of a description packet: afterwards every id has its last definition. */
    method ParseDatasets(buf: Bytes, ptr: nat, uninit: nat -> Bytes, ghost ds: seq<Dataset>) returns (p: nat)
      requires WfModel(version, ds) && Holds(buf, ptr, EncModel(version, ds))
      modifies this
      ensures LastWins(version, ds, |ds|, uninit, old(definitions), definitions)
      ensures p == ptr + |EncModel(version, ds)|
    {
      ghost var v := version;
      ghost var enc := (d: Dataset) => EncDataset(v, d);
      hide Holds, Concat, EncDataset, LastWins, DefinitionOf, WfDataset, Int;
      var nDatasets;
      nDatasets, p := ReadInt(buf, ptr, |ds|, Concat(ds, enc));
      ConcatEnds(ds, enc);
      ghost var end := p + |Concat(ds, enc)|;
      LastWinsStart(v, ds, uninit, definitions);
      var i := 0;
      while i < nDatasets
        invariant i <= nDatasets && Holds(buf, p, Concat(ds[i..], enc) + []) && p + |Concat(ds[i..], enc)| == end
        invariant LastWins(v, ds, i, uninit, old(definitions), definitions)
      {
        NextElement(buf, p, ds, enc, i, []);
        ConcatStep(ds, enc, i);
        if ds[i].BodyDef? {
          LastWinsBody(v, ds, i, uninit, old(definitions), definitions);
        } else {
          LastWinsOther(v, ds, i, uninit, old(definitions), definitions);
        }
        p := ParseDataset(buf, p, uninit(i), ds[i]);
        i := i + 1;
      }
    }

    /** parseModelDef: other messages change nothing. */
    method ParseModelDef(buf: Bytes, uninit: nat -> Bytes, ghost ds: Option<seq<Dataset>>, ghost suffix: Bytes)
      requires |buf| >= 4
      requires ds.Some? ==> WfModel(version, ds.value)
      requires ds.Some? ==> buf == Packet(NAT_MODELDEF, EncModel(version, ds.value) + suffix)
      requires ds.None? ==> FromLittle(buf[0..2]) != NAT_MODELDEF
      modifies this
      ensures ds.Some? ==> LastWins(version, ds.value, |ds.value|, uninit, old(definitions), definitions)
      ensures ds.None? ==> definitions == old(definitions)
    {
      hide EncModel, LastWins, WfModel, LittleBytes, FromLittle;
      if ds.Some? {
        PacketHolds(NAT_MODELDEF, EncModel(version, ds.value) + suffix);
        HoldsSplit(buf, 4, EncModel(version, ds.value), suffix);
      }
      var messageId := FromLittle(buf[0..2]);
      if messageId == NAT_MODELDEF {
        var _ := ParseDatasets(buf, 4, uninit, ds.value);
      }
    }
  }

  lemma LastWinsStart(v: Version, ds: seq<Dataset>, uninit: nat -> Bytes, before: map<Word, Definition>)
    ensures LastWins(v, ds, 0, uninit, before, before)
  {
  }
}
