/** Objects of a client (`ProxyClient.cpp`): creation modes, the create_* family and deletion. */
module XrceObjects {

  /** A two-byte object id. */
  datatype ObjectId = ObjectId(b0: bv8, b1: bv8)

  type ObjectKind = bv8

  const OBJK_PARTICIPANT: ObjectKind := 0x01
  const OBJK_TOPIC: ObjectKind := 0x02
  const OBJK_PUBLISHER: ObjectKind := 0x03
  const OBJK_SUBSCRIBER: ObjectKind := 0x04
  const OBJK_DATAWRITER: ObjectKind := 0x05
  const OBJK_DATAREADER: ObjectKind := 0x06
  const OBJK_REQUESTER: ObjectKind := 0x07
  const OBJK_REPLIER: ObjectKind := 0x08

  /** The kinds for which create_object has a case that makes something. */
  predicate Supported(kind: ObjectKind) {
    0x01 <= kind <= 0x08
  }

  /** An ObjectVariant: its discriminator and the id of the parent that its representation names. */
  datatype Variant = Variant(kind: ObjectKind, parent: ObjectId, content: int)

  /** An XRCEObject; no two are ever made with the same serial. */
  datatype XrceObject = XrceObject(kind: ObjectKind, representation: Variant, serial: nat)

  datatype CreationMode = CreationMode(reuse: bool, replace: bool)

  datatype Status = Ok | OkMatched | ErrDds | ErrMismatch | ErrAlreadyExists | ErrUnknownReference | ErrResources

  type Objects = map<ObjectId, XrceObject>

  /**
   What the middleware answers to one request: whether X::create yields an object, and whether the present one
   matches.
   */
  datatype Middleware = Middleware(made: bool, matched: bool)

  function KeyOf(prefix: ObjectId, kind: ObjectKind): ObjectId {
    ObjectId(prefix.b0, (prefix.b1 & 0xF0) | kind)
  }

  /** The id that must be present for an object of this kind; a participant needs none. */
  function ParentKind(kind: ObjectKind): ObjectKind {
    if kind == OBJK_DATAWRITER then OBJK_PUBLISHER
    else if kind == OBJK_DATAREADER then OBJK_SUBSCRIBER
    else OBJK_PARTICIPANT
  }

  predicate ParentPresent(objects: Objects, v: Variant) {
    v.kind == OBJK_PARTICIPANT || KeyOf(v.parent, ParentKind(v.kind)) in objects
  }

  // ---------------------------------------------------------------- reference: Table 7 of DDS-XRCE

  datatype Verdict = MakeNew | Keep(status: Status)

  /** What the creation-mode table asks for. */
  function Table7(exists_: bool, mode: CreationMode, matched: bool): Verdict {
    match (exists_, mode.reuse, mode.replace)
    case (false, _, _) => MakeNew
    case (true, false, false) => Keep(ErrAlreadyExists)
    case (true, false, true) => MakeNew
    case (true, true, _) => if matched then Keep(OkMatched) else if mode.replace then MakeNew else Keep(ErrMismatch)
  }

  /** The outcome of making an object of a supported kind at a free or freed key. */
  function Made(objects: Objects, key: ObjectId, v: Variant, serial: nat, m: Middleware): (Objects, Status) {
    if !ParentPresent(objects - {key}, v) then (objects - {key}, ErrUnknownReference)
    else if !m.made then (objects - {key}, ErrDds)
    else (objects[key := XrceObject(v.kind, v, serial)], Ok)
  }

  /** The whole of create_object, read off the table. */
  function Outcome(objects: Objects, mode: CreationMode, prefix: ObjectId, v: Variant, serial: nat,
                   m: Middleware): (Objects, Status) {
    var key := KeyOf(prefix, v.kind);
    match Table7(key in objects, mode, m.matched)
    case Keep(status) => (objects, status)
    case MakeNew => if Supported(v.kind) then Made(objects, key, v, serial, m) else (objects - {key}, Ok)
  }

  // ---------------------------------------------------------------- the client object

  class ProxyClient {
    var objects: Objects

    constructor ()
      ensures objects == map[]
    {
      objects := map[];
    }

    /** objects_.emplace: does nothing if the key is taken. */
    method Emplace(key: ObjectId, o: XrceObject) returns (inserted: bool)
      modifies this
      ensures inserted == (key !in old(objects))
      ensures objects == if inserted then old(objects)[key := o] else old(objects)
    {
      inserted := key !in objects;
      if inserted { objects := objects[key := o]; }
    }

    method DeleteObjectUnlock(key: ObjectId) returns (found: bool)
      modifies this
      ensures found == (key in old(objects)) && objects == old(objects) - {key}
    {
      found := key in objects;
      if found { objects := objects - {key}; }
    }

    /** create_participant, create_topic, ...: one shape, with or without a parent to find. */
    method CreateKind(key: ObjectId, v: Variant, serial: nat, m: Middleware, status: Status)
      returns (rv: bool, status': Status)
      requires key !in objects
      modifies this
      ensures rv == (ParentPresent(old(objects), v) && m.made)
      ensures (objects, status') ==
              if !ParentPresent(old(objects), v) then (old(objects), ErrUnknownReference)
              else if !m.made then (old(objects), ErrDds)
              else (old(objects)[key := XrceObject(v.kind, v, serial)], status)
    {
      rv, status' := false, status;
      if v.kind == OBJK_PARTICIPANT || KeyOf(v.parent, ParentKind(v.kind)) in objects {
        if m.made {
          var inserted := Emplace(key, XrceObject(v.kind, v, serial));
          if inserted { rv := true; } else { status' := ErrResources; }
        } else {
          status' := ErrDds;
        }
      } else {
        status' := ErrUnknownReference;
      }
    }

    /** The inner create_object: kinds without a case leave table and status alone. */
    method CreateByKind(key: ObjectId, v: Variant, serial: nat, m: Middleware, status: Status)
      returns (rv: bool, status': Status)
      requires key !in objects
      modifies this
      ensures !Supported(v.kind) ==> objects == old(objects) && status' == status && !rv
      ensures Supported(v.kind) && status == Ok ==> (objects, status') == Made(old(objects), key, v, serial, m)
    {
      rv, status' := false, status;
      if Supported(v.kind) {
        rv, status' := CreateKind(key, v, serial, m, status);
        assert old(objects) - {key} == old(objects);
      }
    }

    /** create_object follows the creation-mode table, for every kind, mode and middleware outcome. */
    method CreateObject(mode: CreationMode, prefix: ObjectId, v: Variant, serial: nat, m: Middleware)
      returns (status: Status)
      modifies this
      ensures objects == Outcome(old(objects), mode, prefix, v, serial, m).0
      ensures status == Outcome(old(objects), mode, prefix, v, serial, m).1
    {
      status := Ok;
      var key := ObjectId(prefix.b0, (prefix.b1 & 0xF0) | v.kind);
      assert key == KeyOf(prefix, v.kind);
      hide Made, KeyOf, Supported;
      assert key !in objects ==> objects - {key} == objects;
      var made := false;
      if key !in objects {
        made, status := CreateByKind(key, v, serial, m, status);
      } else {
        if !mode.reuse {
          if !mode.replace {
            status := ErrAlreadyExists;
          } else {
            made, status := Recreate(key, v, serial, m, status);
          }
        } else {
          if !mode.replace {
            status := if m.matched then OkMatched else ErrMismatch;
          } else {
            if m.matched {
              status := OkMatched;
            } else {
              made, status := Recreate(key, v, serial, m, status);
            }
          }
        }
      }
    }

    /** Delete, then create at the same key. */
    method Recreate(key: ObjectId, v: Variant, serial: nat, m: Middleware, status: Status)
      returns (rv: bool, status': Status)
      requires status == Ok && key in objects
      modifies this
      ensures (objects, status') ==
              if Supported(v.kind)
              then Made(old(objects), key, v, serial, m)
              else (old(objects) - {key}, Ok)
    {
      var _ := DeleteObjectUnlock(key);
      rv, status' := CreateByKind(key, v, serial, m, status);
      MadeAfterDelete(old(objects), key, v, serial, m);
    }
  }

  lemma MadeAfterDelete(objects: Objects, key: ObjectId, v: Variant, serial: nat, m: Middleware)
    ensures Made(objects - {key}, key, v, serial, m) == Made(objects, key, v, serial, m)
  {
    assert objects - {key} - {key} == objects - {key};
    assert (objects - {key})[key := XrceObject(v.kind, v, serial)] == objects[key := XrceObject(v.kind, v, serial)];
  }

  // ---------------------------------------------------------------- what the outcome promises

  /** Only the computed key can change, a match changes nothing, and resources never run out. */
  lemma OnlyTheKeyChanges(objects: Objects, mode: CreationMode, prefix: ObjectId, v: Variant, serial: nat,
                          m: Middleware)
    ensures var key := KeyOf(prefix, v.kind);
            var (objects', status) := Outcome(objects, mode, prefix, v, serial, m);
            && objects' - {key} == objects - {key}
            && (status in {OkMatched, ErrMismatch, ErrAlreadyExists} ==> objects' == objects)
            && status != ErrResources
  {
  }

  ghost predicate FreshSerial(objects: Objects, serial: nat) {
    forall k :: k in objects ==> objects[k].serial != serial
  }

  /**
   For the supported kinds STATUS_OK holds exactly when the object just made sits at the computed key. For any other
   kind it comes without an object, and whatever sat at the key is gone.
   */
  lemma OkMeansMade(objects: Objects, mode: CreationMode, prefix: ObjectId, v: Variant, serial: nat, m: Middleware)
    requires FreshSerial(objects, serial)
    ensures var key := KeyOf(prefix, v.kind);
            var (objects', status) := Outcome(objects, mode, prefix, v, serial, m);
            var madeHere := key in objects' && objects'[key].serial == serial && objects'[key].representation == v;
            && (Supported(v.kind) ==> (status == Ok <==> madeHere))
            && (!Supported(v.kind) && Table7(key in objects, mode, m.matched) == MakeNew ==>
                  status == Ok && !madeHere && objects' == objects - {key})
            && (!Supported(v.kind) && status == Ok ==> objects' == objects - {key})
  {
  }

  /**
   The parent that an object needs is there: a publisher for a data writer, a subscriber for a data reader, a
   participant for anything else but a participant.
   */
  ghost predicate HasParent(objects: Objects, v: Variant) {
    match v.kind
    case 0x01 => true
    case 0x05 => KeyOf(v.parent, 0x03) in objects
    case 0x06 => KeyOf(v.parent, 0x04) in objects
    case _ => KeyOf(v.parent, 0x01) in objects
  }

  /** A new object is due: none is there, or the present one may be replaced and is not kept as a match. */
  ghost predicate Due(exists_: bool, mode: CreationMode, matched: bool) {
    !exists_ || (mode.replace && !(mode.reuse && matched))
  }

  /** Each answer of create_object, with exactly the cases in which it is given. */
  lemma AnswerIff(objects: Objects, mode: CreationMode, prefix: ObjectId, v: Variant, serial: nat, m: Middleware)
    ensures var key := KeyOf(prefix, v.kind);
            var there := key in objects;
            var due := Due(there, mode, m.matched);
            var known := 0x01 <= v.kind <= 0x08;
            var parent := HasParent(objects - {key}, v);
            var (objects', status) := Outcome(objects, mode, prefix, v, serial, m);
            && (status == OkMatched <==> there && mode.reuse && m.matched)
            && (status == ErrMismatch <==> there && mode.reuse && !mode.replace && !m.matched)
            && (status == ErrAlreadyExists <==> there && !mode.reuse && !mode.replace)
            && (status == ErrUnknownReference <==> due && known && !parent)
            && (status == ErrDds <==> due && known && parent && !m.made)
            && (status == Ok <==> due && (known ==> parent && m.made))
            && objects' == (if !due then objects
                            else if known && parent && m.made then objects[key := XrceObject(v.kind, v, serial)]
                            else objects - {key})
  {
  }

  // ---------------------------------------------------------------- reachable states

  datatype Event =
    | CreateEvent(mode: CreationMode, prefix: ObjectId, v: Variant, serial: nat, m: Middleware)
    | DeleteEvent(id: ObjectId)

  function Step(objects: Objects, e: Event): Objects {
    match e
    case CreateEvent(mode, prefix, v, serial, m) => Outcome(objects, mode, prefix, v, serial, m).0
    case DeleteEvent(id) => objects - {id}
  }

  ghost function At(run: seq<Event>, k: nat): Objects
    requires k <= |run|
  {
    if k == 0 then map[] else Step(At(run, k - 1), run[k - 1])
  }

  /** A key has the bits of the kind, and for the rest those of the prefix above the low nibble. */
  lemma KeyNibble(prefix: ObjectId, kind: ObjectKind)
    ensures KeyOf(prefix, kind).b0 == prefix.b0
    ensures KeyOf(prefix, kind).b1 & kind == kind
    ensures KeyOf(prefix, kind).b1 & (0xFF ^ kind) == prefix.b1 & 0xF0 & (0xFF ^ kind)
    ensures Supported(kind) ==>
              KeyOf(prefix, kind).b1 & 0x0F == kind && KeyOf(prefix, kind).b1 & 0xF0 == prefix.b1 & 0xF0
  {
  }

  /** A CREATE under prefix 0x0010 that the middleware can carry out. */
  function CreateAt10(kind: ObjectKind, replace: bool, serial: nat): Event {
    var prefix := ObjectId(0, 0x10);
    CreateEvent(CreationMode(false, replace), prefix, Variant(kind, prefix, 0), serial, Middleware(true, false))
  }

  /** A CREATE of the unknown kind 0x11 that may replace: it erases the participant and answers STATUS_OK. */
  lemma UnsupportedKindErases()
    ensures var unknown := CreateAt10(0x11, true, 1);
            var run := [CreateAt10(OBJK_PARTICIPANT, false, 0), unknown];
            && ObjectId(0, 0x11) in At(run, 1) && At(run, 2) == map[]
            && Outcome(At(run, 1), unknown.mode, unknown.prefix, unknown.v, unknown.serial, unknown.m).1 == Ok
  {
    var participant, unknown := CreateAt10(OBJK_PARTICIPANT, false, 0), CreateAt10(0x11, true, 1);
    var run, key := [participant, unknown], ObjectId(0, 0x11);
    assert KeyOf(ObjectId(0, 0x10), OBJK_PARTICIPANT) == key == KeyOf(ObjectId(0, 0x10), 0x11);
    assert At(run, 0) == map[];
    assert At(run, 1) == map[key := XrceObject(OBJK_PARTICIPANT, participant.v, 0)];
  }

  /** In every reachable table the low nibble of a key is the kind of its object, one of the eight supported. */
  lemma {:induction false} KeysNameTheirKind(run: seq<Event>, k: nat, id: ObjectId)
    requires k <= |run| && id in At(run, k)
    ensures At(run, k)[id].kind == id.b1 & 0x0F && Supported(At(run, k)[id].kind)
  {
    var before, e := At(run, k - 1), run[k - 1];
    if id in before {
      KeysNameTheirKind(run, k - 1, id);
    }
    if e.CreateEvent? && Supported(e.v.kind) {
      KeyNibble(e.prefix, e.v.kind);
    }
  }

  /** Event j makes the object at `id`: a creation that was due, of a supported kind, with its parent there. */
  ghost predicate Makes(run: seq<Event>, j: nat, id: ObjectId) {
    && j < |run| && run[j].CreateEvent? && KeyOf(run[j].prefix, run[j].v.kind) == id
    && Due(id in At(run, j), run[j].mode, run[j].m.matched)
    && 0x01 <= run[j].v.kind <= 0x08 && HasParent(At(run, j) - {id}, run[j].v) && run[j].m.made
  }

  /** Event x takes the object at `id` away: a deletion, or a creation that was due and failed. */
  ghost predicate TakesAway(run: seq<Event>, x: nat, id: ObjectId) {
    && x < |run| && !Makes(run, x, id)
    && ((run[x].DeleteEvent? && run[x].id == id)
        || (run[x].CreateEvent? && KeyOf(run[x].prefix, run[x].v.kind) == id
            && Due(id in At(run, x), run[x].mode, run[x].m.matched)))
  }

  /** Event j made the object at `id`, and no event since made another or took it away. */
  ghost predicate MadeBy(run: seq<Event>, k: nat, id: ObjectId, j: nat) {
    && j < k <= |run| && run[j].CreateEvent? && Makes(run, j, id)
    && forall x :: j < x < k ==> !Makes(run, x, id) && !TakesAway(run, x, id)
  }

  lemma ObjectStep(run: seq<Event>, k: nat, id: ObjectId)
    requires k < |run|
    ensures id in At(run, k + 1) <==> Makes(run, k, id) || (id in At(run, k) && !TakesAway(run, k, id))
    ensures Makes(run, k, id) ==> At(run, k + 1)[id] == XrceObject(run[k].v.kind, run[k].v, run[k].serial)
    ensures !Makes(run, k, id) && id in At(run, k + 1) ==> At(run, k + 1)[id] == At(run, k)[id]
  {
    var before, e := At(run, k), run[k];
    if e.CreateEvent? {
      AnswerIff(before, e.mode, e.prefix, e.v, e.serial, e.m);
    }
  }

  /** An object is there exactly if some event made it and none has made another or taken it away since. */
  lemma {:induction false} PresentIff(run: seq<Event>, k: nat, id: ObjectId)
    requires k <= |run|
    ensures id in At(run, k) <==> exists j: nat :: MadeBy(run, k, id, j)
    ensures forall j: nat :: MadeBy(run, k, id, j) ==>
              id in At(run, k) && At(run, k)[id] == XrceObject(run[j].v.kind, run[j].v, run[j].serial)
  {
    hide Outcome, Due, HasParent, KeyOf, Makes, TakesAway;
    if k > 0 {
      PresentIff(run, k - 1, id);
      ObjectStep(run, k - 1, id);
      if Makes(run, k - 1, id) {
        MakesCreates(run, k - 1, id);
        assert MadeBy(run, k, id, k - 1);
      } else if id in At(run, k) {
        var j: nat :| MadeBy(run, k - 1, id, j);
        assert MadeBy(run, k, id, j);
      }
      forall j: nat | MadeBy(run, k, id, j)
        ensures id in At(run, k) && At(run, k)[id] == XrceObject(run[j].v.kind, run[j].v, run[j].serial)
      {
        assert j < k - 1 ==> MadeBy(run, k - 1, id, j);
      }
    }
  }

  lemma MakesCreates(run: seq<Event>, j: nat, id: ObjectId)
    requires Makes(run, j, id)
    ensures j < |run| && run[j].CreateEvent?
  {
  }
}
