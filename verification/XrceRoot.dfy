/**
 The agent's table of clients with its sweep cursor (`Root.cpp`), and the liveliness checks that the
 heartbeat sweep makes on each client (`Processor.cpp`, `ProxyClient.cpp`).
 */
module XrceRoot {
  import opened Options

  /**
   A four-byte client key read as a number, first byte most significant: the order of the map is that of the
   numbers.
   */
  type Key = k: int | 0 <= k < 0x1_0000_0000

  const CLIENTKEY_INVALID: Key := 0

  datatype Status = Ok | ErrInvalidData | ErrIncompatible | ErrUnknownReference

  datatype ClientState = Alive | Dead | ToRemove

  /** What the sweep sees of a ProxyClient; times in milliseconds. */
  datatype Client = Client(session: nat, state: ClientState, stamp: int, tries: nat, hard: bool, deadTime: int)

  datatype Root = Root(clients: map<Key, Client>, cursor: Option<Key>)

  const CLIENT_DEAD_TIME: int := 30000

  /** The "uxr_hl" property: hard liveliness with its own dead time. */
  datatype Properties = Properties(hardTimeout: Option<int>)

  /** A CLIENT_Representation; `tries` is the value that the constructor leaves in the uninitialised try counter. */
  datatype Representation = Representation(
    key: Key, cookieValid: bool, versionValid: bool, session: nat, properties: Properties, tries: nat)

  datatype Event =
    | CreateClient(now: int, rep: Representation)
    | DeleteClient(key: Key)
    | Packet(now: int, key: Key)
    | Visit(now: int, endpointKnown: bool)
    | Reset

  datatype Action = NoClient | Nothing | Heartbeats | GetInfo | Removed

  // ---------------------------------------------------------------- the ordered map

  lemma LeastExists(s: set<Key>) returns (k: Key)
    requires s != {}
    ensures k in s && forall j :: j in s ==> k <= j
  {
    var x :| x in s;
    if s == {x} {
      k := x;
    } else {
      var y := LeastExists(s - {x});
      k := if x <= y then x else y;
      assert forall j :: j in s ==> j == x || j in s - {x};
    }
  }

  /** The least key of a set, or the end of the map. */
  function Least(s: set<Key>): (r: Option<Key>)
    ensures r.None? <==> s == {}
    ensures r.Some? ==> r.value in s && forall j :: j in s ==> r.value <= j
  {
    if s == {} then None
    else
      assert exists k :: k in s && forall j :: j in s ==> k <= j by { var k := LeastExists(s); }
      var k :| k in s && forall j :: j in s ==> k <= j;
      Some(k)
  }

  function Begin(m: map<Key, Client>): Option<Key> {
    Least(m.Keys)
  }

  /** The position after k. */
  function Successor(m: map<Key, Client>, k: Key): Option<Key> {
    Least(KeysAfter(m, k))
  }

  function KeysAfter(m: map<Key, Client>, k: Key): set<Key> {
    set j | j in m.Keys && k < j
  }

  /** No key lies between k and its successor. */
  lemma SuccessorIsNext(m: map<Key, Client>, k: Key)
    ensures forall j :: j in m && k < j ==> Successor(m, k).Some? && Successor(m, k).value <= j
  {
    forall j | j in m && k < j
      ensures Successor(m, k).Some? && Successor(m, k).value <= j
    {
      assert j in KeysAfter(m, k);
    }
  }

  // ---------------------------------------------------------------- operations

  function NewClient(rep: Representation, properties: Properties, now: int): Client {
    match properties.hardTimeout
    case None => Client(rep.session, Alive, now, rep.tries % 256, false, CLIENT_DEAD_TIME)
    case Some(ms) => Client(rep.session, Alive, now, rep.tries % 256, true, ms)
  }

  /** create_client. A client that returns under another session id is built anew, without its properties. */
  function Create(r: Root, now: int, rep: Representation): (Root, Status) {
    if rep.key == CLIENTKEY_INVALID || !rep.cookieValid then (r, ErrInvalidData)
    else if !rep.versionValid then (r, ErrIncompatible)
    else if rep.key !in r.clients then (r.(clients := r.clients[rep.key := NewClient(rep, rep.properties, now)]), Ok)
    else if rep.session != r.clients[rep.key].session then
      (r.(clients := r.clients[rep.key := NewClient(rep, Properties(None), now)]), Ok)
    else (r, Ok)
  }

  /** delete_client: a cursor on the key steps past it first. */
  function Delete(r: Root, key: Key): (Root, Status) {
    if key !in r.clients then (r, ErrUnknownReference)
    else
      var cursor := if r.cursor == Some(key) then Successor(r.clients, key) else r.cursor;
      (Root(r.clients - {key}, cursor), Ok)
  }

  /** get_next_client: the key under the cursor, or none and back to the first. */
  function GetNext(r: Root): (Root, Option<Key>) {
    match r.cursor
    case Some(k) => (r.(cursor := Successor(r.clients, k)), Some(k))
    case None => (r.(cursor := Begin(r.clients)), None)
  }

  /** get_state: an alive client is found dead once its dead time has passed. */
  function Observed(c: Client, now: int): Client {
    if c.state == Alive && now - c.stamp >= c.deadTime then c.(state := Dead) else c
  }

  /** update_state with its default argument: an accepted packet. */
  function Accepted(c: Client, now: int): Client {
    c.(state := Alive, stamp := now, tries := 0)
  }

  /** One turn of the loop of check_heartbeats, up to the removal. */
  function CheckClient(c: Client, now: int, endpointKnown: bool): (Client, Action) {
    var o := Observed(c, now);
    if endpointKnown && o.state == Alive then (o, Heartbeats)
    else if o.hard && o.state == Dead then
      var tries := (o.tries + 1) % 256;
      (o.(tries := tries, state := if tries == 3 then ToRemove else Dead), GetInfo)
    else if o.hard && o.state == ToRemove then (o, Removed)
    else (o, Nothing)
  }

  /** get_next_client and the check of the client it returns, as one atomic visit. */
  function VisitNext(r: Root, now: int, endpointKnown: bool): (Root, Option<Key>, Action)
    requires Wellformed(r)
  {
    var (r', next) := GetNext(r);
    match next
    case None => (r', None, NoClient)
    case Some(k) =>
      var (c, action) := CheckClient(r.clients[k], now, endpointKnown);
      var r'' := r'.(clients := r'.clients[k := c]);
      (if action == Removed then Delete(r'', k).0 else r'', Some(k), action)
  }

  /** The cursor is at the end or on a live client. */
  predicate Wellformed(r: Root) {
    r.cursor.Some? ==> r.cursor.value in r.clients
  }

  function Step(r: Root, e: Event): (r': Root)
    requires Wellformed(r)
    ensures Wellformed(r')
  {
    match e
    case CreateClient(now, rep) => Create(r, now, rep).0
    case DeleteClient(key) => Delete(r, key).0
    case Packet(now, key) =>
      if key in r.clients then r.(clients := r.clients[key := Accepted(r.clients[key], now)]) else r
    case Visit(now, endpointKnown) => VisitNext(r, now, endpointKnown).0
    case Reset => Root(map[], None)
  }

  /** Several events in a row. */
  ghost function Steps(r: Root, es: seq<Event>): (r': Root)
    requires Wellformed(r)
    ensures Wellformed(r')
    decreases |es|
  {
    if es == [] then r else Step(Steps(r, es[..|es| - 1]), es[|es| - 1])
  }

  lemma StepsOne(r: Root, es: seq<Event>, e: Event)
    requires Wellformed(r)
    ensures Steps(r, es + [e]) == Step(Steps(r, es), e)
  {
    assert (es + [e])[..|es + [e]| - 1] == es;
  }
}
