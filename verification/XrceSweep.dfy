/** The client sweep over whole runs, with clients coming and going between any two visits. */
module XrceSweep {
  import opened Options
  import opened XrceRoot

  /** The table before event k; it starts empty. */
  ghost function At(run: seq<Event>, k: nat): (r: Root)
    requires k <= |run|
    ensures Wellformed(r)
  {
    if k == 0 then Root(map[], None) else Step(At(run, k - 1), run[k - 1])
  }

  /** What an object does in a row of events is the continuation of its run. */
  lemma {:induction false} RunContinues(run: seq<Event>, es: seq<Event>)
    ensures At(run + es, |run + es|) == Steps(At(run, |run|), es)
    decreases |es|
  {
    hide Step;
    if es == [] {
      assert run + es == run;
    } else {
      var init := es[..|es| - 1];
      RunContinues(run, init);
      SamePrefix(run + init, run + es, |run + init|);
    }
  }

  lemma {:induction false} SamePrefix(run: seq<Event>, longer: seq<Event>, k: nat)
    requires k <= |run| && run <= longer
    ensures At(longer, k) == At(run, k)
  {
    if k > 0 { SamePrefix(run, longer, k - 1); }
  }

  /** The key that visit k returned; None for a false return and for any other event. */
  ghost function Visited(run: seq<Event>, k: nat): Option<Key>
    requires k < |run|
  {
    if run[k].Visit? then VisitNext(At(run, k), run[k].now, run[k].endpointKnown).1 else None
  }

  ghost function ActionAt(run: seq<Event>, k: nat): Action
    requires k < |run|
  {
    if run[k].Visit? then VisitNext(At(run, k), run[k].now, run[k].endpointKnown).2 else Nothing
  }

  ghost predicate Visits(run: seq<Event>, k: nat, key: Key) {
    k < |run| && Visited(run, k) == Some(key)
  }

  /** A visit that found the end of the table. */
  ghost predicate ReturnsFalse(run: seq<Event>, k: nat) {
    k < |run| && run[k].Visit? && Visited(run, k) == None
  }

  /** Events i + 1 .. k - 1 belong to one sweep, begun by the false return at i. */
  ghost predicate InSweep(run: seq<Event>, i: nat, k: nat) {
    && i < k <= |run| && ReturnsFalse(run, i)
    && forall m :: i < m < k ==> !ReturnsFalse(run, m)
  }

  /** The cursor only moves forwards within a sweep: it is past every key visited so far. */
  lemma {:induction false} CursorAhead(run: seq<Event>, i: nat, k: nat, a: nat, key: Key)
    requires InSweep(run, i, k) && i < a < k && Visits(run, a, key)
    ensures At(run, k).cursor.Some? ==> key < At(run, k).cursor.value
  {
    if a < k - 1 {
      CursorAhead(run, i, k - 1, a, key);
      assert !ReturnsFalse(run, k - 1);
      CursorForward(At(run, k - 1), run[k - 1]);
    } else {
      CursorForward(At(run, k - 1), run[k - 1]);
    }
  }

  lemma CursorForward(r: Root, e: Event)
    requires Wellformed(r)
    ensures var r' := Step(r, e);
            && (r.cursor.Some? && r'.cursor.Some? ==> r.cursor.value <= r'.cursor.value)
            && (r.cursor.Some? && e.Visit? && r'.cursor.Some? ==> r.cursor.value < r'.cursor.value)
            && (r.cursor.None? && !e.Visit? ==> r'.cursor.None?)
  {
  }

  /** Keys returned within a sweep are strictly increasing; in particular none is returned twice. */
  lemma SweepIncreasing(run: seq<Event>, i: nat, k: nat, a: nat, b: nat, keyA: Key, keyB: Key)
    requires InSweep(run, i, k) && i < a < b < k
    requires Visits(run, a, keyA) && Visits(run, b, keyB)
    ensures keyA < keyB
  {
    CursorAhead(run, i, b, a, keyA);
  }

  ghost predicate Present(run: seq<Event>, m: nat, key: Key) {
    m <= |run| && key in At(run, m).clients
  }

  /** A client present since the start of the sweep has been visited or is still ahead of the cursor. */
  lemma {:induction false} VisitedOrAhead(run: seq<Event>, i: nat, k: nat, key: Key)
    requires InSweep(run, i, k)
    requires forall m :: i < m <= k ==> Present(run, m, key)
    ensures (exists a :: i < a < k && Visits(run, a, key))
         || (At(run, k).cursor.Some? && At(run, k).cursor.value <= key)
  {
    var r, e := At(run, k - 1), run[k - 1];
    assert Present(run, k, key);
    if k - 1 == i {
      assert key in r.clients;
    } else {
      VisitedOrAhead(run, i, k - 1, key);
      assert !ReturnsFalse(run, k - 1) && Present(run, k - 1, key);
      if exists a :: i < a < k - 1 && Visits(run, a, key) {
      } else if Visits(run, k - 1, key) {
      } else {
        NotSkipped(r, e, key);
      }
    }
  }

  /** No event moves the cursor past a client that stays, unless it visits that client. */
  lemma NotSkipped(r: Root, e: Event, key: Key)
    requires Wellformed(r) && r.cursor.Some? && r.cursor.value <= key
    requires key in r.clients && key in Step(r, e).clients
    requires e.Visit? ==> r.cursor != Some(key)
    ensures Step(r, e).cursor.Some? && Step(r, e).cursor.value <= key
  {
    if r.cursor.value < key {
      SuccessorIsNext(r.clients, r.cursor.value);
    }
  }

  /** Between two false returns, every client present throughout is returned exactly once. */
  lemma SweepComplete(run: seq<Event>, i: nat, k: nat, key: Key) returns (a: nat)
    requires InSweep(run, i, k) && ReturnsFalse(run, k)
    requires forall m :: i < m <= k ==> Present(run, m, key)
    ensures i < a < k && Visits(run, a, key)
    ensures forall b :: i < b < k && Visits(run, b, key) ==> b == a
  {
    VisitedOrAhead(run, i, k, key);
    a :| i < a < k && Visits(run, a, key);
    forall b | i < b < k && Visits(run, b, key)
      ensures b == a
    {
      if a < b { SweepIncreasing(run, i, k, a, b, key, key); }
      if b < a { SweepIncreasing(run, i, k, b, a, key, key); }
    }
  }

  // ---------------------------------------------------------------- the sweep ends

  /** Keys still ahead of the cursor. */
  ghost function Ahead(r: Root): set<Key> {
    if r.cursor.None? then {} else set j | j in r.clients.Keys && r.cursor.value <= j
  }

  ghost function VisitCount(run: seq<Event>, i: nat, k: nat): nat
    requires i <= k <= |run|
  {
    if i == k then 0 else VisitCount(run, i, k - 1) + if run[k - 1].Visit? then 1 else 0
  }

  lemma SubsetSize(a: set<Key>, b: set<Key>)
    requires a <= b
    ensures |a| <= |b|
    ensures a != b ==> |a| < |b|
  {
    assert b == a + (b - a);
    assert |b| == |a| + |b - a|;
  }

  lemma AheadShrinks(r: Root, e: Event)
    requires Wellformed(r) && !e.CreateClient?
    requires e.Visit? ==> r.cursor.Some?
    ensures Ahead(Step(r, e)) <= Ahead(r)
    ensures e.Visit? ==> Ahead(Step(r, e)) != Ahead(r)
  {
    if e.Visit? {
      assert r.cursor.value in Ahead(r) && r.cursor.value !in Ahead(Step(r, e));
    }
  }

  /** Without new clients a sweep makes at most as many visits as there are keys ahead of the cursor. */
  lemma {:induction false} SweepEnds(run: seq<Event>, i: nat, k: nat)
    requires i <= k <= |run|
    requires forall m :: i <= m < k ==> !run[m].CreateClient? && !ReturnsFalse(run, m)
    ensures VisitCount(run, i, k) + |Ahead(At(run, k))| <= |Ahead(At(run, i))|
  {
    if i < k {
      SweepEnds(run, i, k - 1);
      var r, e := At(run, k - 1), run[k - 1];
      assert !ReturnsFalse(run, k - 1);
      AheadShrinks(r, e);
      SubsetSize(Ahead(Step(r, e)), Ahead(r));
    }
  }

  // ---------------------------------------------------------------- liveliness

  /** Event m makes the client at `key` count from new: a packet, a creation, or its absence afterwards. */
  ghost predicate Renews(run: seq<Event>, m: nat, key: Key)
    requires m < |run|
  {
    || (run[m].Packet? && run[m].key == key)
    || (run[m].CreateClient? && run[m].rep.key == key && At(run, m + 1) != At(run, m))
    || key !in At(run, m + 1).clients
  }

  /** A visit that found the client dead and sent it a GET_INFO. */
  ghost predicate Strike(run: seq<Event>, m: nat, key: Key) {
    Visits(run, m, key) && ActionAt(run, m) == GetInfo
  }

  /** The strikes against a client since it was last renewed, oldest first. */
  ghost function Strikes(run: seq<Event>, k: nat, key: Key): seq<nat>
    requires k <= |run|
  {
    if k == 0 || Renews(run, k - 1, key) then []
    else if Strike(run, k - 1, key) then Strikes(run, k - 1, key) + [k - 1]
    else Strikes(run, k - 1, key)
  }

  /** The try counter that the last renewal left: 0 after a packet, whatever memory held after a creation. */
  ghost function Base(run: seq<Event>, k: nat, key: Key): nat
    requires k <= |run|
  {
    if k == 0 then 0
    else if Renews(run, k - 1, key) then (if run[k - 1].CreateClient? then run[k - 1].rep.tries % 256 else 0)
    else Base(run, k - 1, key)
  }

  /** Strikes that bring an 8-bit counter from `base` to exactly 3. */
  ghost function Needed(base: nat): int {
    if base < 3 then 3 - base else 259 - base
  }

  ghost predicate Consistent(c: Client, base: nat, strikes: nat) {
    && base < 256
    && c.tries == (base + strikes) % 256
    && match c.state
       case Alive => strikes == 0
       case Dead => strikes < Needed(base)
       case ToRemove => c.hard && strikes == Needed(base)
  }

  /** One check of a client keeps counter, strikes and state in step. */
  lemma CheckKeepsCount(c: Client, base: nat, strikes: nat, now: int, endpointKnown: bool)
    requires Consistent(c, base, strikes)
    ensures var (c', action) := CheckClient(c, now, endpointKnown);
            Consistent(c', base, if action == GetInfo then strikes + 1 else strikes)
  {
  }

  /** The try counter of every client is its base plus its strikes, and its state follows from them. */
  lemma {:induction false} CounterCountsStrikes(run: seq<Event>, k: nat, key: Key)
    requires k <= |run| && Present(run, k, key)
    ensures Consistent(At(run, k).clients[key], Base(run, k, key), |Strikes(run, k, key)|)
  {
    var r, e := At(run, k - 1), run[k - 1];
    hide CheckClient, Consistent;
    if Renews(run, k - 1, key) {
      RenewedClient(r, e, key);
    } else {
      KeptClient(r, e, key);
      CounterCountsStrikes(run, k - 1, key);
      if e.Visit? {
        CheckKeepsCount(r.clients[key], Base(run, k, key), |Strikes(run, k - 1, key)|, e.now, e.endpointKnown);
      }
    }
  }

  lemma RenewedClient(r: Root, e: Event, key: Key)
    requires Wellformed(r) && key in Step(r, e).clients
    requires (e.Packet? && e.key == key) || (e.CreateClient? && e.rep.key == key && Step(r, e) != r)
    ensures Consistent(Step(r, e).clients[key], if e.CreateClient? then e.rep.tries % 256 else 0, 0)
  {
  }

  lemma KeptClient(r: Root, e: Event, key: Key)
    requires Wellformed(r) && key in Step(r, e).clients
    requires !(e.Packet? && e.key == key) && !(e.CreateClient? && e.rep.key == key && Step(r, e) != r)
    ensures key in r.clients
    ensures Step(r, e).clients[key] ==
            if e.Visit? && r.cursor == Some(key)
            then CheckClient(r.clients[key], e.now, e.endpointKnown).0
            else r.clients[key]
  {
  }

  /**
   What Strikes lists: visits of this client only, in order, and nothing else happened to the client since the
   first.
   */
  ghost predicate StrikeList(run: seq<Event>, k: nat, key: Key, s: seq<nat>) {
    && k <= |run|
    && (forall i :: 0 <= i < |s| ==> s[i] < k && Strike(run, s[i], key))
    && (forall i, j :: 0 <= i < j < |s| ==> s[i] < s[j])
    && (s != [] ==> forall m :: s[0] <= m < k ==> !Renews(run, m, key) && (Visits(run, m, key) ==> m in s))
  }

  lemma {:induction false} StrikesAreVisits(run: seq<Event>, k: nat, key: Key)
    requires k <= |run|
    ensures StrikeList(run, k, key, Strikes(run, k, key))
  {
    hide At, Renews, Visits, ActionAt;
    if k > 0 && !Renews(run, k - 1, key) {
      StrikesAreVisits(run, k - 1, key);
      var s := Strikes(run, k - 1, key);
      if s != [] && Visits(run, k - 1, key) {
        StruckAgain(run, k - 1, key);
      }
    }
  }

  /** A client with a strike against it is struck at every further visit that does not remove it. */
  lemma StruckAgain(run: seq<Event>, k: nat, key: Key)
    requires k < |run| && Visits(run, k, key) && !Renews(run, k, key)
    requires Strikes(run, k, key) != []
    ensures Strike(run, k, key)
  {
    StrikesNeedHard(run, k, key);
    CounterCountsStrikes(run, k, key);
  }

  lemma {:induction false} StrikesNeedHard(run: seq<Event>, k: nat, key: Key)
    requires k <= |run| && Strikes(run, k, key) != []
    ensures Present(run, k, key) && At(run, k).clients[key].hard
  {
    KeptClient(At(run, k - 1), run[k - 1], key);
    if !Strike(run, k - 1, key) {
      StrikesNeedHard(run, k - 1, key);
    }
  }

  /**
   The sweep removes a client only if it has hard liveliness and the visits since its last sign of life
   number exactly what takes its counter from its base to 3, each of which found it dead and sent a GET_INFO.
   */
  lemma RemovalNeedsStrikes(run: seq<Event>, k: nat, key: Key)
    requires Visits(run, k, key) && ActionAt(run, k) == Removed
    ensures At(run, k).clients[key].hard
    ensures StrikeList(run, k, key, Strikes(run, k, key)) && |Strikes(run, k, key)| == Needed(Base(run, k, key))
    ensures key !in At(run, k + 1).clients
  {
    CounterCountsStrikes(run, k, key);
    StrikesAreVisits(run, k, key);
  }

  /** A visit removes a client exactly if it has hard liveliness and as many strikes as its counter asks for. */
  lemma RemovedIffStruckOut(run: seq<Event>, k: nat, key: Key)
    requires Visits(run, k, key)
    ensures ActionAt(run, k) == Removed
       <==> At(run, k).clients[key].hard && |Strikes(run, k, key)| == Needed(Base(run, k, key))
  {
    CounterCountsStrikes(run, k, key);
  }

  /** Every creation found zero in the counter's memory. */
  ghost predicate ZeroedCounters(run: seq<Event>) {
    forall m :: 0 <= m < |run| && run[m].CreateClient? ==> run[m].rep.tries == 0
  }

  lemma {:induction false} BaseIsZero(run: seq<Event>, k: nat, key: Key)
    requires k <= |run| && ZeroedCounters(run)
    ensures Base(run, k, key) == 0
  {
    if k > 0 { BaseIsZero(run, k - 1, key); }
  }

  /**
   With counters that start at zero: three strikes, no sign of life since the first, and never more than three
   tries.
   */
  lemma ThreeStrikes(run: seq<Event>, k: nat, key: Key) returns (a: nat, b: nat, c: nat)
    requires ZeroedCounters(run)
    requires Visits(run, k, key) && ActionAt(run, k) == Removed
    ensures At(run, k).clients[key].hard
    ensures a < b < c < k && Strike(run, a, key) && Strike(run, b, key) && Strike(run, c, key)
    ensures forall m :: a <= m < k ==> !Renews(run, m, key)
    ensures forall m :: a <= m < k && Visits(run, m, key) ==> m in {a, b, c}
  {
    hide At, Renews, Visits, ActionAt, Strikes;
    RemovalNeedsStrikes(run, k, key);
    BaseIsZero(run, k, key);
    var s := Strikes(run, k, key);
    a, b, c := s[0], s[1], s[2];
  }

  lemma TriesAtMostThree(run: seq<Event>, k: nat, key: Key)
    requires ZeroedCounters(run) && Present(run, k, key)
    ensures At(run, k).clients[key].tries <= 3
  {
    BaseIsZero(run, k, key);
    CounterCountsStrikes(run, k, key);
  }

  /**
   A removal comes after at least three strikes exactly if the counter did not start at 1 or 2, after three if at 0.
   */
  lemma ThreeStrikesIff(run: seq<Event>, k: nat, key: Key)
    requires Visits(run, k, key) && ActionAt(run, k) == Removed
    ensures |Strikes(run, k, key)| >= 3 <==> Base(run, k, key) !in {1, 2}
    ensures |Strikes(run, k, key)| == 3 <==> Base(run, k, key) == 0
  {
    hide At, Renews, Visits, ActionAt, Strikes;
    RemovalNeedsStrikes(run, k, key);
    BaseIsByte(run, k, key);
  }

  lemma {:induction false} BaseIsByte(run: seq<Event>, k: nat, key: Key)
    requires k <= |run|
    ensures Base(run, k, key) < 256
  {
    if k > 0 { BaseIsByte(run, k - 1, key); }
  }

  /** A client with hard liveliness of one second. */
  function HardClient(session: nat, tries: nat): Representation {
    Representation(7, true, true, session, Properties(Some(1000)), tries)
  }

  /** A counter whose memory held 2: the client is removed after one unanswered request. */
  lemma OneStrikeIsEnough()
    ensures var run := [CreateClient(0, HardClient(1, 2))] + seq(4, _ => Visit(1000, true));
            Visits(run, 4, 7) && ActionAt(run, 4) == Removed && Strikes(run, 4, 7) == [2]
  {
    var run := [CreateClient(0, HardClient(1, 2))] + seq(4, _ => Visit(1000, true));
    var c := Client(1, Alive, 0, 2, true, 1000);
    assert At(run, 0) == Root(map[], None);
    assert At(run, 1) == Root(map[7 := c], None);
    OneClientSweep(c);
    assert At(run, 2) == Root(map[7 := c], Some(7));
    var struck := c.(state := ToRemove, tries := 3);
    assert At(run, 3) == Root(map[7 := struck], None);
    OneClientSweep(struck);
    assert At(run, 4) == Root(map[7 := struck], Some(7));
    assert Strikes(run, 1, 7) == [];
    assert Strikes(run, 2, 7) == [];
    assert Strikes(run, 3, 7) == [2];
  }

  lemma OneClientSweep(c: Client)
    ensures Begin(map[7 := c]) == Some(7) && Successor(map[7 := c], 7) == None
  {
    assert map[7 := c].Keys == {7};
    assert KeysAfter(map[7 := c], 7) == {};
  }

  // ---------------------------------------------------------------- hard liveliness

  /** Event m builds the client at `key`, for the first time or anew. */
  ghost predicate Builds(run: seq<Event>, m: nat, key: Key) {
    m < |run| && run[m].CreateClient? && run[m].rep.key == key && At(run, m + 1) != At(run, m)
  }

  /** The client that `key` names before event k was built by event m. */
  ghost predicate BuiltBy(run: seq<Event>, k: nat, key: Key, m: nat) {
    m < k <= |run| && Builds(run, m, key) && forall x :: m < x < k ==> !Builds(run, x, key)
  }

  /** Event m asks for hard liveliness and finds no client under the key. */
  ghost predicate AsksHard(run: seq<Event>, m: nat, key: Key)
    requires m < |run| && run[m].CreateClient?
  {
    !Present(run, m, key) && run[m].rep.properties.hardTimeout.Some?
  }

  /** The silence, in milliseconds, that a client built by event m is allowed: what it asked for, or half a minute. */
  ghost function AllowedSilence(run: seq<Event>, m: nat, key: Key): int
    requires m < |run| && run[m].CreateClient?
  {
    if AsksHard(run, m, key) then run[m].rep.properties.hardTimeout.value else 30000
  }

  /**
   A client that is there has hard liveliness exactly if the event that built it asked for it and found no client
   under the key; it has the session of that event and may be silent for as long as it asked for.
   */
  lemma {:induction false} HardIff(run: seq<Event>, k: nat, key: Key) returns (m: nat)
    requires Present(run, k, key)
    ensures BuiltBy(run, k, key, m)
    ensures At(run, k).clients[key].hard <==> AsksHard(run, m, key)
    ensures At(run, k).clients[key].deadTime == AllowedSilence(run, m, key)
    ensures At(run, k).clients[key].session == run[m].rep.session
  {
    var r, e := At(run, k - 1), run[k - 1];
    BuildOrKeep(r, e, key);
    if Builds(run, k - 1, key) {
      m := k - 1;
    } else {
      m := HardIff(run, k - 1, key);
    }
  }

  lemma BuildOrKeep(r: Root, e: Event, key: Key)
    requires Wellformed(r) && key in Step(r, e).clients
    ensures var c := Step(r, e).clients[key];
            if e.CreateClient? && e.rep.key == key && Step(r, e) != r
            then
              && (c.hard <==> key !in r.clients && e.rep.properties.hardTimeout.Some?)
              && c.deadTime == (if c.hard then e.rep.properties.hardTimeout.value else 30000)
              && c.session == e.rep.session
            else
              && key in r.clients && c.hard == r.clients[key].hard && c.deadTime == r.clients[key].deadTime
              && c.session == r.clients[key].session
  {
  }

  lemma BuiltOnce(run: seq<Event>, k: nat, key: Key, m: nat, m': nat)
    requires BuiltBy(run, k, key, m) && BuiltBy(run, k, key, m')
    ensures m == m'
  {
  }

  /**
   A client that came back under another session id, or without asking for hard liveliness, is never struck or removed
   by the sweep for as long as it is not built again.
   */
  lemma RebuiltClientEscapesSweep(run: seq<Event>, m: nat, k: nat, key: Key)
    requires Visits(run, k, key) && BuiltBy(run, k, key, m)
    requires !AsksHard(run, m, key)
    ensures !At(run, k).clients[key].hard && ActionAt(run, k) !in {GetInfo, Removed}
  {
    assert Present(run, k, key);
    var m' := HardIff(run, k, key);
    BuiltOnce(run, k, key, m, m');
  }

  /** A client that asks for hard liveliness each time loses it by coming back under another session. */
  lemma HardClientRebuilt()
    ensures var run := [CreateClient(0, HardClient(1, 0)), CreateClient(5, HardClient(2, 0))];
            && Present(run, 1, 7) && At(run, 1).clients[7].hard
            && BuiltBy(run, 2, 7, 1) && Present(run, 2, 7) && !At(run, 2).clients[7].hard
  {
    var run := [CreateClient(0, HardClient(1, 0)), CreateClient(5, HardClient(2, 0))];
    assert At(run, 0) == Root(map[], None);
    assert At(run, 1) == Root(map[7 := Client(1, Alive, 0, 0, true, 1000)], None);
    assert At(run, 2).clients[7] == Client(2, Alive, 5, 0, false, CLIENT_DEAD_TIME);
  }
}
