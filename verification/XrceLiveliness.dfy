/**
 When the heartbeat sweep finds a client dead, and which clients there are, read off the events of a run: what the
 creations asked for, when packets came, when the client was visited.
 */
module XrceLiveliness {
  import opened Options
  import opened XrceRoot
  import opened XrceSweep

  /** Event m is a sign of life of the client at `key`: an accepted packet, or the creation that builds it. */
  ghost predicate Signs(run: seq<Event>, m: nat, key: Key) {
    m < |run| && ((run[m].Packet? && run[m].key == key) || Builds(run, m, key))
  }

  /** Event i is the last sign of life before event k. */
  ghost predicate LastSign(run: seq<Event>, k: nat, key: Key, i: nat) {
    i < k <= |run| && Signs(run, i, key) && forall m :: i < m < k ==> !Signs(run, m, key)
  }

  /** The time that a client remembers is that of its last sign of life. */
  lemma {:induction false} StampIsLastSign(run: seq<Event>, k: nat, key: Key) returns (i: nat)
    requires Present(run, k, key)
    ensures LastSign(run, k, key, i) && At(run, k).clients[key].stamp == run[i].now
    ensures forall m :: i < m <= k ==> Present(run, m, key)
  {
    StampStep(At(run, k - 1), run[k - 1], key);
    if Signs(run, k - 1, key) {
      i := k - 1;
    } else {
      i := StampIsLastSign(run, k - 1, key);
    }
  }

  lemma StampStep(r: Root, e: Event, key: Key)
    requires Wellformed(r) && key in Step(r, e).clients
    ensures var signs := (e.Packet? && e.key == key) || (e.CreateClient? && e.rep.key == key && Step(r, e) != r);
            && (signs ==> Step(r, e).clients[key].stamp == e.now && Step(r, e).clients[key].state == Alive)
            && (!signs ==> key in r.clients && Step(r, e).clients[key].stamp == r.clients[key].stamp)
            && (!signs && !(e.Visit? && r.cursor == Some(key)) ==>
                  Step(r, e).clients[key].state == r.clients[key].state)
            && (!signs && e.Visit? && r.cursor == Some(key) ==>
                  (Step(r, e).clients[key].state == Alive) ==
                  (r.clients[key].state == Alive && e.now - r.clients[key].stamp < r.clients[key].deadTime))
  {
  }

  /** What an event makes of a client that stays, by whether it is a sign of life. */
  lemma SignStep(run: seq<Event>, k: nat, key: Key)
    requires k < |run| && Present(run, k + 1, key)
    ensures var c := At(run, k + 1).clients[key];
            if Signs(run, k, key) then c.stamp == run[k].now && c.state == Alive
            else
              && Present(run, k, key) && c.stamp == At(run, k).clients[key].stamp
              && (c.state == Alive <==>
                    && At(run, k).clients[key].state == Alive
                    && (Visits(run, k, key) ==> run[k].now - c.stamp < At(run, k).clients[key].deadTime))
  {
    hide CheckClient;
    StampStep(At(run, k), run[k], key);
    VisitIsAtCursor(run, k, key);
  }

  /** Some visit after event i and before event k came when the client had been silent for `silence` since event i. */
  ghost predicate FoundSilent(run: seq<Event>, i: nat, k: nat, key: Key, silence: int)
    requires i < |run| && (run[i].Packet? || run[i].CreateClient?)
  {
    exists v: nat :: i < v < k && Visits(run, v, key) && run[v].now - run[i].now >= silence
  }

  lemma SignHasTime(run: seq<Event>, k: nat, key: Key, i: nat)
    requires LastSign(run, k, key, i)
    ensures run[i].Packet? || run[i].CreateClient?
  {
  }

  /** A client is remembered as alive exactly until a visit finds that it has been silent for too long. */
  lemma {:induction false} AliveIff(run: seq<Event>, k: nat, key: Key, i: nat, silence: int)
    requires Present(run, k, key) && LastSign(run, k, key, i)
    requires forall m :: i < m <= k ==>
               && Present(run, m, key) && At(run, m).clients[key].deadTime == silence
               && At(run, m).clients[key].stamp == run[i].now
    ensures At(run, k).clients[key].state == Alive <==> !FoundSilent(run, i, k, key, silence)
  {
    hide At, Visited, FoundSilent, Builds;
    SignStep(run, k - 1, key);
    SignHasTime(run, k, key, i);
    NeverSilent(run, i, key, silence);
    if k - 1 > i {
      assert !Signs(run, k - 1, key) && Present(run, k - 1, key);
      AliveIff(run, k - 1, key, i, silence);
      SilentStep(run, k - 1, key, i, silence);
    }
  }

  lemma NeverSilent(run: seq<Event>, i: nat, key: Key, silence: int)
    requires i < |run| && (run[i].Packet? || run[i].CreateClient?)
    ensures !FoundSilent(run, i, i + 1, key, silence)
  {
  }

  /** One more event finds the client silent if it is a visit that comes after the silence. */
  lemma SilentStep(run: seq<Event>, k: nat, key: Key, i: nat, silence: int)
    requires i < k < |run| && (run[i].Packet? || run[i].CreateClient?)
    ensures FoundSilent(run, i, k + 1, key, silence)
       <==> FoundSilent(run, i, k, key, silence) || (Visits(run, k, key) && run[k].now - run[i].now >= silence)
  {
    hide VisitNext, At;
    if FoundSilent(run, i, k, key, silence) {
      var v: nat :| i < v < k && Visits(run, v, key) && run[v].now - run[i].now >= silence;
      assert i < v < k + 1;
    }
  }

  lemma VisitIsAtCursor(run: seq<Event>, k: nat, key: Key)
    requires k < |run|
    ensures Visits(run, k, key) <==> run[k].Visit? && At(run, k).cursor == Some(key)
  {
  }

  /** Time and allowance of a client stay what they were since its last sign of life. */
  lemma {:induction false} SinceLastSign(run: seq<Event>, k: nat, key: Key, i: nat, m: nat)
    requires LastSign(run, k, key, i) && i < m <= k
    requires forall x :: i < x <= k ==> Present(run, x, key)
    ensures Present(run, m, key) && Present(run, k, key)
    ensures At(run, m).clients[key].deadTime == At(run, k).clients[key].deadTime
    ensures At(run, m).clients[key].stamp == At(run, k).clients[key].stamp
    decreases k - m
  {
    if m < k {
      SinceLastSign(run, k, key, i, m + 1);
      assert !Signs(run, m, key) && Present(run, m, key) && Present(run, m + 1, key);
      BuildOrKeep(At(run, m), run[m], key);
      StampStep(At(run, m), run[m], key);
    }
  }

  /**
   What a visit does, decided by the events: i is the last sign of life of the client and m the creation that built it.
   The client is dead once some visit since i, this one included, came after the silence that m allows. A client that
   is not dead gets heartbeats if its endpoint is known; a dead one that asked for hard liveliness is struck, or removed
   once it has as many strikes as its counter asks for; nothing else is done to any client.
   */
  lemma VisitOutcome(run: seq<Event>, k: nat, key: Key) returns (i: nat, m: nat)
    requires Visits(run, k, key)
    ensures LastSign(run, k, key, i) && BuiltBy(run, k, key, m)
    ensures forall x :: i < x <= k ==> Present(run, x, key)
    ensures var dead := FoundSilent(run, i, k + 1, key, AllowedSilence(run, m, key));
            var hard := AsksHard(run, m, key);
            var struckOut := |Strikes(run, k, key)| == Needed(Base(run, k, key));
            ActionAt(run, k) ==
            if !dead then if run[k].endpointKnown then Heartbeats else Nothing
            else if !hard then Nothing
            else if struckOut then Removed else GetInfo
  {
    assert Present(run, k, key);
    i := StampIsLastSign(run, k, key);
    m := HardIff(run, k, key);
    var silence := AllowedSilence(run, m, key);
    forall x | i < x <= k
      ensures Present(run, x, key) && At(run, x).clients[key].deadTime == silence
              && At(run, x).clients[key].stamp == run[i].now
    {
      SinceLastSign(run, k, key, i, x);
    }
    AliveIff(run, k, key, i, silence);
    RemovedIffStruckOut(run, k, key);
    CounterCountsStrikes(run, k, key);
    SilentStep(run, k, key, i, silence);
    ActionStep(At(run, k).clients[key], run[k].now, run[k].endpointKnown);
  }

  lemma ActionStep(c: Client, now: int, endpointKnown: bool)
    ensures var dead := c.state != Alive || now - c.stamp >= c.deadTime;
            CheckClient(c, now, endpointKnown).1 ==
            if !dead then if endpointKnown then Heartbeats else Nothing
            else if !c.hard then Nothing
            else if c.state == ToRemove then Removed else GetInfo
  {
  }

  /** The clock of the visits and packets never runs back. */
  ghost predicate Timed(run: seq<Event>) {
    forall i, j :: 0 <= i < j < |run| && HasTime(run[i]) && HasTime(run[j]) ==> run[i].now <= run[j].now
  }

  predicate HasTime(e: Event) { e.CreateClient? || e.Packet? || e.Visit? }

  /** On a clock that never runs back, a client is dead at a visit exactly if its silence up to it is too long. */
  lemma DeadIffSilent(run: seq<Event>, k: nat, key: Key, i: nat, silence: int)
    requires Timed(run) && Visits(run, k, key) && LastSign(run, k, key, i)
    ensures FoundSilent(run, i, k + 1, key, silence) <==> run[k].now - run[i].now >= silence
  {
    hide VisitNext, At;
    assert HasTime(run[i]) && HasTime(run[k]);
    if FoundSilent(run, i, k + 1, key, silence) {
      var v: nat :| i < v < k + 1 && Visits(run, v, key) && run[v].now - run[i].now >= silence;
      assert HasTime(run[v]);
    }
  }

  /** The first strike against a client since its last sign of life comes after the silence that it asked for. */
  lemma FirstStrikeAfterSilence(run: seq<Event>, k: nat, key: Key) returns (i: nat, m: nat)
    requires Strike(run, k, key) && Strikes(run, k, key) == []
    ensures LastSign(run, k, key, i) && BuiltBy(run, k, key, m) && AsksHard(run, m, key)
    ensures run[k].now - run[i].now >= run[m].rep.properties.hardTimeout.value
  {
    hide Step, VisitNext, At, Strikes, Base, Needed;
    i, m := VisitOutcome(run, k, key);
    var silence := AllowedSilence(run, m, key);
    var v: nat :| i < v < k + 1 && Visits(run, v, key) && run[v].now - run[i].now >= silence;
    if v < k {
      var i', m' := VisitOutcome(run, v, key);
      SameBuilder(run, v, k, key, i, m, m');
      SameSign(run, v, k, key, i, i');
      assert FoundSilent(run, i, v + 1, key, silence);
      assert Present(run, v + 1, key);
      if ActionAt(run, v) == Removed { RemovalNeedsStrikes(run, v, key); }
      StrikeRemembered(run, i, v, k, key);
    }
  }

  /** A strike is remembered for as long as the client stays and gives no sign of life. */
  lemma {:induction false} StrikeRemembered(run: seq<Event>, i: nat, v: nat, k: nat, key: Key)
    requires i < v < k <= |run| && Strike(run, v, key)
    requires forall x :: i < x < k ==> !Signs(run, x, key)
    requires forall x :: i < x <= k ==> Present(run, x, key)
    ensures Strikes(run, k, key) != []
  {
    assert Present(run, k, key) && !Signs(run, k - 1, key);
    if v < k - 1 {
      StrikeRemembered(run, i, v, k - 1, key);
    }
  }

  lemma {:induction false} FirstOfStrikes(run: seq<Event>, k: nat, key: Key)
    requires k <= |run| && Strikes(run, k, key) != []
    ensures var a := Strikes(run, k, key)[0];
            a < k && Strike(run, a, key) && Strikes(run, a, key) == []
  {
    hide At, Renews, Visits, ActionAt;
    if Strikes(run, k - 1, key) != [] {
      FirstOfStrikes(run, k - 1, key);
    }
  }

  /**
   A client that the sweep removes asked for hard liveliness, and was first struck only when it had been silent for
   the time it asked for; it gave no sign of life since.
   */
  lemma RemovalAfterSilence(run: seq<Event>, k: nat, key: Key) returns (i: nat, m: nat, a: nat)
    requires Visits(run, k, key) && ActionAt(run, k) == Removed
    ensures i < a < k && Signs(run, i, key) && forall x :: i < x < k ==> !Signs(run, x, key)
    ensures BuiltBy(run, a, key, m) && AsksHard(run, m, key) && Strike(run, a, key)
    ensures run[a].now - run[i].now >= run[m].rep.properties.hardTimeout.value
  {
    hide Step, VisitNext, At, Strikes, Base;
    RemovalNeedsStrikes(run, k, key);
    BaseIsByte(run, k, key);
    FirstOfStrikes(run, k, key);
    a := Strikes(run, k, key)[0];
    i, m := FirstStrikeAfterSilence(run, a, key);
    forall x | a <= x < k
      ensures !Signs(run, x, key)
    {
      assert !Renews(run, x, key);
    }
  }

  lemma SameSign(run: seq<Event>, v: nat, k: nat, key: Key, i: nat, i': nat)
    requires LastSign(run, k, key, i) && i < v < k && LastSign(run, v, key, i')
    ensures i == i'
  {
  }

  lemma SameBuilder(run: seq<Event>, v: nat, k: nat, key: Key, i: nat, m: nat, m': nat)
    requires LastSign(run, k, key, i) && i < v < k && BuiltBy(run, k, key, m) && BuiltBy(run, v, key, m')
    ensures m == m'
  {
    assert Signs(run, m, key);
  }

  // ---------------------------------------------------------------- which clients there are

  /** What create_client answers. */
  lemma CreateAnswers(r: Root, now: int, rep: Representation)
    ensures var status := Create(r, now, rep).1;
            && (status == ErrInvalidData <==> rep.key == 0 || !rep.cookieValid)
            && (status == ErrIncompatible <==> rep.key != 0 && rep.cookieValid && !rep.versionValid)
            && (status == Ok <==> rep.key != 0 && rep.cookieValid && rep.versionValid)
  {
  }

  /** What delete_client answers. */
  lemma DeleteAnswers(run: seq<Event>, k: nat, key: Key)
    requires k <= |run|
    ensures Delete(At(run, k), key).1 == if Present(run, k, key) then Ok else ErrUnknownReference
  {
  }

  /** A creation builds a client exactly if it is valid and no client of that session is there under the key. */
  lemma BuildsIff(run: seq<Event>, k: nat, key: Key) returns (m: nat)
    requires k < |run|
    ensures Present(run, k, key) ==> BuiltBy(run, k, key, m)
    ensures Builds(run, k, key) <==>
            && run[k].CreateClient? && run[k].rep.key == key
            && key != 0 && run[k].rep.cookieValid && run[k].rep.versionValid
            && (Present(run, k, key) ==> run[k].rep.session != run[m].rep.session)
  {
    m := 0;
    if Present(run, k, key) {
      m := HardIff(run, k, key);
    }
    if run[k].CreateClient? && run[k].rep.key == key {
      CreateChanges(At(run, k), run[k].now, run[k].rep);
    }
  }

  lemma CreateChanges(r: Root, now: int, rep: Representation)
    requires Wellformed(r)
    ensures Create(r, now, rep).0 != r <==>
            && rep.key != 0 && rep.cookieValid && rep.versionValid
            && (rep.key in r.clients ==> rep.session != r.clients[rep.key].session)
  {
    var r' := Create(r, now, rep).0;
    if rep.key in r'.clients && rep.key in r.clients && r'.clients[rep.key].session != r.clients[rep.key].session {
      assert r' != r;
    } else if rep.key in r'.clients && rep.key !in r.clients {
      assert r'.clients != r.clients;
    }
  }

  /** Event x takes the client at `key` away: a deletion, a reset, or a visit that removes it. */
  ghost predicate TakesAway(run: seq<Event>, x: nat, key: Key) {
    x < |run|
    && ((run[x].DeleteClient? && run[x].key == key)
        || run[x].Reset?
        || (Visits(run, x, key) && ActionAt(run, x) == Removed))
  }

  /** Event m built the client, and no event since took it away. */
  ghost predicate StaysSince(run: seq<Event>, k: nat, key: Key, m: nat) {
    m < k <= |run| && Builds(run, m, key) && forall x :: m < x < k ==> !TakesAway(run, x, key)
  }

  lemma PresenceStep(run: seq<Event>, k: nat, key: Key)
    requires k < |run|
    ensures Present(run, k + 1, key) <==> Builds(run, k, key) || (Present(run, k, key) && !TakesAway(run, k, key))
  {
    VisitIsAtCursor(run, k, key);
  }

  /** A client is there exactly if it was built and nothing has taken it away since. */
  lemma PresentIff(run: seq<Event>, k: nat, key: Key)
    requires k <= |run|
    ensures Present(run, k, key) <==> exists m: nat :: StaysSince(run, k, key, m)
  {
    if Present(run, k, key) {
      var m := Builder(run, k, key);
    }
    forall m: nat | StaysSince(run, k, key, m)
      ensures Present(run, k, key)
    {
      StaysPresent(run, k, key, m);
    }
  }

  lemma {:induction false} Builder(run: seq<Event>, k: nat, key: Key) returns (m: nat)
    requires Present(run, k, key)
    ensures StaysSince(run, k, key, m)
  {
    PresenceStep(run, k - 1, key);
    if Builds(run, k - 1, key) {
      m := k - 1;
    } else {
      m := Builder(run, k - 1, key);
    }
  }

  lemma {:induction false} StaysPresent(run: seq<Event>, k: nat, key: Key, m: nat)
    requires StaysSince(run, k, key, m)
    ensures Present(run, k, key)
  {
    PresenceStep(run, k - 1, key);
    if m < k - 1 {
      StaysPresent(run, k - 1, key, m);
    }
  }
}
