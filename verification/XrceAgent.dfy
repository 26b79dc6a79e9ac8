/** The client table as the agent's mutable object (`class Root`), and the heartbeat sweep over it. */
module XrceAgent {
  import opened Options
  import opened XrceRoot

  class RootTable {
    var clients: map<Key, Client>
    var currentClient: Option<Key>

    ghost predicate Valid()
      reads this
    {
      Wellformed(View())
    }

    ghost function View(): Root
      reads this
    {
      Root(clients, currentClient)
    }

    constructor ()
      ensures View() == Root(map[], None) && Valid()
    {
      clients, currentClient := map[], None;
    }

    method AddClient(now: int, rep: Representation) returns (status: Status)
      requires Valid()
      modifies this
      ensures Valid() && View() == Create(old(View()), now, rep).0 && status == Create(old(View()), now, rep).1
    {
      if rep.key == CLIENTKEY_INVALID { return ErrInvalidData; }
      status := Ok;
      if rep.cookieValid {
        if rep.versionValid {
          if rep.key !in clients {
            clients := clients[rep.key := NewClient(rep, rep.properties, now)];
          } else if rep.session != clients[rep.key].session {
            clients := clients[rep.key := NewClient(rep, Properties(None), now)];
          }
        } else {
          status := ErrIncompatible;
        }
      } else {
        status := ErrInvalidData;
      }
    }

    method RemoveClient(key: Key) returns (status: Status)
      requires Valid()
      modifies this
      ensures Valid() && View() == Delete(old(View()), key).0 && status == Delete(old(View()), key).1
    {
      if key in clients {
        if currentClient == Some(key) {
          currentClient := Successor(clients, key);
        }
        clients := clients - {key};
        status := Ok;
      } else {
        status := ErrUnknownReference;
      }
    }

    method GetNextClient() returns (next: Option<Key>)
      requires Valid()
      modifies this
      ensures Valid() && View() == GetNext(old(View())).0 && next == GetNext(old(View())).1
      ensures next.Some? ==> next.value in clients && clients == old(clients)
    {
      next := currentClient;
      match currentClient {
        case Some(k) => currentClient := Successor(clients, k);
        case None => currentClient := Begin(clients);
      }
    }

    method UpdateState(key: Key, now: int)
      requires Valid()
      modifies this
      ensures Valid() && View() == Step(old(View()), Packet(now, key))
    {
      if key in clients {
        clients := clients[key := Accepted(clients[key], now)];
      }
    }

    method ResetTable()
      requires Valid()
      modifies this
      ensures Valid() && View() == Root(map[], None)
    {
      currentClient := None;
      while clients != map[]
        invariant currentClient == None
        decreases |clients|
      {
        var key :| key in clients;
        ghost var before := clients;
        clients := clients - {key};
        assert clients.Keys == before.Keys - {key};
        assert |clients.Keys| < |before.Keys|;
      }
    }

    /** get_state: an alive client is found dead once its dead time has passed. */
    method GetState(k: Key, now: int) returns (state: ClientState)
      requires Valid() && k in clients
      modifies this`clients
      ensures Valid() && clients == old(clients)[k := Observed(old(clients)[k], now)] && state == clients[k].state
    {
      var c := clients[k];
      if c.state == Alive {
        clients := clients[k := c.(state := if now - c.stamp < c.deadTime then Alive else Dead)];
      }
      state := clients[k].state;
    }

    /** The body of the loop of check_heartbeats, for a client that get_next_client has returned. */
    method CheckOne(k: Key, now: int, endpointKnown: bool) returns (action: Action)
      requires Valid() && k in clients && currentClient != Some(k)
      modifies this
      ensures Valid() && currentClient == old(currentClient)
      ensures action == CheckClient(old(clients)[k], now, endpointKnown).1
      ensures clients == if action == Removed then old(clients) - {k}
                         else old(clients)[k := CheckClient(old(clients)[k], now, endpointKnown).0]
    {
      var state := GetState(k, now);
      var c := clients[k];
      action := Nothing;
      if endpointKnown && state == Alive {
        action := Heartbeats;
      } else if c.hard && state == Dead {
        c := c.(tries := (c.tries + 1) % 256);
        if c.tries == 3 {
          c := c.(state := ToRemove);
        }
        clients := clients[k := c];
        action := GetInfo;
      } else if c.hard && state == ToRemove {
        var _ := RemoveClient(k);
        action := Removed;
      }
    }

    /** get_next_client and the check of the client it returns: the visit that the theorems over runs are about. */
    method VisitClient(now: int, endpoints: set<Key>) returns (next: Option<Key>, action: Action)
      requires Valid()
      modifies this
      ensures Valid()
      ensures var known := Known(old(currentClient), endpoints);
              && View() == Step(old(View()), Visit(now, known))
              && next == VisitNext(old(View()), now, known).1 && action == VisitNext(old(View()), now, known).2
      ensures next == old(currentClient)
      ensures next.None? ==> clients == old(clients) && currentClient == Begin(clients)
      ensures next.Some? ==>
                && CursorAfter(old(clients), currentClient, next.value)
                && clients - {next.value} == old(clients) - {next.value}
                && Holds(clients, next.value, CheckClient(old(clients)[next.value], now, next.value in endpoints))
    {
      hide CheckClient, Begin, Successor;
      action := NoClient;
      next := GetNextClient();
      if next.Some? {
        var k := next.value;
        SuccessorIsAfter(clients, k);
        action := CheckOne(k, now, k in endpoints);
        assert old(clients)[k := CheckClient(old(clients)[k], now, k in endpoints).0] - {k} == old(clients) - {k};
      }
    }

    /**
     check_heartbeats, undisturbed: a row of visits, the last of which finds the end of the table. Every client
     from the cursor on is checked exactly once and removed if its check says so, no other client is
     touched, and the cursor is back at the first client.
     */
    method CheckHeartbeats(now: int, endpoints: set<Key>) returns (ghost visits: seq<Event>)
      requires Valid()
      modifies this
      ensures Valid() && currentClient == Begin(clients)
      ensures View() == Steps(old(View()), visits) && forall e :: e in visits ==> e.Visit? && e.now == now
      ensures Swept(old(clients), clients, old(currentClient), None, now, endpoints)
    {
      hide CheckClient, Begin, Successor, Step;
      ghost var before, start := clients, currentClient;
      visits := [];
      var found := true;
      while found
        invariant Valid()
        invariant View() == Steps(old(View()), visits) && forall e :: e in visits ==> e.Visit? && e.now == now
        invariant currentClient.Some? && found ==> start.Some? && start.value <= currentClient.value
        invariant Swept(before, clients, start, if found then currentClient else None, now, endpoints)
        invariant !found ==> currentClient == Begin(clients)
        decreases found, if currentClient.Some? then 0x1_0000_0000 - currentClient.value else 0
      {
        ghost var table, cursor := clients, currentClient;
        StepsOne(old(View()), visits, Visit(now, Known(cursor, endpoints)));
        visits := visits + [Visit(now, Known(cursor, endpoints))];
        var next, action := VisitClient(now, endpoints);
        found := next.Some?;
        if found {
          SweptStep(before, table, clients, start, next.value, currentClient, now, endpoints);
        }
      }
    }
  }

  /** The client that the cursor is on has an endpoint. */
  predicate Known(cursor: Option<Key>, endpoints: set<Key>) {
    cursor.Some? && cursor.value in endpoints
  }

  lemma SuccessorIsAfter(m: map<Key, Client>, k: Key)
    ensures CursorAfter(m, Successor(m, k), k)
  {
    SuccessorIsNext(m, k);
  }

  /** The cursor is past k, and not past any key after k. */
  ghost predicate CursorAfter(m: map<Key, Client>, cursor: Option<Key>, k: Key) {
    && (cursor.Some? ==> k < cursor.value)
    && forall j :: j in m && k < j ==> cursor.Some? && cursor.value <= j
  }

  /** What a check leaves in the table. */
  ghost predicate Holds(m: map<Key, Client>, k: Key, outcome: (Client, Action)) {
    if outcome.1 == Removed then k !in m else k in m && m[k] == outcome.0
  }

  /** Clients from `start` up to `next` have been checked, all others are as before. */
  ghost predicate Swept(before: map<Key, Client>, after: map<Key, Client>, start: Option<Key>, next: Option<Key>,
                        now: int, endpoints: set<Key>) {
    && after.Keys <= before.Keys
    && forall k :: k in before ==>
         if start.Some? && start.value <= k && (next.Some? ==> k < next.value)
         then Holds(after, k, CheckClient(before[k], now, k in endpoints))
         else k in after && after[k] == before[k]
  }

  /** Checking the client at the sweep's position moves the position to the cursor. */
  lemma SweptStep(before: map<Key, Client>, m: map<Key, Client>, m': map<Key, Client>, start: Option<Key>, k: Key,
                  cursor: Option<Key>, now: int, endpoints: set<Key>)
    requires start.Some? && start.value <= k && k in m
    requires Swept(before, m, start, Some(k), now, endpoints) && CursorAfter(m, cursor, k)
    requires m' - {k} == m - {k} && Holds(m', k, CheckClient(m[k], now, k in endpoints))
    ensures Swept(before, m', start, cursor, now, endpoints)
  {
    hide CheckClient;
    forall j | j != k
      ensures (j in m') == (j in m) && (j in m ==> m'[j] == m[j])
    {
      assert (j in m' - {k}) == (j in m - {k});
      assert j in m ==> (m' - {k})[j] == (m - {k})[j];
    }
  }
}
