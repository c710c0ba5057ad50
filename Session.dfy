/**
 * Network sessions and the table that owns them. A session is keyed by its
 * identity hash; its handler methods have no effect of their own beyond being
 * called, which each session records in a ghost log.
 */
module Sessions {
  import opened Common

  /** A call received by a session. */
  datatype SessionCall =
    | TickCall
    | DisconnectCall(reason: string)
    | ClientDisconnectCall(reason: string)
    | HandleEncodedCall(payload: seq<bv8>)
    | UpdatePingCall(pingMs: int)

  /** A call made on the session stored under `session`. */
  datatype SessionEvent = SessionEvent(session: int, call: SessionCall)

  /** The same call made on each session of `keys`, in order. */
  function Events(keys: seq<int>, call: SessionCall): (events: seq<SessionEvent>)
    ensures |events| == |keys|
  {
    if keys == [] then [] else Events(keys[..|keys| - 1], call) + [SessionEvent(keys[|keys| - 1], call)]
  }

  lemma EventsStep(keys: seq<int>, i: nat, call: SessionCall)
    requires i < |keys|
    ensures Events(keys[..i + 1], call) == Events(keys[..i], call) + [SessionEvent(keys[i], call)]
  {
    assert keys[..i + 1][..i] == keys[..i];
  }

  /**
   * A network session. Its handler methods (`Tick`, `Disconnect`,
   * `HandleEncoded`, ...) have empty bodies, so their only effect is being
   * called; callers record those calls as `SessionEvent`s.
   */
  class NetworkSession {
    /** The identity hash the session tables key it by. */
    const id: int
    /** The peer address; nothing in the core assigns it, so it stays absent. */
    var ip: Option<string>
    /** Starts true; no member of the session clears it. */
    var connected: bool

    constructor (id: int)
      ensures this.id == id && ip == None && connected
    {
      this.id := id;
      ip := None;
      connected := true;
    }
  }

  /** The sessions of `table` whose `connected` flag is set, under the same keys. */
  function ConnectedOnly(table: map<int, NetworkSession>): (r: map<int, NetworkSession>)
    reads table.Values
    ensures forall k :: k in r <==> k in table && table[k].connected
    ensures forall k :: k in r ==> r[k] == table[k]
  {
    map k | k in table && table[k].connected :: table[k]
  }

  /**
   * A session's `connected` flag starts true and nothing clears it, so the
   * sessions `Tick` keeps are all the sessions it found.
   */
  lemma TickKeepsConnected(table: map<int, NetworkSession>)
    requires forall k :: k in table ==> table[k].connected
    ensures ConnectedOnly(table) == table
  {
    var kept := ConnectedOnly(table);
    forall k | k in table
      ensures k in kept && kept[k] == table[k]
    {
      assert table[k].connected;
    }
  }

  /**
   * The loop of `NetworkSessionManager.Tick` over a snapshot of its table: the
   * sessions kept and the tick calls made, in the order `order` the table
   * enumerates its keys.
   */
  method TickTable(table: map<int, NetworkSession>) returns (kept: map<int, NetworkSession>, ticked: seq<SessionEvent>, ghost order: seq<int>)
    ensures kept == ConnectedOnly(table)
    ensures EnumeratesOnce(order, table.Keys)
    ensures ticked == Events(order, TickCall)
  {
    var keys := EnumerationOrder(table.Keys);
    kept, ticked := TickKeys(table, keys);
    order := keys;
  }

  /** The same loop over the keys `keys`, which list every key of `table` and nothing else. */
  method TickKeys(table: map<int, NetworkSession>, keys: seq<int>) returns (kept: map<int, NetworkSession>, ticked: seq<SessionEvent>)
    requires forall i :: 0 <= i < |keys| ==> keys[i] in table
    requires forall k :: k in table ==> k in keys
    ensures kept == ConnectedOnly(table)
    ensures ticked == Events(keys, TickCall)
  {
    kept := table;
    ticked := [];
    ghost var visited: set<int> := {};
    for i := 0 to |keys|
      invariant forall j :: 0 <= j < i ==> keys[j] in visited
      invariant kept.Keys <= table.Keys
      invariant forall k :: k in table ==> (k in kept <==> (k in visited ==> table[k].connected))
      invariant forall k :: k in kept ==> kept[k] == table[k]
      invariant ticked == Events(keys[..i], TickCall)
    {
      var session := table[keys[i]];
      EventsStep(keys, i, TickCall);
      ticked := ticked + [SessionEvent(keys[i], TickCall)];
      if !session.connected {
        kept := kept - {keys[i]};
      }
      visited := visited + {keys[i]};
    }
    assert keys[..|keys|] == keys;
    forall k | k in table ensures k in visited {
      var j :| 0 <= j < |keys| && keys[j] == k;
    }
    ghost var connected := ConnectedOnly(table);
    forall k ensures k in kept <==> k in connected {
      if k in table {
        assert k in visited;
      }
    }
    assert kept.Keys == connected.Keys;
    assert forall k :: k in kept ==> kept[k] == connected[k];
  }

  class NetworkSessionManager {
    var sessions: map<int, NetworkSession>
    /** The calls made on sessions, in order. */
    ghost var events: seq<SessionEvent>

    /** Every session is stored under its own identity. */
    ghost predicate Valid()
      reads this
    {
      forall k :: k in sessions ==> sessions[k].id == k
    }

    /** No stored session has cleared its flag. */
    ghost predicate AllConnected()
      reads this, sessions.Values
    {
      forall k :: k in sessions ==> sessions[k].connected
    }

    constructor ()
      ensures Valid() && AllConnected() && sessions == map[] && events == []
    {
      sessions := map[];
      events := [];
    }

    function SessionCount(): (n: nat)
      reads this
      ensures n == |sessions.Keys|
    {
      |sessions|
    }

    /** Stores `session` under its identity, replacing a session already stored there. */
    method Add(session: NetworkSession)
      requires Valid()
      modifies this
      ensures Valid()
      ensures sessions == old(sessions)[session.id := session] && events == old(events)
      ensures SessionCount() == old(SessionCount()) + (if session.id in old(sessions) then 0 else 1)
      ensures old(AllConnected()) && session.connected ==> AllConnected()
    {
      sessions := sessions[session.id := session];
    }

    /** Deletes the entry under `session`'s identity; nothing happens when there is none. */
    method Remove(session: NetworkSession)
      requires Valid()
      modifies this
      ensures Valid()
      ensures sessions == old(sessions) - {session.id} && events == old(events)
      ensures session.id !in old(sessions) ==> sessions == old(sessions)
      ensures SessionCount() == old(SessionCount()) - (if session.id in old(sessions) then 1 else 0)
      ensures old(AllConnected()) ==> AllConnected()
    {
      sessions := sessions - {session.id};
    }

    /**
     * Ticks every stored session once, in enumeration order, dropping each one
     * that reports itself disconnected right after its tick (see `TickKeepsConnected`).
     */
    method Tick() returns (ghost order: seq<int>)
      requires Valid()
      modifies this
      ensures Valid()
      ensures sessions == ConnectedOnly(old(sessions))
      ensures EnumeratesOnce(order, old(sessions).Keys)
      ensures events == old(events) + Events(order, TickCall)
    {
      var kept, ticked;
      kept, ticked, order := TickTable(sessions);
      sessions := kept;
      events := events + ticked;
    }

    /** Disconnects every stored session with `reason`, in enumeration order, then empties the table. */
    method Close(reason: string) returns (ghost order: seq<int>)
      requires Valid()
      modifies this
      ensures Valid() && sessions == map[]
      ensures EnumeratesOnce(order, old(sessions).Keys)
      ensures events == old(events) + Events(order, DisconnectCall(reason))
    {
      var keys := EnumerationOrder(sessions.Keys);
      for i := 0 to |keys|
        invariant events == old(events) + Events(keys[..i], DisconnectCall(reason))
        invariant sessions == old(sessions)
      {
        EventsStep(keys, i, DisconnectCall(reason));
        events := events + [SessionEvent(keys[i], DisconnectCall(reason))];
      }
      assert keys[..|keys|] == keys;
      sessions := map[];
      order := keys;
    }
  }
}
