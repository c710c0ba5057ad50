/**
 * The server's lifecycle bookkeeping: the tick counter, the per-tick TPS
 * figures and their 20-slot window, starting the network interface, and the
 * two shutdown paths.
 */
module Servers {
  import opened Common
  import opened Networks
  import Sessions
  import MainLoggers

  /** The highest TPS figure recorded, and the number of slots in the averaging windows. */
  const MAX_TPS: int := 20
  const WINDOW_SIZE: int := 20
  /** The highest TPS-use figure recorded. */
  const MAX_TPS_USE: int := 1
  const DEFAULT_IP: string := "0.0.0.0"
  const DEFAULT_PORT: int := 19137
  const NETWORK_NAME: string := "SkyWing Net"
  const CLOSE_REASON: string := "Server closed"

  /** What the server does that the model follows in order: logger calls and the two shutdown steps. */
  datatype ServerEvent =
    | LoggerCall(level: MainLoggers.LogLevel, message: string)
    | SessionsClosed(reason: string)
    | InterfaceUnregistered(iface: int)

  /** The events of stopping the interfaces of `ifaces` in turn: a debug line naming the type, then the unregistration. */
  function StopEvents(ifaces: seq<Iface>): (events: seq<ServerEvent>)
    ensures |events| == 2 * |ifaces|
  {
    if ifaces == [] then []
    else
      var last := ifaces[|ifaces| - 1];
      StopEvents(ifaces[..|ifaces| - 1])
        + [LoggerCall(MainLoggers.Debug, "Stopping network interface " + last.typeName), InterfaceUnregistered(last.id)]
  }

  lemma StopEventsStep(ifaces: seq<Iface>, i: nat)
    requires i < |ifaces|
    ensures StopEvents(ifaces[..i + 1])
      == StopEvents(ifaces[..i])
         + [LoggerCall(MainLoggers.Debug, "Stopping network interface " + ifaces[i].typeName), InterfaceUnregistered(ifaces[i].id)]
  {
    assert ifaces[..i + 1][..i] == ifaces[..i];
  }

  /** Interface `ifaces[i]` is unregistered by the `2 * i + 1`-th stop event, after its debug line. */
  lemma {:induction false} StopEventsAt(ifaces: seq<Iface>, i: nat)
    requires i < |ifaces|
    ensures StopEvents(ifaces)[2 * i] == LoggerCall(MainLoggers.Debug, "Stopping network interface " + ifaces[i].typeName)
    ensures StopEvents(ifaces)[2 * i + 1] == InterfaceUnregistered(ifaces[i].id)
    decreases |ifaces|
  {
    if i < |ifaces| - 1 {
      StopEventsAt(ifaces[..|ifaces| - 1], i);
    }
  }

  // ---------------------------------------------------------------------------
  // The tick counter and the averaging window

  /** The tick counter is an unchecked 32-bit `int`: one more tick after the largest value gives the smallest. */
  lemma TickCounterWraps()
    ensures Wrap32(INT32_MAX + 1) == INT32_MIN
  {
  }

  lemma {:induction false} Wrap32Step(x: int)
    ensures Wrap32(Wrap32(x) + 1) == Wrap32(x + 1)
  {
    var m := 0x1_0000_0000;
    var y := x - INT32_MIN;
    var q := y / m;
    assert y == q * m + y % m;
    assert (y % m + 1) % m == (y + 1) % m by {
      assert y + 1 == q * m + (y % m + 1);
    }
  }

  /** The slot of the averaging window that tick `counter` writes, as written: C#'s `%`, negative for a negative counter. */
  function WindowIndexAsWritten(counter: int): (i: int)
    ensures -WINDOW_SIZE < i < WINDOW_SIZE
    ensures counter >= 0 ==> i >= 0
    ensures (i - counter) % WINDOW_SIZE == 0
  {
    CRem(counter, WINDOW_SIZE)
  }

  /** The slot as evidently intended: the counter taken modulo the window size, always a valid slot. */
  function WindowIndex(counter: int): (i: int)
    ensures 0 <= i < WINDOW_SIZE
    ensures counter >= 0 ==> i == WindowIndexAsWritten(counter)
    ensures (i - counter) % WINDOW_SIZE == 0
  {
    counter % WINDOW_SIZE
  }

  /** Once the counter has wrapped, the slot as written is negative: the window gains a slot outside 0..19. */
  lemma WindowIndexAfterWrap()
    ensures WindowIndexAsWritten(Wrap32(INT32_MAX + 1)) == -8
    ensures WindowIndex(Wrap32(INT32_MAX + 1)) == 12
  {
    TickCounterWraps();
  }

  /** Every key of a window lies in 0..19: the slots the window is meant to have. */
  ghost predicate InWindow(keys: set<int>) {
    forall k :: k in keys ==> 0 <= k < WINDOW_SIZE
  }

  /** Every key of a window lies in -19..19: the slots C#'s remainder can give. */
  ghost predicate InSlots(keys: set<int>) {
    forall k :: k in keys ==> -WINDOW_SIZE < k < WINDOW_SIZE
  }

  /** The integers `lo .. hi - 1`. */
  function SlotRange(lo: int, hi: int): (s: set<int>)
    requires lo <= hi
    ensures forall k :: k in s <==> lo <= k < hi
    ensures |s| == hi - lo
    decreases hi - lo
  {
    if lo == hi then {} else SlotRange(lo, hi - 1) + {hi - 1}
  }

  /** A set of keys inside `lo .. hi - 1` has at most `hi - lo` of them. */
  lemma KeysBounded(keys: set<int>, lo: int, hi: int)
    requires lo <= hi && forall k :: k in keys ==> lo <= k < hi
    ensures |keys| <= hi - lo
  {
    var all := SlotRange(lo, hi);
    assert keys <= all;
    assert all == keys + (all - keys);
    assert keys * (all - keys) == {};
  }

  /** A window on the intended slots holds at most 20 entries; on the slots as written, at most 39. */
  lemma WindowBounded(keys: set<int>)
    requires InSlots(keys)
    ensures |keys| < 2 * WINDOW_SIZE
    ensures InWindow(keys) ==> |keys| <= WINDOW_SIZE
  {
    KeysBounded(keys, -WINDOW_SIZE + 1, WINDOW_SIZE);
    if InWindow(keys) {
      KeysBounded(keys, 0, WINDOW_SIZE);
    }
  }

  /**
   * A full window of 20 entries gains a 21st once the counter wraps: the
   * slot written after `int.MaxValue` is -8, which no intended slot equals.
   */
  lemma WrappedWindowGrows(keys: set<int>)
    requires InWindow(keys) && |keys| == WINDOW_SIZE
    ensures |keys + {WindowIndexAsWritten(Wrap32(INT32_MAX + 1))}| == WINDOW_SIZE + 1
  {
    WindowIndexAfterWrap();
    assert -8 !in keys;
  }

  /** With the intended slot, a window on the slots 0..19 stays on them, and so within 20 entries, whatever the counter. */
  lemma IntendedWindowStaysBounded(keys: set<int>, counter: int)
    requires InWindow(keys)
    ensures InWindow(keys + {WindowIndex(counter)})
    ensures |keys + {WindowIndex(counter)}| <= WINDOW_SIZE
  {
    WindowBounded(keys + {WindowIndex(counter)});
  }

  /** One pass of the tick loop: too early (the loop sleeps), or a tick with the TPS figures its timing gave. */
  datatype TickSample = TooEarly | Measured(tps: int, tpsUse: int)

  /** The number of ticks among `samples`. */
  function Ticks(samples: seq<TickSample>): (n: nat)
    ensures n <= |samples|
  {
    if samples == [] then 0
    else Ticks(samples[..|samples| - 1]) + (if samples[|samples| - 1].Measured? then 1 else 0)
  }

  lemma TicksStep(samples: seq<TickSample>, i: nat)
    requires i < |samples|
    ensures Ticks(samples[..i + 1]) == Ticks(samples[..i]) + (if samples[i].Measured? then 1 else 0)
  {
    assert samples[..i + 1][..i] == samples[..i];
  }

  /** A prefix of the samples holds no more ticks than all of them. */
  lemma {:induction false} TicksPrefix(samples: seq<TickSample>, i: nat)
    requires i <= |samples|
    ensures Ticks(samples[..i]) <= Ticks(samples)
    decreases |samples| - i
  {
    if i < |samples| {
      TicksStep(samples, i);
      TicksPrefix(samples, i + 1);
    } else {
      assert samples[..i] == samples;
    }
  }

  function Min(a: int, b: int): (m: int)
    ensures m <= a && m <= b && (m == a || m == b)
  {
    if a <= b then a else b
  }

  // ---------------------------------------------------------------------------
  // Stopping the interfaces

  /**
   * The loop of `ForceShutdown` over the registered interfaces: each is
   * unregistered (and so shut down), in the order `order` the table
   * enumerates, after a debug line naming its type.
   */
  method UnregisterAll(network: Network) returns (ghost stops: seq<ServerEvent>, ghost order: seq<int>)
    requires network.Valid()
    modifies network`interfaces, network`advancedInterfaces, network`trace
    ensures network.Valid()
    ensures network.interfaces == map[] && network.advancedInterfaces == map[]
    ensures EnumeratesOnce(order, old(network.interfaces).Keys)
    ensures network.trace == old(network.trace) + Broadcast(Values(old(network.interfaces), order), ShutdownNotice)
    ensures stops == StopEvents(Values(old(network.interfaces), order))
  {
    var table := network.interfaces;
    var keys := EnumerationOrder(table.Keys);
    ghost var start := network.trace;
    stops := [];
    for i := 0 to |keys|
      invariant Unregistering(network, table, keys, start, i, stops)
    {
      stops := UnregisterNext(network, table, keys, start, i, stops);
    }
    assert keys[..|keys|] == keys && Values(table, keys)[..|keys|] == Values(table, keys);
    RemoveKeysAll(table, keys);
    assert network.interfaces == map[];
    NoneAdvanced(network);
    order := keys;
  }

  lemma NoneAdvanced(network: Network)
    requires network.Valid() && network.interfaces == map[]
    ensures network.advancedInterfaces == map[]
  {
    assert network.advancedInterfaces.Keys == {};
  }

  /**
   * The network half of `Server.ForceShutdown`: every session is disconnected
   * with "Server closed", then every interface is unregistered, each table in
   * the order it enumerates. `stops` is what the server logs and records meanwhile.
   */
  method StopNetwork(network: Network) returns (ghost stops: seq<ServerEvent>, ghost sessionOrder: seq<int>, ghost order: seq<int>)
    requires network.Valid() && network.sessionManager.Valid()
    modifies network`interfaces, network`advancedInterfaces, network`trace, network.sessionManager
    ensures network.Valid()
    ensures network.interfaces == map[] && network.advancedInterfaces == map[]
    ensures EnumeratesOnce(order, old(network.interfaces).Keys)
    ensures network.trace == old(network.trace) + Broadcast(Values(old(network.interfaces), order), ShutdownNotice)
    ensures network.sessionManager.sessions == map[]
    ensures EnumeratesOnce(sessionOrder, old(network.sessionManager.sessions).Keys)
    ensures network.sessionManager.events == old(network.sessionManager.events)
      + Sessions.Events(sessionOrder, Sessions.DisconnectCall(CLOSE_REASON))
    ensures stops == [SessionsClosed(CLOSE_REASON), LoggerCall(MainLoggers.Debug, "Stopping network interfaces.")]
      + StopEvents(Values(old(network.interfaces), order))
  {
    sessionOrder := network.sessionManager.Close(CLOSE_REASON);
    ghost var unregistered;
    unregistered, order := UnregisterAll(network);
    stops := [SessionsClosed(CLOSE_REASON), LoggerCall(MainLoggers.Debug, "Stopping network interfaces.")] + unregistered;
  }

  /** `UnregisterAll` after `i` passes over `keys`, the enumeration of `table`, which `network` held when its trace was `start`. */
  ghost predicate Unregistering(network: Network, table: map<int, Iface>, keys: seq<int>, start: seq<Call>, i: nat, stops: seq<ServerEvent>)
    reads network`interfaces, network`advancedInterfaces, network`rawPacketHandlers, network`trace
  {
    && EnumeratesOnce(keys, table.Keys)
    && i <= |keys|
    && network.Valid()
    && network.interfaces == RemoveKeys(table, keys[..i])
    && network.trace == start + Broadcast(Values(table, keys)[..i], ShutdownNotice)
    && stops == StopEvents(Values(table, keys)[..i])
  }

  /** One pass of `UnregisterAll`: the next interface is still registered, so unregistering it shuts it down. */
  method UnregisterNext(network: Network, table: map<int, Iface>, keys: seq<int>, ghost start: seq<Call>, i: nat,
                        ghost stops: seq<ServerEvent>)
    returns (ghost stops': seq<ServerEvent>)
    requires Unregistering(network, table, keys, start, i, stops) && i < |keys|
    modifies network`interfaces, network`advancedInterfaces, network`trace
    ensures Unregistering(network, table, keys, start, i + 1, stops')
  {
    ghost var ifaces := Values(table, keys);
    NextKeyPresent(table, keys, i);
    var iface := network.interfaces[keys[i]];
    BroadcastStep(ifaces, i, ShutdownNotice);
    StopEventsStep(ifaces, i);
    stops' := stops + [LoggerCall(MainLoggers.Debug, "Stopping network interface " + iface.typeName), InterfaceUnregistered(iface.id)];
    assert iface.id == keys[i];
    var r := network.UnregisterInterface(iface);
    assert keys[..i + 1][..i] == keys[..i];
    assert network.interfaces == RemoveKeys(table, keys[..i + 1]);
  }

  /** The `i`-th key of the enumeration is still registered after the keys before it are gone. */
  lemma NextKeyPresent<V>(table: map<int, V>, keys: seq<int>, i: nat)
    requires EnumeratesOnce(keys, table.Keys) && i < |keys|
    ensures keys[i] in RemoveKeys(table, keys[..i]) && RemoveKeys(table, keys[..i])[keys[i]] == table[keys[i]]
    ensures Values(table, keys)[i] == table[keys[i]]
  {
    assert keys[i] !in keys[..i] by {
      forall j | 0 <= j < i ensures keys[j] != keys[i] { }
    }
    RemoveKeysKeeps(table, keys[..i], keys[i]);
    ValuesAt(table, keys, i);
  }

  /** `m` without the keys of `ks`, removed one after the other. */
  function RemoveKeys<V>(m: map<int, V>, ks: seq<int>): map<int, V> {
    if ks == [] then m else RemoveKeys(m, ks[..|ks| - 1]) - {ks[|ks| - 1]}
  }

  lemma {:induction false} RemoveKeysKeeps<V>(m: map<int, V>, ks: seq<int>, k: int)
    requires k in m && k !in ks
    ensures k in RemoveKeys(m, ks) && RemoveKeys(m, ks)[k] == m[k]
  {
    if ks != [] {
      RemoveKeysKeeps(m, ks[..|ks| - 1], k);
    }
  }

  lemma {:induction false} RemoveKeysAll<V>(m: map<int, V>, ks: seq<int>)
    requires forall k :: k in m ==> k in ks
    ensures RemoveKeys(m, ks) == map[]
  {
    forall k | k in RemoveKeys(m, ks) ensures false {
      RemoveKeysDrops(m, ks, k);
    }
  }

  lemma {:induction false} RemoveKeysDrops<V>(m: map<int, V>, ks: seq<int>, k: int)
    requires k in RemoveKeys(m, ks)
    ensures k in m && k !in ks
  {
    if ks != [] {
      RemoveKeysDrops(m, ks[..|ks| - 1], k);
    }
  }

  // ---------------------------------------------------------------------------
  // The server

  class Server {
    var running: bool
    var tickCounter: int
    var currentTps: int
    var currentTpsUse: int
    var hasStopped: bool
    /** The TPS figure of each of the last ticks, by window slot. */
    var averageTps: map<int, int>
    var averageTpsUse: map<int, int>
    ghost var events: seq<ServerEvent>
    const network: Network
    const ip: string
    const port: int

    /** The counter is a 32-bit value and both windows hold slots C#'s remainder can give. */
    ghost predicate Valid()
      reads this`tickCounter, this`averageTps, this`averageTpsUse
    {
      IsInt32(tickCounter) && InSlots(averageTps.Keys) && InSlots(averageTpsUse.Keys)
    }

    /**
     * The initial state, with the network created and named. (The server
     * then starts its interface, runs the tick loop and shuts down; those are
     * the methods below.)
     */
    constructor ()
      ensures Valid() && fresh(network) && network.Valid() && network.sessionManager.Valid()
      ensures running && !hasStopped && tickCounter == 0 && currentTps == MAX_TPS && currentTpsUse == 0
      ensures averageTps == map[] && averageTpsUse == map[] && events == []
      ensures ip == DEFAULT_IP && port == DEFAULT_PORT
      ensures network.name == Some(NETWORK_NAME) && network.interfaces == map[]
    {
      running := true;
      tickCounter := 0;
      currentTps := MAX_TPS;
      currentTpsUse := 0;
      hasStopped := false;
      averageTps := map[];
      averageTpsUse := map[];
      events := [];
      ip := DEFAULT_IP;
      port := DEFAULT_PORT;
      network := new Network();
      new;
      ghost var order := network.SetName(Some(NETWORK_NAME));
    }

    /** One tick: the counter goes up by one, wrapping at the 32-bit bound; nothing else changes. */
    method Tick()
      modifies this`tickCounter
      ensures tickCounter == Wrap32(old(tickCounter) + 1)
    {
      tickCounter := Wrap32(tickCounter + 1);
    }

    /**
     * The body of the tick loop once a tick is due: tick, clamp the measured
     * figures to at most 20 and at most 1, and store them in the window slot
     * of the new counter value, taken with C#'s remainder: once the counter
     * has wrapped to a negative value, so is the slot.
     */
    method RecordTick(tps: int, tpsUse: int)
      requires Valid()
      modifies this`tickCounter, this`currentTps, this`currentTpsUse, this`averageTps, this`averageTpsUse
      ensures Valid()
      ensures tickCounter == Wrap32(old(tickCounter) + 1)
      ensures currentTps == Min(MAX_TPS, tps) && currentTpsUse == Min(MAX_TPS_USE, tpsUse)
      ensures currentTps <= MAX_TPS && currentTpsUse <= MAX_TPS_USE
      ensures averageTps == old(averageTps)[WindowIndexAsWritten(tickCounter) := currentTps]
      ensures averageTpsUse == old(averageTpsUse)[WindowIndexAsWritten(tickCounter) := currentTpsUse]
    {
      Tick();
      currentTps := Min(MAX_TPS, tps);
      currentTpsUse := Min(MAX_TPS_USE, tpsUse);
      var index := WindowIndexAsWritten(tickCounter);
      averageTps := averageTps[index := currentTps];
      averageTpsUse := averageTpsUse[index := currentTpsUse];
    }

    /**
     * The tick loop while the server runs, one pass per sample. Nothing in the
     * loop clears `running`, so it either makes every pass or none. The
     * windows never exceed 39 entries; they stay on the slots 0..19, and so
     * within 20 entries, as long as the counter starts non-negative and does
     * not pass `int.MaxValue`.
     */
    method TickHandler(samples: seq<TickSample>)
      requires Valid()
      modifies this`tickCounter, this`currentTps, this`currentTpsUse, this`averageTps, this`averageTpsUse
      ensures Valid()
      ensures |averageTps| < 2 * WINDOW_SIZE && |averageTpsUse| < 2 * WINDOW_SIZE
      ensures old(running) ==> tickCounter == Wrap32(old(tickCounter) + Ticks(samples))
      ensures !old(running) ==>
        && tickCounter == old(tickCounter) && currentTps == old(currentTps) && currentTpsUse == old(currentTpsUse)
        && averageTps == old(averageTps) && averageTpsUse == old(averageTpsUse)
      ensures InWindow(old(averageTps).Keys) && InWindow(old(averageTpsUse).Keys)
              && 0 <= old(tickCounter) && old(tickCounter) + Ticks(samples) <= INT32_MAX ==>
        && InWindow(averageTps.Keys) && InWindow(averageTpsUse.Keys)
        && |averageTps| <= WINDOW_SIZE && |averageTpsUse| <= WINDOW_SIZE
    {
      ghost var noWrap := InWindow(averageTps.Keys) && InWindow(averageTpsUse.Keys)
                          && 0 <= tickCounter && tickCounter + Ticks(samples) <= INT32_MAX;
      var i := 0;
      while running && i < |samples|
        invariant 0 <= i <= |samples|
        invariant Valid()
        invariant tickCounter == Wrap32(old(tickCounter) + Ticks(samples[..i]))
        invariant !old(running) ==>
          && i == 0 && currentTps == old(currentTps) && currentTpsUse == old(currentTpsUse)
          && averageTps == old(averageTps) && averageTpsUse == old(averageTpsUse)
        invariant noWrap ==>
          && tickCounter == old(tickCounter) + Ticks(samples[..i])
          && InWindow(averageTps.Keys) && InWindow(averageTpsUse.Keys)
      {
        PassAt(samples, i, old(tickCounter), noWrap);
        i := i + 1;
      }
      if running {
        assert samples[..i] == samples;
      }
      WindowBounded(averageTps.Keys);
      WindowBounded(averageTpsUse.Keys);
    }

    /** Pass `i` of `TickHandler`, which started from the counter `counter0`; `noWrap` says the counter cannot wrap. */
    method PassAt(samples: seq<TickSample>, i: nat, ghost counter0: int, ghost noWrap: bool)
      requires Valid() && i < |samples|
      requires tickCounter == Wrap32(counter0 + Ticks(samples[..i]))
      requires noWrap ==>
        && 0 <= counter0 && counter0 + Ticks(samples) <= INT32_MAX
        && tickCounter == counter0 + Ticks(samples[..i])
        && InWindow(averageTps.Keys) && InWindow(averageTpsUse.Keys)
      modifies this`tickCounter, this`currentTps, this`currentTpsUse, this`averageTps, this`averageTpsUse
      ensures Valid()
      ensures tickCounter == Wrap32(counter0 + Ticks(samples[..i + 1]))
      ensures noWrap ==>
        && tickCounter == counter0 + Ticks(samples[..i + 1])
        && InWindow(averageTps.Keys) && InWindow(averageTpsUse.Keys)
    {
      TicksStep(samples, i);
      TicksPrefix(samples, i + 1);
      Wrap32Step(counter0 + Ticks(samples[..i]));
      Pass(samples[i]);
    }

    /** One pass of the tick loop: a tick with the sampled figures when one is due, nothing otherwise. */
    method Pass(sample: TickSample)
      requires Valid()
      modifies this`tickCounter, this`currentTps, this`currentTpsUse, this`averageTps, this`averageTpsUse
      ensures Valid()
      ensures tickCounter == if sample.Measured? then Wrap32(old(tickCounter) + 1) else old(tickCounter)
      ensures sample.Measured? ==>
        && currentTps == Min(MAX_TPS, sample.tps) && currentTpsUse == Min(MAX_TPS_USE, sample.tpsUse)
        && averageTps == old(averageTps)[WindowIndexAsWritten(tickCounter) := currentTps]
        && averageTpsUse == old(averageTpsUse)[WindowIndexAsWritten(tickCounter) := currentTpsUse]
      ensures sample.TooEarly? ==>
        && currentTps == old(currentTps) && currentTpsUse == old(currentTpsUse)
        && averageTps == old(averageTps) && averageTpsUse == old(averageTpsUse)
    {
      match sample {
        case TooEarly =>
        case Measured(tps, tpsUse) =>
          RecordTick(tps, tpsUse);
      }
    }

    /** Clears `running`; a second call changes nothing. */
    method Shutdown()
      modifies this`running
      ensures !running
    {
      if running {
        running := false;
      }
    }

    /**
     * Starts and registers the interface `iface` on `ip`:`port` (see
     * `Network.RegisterInterface`). An interface start error is logged and
     * reported as `false`; any other error is passed on.
     */
    method StartupPreparedConnectableNetworkInterfaces(iface: Iface, exactType: bool, startOutcome: Outcome)
      returns (r: Result<bool>)
      requires network.Valid()
      modifies this`events, network`interfaces, network`advancedInterfaces, network`trace
      ensures network.Valid()
      ensures startOutcome.Pass? ==>
        && r == Ok(true)
        && network.interfaces == old(network.interfaces)[iface.id := iface]
        && events == old(events) + [LoggerCall(MainLoggers.Info,
             "RakLib booted successfully on [" + ip + ":" + IntToString(port) + "].")]
      ensures startOutcome.Fail? && startOutcome.error.InterfaceStart? ==>
        && r == Ok(false)
        && network.interfaces == old(network.interfaces)
        && events == old(events) + [LoggerCall(MainLoggers.Emergency,
             "Failed to start RakLib on [" + ip + ":" + IntToString(port) + "]: " + startOutcome.error.message)]
      ensures startOutcome.Fail? && !startOutcome.error.InterfaceStart? ==>
        && r == Err(startOutcome.error)
        && network.interfaces == old(network.interfaces)
        && events == old(events)
    {
      var registered, banOrder, handlerOrder := network.RegisterInterface(iface, exactType, startOutcome);
      if registered.Err? {
        if registered.error.InterfaceStart? {
          events := events + [LoggerCall(MainLoggers.Emergency,
            "Failed to start RakLib on [" + ip + ":" + IntToString(port) + "]: " + registered.error.message)];
          return Ok(false);
        }
        return Err(registered.error);
      }
      if registered.value {
        events := events + [LoggerCall(MainLoggers.Info, "RakLib booted successfully on [" + ip + ":" + IntToString(port) + "].")];
      }
      r := Ok(true);
    }

    /**
     * Stops the server once: flags it stopped and not running, disconnects
     * every session with "Server closed", and then unregisters (and so shuts
     * down) every interface; `sessionOrder` and `order` are the orders in
     * which the two tables enumerate. A second call does nothing.
     */
    method ForceShutdown() returns (ghost sessionOrder: seq<int>, ghost order: seq<int>)
      requires network.Valid() && network.sessionManager.Valid()
      modifies this`running, this`hasStopped, this`events, network`interfaces, network`advancedInterfaces, network`trace, network.sessionManager
      ensures old(hasStopped) ==> unchanged(this, network, network.sessionManager)
      ensures !old(hasStopped) ==> Stopped(old(running), old(events), old(network.interfaces), old(network.trace),
                                           old(network.sessionManager.sessions.Keys), old(network.sessionManager.events),
                                           sessionOrder, order)
    {
      if hasStopped {
        return [], [];
      }
      sessionOrder, order := Stop();
    }

    /** The state `ForceShutdown` leaves a server in that it found running (or not), with the given events, interfaces, trace and sessions. */
    ghost predicate Stopped(wasRunning: bool, events0: seq<ServerEvent>, interfaces0: map<int, Iface>, trace0: seq<Call>,
                            sessionKeys0: set<int>, sessionEvents0: seq<Sessions.SessionEvent>,
                            sessionOrder: seq<int>, order: seq<int>)
      reads this, network, network.sessionManager
    {
      && hasStopped && !running
      && network.Valid()
      && network.interfaces == map[] && network.advancedInterfaces == map[]
      && EnumeratesOnce(order, interfaces0.Keys)
      && network.trace == trace0 + Broadcast(Values(interfaces0, order), ShutdownNotice)
      && network.sessionManager.sessions == map[]
      && EnumeratesOnce(sessionOrder, sessionKeys0)
      && network.sessionManager.events
         == sessionEvents0 + Sessions.Events(sessionOrder, Sessions.DisconnectCall(CLOSE_REASON))
      && events == events0
         + (if wasRunning then [LoggerCall(MainLoggers.Emergency, "Forcing server shutdown...")] else [])
         + ([SessionsClosed(CLOSE_REASON), LoggerCall(MainLoggers.Debug, "Stopping network interfaces.")]
            + StopEvents(Values(interfaces0, order)))
    }

    /** `ForceShutdown` past its guard. */
    method Stop() returns (ghost sessionOrder: seq<int>, ghost order: seq<int>)
      requires !hasStopped && network.Valid() && network.sessionManager.Valid()
      modifies this`running, this`hasStopped, this`events, network`interfaces, network`advancedInterfaces, network`trace, network.sessionManager
      ensures Stopped(old(running), old(events), old(network.interfaces), old(network.trace),
                      old(network.sessionManager.sessions.Keys), old(network.sessionManager.events), sessionOrder, order)
    {
      // The emergency line is logged only while the server is still running.
      ghost var emergency := if running then [LoggerCall(MainLoggers.Emergency, "Forcing server shutdown...")] else [];
      if running {
        events := events + [LoggerCall(MainLoggers.Emergency, "Forcing server shutdown...")];
      }
      assert events == old(events) + emergency;
      hasStopped := true;
      Shutdown();
      ghost var stops;
      stops, sessionOrder, order := StopNetwork(network);
      events := events + stops;
    }
  }
}
