/**
 * The network registry: the interfaces the server talks through, the subset
 * of them that accept raw packets and bans ("advanced" interfaces), the raw
 * packet handlers, and the banned addresses with their expiry in Unix seconds.
 *
 * Interfaces and handlers are foreign objects, represented by their identity
 * hash and what the registry needs to know about them. Every call the registry
 * makes on them, and every line it hands to the logger, is appended to a ghost
 * trace, so the order of those calls can be stated.
 */
module Networks {
  import opened Common
  import Sessions
  import Bandwidth

  /** A registered network interface: its identity hash and the name of its runtime type. */
  datatype Iface = Iface(id: int, typeName: string)

  /** A raw packet handler: its identity hash and the pattern it filters on. */
  datatype Handler = Handler(id: int, pattern: string)

  /** What a handler's `Handle` did: returned a value, or raised. */
  datatype HandleOutcome =
    | Returned(value: bool)
    | PacketError(message: string)
    | ForeignError(error: Error)

  /** A call made by the registry on an interface, a handler or the logger. */
  datatype Call =
    | StartCall(iface: int)
    | SetNameCall(iface: int, name: Option<string>)
    | IfaceTickCall(iface: int)
    | ShutdownCall(iface: int)
    | SetNetworkCall(iface: int)
    | BlockAddressCall(iface: int, address: string, timeout: int)
    | UnblockAddressCall(iface: int, address: string)
    | SendRawPacketCall(iface: int, address: string, port: int, payload: seq<bv8>)
    | AddRawPacketFilterCall(iface: int, pattern: string)
    | HandleCall(handler: int, iface: int, address: string, port: int, packet: seq<bv8>)
    | DebugLog(message: string)
    | ErrorLog(message: string)

  /** The timeout `UnblockAddress` forwards: the interface method's default. */
  const DEFAULT_BLOCK_TIMEOUT: int := 300
  /** The ban a raw packet that makes its handler raise earns its sender. */
  const BAD_PACKET_BLOCK_TIMEOUT: int := 600
  /** The number of history slots of the network's bandwidth tracker. */
  const BANDWIDTH_HISTORY_SIZE: nat := 5

  // ---------------------------------------------------------------------------
  // Bans

  /** The expiry stored for a ban of `timeout` seconds issued at `now`; a non-positive timeout never expires. */
  function Expiry(now: int, timeout: int): (e: int)
    requires IsInt64(now)
    ensures IsInt64(e)
    ensures timeout <= 0 ==> e == INT64_MAX
    ensures timeout > 0 && now + timeout <= INT64_MAX ==> e == now + timeout
  {
    if timeout > 0 then Wrap64(now + timeout) else INT64_MAX
  }

  /** An address is banned while the clock is strictly before its expiry. */
  predicate IsBanned(banned: map<string, int>, address: string, now: int) {
    address in banned && now < banned[address]
  }

  /** A positive ban issued at `now` holds exactly until `now + timeout`, exclusive. */
  lemma BanLastsTimeout(banned: map<string, int>, address: string, now: int, timeout: int, later: int)
    requires IsInt64(now) && 0 < timeout && now + timeout <= INT64_MAX
    ensures IsBanned(banned[address := Expiry(now, timeout)], address, later) <==> later < now + timeout
  {
  }

  /** A ban with a non-positive timeout holds at every representable time except `Int64.MaxValue` itself. */
  lemma PermanentBan(banned: map<string, int>, address: string, now: int, timeout: int, later: int)
    requires IsInt64(now) && timeout <= 0 && IsInt64(later)
    ensures IsBanned(banned[address := Expiry(now, timeout)], address, later) <==> later != INT64_MAX
  {
  }

  /** A ban of 5 seconds issued at time 0 is in force at time 2 and over at time 6. */
  lemma BanScenario()
    ensures IsBanned(map["203.0.113.5" := Expiry(0, 5)], "203.0.113.5", 2)
    ensures !IsBanned(map["203.0.113.5" := Expiry(0, 5)], "203.0.113.5", 6)
    ensures !IsBanned(map["203.0.113.5" := Expiry(0, 5)], "198.51.100.7", 2)
  {
  }

  // ---------------------------------------------------------------------------
  // Calls issued to every interface of a table

  /** A call the registry makes on every interface of a table alike. */
  datatype Notice =
    | SetNameNotice(name: Option<string>)
    | TickNotice
    | BlockNotice(address: string, timeout: int)
    | UnblockNotice(address: string)
    | SendNotice(address: string, port: int, payload: seq<bv8>)
    | FilterNotice(pattern: string)
    | ShutdownNotice

  function CallFor(i: Iface, n: Notice): Call {
    match n
    case SetNameNotice(name) => SetNameCall(i.id, name)
    case TickNotice => IfaceTickCall(i.id)
    case BlockNotice(address, timeout) => BlockAddressCall(i.id, address, timeout)
    case UnblockNotice(address) => UnblockAddressCall(i.id, address)
    case SendNotice(address, port, payload) => SendRawPacketCall(i.id, address, port, payload)
    case FilterNotice(pattern) => AddRawPacketFilterCall(i.id, pattern)
    case ShutdownNotice => ShutdownCall(i.id)
  }

  /** The notice made to each interface of `ifaces`, in order. */
  function Broadcast(ifaces: seq<Iface>, n: Notice): (calls: seq<Call>)
    ensures |calls| == |ifaces|
  {
    if ifaces == [] then []
    else Broadcast(ifaces[..|ifaces| - 1], n) + [CallFor(ifaces[|ifaces| - 1], n)]
  }

  lemma {:induction false} BroadcastAt(ifaces: seq<Iface>, n: Notice, i: nat)
    requires i < |ifaces|
    ensures Broadcast(ifaces, n)[i] == CallFor(ifaces[i], n)
    decreases |ifaces|
  {
    if i < |ifaces| - 1 {
      BroadcastAt(ifaces[..|ifaces| - 1], n, i);
    }
  }

  /**
   * Whatever order the table enumerates in, every interface of it gets the
   * notice, and the calls are as many as the interfaces.
   */
  lemma BroadcastReachesAll(table: map<int, Iface>, order: seq<int>, n: Notice, k: int)
    requires EnumeratesOnce(order, table.Keys) && k in table
    ensures CallFor(table[k], n) in Broadcast(Values(table, order), n)
    ensures |Broadcast(Values(table, order), n)| == |table|
  {
    ValuesComplete(table, order, k);
    var i :| 0 <= i < |order| && order[i] == k;
    ValuesAt(table, order, i);
    BroadcastAt(Values(table, order), n, i);
  }

  lemma BroadcastStep(ifaces: seq<Iface>, i: nat, n: Notice)
    requires i < |ifaces|
    ensures Broadcast(ifaces[..i + 1], n) == Broadcast(ifaces[..i], n) + [CallFor(ifaces[i], n)]
  {
    assert ifaces[..i + 1][..i] == ifaces[..i];
  }

  /**
   * As written, `UnblockAddress` sends each advanced interface a *block* of
   * the address for the default 300 seconds: no interface is told to lift it.
   */
  lemma UnblockAsWrittenBlocks(ifaces: seq<Iface>, address: string)
    requires |ifaces| > 0
    ensures Broadcast(ifaces, BlockNotice(address, DEFAULT_BLOCK_TIMEOUT))[0]
      == BlockAddressCall(ifaces[0].id, address, DEFAULT_BLOCK_TIMEOUT)
    ensures forall c :: c in Broadcast(ifaces, BlockNotice(address, DEFAULT_BLOCK_TIMEOUT)) ==> !c.UnblockAddressCall?
  {
    var calls := Broadcast(ifaces, BlockNotice(address, DEFAULT_BLOCK_TIMEOUT));
    BroadcastAt(ifaces, BlockNotice(address, DEFAULT_BLOCK_TIMEOUT), 0);
    forall c | c in calls
      ensures !c.UnblockAddressCall?
    {
      var i :| 0 <= i < |calls| && calls[i] == c;
      BroadcastAt(ifaces, BlockNotice(address, DEFAULT_BLOCK_TIMEOUT), i);
    }
  }

  /** The intended forwarding: each interface is told to lift the ban on the address, and nothing else. */
  lemma IntendedUnblockLifts(ifaces: seq<Iface>, address: string)
    ensures forall i :: 0 <= i < |ifaces| ==>
      Broadcast(ifaces, UnblockNotice(address))[i] == UnblockAddressCall(ifaces[i].id, address)
  {
    forall i | 0 <= i < |ifaces|
      ensures Broadcast(ifaces, UnblockNotice(address))[i] == UnblockAddressCall(ifaces[i].id, address)
    {
      BroadcastAt(ifaces, UnblockNotice(address), i);
    }
  }

  /** One `BlockAddress(ip)` per address of `ips`, to interface `id`, with the default timeout. */
  function BanReplay(id: int, ips: seq<string>): (calls: seq<Call>)
    ensures |calls| == |ips|
  {
    if ips == [] then [] else BanReplay(id, ips[..|ips| - 1]) + [BlockAddressCall(id, ips[|ips| - 1], DEFAULT_BLOCK_TIMEOUT)]
  }

  lemma {:induction false} BanReplayAt(id: int, ips: seq<string>, i: nat)
    requires i < |ips|
    ensures BanReplay(id, ips)[i] == BlockAddressCall(id, ips[i], DEFAULT_BLOCK_TIMEOUT)
    decreases |ips|
  {
    if i < |ips| - 1 {
      BanReplayAt(id, ips[..|ips| - 1], i);
    }
  }

  /** One `AddRawPacketFilter(pattern)` per handler of `hs`, to interface `id`. */
  function FilterReplay(id: int, hs: seq<Handler>): (calls: seq<Call>)
    ensures |calls| == |hs|
  {
    if hs == [] then [] else FilterReplay(id, hs[..|hs| - 1]) + [AddRawPacketFilterCall(id, hs[|hs| - 1].pattern)]
  }

  lemma {:induction false} FilterReplayAt(id: int, hs: seq<Handler>, j: nat)
    requires j < |hs|
    ensures FilterReplay(id, hs)[j] == AddRawPacketFilterCall(id, hs[j].pattern)
    decreases |hs|
  {
    if j < |hs| - 1 {
      FilterReplayAt(id, hs[..|hs| - 1], j);
    }
  }

  // ---------------------------------------------------------------------------
  // Raw packet dispatch

  /** `Encoding.ASCII.GetString`: bytes above 0x7F decode to '?'. */
  function AsciiText(packet: seq<bv8>): (text: string)
    ensures |text| == |packet|
    ensures forall i :: 0 <= i < |packet| ==> (packet[i] < 0x80 ==> text[i] == packet[i] as char)
    ensures forall i :: 0 <= i < |packet| ==> (packet[i] >= 0x80 ==> text[i] == '?')
  {
    seq(|packet|, i requires 0 <= i < |packet| => if packet[i] < 0x80 then packet[i] as char else '?')
  }

  /** The inbound packet and what the foreign code answers about it. */
  datatype Context = Context(
    iface: Iface, address: string, port: int, packet: seq<bv8>, now: int,
    advanced: seq<Iface>,
    matches: (string, string) -> bool,
    outcome: Handler -> HandleOutcome)

  /** The dispatch variables: the `handled` flag, the ban table, the trace, and an escaping exception. */
  datatype DispatchState = DispatchState(handled: bool, banned: map<string, int>, trace: seq<Call>, error: Option<Error>)

  predicate Matches(h: Handler, ctx: Context) {
    ctx.matches(h.pattern, AsciiText(ctx.packet))
  }

  function BadPacketMessage(ctx: Context, message: string): string {
    "Bad raw packet from /" + ctx.address + ":" + IntToString(ctx.port) + message
  }

  /** The effect of one handler on the dispatch variables. */
  function Step(h: Handler, st: DispatchState, ctx: Context): DispatchState
    requires IsInt64(ctx.now)
  {
    if !Matches(h, ctx) then st
    else
      var invoked := st.trace + [HandleCall(h.id, ctx.iface.id, ctx.address, ctx.port, ctx.packet)];
      match ctx.outcome(h)
      case Returned(b) => st.(handled := b, trace := invoked)
      case PacketError(m) =>
        DispatchState(
          true,
          st.banned[ctx.address := Expiry(ctx.now, BAD_PACKET_BLOCK_TIMEOUT)],
          invoked + [ErrorLog(BadPacketMessage(ctx, m))]
            + Broadcast(ctx.advanced, BlockNotice(ctx.address, BAD_PACKET_BLOCK_TIMEOUT)),
          None)
      case ForeignError(e) => st.(trace := invoked, error := Some(e))
  }

  /** The handlers `hs` run in order; an exception other than a packet error ends the run. */
  function Dispatch(hs: seq<Handler>, st: DispatchState, ctx: Context): DispatchState
    requires IsInt64(ctx.now)
    decreases |hs|
  {
    if hs == [] || st.error.Some? then st else Dispatch(hs[1..], Step(hs[0], st, ctx), ctx)
  }

  /** One more handler of `hs`, from position `i`. */
  lemma DispatchUnfold(hs: seq<Handler>, i: nat, st: DispatchState, ctx: Context)
    requires IsInt64(ctx.now) && i < |hs| && st.error.None?
    ensures Dispatch(hs[i..], st, ctx) == Dispatch(hs[i + 1..], Step(hs[i], st, ctx), ctx)
  {
    assert hs[i..][0] == hs[i] && hs[i..][1..] == hs[i + 1..];
  }

  /** After a foreign exception no further handler runs. */
  lemma DispatchStops(hs: seq<Handler>, st: DispatchState, ctx: Context)
    requires IsInt64(ctx.now) && st.error.Some?
    ensures Dispatch(hs, st, ctx) == st
  {
  }

  lemma {:induction false} DispatchAppend(xs: seq<Handler>, ys: seq<Handler>, st: DispatchState, ctx: Context)
    requires IsInt64(ctx.now)
    ensures Dispatch(xs + ys, st, ctx) == Dispatch(ys, Dispatch(xs, st, ctx), ctx)
    decreases |xs|
  {
    if xs == [] {
      assert xs + ys == ys;
    } else if st.error.Some? {
      assert Dispatch(ys, st, ctx) == st by {
        if ys != [] { }
      }
    } else {
      assert (xs + ys)[1..] == xs[1..] + ys;
      DispatchAppend(xs[1..], ys, Step(xs[0], st, ctx), ctx);
    }
  }

  /** The `handled` value a matching handler leaves behind. */
  function HandledValue(o: HandleOutcome): bool {
    match o
    case Returned(b) => b
    case PacketError(_) => true
    case ForeignError(_) => false
  }

  /** No matching handler raises anything but a packet error. */
  predicate NoForeignError(hs: seq<Handler>, ctx: Context) {
    forall i :: 0 <= i < |hs| && Matches(hs[i], ctx) ==> !ctx.outcome(hs[i]).ForeignError?
  }

  /** The position of the last handler whose pattern matches, if any. */
  function LastMatch(hs: seq<Handler>, ctx: Context): (r: Option<nat>)
    ensures r.Some? ==> r.value < |hs| && Matches(hs[r.value], ctx)
    ensures r.Some? ==> forall j :: r.value < j < |hs| ==> !Matches(hs[j], ctx)
    ensures r.None? ==> forall j :: 0 <= j < |hs| ==> !Matches(hs[j], ctx)
  {
    if hs == [] then None
    else if Matches(hs[|hs| - 1], ctx) then Some(|hs| - 1)
    else LastMatch(hs[..|hs| - 1], ctx)
  }

  /**
   * `handled` is overwritten by each matching handler: at the end it is the
   * value the last matching handler left, or its initial value when none matched.
   */
  lemma {:induction false} HandledIsLastMatch(hs: seq<Handler>, st: DispatchState, ctx: Context)
    requires IsInt64(ctx.now) && st.error.None? && NoForeignError(hs, ctx)
    ensures Dispatch(hs, st, ctx).error.None?
    ensures Dispatch(hs, st, ctx).handled ==
      match LastMatch(hs, ctx)
      case None => st.handled
      case Some(i) => HandledValue(ctx.outcome(hs[i]))
    decreases |hs|
  {
    if hs != [] {
      var init, last := hs[..|hs| - 1], hs[|hs| - 1];
      assert init + [last] == hs;
      DispatchAppend(init, [last], st, ctx);
      assert NoForeignError(init, ctx) by {
        forall i | 0 <= i < |init| && Matches(init[i], ctx)
          ensures !ctx.outcome(init[i]).ForeignError?
        {
          assert init[i] == hs[i];
        }
      }
      HandledIsLastMatch(init, st, ctx);
      var mid := Dispatch(init, st, ctx);
      assert Dispatch([last], mid, ctx) == Step(last, mid, ctx);
      if !Matches(last, ctx) {
        assert LastMatch(hs, ctx) == LastMatch(init, ctx);
      }
    }
  }

  /** A matching handler that raises a packet error. */
  predicate RaisesPacketError(h: Handler, ctx: Context) {
    Matches(h, ctx) && ctx.outcome(h).PacketError?
  }

  /**
   * The ban table changes only at the packet's address, and there exactly when
   * some matching handler raised a packet error: the address is then banned
   * for 600 seconds from `now`.
   */
  lemma {:induction false} DispatchBans(hs: seq<Handler>, st: DispatchState, ctx: Context)
    requires IsInt64(ctx.now) && st.error.None? && NoForeignError(hs, ctx)
    ensures Dispatch(hs, st, ctx).banned ==
      if exists i :: 0 <= i < |hs| && RaisesPacketError(hs[i], ctx)
      then st.banned[ctx.address := Expiry(ctx.now, BAD_PACKET_BLOCK_TIMEOUT)]
      else st.banned
    decreases |hs|
  {
    if hs != [] {
      var next := Step(hs[0], st, ctx);
      assert NoForeignError(hs[1..], ctx) by {
        forall i | 0 <= i < |hs[1..]| && Matches(hs[1..][i], ctx)
          ensures !ctx.outcome(hs[1..][i]).ForeignError?
        {
          assert hs[1..][i] == hs[i + 1];
        }
      }
      DispatchBans(hs[1..], next, ctx);
      if exists i :: 0 <= i < |hs[1..]| && RaisesPacketError(hs[1..][i], ctx) {
        var i :| 0 <= i < |hs[1..]| && RaisesPacketError(hs[1..][i], ctx);
        assert RaisesPacketError(hs[i + 1], ctx);
      } else if !RaisesPacketError(hs[0], ctx) {
        forall i | 0 <= i < |hs|
          ensures !RaisesPacketError(hs[i], ctx)
        {
          if i > 0 {
            assert hs[i] == hs[1..][i - 1];
          }
        }
      }
    }
  }

  /** The handler ids of the `Handle` calls among `calls`, in order. */
  function HandlerCalls(calls: seq<Call>): seq<int> {
    if calls == [] then []
    else (if calls[0].HandleCall? then [calls[0].handler] else []) + HandlerCalls(calls[1..])
  }

  lemma {:induction false} HandlerCallsAppend(a: seq<Call>, b: seq<Call>)
    ensures HandlerCalls(a + b) == HandlerCalls(a) + HandlerCalls(b)
    decreases |a|
  {
    if a != [] {
      assert (a + b)[0] == a[0];
      assert (a + b)[1..] == a[1..] + b;
      HandlerCallsAppend(a[1..], b);
      var head := if a[0].HandleCall? then [a[0].handler] else [];
      assert HandlerCalls(a + b) == head + (HandlerCalls(a[1..]) + HandlerCalls(b));
      assert head + (HandlerCalls(a[1..]) + HandlerCalls(b)) == (head + HandlerCalls(a[1..])) + HandlerCalls(b);
    } else {
      assert a + b == b;
    }
  }

  lemma {:induction false} NoHandlerCalls(calls: seq<Call>)
    requires forall i :: 0 <= i < |calls| ==> !calls[i].HandleCall?
    ensures HandlerCalls(calls) == []
    decreases |calls|
  {
    if calls != [] {
      NoHandlerCalls(calls[1..]);
    }
  }

  /** The ids of the handlers of `hs` whose pattern matches, in order. */
  function MatchingIds(hs: seq<Handler>, ctx: Context): (ids: seq<int>)
    ensures |ids| <= |hs|
    ensures forall h :: h in hs && Matches(h, ctx) ==> h.id in ids
    ensures forall id :: id in ids ==> exists h :: h in hs && Matches(h, ctx) && h.id == id
  {
    if hs == [] then []
    else (if Matches(hs[0], ctx) then [hs[0].id] else []) + MatchingIds(hs[1..], ctx)
  }

  /** A handler step adds the handler's id to the handler calls exactly when it matches. */
  lemma StepHandlerCalls(h: Handler, st: DispatchState, ctx: Context)
    requires IsInt64(ctx.now)
    ensures HandlerCalls(Step(h, st, ctx).trace) == HandlerCalls(st.trace) + (if Matches(h, ctx) then [h.id] else [])
  {
    if Matches(h, ctx) {
      var call := HandleCall(h.id, ctx.iface.id, ctx.address, ctx.port, ctx.packet);
      HandlerCallsAppend(st.trace, [call]);
      assert HandlerCalls([call]) == [h.id];
      if ctx.outcome(h).PacketError? {
        var notice := BlockNotice(ctx.address, BAD_PACKET_BLOCK_TIMEOUT);
        var rest := [ErrorLog(BadPacketMessage(ctx, ctx.outcome(h).message))] + Broadcast(ctx.advanced, notice);
        forall i | 0 <= i < |rest| ensures !rest[i].HandleCall? {
          if i > 0 { BroadcastAt(ctx.advanced, notice, i - 1); }
        }
        NoHandlerCalls(rest);
        HandlerCallsAppend(st.trace + [call], rest);
        assert Step(h, st, ctx).trace == st.trace + [call] + rest;
      }
    }
  }

  lemma NoForeignErrorTail(hs: seq<Handler>, ctx: Context)
    requires hs != [] && NoForeignError(hs, ctx)
    ensures NoForeignError(hs[1..], ctx)
  {
    forall i | 0 <= i < |hs[1..]| && Matches(hs[1..][i], ctx)
      ensures !ctx.outcome(hs[1..][i]).ForeignError?
    {
      assert hs[1..][i] == hs[i + 1];
    }
  }

  /** Every matching handler is invoked, once, in enumeration order, and no other handler is. */
  lemma {:induction false} DispatchInvokesMatching(hs: seq<Handler>, st: DispatchState, ctx: Context)
    requires IsInt64(ctx.now) && st.error.None? && NoForeignError(hs, ctx)
    ensures HandlerCalls(Dispatch(hs, st, ctx).trace) == HandlerCalls(st.trace) + MatchingIds(hs, ctx)
    decreases |hs|
  {
    if hs != [] {
      var next := Step(hs[0], st, ctx);
      var mine := if Matches(hs[0], ctx) then [hs[0].id] else [];
      NoForeignErrorTail(hs, ctx);
      StepHandlerCalls(hs[0], st, ctx);
      assert next.error.None?;
      DispatchInvokesMatching(hs[1..], next, ctx);
      calc {
        HandlerCalls(Dispatch(hs, st, ctx).trace);
        HandlerCalls(Dispatch(hs[1..], next, ctx).trace);
        HandlerCalls(next.trace) + MatchingIds(hs[1..], ctx);
        (HandlerCalls(st.trace) + mine) + MatchingIds(hs[1..], ctx);
        HandlerCalls(st.trace) + (mine + MatchingIds(hs[1..], ctx));
      }
    }
  }

  /** What became of a raw packet that raised nothing foreign. */
  datatype Delivery = Dropped | Delivered(handled: bool)

  function DroppedMessage(address: string, port: int): string {
    "Dropped raw packet from banned address " + address + ":" + IntToString(port)
  }

  function UnhandledMessage(address: string, port: int): string {
    "Unhandled raw packet from /" + address + ":" + IntToString(port)
  }

  /** The first `n` interfaces tick; `n` stops after the first one that fails, if any. */
  function TickedCount(ifaces: seq<Iface>, outcome: Iface -> Outcome): (n: nat)
    ensures n <= |ifaces|
    ensures forall j :: 0 <= j < n - 1 ==> outcome(ifaces[j]).Pass?
    ensures n < |ifaces| ==> n > 0 && outcome(ifaces[n - 1]).Fail?
  {
    if ifaces == [] then 0
    else if outcome(ifaces[0]).Fail? then 1
    else 1 + TickedCount(ifaces[1..], outcome)
  }

  /** The first failing interface among those that ticked, if any. */
  function FirstFailure(ifaces: seq<Iface>, outcome: Iface -> Outcome): (r: Option<Error>)
    ensures r.None? <==> forall j :: 0 <= j < |ifaces| ==> outcome(ifaces[j]).Pass?
  {
    if ifaces == [] then None
    else if outcome(ifaces[0]).Fail? then Some(outcome(ifaces[0]).error)
    else FirstFailure(ifaces[1..], outcome)
  }

  /** An interface that fails after all earlier ones passed is the last one to tick. */
  lemma {:induction false} TickedCountAt(ifaces: seq<Iface>, outcome: Iface -> Outcome, i: nat)
    requires i < |ifaces| && outcome(ifaces[i]).Fail?
    requires forall j :: 0 <= j < i ==> outcome(ifaces[j]).Pass?
    ensures TickedCount(ifaces, outcome) == i + 1
    ensures FirstFailure(ifaces, outcome) == Some(outcome(ifaces[i]).error)
    decreases i
  {
    if i > 0 {
      TickedCountAt(ifaces[1..], outcome, i - 1);
    }
  }

  /** When every interface passes, all of them tick. */
  lemma {:induction false} TickedCountAll(ifaces: seq<Iface>, outcome: Iface -> Outcome)
    requires forall j :: 0 <= j < |ifaces| ==> outcome(ifaces[j]).Pass?
    ensures TickedCount(ifaces, outcome) == |ifaces|
    decreases |ifaces|
  {
    if ifaces != [] {
      TickedCountAll(ifaces[1..], outcome);
    }
  }

  // ---------------------------------------------------------------------------
  // Calling every interface of a table

  /** Makes `notice` to each interface of `ifaces` in turn. */
  method Notify(ifaces: seq<Iface>, notice: Notice) returns (calls: seq<Call>)
    ensures calls == Broadcast(ifaces, notice)
  {
    calls := [];
    for i := 0 to |ifaces|
      invariant calls == Broadcast(ifaces[..i], notice)
    {
      BroadcastStep(ifaces, i, notice);
      calls := calls + [CallFor(ifaces[i], notice)];
    }
    assert ifaces[..|ifaces|] == ifaces;
  }

  /** Makes `notice` to each interface of `table`, in the order `order` the table enumerates its keys. */
  method NotifyTable(table: map<int, Iface>, notice: Notice) returns (calls: seq<Call>, ghost order: seq<int>)
    ensures EnumeratesOnce(order, table.Keys)
    ensures calls == Broadcast(Values(table, order), notice)
  {
    var keys := EnumerationOrder(table.Keys);
    calls := Notify(Values(table, keys), notice);
    order := keys;
  }

  /** Forwards every banned address to interface `id`, in whatever order the ban table enumerates. */
  method ReplayBans(id: int, banned: set<string>) returns (calls: seq<Call>, ghost order: seq<string>)
    ensures EnumeratesOnce(order, banned)
    ensures calls == BanReplay(id, order)
  {
    calls, order := [], [];
    var remaining := banned;
    while remaining != {}
      invariant remaining <= banned
      invariant calls == BanReplay(id, order)
      invariant forall x :: x in banned <==> x in remaining || x in order
      invariant forall x :: x in remaining ==> x !in order
      invariant |order| + |remaining| == |banned|
      invariant forall i, j :: 0 <= i < j < |order| ==> order[i] != order[j]
      decreases remaining
    {
      NonEmptyHasString(remaining);
      var ip :| ip in remaining;
      calls := calls + [BlockAddressCall(id, ip, DEFAULT_BLOCK_TIMEOUT)];
      assert (order + [ip])[..|order|] == order;
      order := order + [ip];
      remaining := remaining - {ip};
    }
  }

  /** Forwards the pattern of every handler of `hs` to interface `id`, in order. */
  method ReplayFilters(id: int, hs: seq<Handler>) returns (calls: seq<Call>)
    ensures calls == FilterReplay(id, hs)
  {
    calls := [];
    for i := 0 to |hs|
      invariant calls == FilterReplay(id, hs[..i])
    {
      assert hs[..i + 1][..i] == hs[..i];
      calls := calls + [AddRawPacketFilterCall(id, hs[i].pattern)];
    }
    assert hs[..|hs|] == hs;
  }

  /** Ticks the interfaces of `ifaces` in turn, stopping after the first that fails. */
  method TickAll(ifaces: seq<Iface>, outcome: Iface -> Outcome) returns (calls: seq<Call>, r: Outcome)
    ensures calls == Broadcast(ifaces[..TickedCount(ifaces, outcome)], TickNotice)
    ensures r == (match FirstFailure(ifaces, outcome) case None => Pass case Some(e) => Fail(e))
  {
    calls := [];
    for i := 0 to |ifaces|
      invariant calls == Broadcast(ifaces[..i], TickNotice)
      invariant forall j :: 0 <= j < i ==> outcome(ifaces[j]).Pass?
    {
      BroadcastStep(ifaces, i, TickNotice);
      calls := calls + [CallFor(ifaces[i], TickNotice)];
      var o := outcome(ifaces[i]);
      if o.Fail? {
        TickedCountAt(ifaces, outcome, i);
        return calls, o;
      }
    }
    assert ifaces[..|ifaces|] == ifaces;
    TickedCountAll(ifaces, outcome);
    r := Pass;
  }

  /**
   * The calls that follow a successful start of interface `id`: an advanced
   * interface is given the network, each ban and each handler pattern; then
   * every interface is named.
   */
  function Registration(id: int, exactType: bool, banOrder: seq<string>, handlers: seq<Handler>, name: Option<string>): (calls: seq<Call>)
    ensures |calls| >= 1 && calls[|calls| - 1] == SetNameCall(id, name)
    ensures exactType ==> calls[0] == SetNetworkCall(id) && |calls| == 2 + |banOrder| + |handlers|
    ensures !exactType ==> |calls| == 1
  {
    (if exactType then [SetNetworkCall(id)] + BanReplay(id, banOrder) + FilterReplay(id, handlers) else [])
      + [SetNameCall(id, name)]
  }

  /**
   * As written, the guard `GetType() == typeof(AdvancedNetworkInterface)` is
   * false for every interface: `AdvancedNetworkInterface` is an interface
   * type, and no object has an interface type as its runtime class. A
   * registration is then only the naming call, so no ban reaches a new
   * interface, while the guard the code evidently means would forward the first one.
   */
  lemma RegistrationAsWritten(id: int, banOrder: seq<string>, handlers: seq<Handler>, name: Option<string>)
    ensures Registration(id, false, banOrder, handlers, name) == [SetNameCall(id, name)]
    ensures banOrder != [] ==>
      && BlockAddressCall(id, banOrder[0], DEFAULT_BLOCK_TIMEOUT) in Registration(id, true, banOrder, handlers, name)
      && BlockAddressCall(id, banOrder[0], DEFAULT_BLOCK_TIMEOUT) !in Registration(id, false, banOrder, handlers, name)
  {
    if banOrder != [] {
      BanReplayAt(id, banOrder, 0);
      assert Registration(id, true, banOrder, handlers, name)[1] == BlockAddressCall(id, banOrder[0], DEFAULT_BLOCK_TIMEOUT);
    }
  }

  /**
   * The registration the guard `networkInterface is AdvancedNetworkInterface`
   * gives an advanced interface: the network first, then each banned address
   * with the default timeout, then each handler's pattern, all in order, and
   * the name last.
   */
  lemma IntendedRegistration(id: int, banOrder: seq<string>, handlers: seq<Handler>, name: Option<string>)
    ensures var calls := Registration(id, true, banOrder, handlers, name);
      && calls[0] == SetNetworkCall(id)
      && (forall i :: 0 <= i < |banOrder| ==> calls[1 + i] == BlockAddressCall(id, banOrder[i], DEFAULT_BLOCK_TIMEOUT))
      && (forall j :: 0 <= j < |handlers| ==>
            calls[1 + |banOrder| + j] == AddRawPacketFilterCall(id, handlers[j].pattern))
      && calls[|calls| - 1] == SetNameCall(id, name)
  {
    var calls := Registration(id, true, banOrder, handlers, name);
    forall i | 0 <= i < |banOrder|
      ensures calls[1 + i] == BlockAddressCall(id, banOrder[i], DEFAULT_BLOCK_TIMEOUT)
    {
      BanReplayAt(id, banOrder, i);
    }
    forall j | 0 <= j < |handlers|
      ensures calls[1 + |banOrder| + j] == AddRawPacketFilterCall(id, handlers[j].pattern)
    {
      FilterReplayAt(id, handlers, j);
    }
  }

  /**
   * Makes the calls of `Registration` for a started interface; an advanced
   * one enumerates the ban table once (`banOrder`) and the handler table once
   * (`handlerOrder`).
   */
  method Register(id: int, exactType: bool, banned: set<string>, handlers: map<int, Handler>, name: Option<string>)
    returns (calls: seq<Call>, ghost banOrder: seq<string>, ghost handlerOrder: seq<int>)
    ensures exactType ==> EnumeratesOnce(banOrder, banned) && EnumeratesOnce(handlerOrder, handlers.Keys)
    ensures !exactType ==> handlerOrder == []
    ensures calls == Registration(id, exactType, banOrder, Values(handlers, handlerOrder), name)
  {
    banOrder, handlerOrder := [], [];
    calls := [];
    if exactType {
      var bans;
      bans, banOrder := ReplayBans(id, banned);
      var keys := EnumerationOrder(handlers.Keys);
      var filters := ReplayFilters(id, Values(handlers, keys));
      handlerOrder := keys;
      calls := [SetNetworkCall(id)] + bans + filters;
    }
    calls := calls + [SetNameCall(id, name)];
  }

  // ---------------------------------------------------------------------------
  // The registry

  class Network {
    var interfaces: map<int, Iface>
    var advancedInterfaces: map<int, Iface>
    var rawPacketHandlers: map<int, Handler>
    /** Address to ban expiry, in Unix seconds. */
    var bannedIps: map<string, int>
    /** The server name handed to interfaces; absent until set. */
    var name: Option<string>
    const bandwidthTracker: Bandwidth.BidirectionalBandwidthStatsTracker
    const sessionManager: Sessions.NetworkSessionManager
    ghost var trace: seq<Call>

    /** Entries are keyed by identity, and every advanced interface is also a registered interface. */
    ghost predicate Valid()
      reads this`interfaces, this`rawPacketHandlers, this`advancedInterfaces
    {
      && (forall k :: k in interfaces ==> interfaces[k].id == k)
      && (forall k :: k in rawPacketHandlers ==> rawPacketHandlers[k].id == k)
      && advancedInterfaces.Keys <= interfaces.Keys
    }

    constructor ()
      ensures Valid()
      ensures interfaces == map[] && advancedInterfaces == map[] && rawPacketHandlers == map[]
      ensures bannedIps == map[] && name == None && trace == []
      ensures fresh(bandwidthTracker) && bandwidthTracker.Valid()
      ensures bandwidthTracker.send.history.Length == BANDWIDTH_HISTORY_SIZE
      ensures bandwidthTracker.receive.history.Length == BANDWIDTH_HISTORY_SIZE
      ensures fresh(sessionManager) && sessionManager.Valid() && sessionManager.sessions == map[]
    {
      interfaces := map[];
      advancedInterfaces := map[];
      rawPacketHandlers := map[];
      bannedIps := map[];
      name := None;
      trace := [];
      bandwidthTracker := new Bandwidth.BidirectionalBandwidthStatsTracker(BANDWIDTH_HISTORY_SIZE);
      sessionManager := new Sessions.NetworkSessionManager();
    }

    /**
     * Starts `iface` and, if that succeeds, registers it. `exactType` is the
     * outcome of the runtime check that the interface's exact type is the
     * advanced interface type; only then is it also registered as advanced,
     * given this network, every banned address and every handler pattern.
     * The interface is named last. `banOrder` and `handlerOrder` are the
     * orders in which the ban and handler tables happened to be enumerated.
     */
    method RegisterInterface(iface: Iface, exactType: bool, startOutcome: Outcome)
      returns (r: Result<bool>, ghost banOrder: seq<string>, ghost handlerOrder: seq<int>)
      requires Valid()
      modifies this`interfaces, this`advancedInterfaces, this`trace
      ensures Valid()
      ensures startOutcome.Fail? ==>
        && r == Err(startOutcome.error)
        && trace == old(trace) + [StartCall(iface.id)]
        && interfaces == old(interfaces) && advancedInterfaces == old(advancedInterfaces)
      ensures startOutcome.Pass? ==>
        && r == Ok(true)
        && interfaces == old(interfaces)[iface.id := iface]
        && advancedInterfaces == (if exactType then old(advancedInterfaces)[iface.id := iface] else old(advancedInterfaces))
        && (exactType ==> EnumeratesOnce(banOrder, bannedIps.Keys) && EnumeratesOnce(handlerOrder, rawPacketHandlers.Keys))
        && (!exactType ==> handlerOrder == [])
        && trace == old(trace) + [StartCall(iface.id)]
             + Registration(iface.id, exactType, banOrder, Values(rawPacketHandlers, handlerOrder), name)
    {
      var hash := iface.id;
      if startOutcome.Fail? {
        trace := trace + [StartCall(hash)];
        return Err(startOutcome.error), [], [];
      }
      // The start call comes first; the tables are updated before the
      // registration calls, which read neither of them.
      var calls;
      calls, banOrder, handlerOrder := Register(hash, exactType, bannedIps.Keys, rawPacketHandlers, name);
      Install(iface, exactType, calls);
      r := Ok(true);
    }

    /** The tables and the trace of a successful registration whose calls are `calls`. */
    method Install(iface: Iface, exactType: bool, calls: seq<Call>)
      requires Valid()
      modifies this`interfaces, this`advancedInterfaces, this`trace
      ensures Valid()
      ensures interfaces == old(interfaces)[iface.id := iface]
      ensures advancedInterfaces == if exactType then old(advancedInterfaces)[iface.id := iface] else old(advancedInterfaces)
      ensures trace == old(trace) + [StartCall(iface.id)] + calls
    {
      interfaces := interfaces[iface.id := iface];
      if exactType {
        advancedInterfaces := advancedInterfaces[iface.id := iface];
      }
      trace := trace + [StartCall(iface.id)] + calls;
    }

    /** Removes a registered interface from both tables and shuts it down; an unknown one is an argument error. */
    method UnregisterInterface(iface: Iface) returns (r: Outcome)
      requires Valid()
      modifies this`interfaces, this`advancedInterfaces, this`trace
      ensures Valid()
      ensures iface.id !in old(interfaces) ==>
        && r == Fail(ArgumentError("Interface does not exist on this network."))
        && unchanged(this)
      ensures iface.id in old(interfaces) ==>
        && r == Pass
        && interfaces == old(interfaces) - {iface.id}
        && advancedInterfaces == old(advancedInterfaces) - {iface.id}
        && trace == old(trace) + [ShutdownCall(iface.id)]
    {
      var hash := iface.id;
      if hash !in interfaces {
        return Fail(ArgumentError("Interface does not exist on this network."));
      }
      interfaces := interfaces - {hash};
      advancedInterfaces := advancedInterfaces - {hash};
      trace := trace + [ShutdownCall(hash)];
      r := Pass;
    }

    /** Passes the current name to every registered interface, in the order `order` the table enumerates. */
    method UpdateName() returns (ghost order: seq<int>)
      modifies this`trace
      ensures EnumeratesOnce(order, interfaces.Keys)
      ensures trace == old(trace) + Broadcast(Values(interfaces, order), SetNameNotice(name))
    {
      var calls;
      calls, order := NotifyTable(interfaces, SetNameNotice(name));
      trace := trace + calls;
    }

    /** The `Name` setter: stores the name, then renames every registered interface. */
    method SetName(value: Option<string>) returns (ghost order: seq<int>)
      modifies this`name, this`trace
      ensures name == value
      ensures EnumeratesOnce(order, interfaces.Keys)
      ensures trace == old(trace) + Broadcast(Values(interfaces, order), SetNameNotice(value))
    {
      name := value;
      order := UpdateName();
    }

    /** Sends a raw packet through every advanced interface. */
    method SendPacket(address: string, port: int, payload: seq<bv8>) returns (ghost order: seq<int>)
      modifies this`trace
      ensures EnumeratesOnce(order, advancedInterfaces.Keys)
      ensures trace == old(trace) + Broadcast(Values(advancedInterfaces, order), SendNotice(address, port, payload))
    {
      var calls;
      calls, order := NotifyTable(advancedInterfaces, SendNotice(address, port, payload));
      trace := trace + calls;
    }

    /** Bans `address` for `timeout` seconds from `now` (for ever when not positive) and forwards the ban. */
    method BlockAddress(address: string, timeout: int, now: int) returns (ghost order: seq<int>)
      requires IsInt64(now)
      modifies this`bannedIps, this`trace
      ensures bannedIps == old(bannedIps)[address := Expiry(now, timeout)]
      ensures EnumeratesOnce(order, advancedInterfaces.Keys)
      ensures trace == old(trace) + Broadcast(Values(advancedInterfaces, order), BlockNotice(address, timeout))
    {
      var keys := EnumerationOrder(advancedInterfaces.Keys);
      BlockThrough(address, timeout, now, keys);
      order := keys;
    }

    /**
     * `BlockAddress` when the advanced interfaces are enumerated in the order
     * `order`. The table does not change while raw packet handlers run, so
     * every ban they cause enumerates it alike.
     */
    method BlockThrough(address: string, timeout: int, now: int, order: seq<int>)
      requires IsInt64(now) && EnumeratesOnce(order, advancedInterfaces.Keys)
      modifies this`bannedIps, this`trace
      ensures bannedIps == old(bannedIps)[address := Expiry(now, timeout)]
      ensures trace == old(trace) + Broadcast(Values(advancedInterfaces, order), BlockNotice(address, timeout))
    {
      bannedIps := bannedIps[address := Expiry(now, timeout)];
      var calls := Notify(Values(advancedInterfaces, order), BlockNotice(address, timeout));
      trace := trace + calls;
    }

    /**
     * Lifts the ban on `address` in the table, but forwards a *block* of the
     * address, with the default timeout, to every advanced interface.
     */
    method UnblockAddress(address: string) returns (ghost order: seq<int>)
      modifies this`bannedIps, this`trace
      ensures bannedIps == old(bannedIps) - {address}
      ensures EnumeratesOnce(order, advancedInterfaces.Keys)
      ensures trace == old(trace) + Broadcast(Values(advancedInterfaces, order), BlockNotice(address, DEFAULT_BLOCK_TIMEOUT))
    {
      bannedIps := bannedIps - {address};
      var calls;
      calls, order := NotifyTable(advancedInterfaces, BlockNotice(address, DEFAULT_BLOCK_TIMEOUT));
      trace := trace + calls;
    }

    /** `UnblockAddress` as evidently intended: the ban is lifted in the table and at every advanced interface. */
    method UnblockAddressIntended(address: string) returns (ghost order: seq<int>)
      modifies this`bannedIps, this`trace
      ensures bannedIps == old(bannedIps) - {address}
      ensures EnumeratesOnce(order, advancedInterfaces.Keys)
      ensures trace == old(trace) + Broadcast(Values(advancedInterfaces, order), UnblockNotice(address))
    {
      bannedIps := bannedIps - {address};
      var calls;
      calls, order := NotifyTable(advancedInterfaces, UnblockNotice(address));
      trace := trace + calls;
    }

    /** Stores `handler` under its identity and forwards its pattern to every advanced interface. */
    method RegisterRawPacketHandler(handler: Handler) returns (ghost order: seq<int>)
      requires Valid()
      modifies this`rawPacketHandlers, this`trace
      ensures Valid()
      ensures rawPacketHandlers == old(rawPacketHandlers)[handler.id := handler]
      ensures EnumeratesOnce(order, advancedInterfaces.Keys)
      ensures trace == old(trace) + Broadcast(Values(advancedInterfaces, order), FilterNotice(handler.pattern))
    {
      rawPacketHandlers := rawPacketHandlers[handler.id := handler];
      var calls;
      calls, order := NotifyTable(advancedInterfaces, FilterNotice(handler.pattern));
      trace := trace + calls;
    }

    /** Deletes the handler's table entry only; the interfaces keep the filter. */
    method UnregisterRawPacketHandler(handler: Handler)
      requires Valid()
      modifies this`rawPacketHandlers
      ensures Valid()
      ensures rawPacketHandlers == old(rawPacketHandlers) - {handler.id}
    {
      rawPacketHandlers := rawPacketHandlers - {handler.id};
    }

    /**
     * Handles a raw packet from `address`:`port` that arrived on `iface`. A
     * packet from an address banned at `now` is dropped. Otherwise every
     * handler whose pattern matches the packet's ASCII text is invoked, in
     * the order `handlerOrder` the handler table enumerates; a packet error
     * from a handler bans the address for 600 seconds, forwarded to the
     * advanced interfaces in the order `advancedOrder`. `matches` decides
     * pattern matching and `outcome` what each handler's `Handle` does.
     */
    method ProcessRawPacket(iface: Iface, address: string, port: int, packet: seq<bv8>, now: int,
                            matches: (string, string) -> bool, outcome: Handler -> HandleOutcome)
      returns (r: Result<Delivery>, ghost handlerOrder: seq<int>, ghost advancedOrder: seq<int>)
      requires Valid() && IsInt64(now)
      modifies this`bannedIps, this`trace
      ensures IsBanned(old(bannedIps), address, now) ==>
        && r == Ok(Dropped)
        && bannedIps == old(bannedIps)
        && trace == old(trace) + [DebugLog(DroppedMessage(address, port))]
      ensures !IsBanned(old(bannedIps), address, now) ==>
        EnumeratesOnce(handlerOrder, rawPacketHandlers.Keys) && EnumeratesOnce(advancedOrder, advancedInterfaces.Keys)
      ensures !IsBanned(old(bannedIps), address, now) ==>
        var ctx := Context(iface, address, port, packet, now, Values(advancedInterfaces, advancedOrder), matches, outcome);
        var final := Dispatch(Values(rawPacketHandlers, handlerOrder), DispatchState(false, old(bannedIps), old(trace), None), ctx);
        && bannedIps == final.banned
        && (final.error.Some? ==> r == Err(final.error.value) && trace == final.trace)
        && (final.error.None? ==> r == Ok(Delivered(final.handled)))
        && (final.error.None? && final.handled ==> trace == final.trace)
        && (final.error.None? && !final.handled ==> trace == final.trace + [DebugLog(UnhandledMessage(address, port))])
    {
      if address in bannedIps && now < bannedIps[address] {
        trace := trace + [DebugLog(DroppedMessage(address, port))];
        return Ok(Dropped), [], [];
      }
      var advanced := EnumerationOrder(advancedInterfaces.Keys);
      var handlerKeys := EnumerationOrder(rawPacketHandlers.Keys);
      handlerOrder, advancedOrder := handlerKeys, advanced;
      var ctx := Context(iface, address, port, packet, now, Values(advancedInterfaces, advanced), matches, outcome);
      ghost var trace0 := trace;
      var handled, error := RunHandlers(Values(rawPacketHandlers, handlerKeys), ctx, advanced);
      ghost var final := Dispatch(Values(rawPacketHandlers, handlerKeys), DispatchState(false, old(bannedIps), trace0, None), ctx);
      assert final == DispatchState(handled, bannedIps, trace, error);
      if error.Some? {
        r := Err(error.value);
        return;
      }
      if !handled {
        trace := trace + [DebugLog(UnhandledMessage(address, port))];
      }
      r := Ok(Delivered(handled));
    }

    /**
     * The handler loop of `ProcessRawPacket`: each handler whose pattern
     * matches the packet's text is invoked, and its outcome is folded as
     * `Dispatch` says; a packet error bans the sender through `BlockAddress`.
     */
    method RunHandlers(hs: seq<Handler>, ctx: Context, advanced: seq<int>) returns (handled: bool, error: Option<Error>)
      requires IsInt64(ctx.now) && EnumeratesOnce(advanced, advancedInterfaces.Keys)
      requires ctx.advanced == Values(advancedInterfaces, advanced)
      modifies this`bannedIps, this`trace
      ensures DispatchState(handled, bannedIps, trace, error)
        == Dispatch(hs, DispatchState(false, old(bannedIps), old(trace), None), ctx)
    {
      ghost var init := DispatchState(false, bannedIps, trace, None);
      handled := false;
      error := None;
      var text := AsciiText(ctx.packet);
      for i := 0 to |hs|
        invariant error == None
        invariant Dispatch(hs[i..], DispatchState(handled, bannedIps, trace, None), ctx) == Dispatch(hs, init, ctx)
      {
        DispatchUnfold(hs, i, DispatchState(handled, bannedIps, trace, None), ctx);
        handled, error := RunHandler(hs[i], ctx, text, handled, advanced);
        if error.Some? {
          DispatchStops(hs[i + 1..], DispatchState(handled, bannedIps, trace, error), ctx);
          return;
        }
      }
      assert hs[|hs|..] == [];
    }

    /** One pass of the handler loop: `handler` is invoked if its pattern matches `text`. */
    method RunHandler(handler: Handler, ctx: Context, text: string, handled: bool, advanced: seq<int>)
      returns (handled': bool, error: Option<Error>)
      requires IsInt64(ctx.now) && EnumeratesOnce(advanced, advancedInterfaces.Keys)
      requires ctx.advanced == Values(advancedInterfaces, advanced) && text == AsciiText(ctx.packet)
      modifies this`bannedIps, this`trace
      ensures DispatchState(handled', bannedIps, trace, error)
        == Step(handler, DispatchState(handled, old(bannedIps), old(trace), None), ctx)
    {
      ghost var expected := Step(handler, DispatchState(handled, bannedIps, trace, None), ctx);
      handled', error := handled, None;
      if ctx.matches(handler.pattern, text) {
        trace := trace + [HandleCall(handler.id, ctx.iface.id, ctx.address, ctx.port, ctx.packet)];
        match ctx.outcome(handler) {
          case Returned(b) =>
            handled' := b;
          case PacketError(m) =>
            handled' := true;
            trace := trace + [ErrorLog(BadPacketMessage(ctx, m))];
            BlockThrough(ctx.address, BAD_PACKET_BLOCK_TIMEOUT, ctx.now, advanced);
            assert trace == expected.trace;
          case ForeignError(e) =>
            error := Some(e);
        }
      }
    }

    /**
     * Ticks every registered interface, in the order `order` the table
     * enumerates, then the session table. An interface that fails stops the
     * tick there: later interfaces and the sessions are not ticked, and which
     * failure propagates depends on the order. `outcome` says how each
     * interface's tick ends.
     */
    method Tick(outcome: Iface -> Outcome) returns (r: Outcome, ghost order: seq<int>, ghost sessionOrder: seq<int>)
      requires Valid() && sessionManager.Valid()
      modifies this`trace, sessionManager
      ensures sessionManager.Valid()
      ensures EnumeratesOnce(order, interfaces.Keys)
      ensures trace == old(trace) + Broadcast(Values(interfaces, order)[..TickedCount(Values(interfaces, order), outcome)], TickNotice)
      ensures r == (match FirstFailure(Values(interfaces, order), outcome) case None => Pass case Some(e) => Fail(e))
      ensures r.Fail? ==> unchanged(sessionManager)
      ensures r.Pass? ==>
        && sessionManager.sessions == Sessions.ConnectedOnly(old(sessionManager.sessions))
        && EnumeratesOnce(sessionOrder, old(sessionManager.sessions).Keys)
        && sessionManager.events == old(sessionManager.events) + Sessions.Events(sessionOrder, Sessions.TickCall)
    {
      var keys := EnumerationOrder(interfaces.Keys);
      order, sessionOrder := keys, [];
      var calls;
      calls, r := TickAll(Values(interfaces, keys), outcome);
      trace := trace + calls;
      if r.Fail? {
        return;
      }
      sessionOrder := sessionManager.Tick();
    }
  }
}
