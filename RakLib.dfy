/**
 * The RakLib network interface: the main-thread bookkeeping of client
 * sessions, the framing of inbound game packets, the commands sent to the
 * transport thread, the start-up and crash checks of the transport server, and
 * the two ends of its message channels.
 */
module RakLib {
  import opened Common
  import opened Sessions
  import opened ThreadedBuffers

  /** First byte of a raw RakNet game packet; such a packet is not handed to a session. */
  const MCPE_RAKNET_PACKET_ID: bv8 := 0xFE
  /** Seconds for which the sender of an undecodable packet is banned. */
  const BAD_PACKET_BAN_SECONDS := 5
  /** The ban length an interface uses when none is given. */
  const DEFAULT_BAN_SECONDS := 300

  /** A command written to the transport thread's inbound channel (its wire encoding is not modelled). */
  datatype Command =
    | CloseSession(sessionId: int)
    | Block(target: Option<string>, timeout: int)
    | Unblock(address: string)
    | Rename(name: string)
    | SendRaw(address: string, port: int, payload: seq<bv8>)
    | AddFilter(pattern: string)

  /** A line handed to the server logger. */
  datatype Logged = LoggedDebug(message: string) | LoggedError(message: string)

  // ---------------------------------------------------------------------------
  // Crash information

  /** What the transport thread recorded about the exception that ended it. */
  datatype CrashInfo = CrashInfo(className: Option<string>, line: int, file: Option<string>, message: Option<string>)

  /** String concatenation in C# turns an absent string into the empty one. */
  function Text(s: Option<string>): (r: string)
    ensures s.None? ==> r == ""
    ensures s.Some? ==> r == s.value
  {
    match s
    case None => ""
    case Some(t) => t
  }

  /**
   * `MakePrettyMessage` as written: `??` binds more loosely than `+`, so a
   * known class name is the whole message and the location is only spelt out
   * when the class name is absent.
   */
  function PrettyMessage(c: CrashInfo): (r: string)
  {
    if c.className.Some? then c.className.value
    else "Fatal Error" + ": " + Text(c.message) + " in " + Text(c.file) + " on line " + IntToString(c.line)
  }

  /** The message as it was evidently meant: the class name (or "Fatal Error") heads the location in every case. */
  function IntendedPrettyMessage(c: CrashInfo): (r: string)
    ensures StartsWith(r, (if c.className.Some? then c.className.value else "Fatal Error") + ": ")
    ensures EndsWith(r, " on line " + IntToString(c.line))
  {
    (if c.className.Some? then c.className.value else "Fatal Error")
      + ": " + Text(c.message) + " in " + Text(c.file) + " on line " + IntToString(c.line)
  }

  lemma PrettyMessageCases(c: CrashInfo)
    ensures c.className.Some? ==> PrettyMessage(c) == c.className.value
    ensures c.className.None? ==> PrettyMessage(c) == IntendedPrettyMessage(c)
    ensures c.className.None? ==> StartsWith(PrettyMessage(c), "Fatal Error: ")
  {
    if c.className.None? {
      assert PrettyMessage(c) == "Fatal Error: " + (Text(c.message) + " in " + Text(c.file) + " on line " + IntToString(c.line));
    }
  }

  /**
   * With a class name, the message as written is the bare class name: shorter
   * than the intended one, which goes on with the exception message and the location.
   */
  lemma PrettyMessageDropsLocation(c: CrashInfo)
    requires c.className.Some?
    ensures PrettyMessage(c) == c.className.value
    ensures |PrettyMessage(c)| + |": " + Text(c.message) + " in " + Text(c.file) + " on line "| < |IntendedPrettyMessage(c)|
    ensures PrettyMessage(c) != IntendedPrettyMessage(c)
  {
  }

  // ---------------------------------------------------------------------------
  // The crash check of Tick

  /**
   * The decision `Tick` takes, as written: when the server is shut down or its
   * thread is not running, it raises only if crash information exists;
   * otherwise (the healthy case) it raises a crash without information.
   */
  function TickDecision(shutdown: bool, threadRunning: bool, crash: Option<CrashInfo>): (r: Outcome)
  {
    if shutdown || !threadRunning then
      if crash.Some? then Fail(RakLibFailure("RakLib crashed: " + PrettyMessage(crash.value))) else Pass
    else Fail(RakLibFailure("RakLib crashed without crash information"))
  }

  /** The evidently intended decision: a healthy server passes; a stopped one reports its crash. */
  function IntendedTickDecision(shutdown: bool, threadRunning: bool, crash: Option<CrashInfo>): (r: Outcome)
  {
    if !shutdown && threadRunning then Pass
    else if crash.Some? then Fail(RakLibFailure("RakLib crashed: " + PrettyMessage(crash.value)))
    else Fail(RakLibFailure("RakLib crashed without crash information"))
  }

  /** As written, `Tick` passes exactly when the server is down and left no crash information. */
  lemma TickDecisionPassesIff(shutdown: bool, threadRunning: bool, crash: Option<CrashInfo>)
    ensures TickDecision(shutdown, threadRunning, crash).Pass? <==> (shutdown || !threadRunning) && crash.None?
    ensures !shutdown && threadRunning ==>
      TickDecision(shutdown, threadRunning, crash) == Fail(RakLibFailure("RakLib crashed without crash information"))
  {
  }

  /** The two decisions agree on a stopped server with crash information and differ on every other input. */
  lemma TickDecisionDiffers(shutdown: bool, threadRunning: bool, crash: Option<CrashInfo>)
    ensures TickDecision(shutdown, threadRunning, crash) == IntendedTickDecision(shutdown, threadRunning, crash)
      <==> (shutdown || !threadRunning) && crash.Some?
  {
  }

  /** The intended decision passes exactly on a healthy server. */
  lemma IntendedTickDecisionPassesIff(shutdown: bool, threadRunning: bool, crash: Option<CrashInfo>)
    ensures IntendedTickDecision(shutdown, threadRunning, crash).Pass? <==> !shutdown && threadRunning
  {
  }

  // ---------------------------------------------------------------------------
  // Inbound framing

  /** The framing rule: an empty packet or one starting with 0xFE is dropped; otherwise its first byte is stripped. */
  function Unframe(packet: seq<bv8>): (r: Option<seq<bv8>>)
    ensures r.None? <==> packet == [] || packet[0] == MCPE_RAKNET_PACKET_ID
    ensures r.Some? ==> |r.value| == |packet| - 1 && [packet[0]] + r.value == packet
  {
    if |packet| == 0 || packet[0] == MCPE_RAKNET_PACKET_ID then None else Some(packet[1..])
  }

  /** The reason a session is disconnected with after an undecodable packet. */
  function BadPacketReason(errorId: string): string {
    "Packet processing error (Error ID: " + errorId + ")"
  }

  /** The error id is the 6 random bytes in hex: 12 characters from the hex digits. */
  lemma ErrorIdShape(randomBytes: seq<bv8>)
    requires |randomBytes| == 6
    ensures |ToHexString(randomBytes)| == 12
    ensures forall i :: 0 <= i < 12 ==> ToHexString(randomBytes)[i] in HEX_DIGITS
  {
  }

  // ---------------------------------------------------------------------------
  // The transport server

  /** The main-thread view of the transport server: its flags and whatever crash its thread recorded. */
  class RakLibServer {
    var shutdown: bool
    var cleanShutdown: bool
    /** Whether the transport thread exists and is running. */
    var threadRunning: bool
    var crashInfo: Option<CrashInfo>

    constructor ()
      ensures !shutdown && !cleanShutdown && !threadRunning && crashInfo == None
    {
      shutdown := false;
      cleanShutdown := false;
      threadRunning := false;
      crashInfo := None;
    }

    /**
     * Starts the thread and, once the wait for it is over, decides the
     * outcome. `crash` is the crash information the thread recorded by then
     * (the wait itself is not modelled). Without a crash nothing else changes;
     * with one the server is flagged shut down, not cleanly, and the start fails.
     */
    method StartAndWait(running: bool, crash: Option<CrashInfo>) returns (r: Outcome)
      modifies this
      ensures threadRunning == running && crashInfo == crash
      ensures crash.None? ==> r == Pass && shutdown == old(shutdown) && cleanShutdown == old(cleanShutdown)
      ensures crash.Some? ==>
        && r == Fail(RakLibFailure("RakLib failed to start: " + PrettyMessage(crash.value)))
        && shutdown && !cleanShutdown
    {
      threadRunning := running;
      crashInfo := crash;
      if crashInfo == None {
        return Pass;
      }
      cleanShutdown := false;
      shutdown := true;
      r := Fail(RakLibFailure("RakLib failed to start: " + PrettyMessage(crashInfo.value)));
    }
  }

  // ---------------------------------------------------------------------------
  // The channel ends

  /** The reading end of a channel: takes the oldest message. */
  class RakLibChannelReader {
    const buffer: ThreadedBuffer<seq<bv8>>

    constructor (buffer: ThreadedBuffer<seq<bv8>>)
      ensures this.buffer == buffer
    {
      this.buffer := buffer;
    }

    method Read() returns (r: Option<seq<bv8>>)
      modifies buffer
      ensures old(buffer.buffer) == [] ==> r == None && buffer.buffer == []
      ensures old(buffer.buffer) != [] ==> r == Some(old(buffer.buffer)[0]) && buffer.buffer == old(buffer.buffer)[1..]
    {
      r := buffer.Shift();
    }
  }

  /** The writing end of a channel: queues a message behind the others. */
  class RakLibChannelWriter {
    const buffer: ThreadedBuffer<seq<bv8>>

    constructor (buffer: ThreadedBuffer<seq<bv8>>)
      ensures this.buffer == buffer
    {
      this.buffer := buffer;
    }

    method Write(message: seq<bv8>)
      modifies buffer
      ensures buffer.buffer == old(buffer.buffer) + [message]
    {
      buffer.Add(message);
    }
  }

  /** A message written into an empty channel is the next message read from it. */
  method WriteThenRead(writer: RakLibChannelWriter, reader: RakLibChannelReader, message: seq<bv8>)
    returns (r: Option<seq<bv8>>)
    requires writer.buffer == reader.buffer && writer.buffer.buffer == []
    modifies writer.buffer
    ensures r == Some(message) && writer.buffer.buffer == []
  {
    writer.Write(message);
    r := reader.Read();
  }

  // ---------------------------------------------------------------------------
  // The interface

  class RakLibInterface {
    /** The live client sessions, by transport session id. */
    var sessions: map<int, NetworkSession>
    /** The commands written to the transport thread, in order. */
    var commands: seq<Command>
    /** The calls made on sessions, keyed by the session id they were stored under. */
    ghost var events: seq<SessionEvent>
    ghost var log: seq<Logged>
    const server: RakLibServer

    constructor (server: RakLibServer)
      ensures this.server == server
      ensures sessions == map[] && commands == [] && events == [] && log == []
    {
      this.server := server;
      sessions := map[];
      commands := [];
      events := [];
      log := [];
    }

    /** Stores a new session (whose identity hash is `hash`) under `sessionId`, replacing any session there. */
    method OnClientConnect(sessionId: int, hash: int)
      modifies this
      ensures sessionId in sessions && fresh(sessions[sessionId])
      ensures sessions == old(sessions)[sessionId := sessions[sessionId]]
      ensures sessions[sessionId].connected && sessions[sessionId].ip == None
      ensures commands == old(commands) && events == old(events) && log == old(log)
    {
      var session := new NetworkSession(hash);
      sessions := sessions[sessionId := session];
    }

    /** Forgets a known session and tells it the client left; an unknown id is ignored. */
    method OnClientDisconnect(sessionId: int, reason: string)
      modifies this
      ensures sessionId !in old(sessions) ==> unchanged(this)
      ensures sessionId in old(sessions) ==>
        && sessions == old(sessions) - {sessionId}
        && events == old(events) + [SessionEvent(sessionId, ClientDisconnectCall(reason))]
      ensures commands == old(commands) && log == old(log)
    {
      if sessionId !in sessions {
        return;
      }
      sessions := sessions - {sessionId};
      events := events + [SessionEvent(sessionId, ClientDisconnectCall(reason))];
    }

    /** Forgets a known session and asks the transport thread to close it; an unknown id is ignored. */
    method Close(sessionId: int)
      modifies this
      ensures sessionId !in old(sessions) ==> unchanged(this)
      ensures sessionId in old(sessions) ==>
        && sessions == old(sessions) - {sessionId}
        && commands == old(commands) + [CloseSession(sessionId)]
      ensures events == old(events) && log == old(log)
    {
      if sessionId !in sessions {
        return;
      }
      sessions := sessions - {sessionId};
      commands := commands + [CloseSession(sessionId)];
    }

    /**
     * Hands a game packet, minus its first byte, to the session it came from.
     * `packetError` is the message of the packet-handling exception the
     * session raised, if it raised one; `randomBytes` are the 6 random bytes
     * that make up the error id. On such an error the session is disconnected
     * and its address is banned for 5 seconds.
     */
    method OnPacketReceive(sessionId: int, packet: seq<bv8>, packetError: Option<string>, randomBytes: seq<bv8>)
      requires |randomBytes| == 6
      modifies this
      ensures sessions == old(sessions)
      ensures sessionId !in old(sessions) ==> unchanged(this)
      ensures sessionId in old(sessions) && Unframe(packet).None? ==>
        && events == old(events) && commands == old(commands)
        && log == old(log) + [LoggedDebug("Non-FE packet received")]
      ensures sessionId in old(sessions) && Unframe(packet).Some? && packetError.None? ==>
        && events == old(events) + [SessionEvent(sessionId, HandleEncodedCall(Unframe(packet).value))]
        && commands == old(commands) && log == old(log)
      ensures sessionId in old(sessions) && Unframe(packet).Some? && packetError.Some? ==>
        var id := ToHexString(randomBytes);
        && events == old(events) + [SessionEvent(sessionId, HandleEncodedCall(Unframe(packet).value)),
                                    SessionEvent(sessionId, DisconnectCall(BadPacketReason(id)))]
        && commands == old(commands) + [Block(old(sessions)[sessionId].ip, BAD_PACKET_BAN_SECONDS)]
        && log == old(log) + [LoggedError("Bad packet (error ID " + id + "): " + packetError.value)]
    {
      if sessionId !in sessions {
        return;
      }
      if |packet| == 0 || packet[0] == MCPE_RAKNET_PACKET_ID {
        log := log + [LoggedDebug("Non-FE packet received")];
        return;
      }
      var session := sessions[sessionId];
      var address := session.ip;
      events := events + [SessionEvent(sessionId, HandleEncodedCall(packet[1..]))];
      if packetError.Some? {
        var id := ToHexString(randomBytes);
        log := log + [LoggedError("Bad packet (error ID " + id + "): " + packetError.value)];
        events := events + [SessionEvent(sessionId, DisconnectCall(BadPacketReason(id)))];
        commands := commands + [Block(address, BAD_PACKET_BAN_SECONDS)];
      }
    }

    /** Passes a ping measurement to a known session; an unknown id is ignored. */
    method OnPingMeasure(sessionId: int, pingMs: int)
      modifies this
      ensures sessionId !in old(sessions) ==> unchanged(this)
      ensures sessionId in old(sessions) ==> events == old(events) + [SessionEvent(sessionId, UpdatePingCall(pingMs))]
      ensures sessions == old(sessions) && commands == old(commands) && log == old(log)
    {
      if sessionId in sessions {
        events := events + [SessionEvent(sessionId, UpdatePingCall(pingMs))];
      }
    }

    /**
     * Starts the transport server. `running` and `crash` describe the thread
     * once the wait for it is over. Only a socket error would be turned into
     * an interface start error, and the server raises none, so its own
     * failure passes through unchanged.
     */
    method Start(running: bool, crash: Option<CrashInfo>) returns (r: Outcome)
      modifies this, server
      ensures server.threadRunning == running && server.crashInfo == crash
      ensures crash.None? ==>
        && r == Pass
        && log == old(log) + [LoggedDebug("Waiting for RakLib to start..."), LoggedDebug("RakLib booted successfully.")]
      ensures crash.Some? ==>
        && r == Fail(RakLibFailure("RakLib failed to start: " + PrettyMessage(crash.value)))
        && server.shutdown && !server.cleanShutdown
        && log == old(log) + [LoggedDebug("Waiting for RakLib to start...")]
      ensures sessions == old(sessions) && commands == old(commands) && events == old(events)
    {
      log := log + [LoggedDebug("Waiting for RakLib to start...")];
      var o := server.StartAndWait(running, crash);
      if o.Fail? {
        return o;
      }
      log := log + [LoggedDebug("RakLib booted successfully.")];
      r := Pass;
    }

    /** The crash check, as written. */
    method Tick() returns (r: Outcome)
      ensures r == TickDecision(server.shutdown, server.threadRunning, server.crashInfo)
    {
      if server.shutdown || !server.threadRunning {
        if server.crashInfo.Some? {
          return Fail(RakLibFailure("RakLib crashed: " + PrettyMessage(server.crashInfo.value)));
        }
      } else {
        return Fail(RakLibFailure("RakLib crashed without crash information"));
      }
      r := Pass;
    }

    /** Asks the transport server to stop. */
    method Shutdown()
      modifies server
      ensures server.shutdown
      ensures server.cleanShutdown == old(server.cleanShutdown) && server.threadRunning == old(server.threadRunning)
      ensures server.crashInfo == old(server.crashInfo)
    {
      server.shutdown := true;
    }

    method SetName(name: string)
      modifies this
      ensures commands == old(commands) + [Rename(name)]
      ensures sessions == old(sessions) && events == old(events) && log == old(log)
    {
      commands := commands + [Rename(name)];
    }

    /** Bans an address for `timeout` seconds (the default being 300). */
    method BlockAddress(address: string, timeout: int)
      modifies this
      ensures commands == old(commands) + [Block(Some(address), timeout)]
      ensures sessions == old(sessions) && events == old(events) && log == old(log)
    {
      commands := commands + [Block(Some(address), timeout)];
    }

    method UnblockAddress(address: string)
      modifies this
      ensures commands == old(commands) + [Unblock(address)]
      ensures sessions == old(sessions) && events == old(events) && log == old(log)
    {
      commands := commands + [Unblock(address)];
    }

    method SendRawPacket(address: string, port: int, payload: seq<bv8>)
      modifies this
      ensures commands == old(commands) + [SendRaw(address, port, payload)]
      ensures sessions == old(sessions) && events == old(events) && log == old(log)
    {
      commands := commands + [SendRaw(address, port, payload)];
    }

    method AddRawPacketFilter(pattern: string)
      modifies this
      ensures commands == old(commands) + [AddFilter(pattern)]
      ensures sessions == old(sessions) && events == old(events) && log == old(log)
    {
      commands := commands + [AddFilter(pattern)];
    }
  }
}
