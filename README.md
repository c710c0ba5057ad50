# SkyWing server core in Dafny

This project models the core of SkyWing, a Minecraft Bedrock server written in
C#, and proves properties of the model. The modelled parts are:

- **Network registry** (`Networks`). It holds the registered network
  interfaces. The interfaces that accept raw packets and bans are the
  "advanced" ones. It also holds the raw packet handlers and the banned
  addresses with their expiry times. It covers registration, bans and
  dispatching a raw packet to the handlers whose pattern matches.
- **RakLib interface** (`RakLib`):
  - the main-thread session table of the RakNet transport;
  - the framing of inbound game packets;
  - the commands sent to the transport thread;
  - the start-up and crash checks of the transport server;
  - the reading and writing ends of its message channels.
- **Sessions** (`Sessions`), **bandwidth statistics** (`Bandwidth`) and the
  **inter-thread buffer** (`ThreadedBuffers`).
- **Server lifecycle** (`Servers`):
  - the tick counter and its 20-slot TPS windows;
  - interface start-up;
  - the two shutdown paths.
- **Logger** (`MainLoggers`): level dispatch, debug gating, the line format and the
  queue the log writer drains.
- **Configuration** (`Configs`): the `.properties` reader and writer, and the flat
  and dotted-path edits of a loaded store.
- **Property files** (`PropertyFiles`): the plain `key=value` store.
- **Translation** (`Languages`): language tables with a fallback, and `{%i}`
  placeholder substitution with nested messages.
- **Game modes** (`GameModes`): the alias table filled on first use, and the
  mapping between modes and ids.

Objects whose fields the C# code updates are classes with `modifies` clauses:
`Network`, `RakLibInterface`, `Server`, `NetworkSessionManager`, the trackers,
`Config`, `Properties` and `AliasRegistry`. Their loops are methods, proved
against functions that specify them. Pure computations are functions and
lemmas.

Some facts come from outside the program. Each is a parameter:

- the clock;
- random bytes;
- regular-expression matching;
- what a foreign interface or handler does when called (`Outcome`,
  `HandleOutcome`);
- the outcome of the runtime type test in `Network.RegisterInterface`.
  As written, that test is false for every interface (see "## Findings").
  The model keeps both outcomes, so it also covers the advanced branch the
  code evidently intends;
- the content of files.

Calls made on foreign objects and lines given to the logger are recorded in
ghost traces. Their order can therefore be stated.

Two .NET conventions are modelled explicitly:

- Integers are unbounded, except where the source relies on `int`/`long`
  wrap-around. There `Common.Wrap32`/`Common.Wrap64` are used.
- C#'s truncating `/` and `%` are `Common.CDiv`/`Common.CRem`.

Dictionary enumeration order is not specified by .NET. Every loop over a
dictionary returns the order it used as a ghost `order` out-parameter, and its
contract holds for any order that lists each key once
(`Common.EnumeratesOnce`).

## Model

| member | source | states |
|---|---|---|
| Common.Wrap32 | Server.cs:113-115 | an unchecked `int` result is the 32-bit integer congruent to the exact one modulo 2^32, equal to it when it fits |
| Common.Wrap64 | network/Network.cs:86 | an unchecked `long` result is the 64-bit integer congruent to the exact one modulo 2^64, equal to it when it fits |
| Common.CRem | Server.cs:97 | C#'s `%` by a positive divisor: the remainder of a non-negative dividend is in [0, b), that of a negative one in (-b, 0], and it differs from the dividend by a multiple of the divisor |
| Common.CDiv | network/BandwidthStatsTracker.cs:26 | C#'s `/` by a positive divisor truncates toward zero |
| Common.ToHexString | network/mcpe/RakLib.cs:87 | two upper-case hexadecimal digits per byte |
| Common.IntToStringShape | utils/Config.cs:367 | a written integer is an optional minus sign followed by decimal digits |
| Common.ParseInt32 | utils/Config.cs:398 | `int.TryParse` skips the spaces and U+0009 to U+000D around the digits and any U+0000 characters after them, and succeeds only with a 32-bit value |
| Common.ParseIntToString | utils/Config.cs:367-398 | every 32-bit integer's decimal text parses back to it |
| Common.DigitsValueOfNat | language/Language.cs:74 | the decimal digits written for a number spell that number |
| Common.IndexOf | utils/Config.cs:378 | the first position holding the character, or nothing exactly when it is absent |
| Common.Split | utils/Config.cs:374 | a split has at least one piece and no piece holds the separator |
| Common.SplitJoin | utils/Config.cs:374 | splitting pieces joined by a separator they do not hold gives the pieces back |
| Common.SplitTerminated | utils/Config.cs:367-374 | newline-terminated lines without newlines split back into the lines followed by one empty piece |
| Common.TrimKeeps | utils/Config.cs:379-380 | text that neither starts nor ends with a `char.IsWhiteSpace` character is kept by `string.Trim()`, and also by the skipping of number parsing when it does not end in U+0000 |
| Common.TrailingNullIgnored | utils/Config.cs:398 | `int.TryParse` reads a text followed by U+0000 exactly as it reads the text alone |
| Common.ToLower | language/Language.cs:41 | upper-case ASCII letters become lower-case and every other character is kept |
| Common.ReplaceAbsent | language/Language.cs:74 | replacing a pattern that does not occur leaves the text unchanged |
| Common.ReplaceBySelf | language/Language.cs:74 | replacing a pattern by itself leaves the text unchanged |
| Common.EnumerationOrder | network/Network.cs:38 | the enumeration of a dictionary lists every key exactly once, in an order the model leaves open |
| Common.ValuesComplete | network/Network.cs:38 | whatever the order, the enumeration yields one value per key and reaches every stored value |
| Common.EntriesOf | utils/Config.cs:366 | the entries of the table under the listed keys, with their values |
| Common.EntriesOfAll | utils/Config.cs:366 | an enumeration of every key, each once, yields the whole table |
| Common.Lines | utils/Config.cs:366-368 | one `key=value` line per listed key, in the listed order, the value written by the store's own rendering (`Configs.Format` for a config, the text itself for a property file) |
| ThreadedBuffers.Apply | utils/ThreadedBuffer.cs:7-17 | one call: `Add` puts the value at the back and returns nothing; `Shift` on an empty queue returns nothing and leaves it as it is, otherwise returns the front value and leaves the rest |
| ThreadedBuffers.FirstInFirstOut | utils/ThreadedBuffer.cs:3-17 | over any sequence of calls, the values shifted out followed by the values still queued are the initial queue followed by the values added, in order: nothing is lost, duplicated or reordered |
| ThreadedBuffers.OneCallKeepsOrder | utils/ThreadedBuffer.cs:7-17 | a single call keeps the order of what it takes out, what it leaves and what it was given |
| ThreadedBuffers.ThreadedBuffer.constructor | utils/ThreadedBuffer.cs:5 | a new buffer is empty |
| ThreadedBuffers.ThreadedBuffer.Add | utils/ThreadedBuffer.cs:7-9 | the buffer becomes the old buffer with the value appended, as `Apply` of an `Add` call |
| ThreadedBuffers.ThreadedBuffer.Shift | utils/ThreadedBuffer.cs:11-17 | on an empty buffer: returns nothing and changes nothing; otherwise returns the front value and removes exactly it; agrees with `Apply` of a `Shift` call |
| Sessions.NetworkSession.constructor | network/Session.cs:3-6 | a new session has no address and is connected |
| Sessions.ConnectedOnly | network/Session.cs:43-48 | the sessions kept by a tick: exactly the entries whose session is connected, under the same keys |
| Sessions.TickKeepsConnected | network/Session.cs:6-48 | since `Connected` starts true and nothing clears it, a tick keeps every session |
| Sessions.TickTable | network/Session.cs:43-48 | the tick loop over the table: keeps exactly the connected sessions and ticks every session once, in enumeration order |
| Sessions.TickKeys | network/Session.cs:44-47 | the loop over a listing of the table's keys keeps exactly the connected sessions and ticks each listed key once, in the listed order |
| Sessions.NetworkSessionManager.constructor | network/Session.cs:31 | a new manager has no sessions and has made no calls |
| Sessions.NetworkSessionManager.SessionCount | network/Session.cs:33 | the number of stored keys |
| Sessions.NetworkSessionManager.Add | network/Session.cs:35-37 | stores the session under its identity hash, replacing an existing entry; the count grows by one only for a new key; sessions stay keyed by their own identity |
| Sessions.NetworkSessionManager.Remove | network/Session.cs:39-41 | deletes the entry under the session's identity, and does nothing when there is none; the count drops by one only when the key was present |
| Sessions.NetworkSessionManager.Tick | network/Session.cs:43-48 | ticks every stored session once in enumeration order and keeps exactly the connected ones |
| Sessions.NetworkSessionManager.Close | network/Session.cs:50-55 | disconnects every stored session with the reason, in enumeration order, then empties the table |
| Bandwidth.Zeros | network/BandwidthStatsTracker.cs:11-12 | a history of the given size with every slot zero |
| Bandwidth.RotateAll | network/BandwidthStatsTracker.cs:20-24 | flushing a series of buckets keeps the history's length, and every value of the result was in the old history or among the buckets |
| Bandwidth.Advance | network/BandwidthStatsTracker.cs:23 | the advanced write cursor always stays inside the history |
| Bandwidth.AdvanceNoWrap | network/BandwidthStatsTracker.cs:23 | while it does not reach the end, the cursor moves by exactly the number of advances |
| Bandwidth.AdvanceFullCircle | network/BandwidthStatsTracker.cs:23 | as many advances as there are slots bring the cursor from slot 0 back to slot 0 |
| Bandwidth.RotateAllAppend | network/BandwidthStatsTracker.cs:20-24 | flushing two series in turn is flushing their concatenation |
| Bandwidth.RotateAllFills | network/BandwidthStatsTracker.cs:20-24 | k flushes that do not wrap fill exactly the next k slots with the buckets, in order, and leave every other slot |
| Bandwidth.EvictsOldest | network/BandwidthStatsTracker.cs:20-24 | N flushes into a fresh N-slot history leave exactly those N samples; one more flush overwrites the oldest one |
| Bandwidth.Average | network/BandwidthStatsTracker.cs:26 | the mean fails with a division by zero exactly when the history has no slots |
| Bandwidth.SumBounds | network/BandwidthStatsTracker.cs:26 | samples in [0, hi] sum to a value in [0, N * hi] |
| Bandwidth.AverageBounds | network/BandwidthStatsTracker.cs:26 | the average of samples in [0, hi] lies in [0, hi] |
| Bandwidth.AverageAfterFill | network/BandwidthStatsTracker.cs:20-26 | after N flushes into a fresh N-slot history, the average is the buckets' sum divided by N, rounded toward zero |
| Bandwidth.BandwidthStatsTracker.constructor | network/BandwidthStatsTracker.cs:10-13 | a history of the given size, all zero; cursor, bucket and total start at zero |
| Bandwidth.BandwidthStatsTracker.Add | network/BandwidthStatsTracker.cs:15-18 | adds the bytes to both the lifetime total and the unflushed bucket; the history and the cursor stay |
| Bandwidth.BandwidthStatsTracker.RotateHistory | network/BandwidthStatsTracker.cs:20-24 | writes the bucket into the slot under the cursor and only there, clears the bucket and advances the cursor modulo the length; with no slots the write fails and nothing changes |
| Bandwidth.BandwidthStatsTracker.AverageBytes | network/BandwidthStatsTracker.cs:26 | the mean of the current history, as `Average` states it |
| Bandwidth.BandwidthStatsTracker.ResetHistory | network/BandwidthStatsTracker.cs:28-32 | a fresh all-zero history of the same length; cursor, bucket and total are kept |
| Bandwidth.BidirectionalBandwidthStatsTracker.constructor | network/BandwidthStatsTracker.cs:40-43 | two separate trackers, each with an all-zero history of the given size, cursor, bucket and total at zero |
| Bandwidth.BidirectionalBandwidthStatsTracker.Add | network/BandwidthStatsTracker.cs:45-48 | the sent bytes go to the send tracker only and the received bytes to the receive tracker only |
| Bandwidth.BidirectionalBandwidthStatsTracker.RotateHistory | network/BandwidthStatsTracker.cs:50-53 | rotates the send tracker, then the receive tracker, each as a single tracker's rotation (bucket written under the cursor, bucket cleared, cursor advanced, total kept); a send tracker without slots fails and changes nothing; a receive tracker without slots fails after the send rotation and is itself unchanged |
| Bandwidth.BidirectionalBandwidthStatsTracker.ResetHistory | network/BandwidthStatsTracker.cs:55-58 | both histories become fresh all-zero arrays of their old lengths; both cursors, buckets and totals are kept |
| MainLoggers.Prefix | utils/MainLogger.cs:16-48 | each listed level has a tag and only an unlisted level has none |
| MainLoggers.PrefixesDistinct | utils/MainLogger.cs:16-48 | distinct listed levels carry distinct tags |
| MainLoggers.ThreadLabel | utils/MainLogger.cs:98 | the calling thread's name when it has one, else the main thread's name |
| MainLoggers.FileLineEndsWithMessage | utils/MainLogger.cs:106 | a queued line starts with the bracketed date and ends with the message and a newline, whatever the stamp and the label |
| MainLoggers.LogSendQueue.constructor | utils/MainLogger.cs:122 | a new queue is empty |
| MainLoggers.LogSendQueue.Add | utils/MainLogger.cs:124-126 | appends the line at the back |
| MainLoggers.LogSendQueue.Get | utils/MainLogger.cs:128-134 | behaves as a buffer `Shift`: nothing from an empty queue, otherwise the oldest line, removed |
| MainLoggers.MainLogger.constructor | utils/MainLogger.cs:86-94 | keeps the main thread's name and the debug switch and starts with an empty queue |
| MainLoggers.MainLogger.Send | utils/MainLogger.cs:96-107 | queues exactly one line: date and time stamp, thread label, tag and message, newline-terminated |
| MainLoggers.MainLogger.Debug | utils/MainLogger.cs:44-48 | queues a DEBUG line when debug logging is on and nothing otherwise |
| MainLoggers.MainLogger.Log | utils/MainLogger.cs:55-84 | an unlisted level raises argument-out-of-range and queues nothing; a listed level queues one line with its own tag, except DEBUG while debug logging is off |
| Networks.Expiry | network/Network.cs:84-86 | a positive timeout expires `timeout` seconds after now (when that fits in 64 bits); a non-positive one is stored as `Int64.MaxValue`; the stored value is always a 64-bit integer |
| Networks.BanLastsTimeout | network/Network.cs:84-114 | a positive ban issued at now is in force at a later time exactly when that time is before now + timeout |
| Networks.PermanentBan | network/Network.cs:86-114 | a ban with a non-positive timeout is in force at every 64-bit time except `Int64.MaxValue` itself |
| Networks.BanScenario | network/Network.cs:84-114 | a 5-second ban from time 0 holds at 2, is over at 6, and does not touch another address |
| Networks.BroadcastReachesAll | network/Network.cs:73-105 | a call made to every interface of a table, in any enumeration order, reaches each registered interface, and there are exactly as many calls as interfaces |
| Networks.AsciiText | network/Network.cs:121 | the packet's text has one character per byte: the byte itself below 0x80, '?' otherwise |
| Networks.DispatchStops | network/Network.cs:120-131 | after an exception other than a packet error, no further handler runs and nothing else changes |
| Networks.LastMatch | network/Network.cs:120-123 | the position of a matching handler after which no handler matches, or nothing exactly when no handler matches |
| Networks.HandledIsLastMatch | network/Network.cs:119-126 | when no handler raises a foreign exception, the final `handled` is the value left by the last matching handler (its return value, or true after a packet error), or false when none matched |
| Networks.DispatchBans | network/Network.cs:125-129 | the ban table changes only at the packet's address, and there exactly when some matching handler raised a packet error, to a 600-second ban from now |
| Networks.MatchingIds | network/Network.cs:120-121 | the ids of the matching handlers: every matching handler's id is listed, every listed id belongs to a matching handler, and there are at most as many as handlers |
| Networks.StepHandlerCalls | network/Network.cs:121-123 | one handler adds its own invocation to the trace exactly when its pattern matches, and no other invocation |
| Networks.DispatchInvokesMatching | network/Network.cs:120-131 | every handler whose pattern matches is invoked once, in enumeration order, and no other handler is |
| Networks.TickedCount | network/Network.cs:37-42 | the interfaces that tick are a prefix of the table; every one before the last ticked passed, and the prefix stops short only after one that failed |
| Networks.FirstFailure | network/Network.cs:37-42 | the tick raises exactly when some interface fails |
| Networks.TickedCountAt | network/Network.cs:37-42 | when the i-th interface is the first to fail, exactly i + 1 interfaces tick and its error is the one raised |
| Networks.TickedCountAll | network/Network.cs:37-42 | when every interface passes, every interface ticks |
| Networks.Notify | network/Network.cs:73-105 | the loop makes the same call to each interface of the table, in enumeration order |
| Networks.NotifyTable | network/Network.cs:73-82 | the same call is made to each interface of the table, in an enumeration order that lists each key once |
| Networks.ReplayBans | network/Network.cs:51-53 | every banned address is forwarded exactly once, with the default timeout, in some enumeration order of the ban table |
| Networks.ReplayFilters | network/Network.cs:54-56 | every handler's pattern is forwarded, in enumeration order |
| Networks.TickAll | network/Network.cs:38-40 | the interfaces tick in order up to and including the first that fails, whose error is returned; otherwise all tick and the result is a pass |
| Networks.Registration | network/Network.cs:48-58 | the registration calls end with naming the interface; an interface of the exact advanced type first gets the network, then one ban per banned address and one filter per handler; any other interface gets only its name |
| Networks.Register | network/Network.cs:48-58 | makes exactly the calls of `Registration`; an advanced interface gets the ban table and the handler table each enumerated once, in some order |
| Networks.RegistrationAsWritten | network/Network.cs:48 | as written, the exact-type test is false, so a registration is only the naming call and a banned address that the intended test would forward never reaches the interface |
| Networks.IntendedRegistration | network/Network.cs:48-58 | with the intended test, an advanced interface gets the network first, then each banned address with the default timeout, then each handler's pattern, in order, and is named last |
| Networks.Network.constructor | network/Network.cs:31-35 | a new network has empty tables, no name, an empty trace, a five-slot bandwidth tracker and an empty session table |
| Networks.Network.RegisterInterface | network/Network.cs:44-60 | a start that fails propagates its error and registers nothing; otherwise the interface is registered under its identity, also as advanced exactly when its exact type is the advanced one, the trace is the start call followed by `Registration`, and the result is true |
| Networks.Network.Install | network/Network.cs:47-49 | registers the interface in the interface table, and in the advanced table exactly when its exact type is the advanced one |
| Networks.Network.UnregisterInterface | network/Network.cs:62-70 | an unknown interface is an argument error that changes nothing; a known one leaves both tables and is shut down |
| Networks.Network.UpdateName | network/Network.cs:72-76 | every registered interface is given the current name, once each, in enumeration order |
| Networks.Network.SetName | network/Network.cs:20-26 | the name is stored, then every registered interface is given it |
| Networks.Network.SendPacket | network/Network.cs:78-82 | the packet is sent through every advanced interface, once each in enumeration order, and nothing else changes |
| Networks.Network.BlockAddress | network/Network.cs:84-90 | the address is banned until `Expiry(now, timeout)`, other bans are kept, and every advanced interface is told to block it with the same timeout |
| Networks.Network.BlockThrough | network/Network.cs:84-90 | the ban of `BlockAddress`, forwarded to the advanced interfaces in a given enumeration order of their table |
| Networks.Network.UnblockAddress | network/Network.cs:92-97 | the address's ban is lifted in the table, while every advanced interface is told to block it for the default 300 seconds |
| Networks.UnblockAsWrittenBlocks | network/Network.cs:92-97 | as written, the first advanced interface is sent a 300-second block of the address, and no interface is sent an unblock |
| Networks.IntendedUnblockLifts | network/Network.cs:92-97 | the intended forwarding sends each advanced interface, in order, an unblock of the address and nothing else |
| Networks.Network.UnblockAddressIntended | network/Network.cs:92-97 | the ban is lifted in the table, and every advanced interface is told to unblock the address, once each in enumeration order |
| Networks.Network.RegisterRawPacketHandler | network/Network.cs:99-106 | the handler is stored under its identity and its pattern is forwarded to every advanced interface |
| Networks.Network.UnregisterRawPacketHandler | network/Network.cs:108-110 | only the handler's table entry is removed; the interfaces are not told |
| Networks.Network.ProcessRawPacket | network/Network.cs:112-133 | a packet from an address banned at now is dropped with a debug line and changes no ban; otherwise the handlers run as `Dispatch` says over one enumeration of the handler table, every ban they cause is forwarded over one enumeration of the advanced interfaces, a foreign exception propagates, and an unhandled packet adds a debug line |
| Networks.Network.RunHandlers | network/Network.cs:119-131 | the handler loop's final flag, ban table, trace and escaping exception are those of `Dispatch` |
| Networks.Network.RunHandler | network/Network.cs:121-129 | one loop pass does what `Step` says: a matching handler is invoked and its return value, packet error (flag true, error line, 600-second ban) or foreign exception is recorded |
| Networks.Network.Tick | network/Network.cs:37-42 | the interfaces tick in an enumeration order until one fails, whose error propagates and leaves the sessions untouched; otherwise the session table keeps only connected sessions, each ticked once in an enumeration order of the table |
| RakLib.Text | network/mcpe/RakLib.cs:280 | an absent string contributes nothing to a concatenation; a present one contributes itself |
| RakLib.PrettyMessageCases | network/mcpe/RakLib.cs:279-281 | as written, a known class name is the whole crash message; without one the message is the "Fatal Error: …" location text |
| RakLib.PrettyMessageDropsLocation | network/mcpe/RakLib.cs:279-281 | with a class name, the message as written leaves out the exception message, file and line, so it differs from the intended one |
| RakLib.IntendedPrettyMessage | network/mcpe/RakLib.cs:279-281 | the intended message starts with the class name (or "Fatal Error") and ": ", and ends with the line number |
| RakLib.TickDecisionPassesIff | network/mcpe/RakLib.cs:127-134 | as written, the crash check passes exactly when the server is stopped and left no crash information; a healthy server raises "crashed without crash information" |
| RakLib.TickDecisionDiffers | network/mcpe/RakLib.cs:127-134 | the check as written agrees with the intended one only on a stopped server that left crash information |
| RakLib.IntendedTickDecisionPassesIff | network/mcpe/RakLib.cs:127-134 | the intended check passes exactly on a server that is not shut down and whose thread runs |
| RakLib.Unframe | network/mcpe/RakLib.cs:75-83 | a packet is dropped exactly when it is empty or starts with 0xFE; otherwise the session gets it minus its first byte, one byte shorter |
| RakLib.ErrorIdShape | network/mcpe/RakLib.cs:86-87 | the error id of 6 random bytes is 12 hexadecimal digits |
| RakLib.RakLibServer.constructor | network/mcpe/RakLib.cs:170-183 | a new transport server is neither shut down nor cleanly shut down, has no running thread and no crash information |
| RakLib.RakLibServer.StartAndWait | network/mcpe/RakLib.cs:199-211 | without crash information after the wait the start passes and the flags are kept; with it the server is flagged shut down, not cleanly, and the start fails with the crash message |
| RakLib.RakLibChannelReader.constructor | network/mcpe/RakLib.cs:290-292 | the reader reads from the given buffer |
| RakLib.RakLibChannelReader.Read | network/mcpe/RakLib.cs:294-296 | reading an empty channel gives nothing; otherwise it gives the oldest message and removes exactly it |
| RakLib.RakLibChannelWriter.constructor | network/mcpe/RakLib.cs:304-306 | the writer writes to the given buffer |
| RakLib.RakLibChannelWriter.Write | network/mcpe/RakLib.cs:308-310 | a written message is queued behind all earlier ones |
| RakLib.WriteThenRead | network/mcpe/RakLib.cs:294-310 | a message written into an empty channel is the next one read from it, and the channel is empty again |
| RakLib.RakLibInterface.constructor | network/mcpe/RakLib.cs:33-52 | a new interface has no sessions and has sent no commands |
| RakLib.RakLibInterface.OnClientConnect | network/mcpe/RakLib.cs:54-57 | a fresh connected session without an address is stored under the id, replacing any earlier one; nothing else changes |
| RakLib.RakLibInterface.OnClientDisconnect | network/mcpe/RakLib.cs:59-64 | an unknown id changes nothing; a known session is removed and told the client left |
| RakLib.RakLibInterface.Close | network/mcpe/RakLib.cs:66-70 | an unknown id changes nothing; a known session is removed and exactly one close command is sent for it |
| RakLib.RakLibInterface.OnPacketReceive | network/mcpe/RakLib.cs:72-93 | unknown sessions are ignored; a dropped packet only logs; otherwise the session gets the packet minus its first byte, and a packet error logs the error id, disconnects the session with it and bans its address for 5 seconds; the session table is never changed |
| RakLib.RakLibInterface.OnPingMeasure | network/mcpe/RakLib.cs:107-110 | a known session gets the ping; an unknown id changes nothing |
| RakLib.RakLibInterface.Start | network/mcpe/RakLib.cs:112-121 | the start logs the wait, and on success the boot; a crash during start propagates the transport server's failure |
| RakLib.RakLibInterface.Tick | network/mcpe/RakLib.cs:127-134 | the check returns the decision as written, changing nothing |
| RakLib.RakLibInterface.Shutdown | network/mcpe/RakLib.cs:139-141 | the transport server is flagged shut down and nothing else of it changes |
| RakLib.RakLibInterface.SetName | network/mcpe/RakLib.cs:123-125 | one rename command is sent |
| RakLib.RakLibInterface.BlockAddress | network/mcpe/RakLib.cs:143-145 | one block command with the given timeout is sent |
| RakLib.RakLibInterface.UnblockAddress | network/mcpe/RakLib.cs:147-149 | one unblock command is sent |
| RakLib.RakLibInterface.SendRawPacket | network/mcpe/RakLib.cs:155-157 | one raw-send command with the address, port and payload is sent |
| RakLib.RakLibInterface.AddRawPacketFilter | network/mcpe/RakLib.cs:159-161 | one filter command with the pattern is sent |
| Servers.StopEvents | Server.cs:142-145 | two events per interface: the debug line naming its type, then its unregistration |
| Servers.StopEventsAt | Server.cs:142-145 | the i-th interface's debug line comes right before its unregistration |
| Servers.TickCounterWraps | Server.cs:113-115 | one tick past the largest 32-bit counter gives the smallest |
| Servers.Wrap32Step | Server.cs:113-115 | ticking a wrapped counter is the same as wrapping the ticked counter |
| Servers.WindowIndexAsWritten | Server.cs:97 | the window slot as written lies strictly between -20 and 20, is non-negative for a non-negative counter, and is congruent to the counter modulo 20 |
| Servers.WindowIndex | Server.cs:97-99 | the intended window slot lies in 0..19, agrees with the written one for a non-negative counter, and is congruent to the counter modulo 20 |
| Servers.WindowIndexAfterWrap | Server.cs:97-115 | once the counter has wrapped, the slot as written is -8, outside the window, while the intended slot is 12 |
| Servers.SlotRange | Server.cs:97 | the set of slots lo..hi-1, of size hi - lo |
| Servers.KeysBounded | Server.cs:97-99 | a window whose keys lie in lo..hi-1 has at most hi - lo entries |
| Servers.WindowBounded | Server.cs:97-99 | a window on the slots C#'s remainder can give (-19..19) holds at most 39 entries, and one on the intended slots 0..19 at most 20 |
| Servers.WrappedWindowGrows | Server.cs:97-115 | as written, a full 20-entry window gains a 21st entry at the first tick after the counter wraps |
| Servers.IntendedWindowStaysBounded | Server.cs:97-99 | with the intended slot, a window on the slots 0..19 stays on them, and so within 20 entries, whatever the counter |
| Servers.Ticks | Server.cs:85-92 | the number of ticks among the loop's passes is at most the number of passes |
| Servers.TicksPrefix | Server.cs:85-92 | the passes so far hold no more ticks than all the passes |
| Servers.Min | Server.cs:94-95 | `Math.Min`: no larger than either argument and equal to one of them |
| Servers.UnregisterAll | Server.cs:141-145 | the unregistration loop: both interface tables end empty, every interface is shut down once in enumeration order, and the logged events are `StopEvents` of the interfaces |
| Servers.NoneAdvanced | Server.cs:142-145 | once no interface is registered, no advanced interface is either |
| Servers.StopNetwork | Server.cs:138-146 | every session is disconnected with "Server closed" and the session table emptied, then every interface is unregistered and shut down |
| Servers.UnregisterNext | Server.cs:142-145 | one pass of the loop: the next interface is still registered, so unregistering it succeeds and shuts it down |
| Servers.NextKeyPresent | Server.cs:142-145 | the i-th interface of the enumeration is still registered after the ones before it are gone |
| Servers.RemoveKeysKeeps | Server.cs:142-145 | removing other keys keeps an entry |
| Servers.RemoveKeysAll | Server.cs:142-145 | removing every key empties the table |
| Servers.RemoveKeysDrops | Server.cs:142-145 | an entry left after the removals was there before and was not removed |
| Servers.Server.constructor | Server.cs:12-49 | running, not stopped, counter 0, TPS 20, TPS use 0, empty windows, address 0.0.0.0:19137 and a network named "SkyWing Net" with no interfaces |
| Servers.Server.Tick | Server.cs:113-115 | the counter goes up by one, wrapping at the 32-bit bound |
| Servers.Server.RecordTick | Server.cs:92-99 | a due tick: the counter goes up (wrapping), the TPS is clamped to at most 20 and the TPS use to at most 1, and both are stored under the slot C#'s remainder gives for the new counter, and nowhere else |
| Servers.Server.TickHandler | Server.cs:80-111 | over a series of passes, the counter advances by the number of due ticks (wrapping) and a server that is not running ticks nothing; each window stays within 39 entries, and as long as the counter starts non-negative and does not pass `int.MaxValue`, both windows stay on the slots 0..19 with at most 20 entries |
| Servers.Server.Pass | Server.cs:85-99 | one pass of the loop: a due tick advances the counter, sets the clamped current figures and writes them to the window slot of the new counter; a pass that is too early changes nothing |
| Servers.Server.PassAt | Server.cs:85-99 | one pass keeps the loop's counter equal to the start value plus the ticks so far (wrapping), and, while no wrap is possible, keeps both windows on the slots 0..19 |
| Servers.Server.Shutdown | Server.cs:117-119 | clears `Running`; a second call changes nothing |
| Servers.Server.StartupPreparedConnectableNetworkInterfaces | Server.cs:60-74 | a started interface is registered under its identity and logged as booted, with result true; an interface-start error is logged as an emergency and gives false with no table changed; any other error is passed on |
| Servers.Server.ForceShutdown | Server.cs:129-156 | a stopped server is left as it is; otherwise, an emergency line only if it was running, then flagged stopped and not running, then sessions closed, then every interface unregistered in order |
| Servers.Server.Stop | Server.cs:132-146 | the work past the `HasStopped` guard, in the order described for `ForceShutdown` |
| Configs.Format | utils/Config.cs:367 | a null value writes as nothing, a boolean as "True" or "False", a string as itself |
| Configs.Unquote | utils/Config.cs:381-384 | an unquoted value is kept; a value enclosed in a matching pair of double or single quotes loses exactly that pair; a lone quote character is the substring error |
| Configs.UnquoteOuterPair | utils/Config.cs:381-384 | whatever the text between them, exactly the outer pair of quotes is removed |
| Configs.ClassifyCases | utils/Config.cs:386-403 | on, yes and true read as true; off, no and false as false; other text that parses as a 32-bit integer reads as that integer; anything else stays the text itself |
| Configs.ReadLine | utils/Config.cs:374-384 | a line is skipped exactly when it is empty, starts with ';', '#' or ''' or has no '='; otherwise the key is the trimmed text before the first '=' and the value is read from the text after it, or the line carries the value's error |
| Configs.Entries | utils/Config.cs:374 | each line contributes what `ReadLine` says, in order |
| Configs.AbsorbUnfold | utils/Config.cs:374-406 | the read goes line by line: a skipped line adds nothing, a broken value ends the read with its error, a key already read ends it with the duplicate-key error, any other entry is added |
| Configs.ReadProperties | utils/Config.cs:372-409 | the loop builds the table that the lines of the text, split at newlines, give through `Absorb`, and stops at the first error |
| Configs.ReadKeysDistinct | utils/Config.cs:405 | in a successful read every entry's key ends up in the table, and no two entries share a key |
| Configs.KeptInResult | utils/Config.cs:405 | a successful read never drops a key already read |
| Configs.WriteProperties | utils/Config.cs:364-370 | the text is one newline-terminated `key=value` line per entry, each entry written exactly once, in some enumeration order of the table |
| Configs.NumberReadsBack | utils/Config.cs:367-400 | the decimal text of an integer that parses reads back as that integer |
| Configs.IntReadsBack | utils/Config.cs:367-400 | every 32-bit integer value is written as text that reads back as the same integer |
| Configs.CapitalisedReadsAsText | utils/Config.cs:381-403 | a text starting with a capital and ending with a small letter reads back as that text |
| Configs.BoolReadsBackAsText | utils/Config.cs:367-396 | a boolean is written "True" or "False", which reads back as text, not as a boolean |
| Configs.ReadWrittenLine | utils/Config.cs:367-384 | the line written for an entry with a plain key and a value that reads back is read as the same entry |
| Configs.AbsorbWritten | utils/Config.cs:374-406 | reading the entries of distinct new keys adds exactly those entries |
| Configs.WriteThenRead | utils/Config.cs:364-409 | a table with plain keys and values that read back is read back unchanged from the text written for it, whatever the enumeration order |
| Configs.NoNewlineInLine | utils/Config.cs:367 | a written line holds no newline when neither its key nor its value does, so the text splits back into the written lines |
| Configs.Put | utils/Config.cs:140-150 | setting a dotted path changes only the first step's entry, keeping every other top-level key; the walk fails only on a null or a non-table in the way |
| Configs.PutThenLookup | utils/Config.cs:140-150 | after a successful set, following the same path reaches the value stored |
| Configs.PutCreatesPath | utils/Config.cs:143-148 | when the first step is missing, the whole path of tables is created and the set succeeds |
| Configs.PutFailsOnlyOnNonTable | utils/Config.cs:143-148 | a failed set always meets a step along the path that holds something other than a table |
| Configs.Config.constructor | utils/Config.cs:28-30 | a loaded store holds the table read, an empty cache and no changes |
| Configs.Config.Get | utils/Config.cs:85-94 | a missing key gives the default; a key whose value converts gives the converted value; an invalid cast gives the default; any other conversion error propagates; nothing is changed |
| Configs.Config.Set | utils/Config.cs:135-138 | only the named key changes, to the new value, and the store is marked changed |
| Configs.Config.Remove | utils/Config.cs:160-163 | only the named key is removed, and the store is marked changed |
| Configs.Config.SetAll | utils/Config.cs:155-158 | the store is replaced by the given table and marked changed |
| Configs.Config.SetNested | utils/Config.cs:140-153 | a failed walk raises and changes nothing; otherwise the store is the table with the value set at the path, the cache is emptied, the store is marked changed, and the path now reaches the value |
| PropertyFiles.Pieces | utils/Properties.cs:54 | a line with an `=` splits into at least two pieces, so the value piece always exists |
| PropertyFiles.LineEntryParts | utils/Properties.cs:49-55 | for a kept line the key is the untrimmed text before the first `=`, and the value is the text after it up to the next `=`; anything after a second `=` is dropped |
| PropertyFiles.FirstPiece | utils/Properties.cs:54-55 | the first piece of a split holds no `=` and is the whole text or the part before its first `=` |
| PropertyFiles.Entries | utils/Properties.cs:48-56 | each line of the file contributes its entry, or nothing, in order |
| PropertyFiles.AbsorbUnfold | utils/Properties.cs:48-56 | the parse goes line by line: a skipped line adds nothing, a key already present stops it with the duplicate-key error, any other entry is added |
| PropertyFiles.AbsorbFailsOnRepeat | utils/Properties.cs:55 | a parse fails exactly when a kept line repeats a key already in the table or on an earlier line, and it then fails with the duplicate-key error |
| PropertyFiles.AbsorbKeepsEarlier | utils/Properties.cs:55 | entries present before a parse keep their values, even when the parse fails |
| PropertyFiles.ReadWrittenLine | utils/Properties.cs:49-79 | the line written for an entry with no `=` in it and no `#` in front of the key is read back as that entry |
| PropertyFiles.Written | utils/Properties.cs:79 | the entries read back from the written lines are the listed entries, in order |
| PropertyFiles.AbsorbWritten | utils/Properties.cs:48-56 | parsing the entries of distinct keys not yet present adds exactly those entries and raises nothing |
| PropertyFiles.WriteThenParse | utils/Properties.cs:39-84 | parsing the lines written for a table of plain entries into an empty store gives back the same table without error, whatever the enumeration order |
| PropertyFiles.Properties.constructor | utils/Properties.cs:7-8 | a new store is empty |
| PropertyFiles.Properties.Parse | utils/Properties.cs:39-57 | a missing file changes nothing; otherwise the store becomes what `Absorb` builds from the lines on top of the old store, and the parse raises exactly when that stops on a repeated key, with its error |
| PropertyFiles.Properties.GetValue | utils/Properties.cs:63-65 | the stored value for a present key, the fallback otherwise |
| PropertyFiles.Properties.SetValue | utils/Properties.cs:67-73 | the key is inserted or overwritten with the value, which it then reads back; every other key keeps its presence and value |
| PropertyFiles.Properties.WriteToFile | utils/Properties.cs:75-84 | the lines written are one `key=value` line per entry, each entry exactly once, in some enumeration order of the table |
| Languages.Open | language/Language.cs:40-51 | the language name is lower-cased; opening succeeds exactly when its file exists and, unless the fallback is the same language, the fallback's file exists too; a missing file raises "Language <code> not found."; the fallback table is the language's own when the codes are equal and the fallback file's otherwise |
| Languages.InternalGet | language/Language.cs:66-68 | the language's own entry wins, then the fallback's; the result is absent exactly when neither table has the key |
| Languages.Get | language/Language.cs:62-92 | the translation is the own entry, else the fallback entry, else the key itself |
| Languages.Name | language/Language.cs:34 | the display name is the translation of the language's own code, the code itself when neither table has it |
| Languages.OpenedAsFallback | language/Language.cs:40-68 | a language opened under the fallback's own name finds exactly its own keys, and any other key translates as itself |
| Languages.Placeholder | language/Language.cs:74-84 | the placeholder of a parameter is `{%`, its decimal position, `}` |
| Languages.PlaceholderInjective | language/Language.cs:74-84 | two parameter positions share a placeholder only when they are the same position |
| Languages.RenderedStep | language/Language.cs:73-85 | each loop pass replaces every occurrence of the next placeholder in the text so far by the next argument |
| Languages.RenderedStable | language/Language.cs:73-75 | passes whose placeholders no longer occur leave the text as it is |
| Languages.RenderedPlain | language/Language.cs:70-88 | a translation without `{%` is returned unchanged, whatever the arguments |
| Languages.PlaceholderOccursOnlyInItself | language/Language.cs:74-84 | the placeholder of one position never occurs inside the placeholder of another |
| Languages.RenderedLonePlaceholder | language/Language.cs:70-88 | a template that is just the k-th placeholder renders as the k-th argument, when that argument has no `{%` in it |
| Languages.Gets | language/Language.cs:74 | each plain value is translated as a key, in order |
| Languages.Translations | language/Language.cs:84 | each message parameter is translated in turn, in order |
| Languages.TranslationOfKey | language/Language.cs:94-122 | a message without parameters translates as its key's translation |
| Languages.Wrap | language/Language.cs:105-112 | the message keeps the text and holds one parameter-less message per string, in order |
| Languages.Key | language/Language.cs:119-122 | a message built from a text alone has that text and no parameters |
| Languages.WrappedTranslatesAlike | language/Language.cs:70-112 | translating a message whose string parameters were wrapped gives the same text as the overload that takes the strings |
| Languages.TranslateStrings | language/Language.cs:70-78 | the loop returns the key's translation with placeholder i replaced by the translation of value i, for each i in turn |
| Languages.TranslateList | language/Language.cs:80-88 | the loop returns the key's translation with placeholder i replaced by the translation of message i, for each i in turn |
| Languages.Translate | language/Language.cs:94-96 | a message translates as its key's translation with its parameters' translations put in, through any depth of nesting |
| Languages.GetParameterAsWritten | language/Language.cs:124-126 | as written: an index beyond the count raises an out-of-range error, and every other index gives nothing |
| Languages.GetParameter | language/Language.cs:124-126 | corrected: the parameter at a position in range, nothing outside the range |
| Languages.GetParameterMissesPresent | language/Language.cs:124-126 | for every position that holds a parameter, the code as written answers nothing while the corrected one returns that parameter |
| GameModes.Registered | player/GameMode.cs:36-40 | after registering a mode, each of its aliases maps to it, replacing any earlier entry; every other alias keeps its entry or its absence |
| GameModes.RegisteredPointwise | player/GameMode.cs:36-40 | a table that agrees at every alias with the registered table is that table |
| GameModes.RegisteredThree | player/GameMode.cs:36-40 | registering a mode with three aliases sets each of them to that mode |
| GameModes.SetUpFromEmpty | player/GameMode.cs:29-40 | setting up an empty table gives exactly the twelve aliases, three per mode |
| GameModes.Lookup | player/GameMode.cs:42-45 | an alias names a mode exactly when it is one of the registered aliases |
| GameModes.UnknownAlias | player/GameMode.cs:29-45 | a string that is none of the twelve aliases names no mode |
| GameModes.EnglishNames | player/GameMode.cs:29-34 | every registered mode carries the English name "Survival" |
| GameModes.IdAlias | player/GameMode.cs:54-62 | exactly the ids 0 to 3 have an alias |
| GameModes.FromId | player/GameMode.cs:54-62 | exactly the ids 0 to 3 give a mode |
| GameModes.ToId | player/GameMode.cs:64-72 | the four kinds have ids 0 to 3; any other kind raises "Game mode is not mapped." |
| GameModes.ToIdOfFromId | player/GameMode.cs:54-72 | the mode of an id has that id |
| GameModes.FromIdOfToId | player/GameMode.cs:54-72 | the id of a mode's kind gives back a mode of the same kind |
| GameModes.AliasRegistry.constructor | player/GameMode.cs:15 | the alias table starts empty |
| GameModes.AliasRegistry.Register | player/GameMode.cs:36-40 | the loop leaves the table as `Registered` says |
| GameModes.AliasRegistry.Setup | player/GameMode.cs:29-34 | the four modes are registered in order |
| GameModes.AliasRegistry.FromString | player/GameMode.cs:42-49 | the first lookup fills the table with the twelve aliases and later ones leave it as it is; the result is the mode the alias names, or nothing |
| GameModes.AliasRegistry.ModeOfId | player/GameMode.cs:54-62 | the mode of an id through its alias, or nothing outside 0 to 3 |

## Left out

- File and console I/O. This covers reading and writing `.properties` files, `Config.Load`/`Save` and the JSON reader. It also covers `Language.LoadLang` and `GetLanguageList`, and the log writer thread's console and file output. The models take or return lines, tables or queued log lines instead.
- Text to lines: `File.ReadAllLines` and `File.WriteAllLines` are not modelled. `Properties.Parse` receives the lines, absent when the file does not exist. `WriteToFile` returns the lines.
- `Properties.Create` is not modelled. It serialises an object's properties through reflection.
- The `Properties` constructor's `read` flag is not modelled. The model's constructor builds an empty store, and a caller that reads calls `Parse` next.
- `Config.GetNested`, `RemoveNested`, `GetAll`, `GetAllNoKeys`, `SetDefaults` and `FillDefaults` are not modelled. The JSON reading (`CreateJsonObject`, `CreateJsonArray`) is not modelled either. They depend on Newtonsoft, `Task.Run` and runtime type tests against interface types.
- `Config.Get`: `Convert.ChangeType` is the `cast` parameter.
- `Configs.Config.constructor` models a store after a successful load: the file-type detection and loading are I/O.
- Nested `Config` tables are values. The model does not capture aliasing between a nested dictionary held elsewhere and the store.
- Thread bodies and waiting are not modelled: `RakLibServerThread`, the readiness spin loop of `StartAndWait`, and the log writer thread. The model receives the thread's running state and crash information as inputs. `ThreadedBuffer` is a sequential queue, with no interleaving of concurrent callers.
- `RakLibServerCrashInfo.From` is not modelled: it builds the crash information from a stack trace by reflection, so the information is an input.
- The RakLib engine, socket and message encoding are foreign code. Commands sent to the transport thread are recorded as `Command` values.
- `RakLibInterface.OnRawPacketReceive` and `OnBandwidthStatsUpdate` only forward to `Network.ProcessRawPacket` and to the bandwidth tracker's `Add`, each of which is modelled. As written, these forwards would fail: `SetNetwork` is called only in the advanced branch of `Network.RegisterInterface`, which the type test never enters (see "## Findings"), so a `RakLibInterface`'s network stays null. `OnPacketAck` does nothing. `SetNetwork` only stores a reference. The constructor's random server id and transport settings are not modelled.
- `RakLib.RakLibInterface.Start` turns a `SocketException` into an interface start error. `StartAndWait` never raises one, so that branch is unreachable and not modelled.
- Timing in `Server.TickHandler` is not modelled: the stopwatch, `Thread.Sleep` and the floating-point TPS arithmetic. The TPS figures of each pass are inputs, and the model keeps the counter, the clamps and the window slots.
- `Server.ForceShutdownExit` is not modelled. It waits for a key press and kills the process.
- Identity hashes (`GetHashCode`) are the `id` fields of interfaces, handlers and sessions.
- `Networks.Network.ProcessRawPacket` reads the clock once, as `now`. The C# code reads it again inside `BlockAddress` when a handler raises.
- `Bandwidth.BandwidthStatsTracker.Add` does not model 64-bit wrap-around of the byte counters. The counters are unbounded integers.
- `Bandwidth.BandwidthStatsTracker.AverageBytes` does not model the overflow exception of summing the 64-bit history. The sum is an unbounded integer.
- Translatable game-mode names are the message keys of `KnownTranslation` (`gamemode.survival` and so on). The rest of `KnownTranslation` is not part of this model.
- `Configs.ReadLine` tests the `;`, `#` and `'` prefixes ordinally. .NET's `StartsWith(string)` compares under the current culture, which passes over ignorable characters such as U+00AD, so a line like U+00AD `#x=1` is skipped by the C# code but read by the model.
- `Configs.Unquote` tests the surrounding quotes ordinally. The culture-sensitive `StartsWith`/`EndsWith` of the C# code also count a value that ends in a quote followed by U+00AD as quoted; the model keeps such a value unchanged.
- `PropertyFiles.Entries` tests the `#` comment prefix ordinally. The C# code's culture-sensitive `StartsWith` also skips a line like U+00AD `#k=v`, which the model reads as an entry.
- `Common.IntToStringShape` writes a negative number with the invariant culture's `-`. `$"{value}"` uses the current culture's negative sign, which is U+2212 in some cultures; other cultures are not modelled.
- `Common.ParseInt32` accepts only the invariant culture's `-` and `+` signs. `int.TryParse` uses the current culture's sign strings, so a culture whose negative sign is U+2212 reads "−5" as -5, while the model does not.
- `Languages.Translatable` is a datatype, so a message cannot share its parameter list with the caller or contain itself. The C# class's `List<Translatable>` constructor keeps the caller's list by reference, so a message can be made to contain itself, and translating it then recurses until the stack overflows.
- `Common.ToLower` lower-cases only the ASCII letters A to Z. .NET's culture-sensitive lower-casing of other letters is not modelled.
- Each loop over a dictionary may enumerate it in any order that lists each key once. The model does not tie two loops over the same unchanged table to one order, except the bans of one raw-packet dispatch, which share one enumeration of the advanced interfaces.
- `Servers.Server` writes the window slot as the C# code does (`WindowIndexAsWritten`). The corrected `WindowIndex` and its bound (`IntendedWindowStaysBounded`) are stated beside it, not used by the class.
- `GameModes.AliasRegistry` stands for the static alias table: the class-wide dictionary is one object of the model.

## Findings

| source | as written | input that shows it | evidently intended | confidence | as-written member | corrected member |
|---|---|---|---|---|---|---|
| Server.cs:97 | The window slot is `TickCounter % 20`. The counter wraps at `int.MaxValue`, and C#'s `%` keeps the sign. | A counter wrapped to `int.MinValue` gives slot -8. A full TPS window then gains a 21st key, outside 0..19. | Slot `counter mod 20`, always in 0..19. | not executed | Servers.WrappedWindowGrows | Servers.IntendedWindowStaysBounded |
| network/mcpe/RakLib.cs:127-134 | The crash check raises "crashed without crash information" when the server is not shut down and its thread runs. It passes when the server is down without crash information. | A healthy server (no shutdown, thread running, no crash) raises on every tick. | Pass on a healthy server; raise when it is stopped. | not executed | RakLib.TickDecisionPassesIff | RakLib.IntendedTickDecisionPassesIff |
| network/mcpe/RakLib.cs:280 | `Class ?? "Fatal Error" + …`: `??` binds more loosely than `+`. | A crash with class "X" gives the message "X", without the exception message, file and line. | The class name or "Fatal Error", then the message, file and line. | not executed | RakLib.PrettyMessageDropsLocation | RakLib.IntendedPrettyMessage |
| network/Network.cs:48 | `networkInterface.GetType() == typeof(AdvancedNetworkInterface)`. `AdvancedNetworkInterface` is an interface type, and `GetType()` always gives a class. | Registering a `RakLibInterface` skips the advanced branch: it is never given the network, the bans or the handler patterns, and `AdvancedInterfaces` stays empty. | `networkInterface is AdvancedNetworkInterface` | not executed | Networks.RegistrationAsWritten | Networks.IntendedRegistration |
| network/Network.cs:92-97 | `UnblockAddress` calls `BlockAddress(address)` on every advanced interface. | Unblocking an address with one advanced interface registered sends it a 300-second block of that address. | `networkInterface.UnblockAddress(address)` | not executed | Networks.UnblockAsWrittenBlocks | Networks.IntendedUnblockLifts |
| language/Language.cs:125 | `Parameters.Count < i ? Parameters[i] : null` | A message with one parameter and index 0 gives null. Every index beyond the count raises. | `i < Parameters.Count ? Parameters[i] : null` | not executed | Languages.GetParameterMissesPresent | Languages.GetParameter |
