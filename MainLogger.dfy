/**
 * The server logger: the level dispatch, the gating of debug lines, the
 * formatting of a log line, and the first-in-first-out queue that the log
 * writer thread drains into the log file.
 */
module MainLoggers {
  import opened Common
  import ThreadedBuffers

  /**
   * The logger's levels. `Other(code)` is any value of the level enumeration
   * outside the eight listed ones, such as an out-of-range cast.
   */
  datatype LogLevel =
    | Emergency | Alert | Critical | ErrorLevel | Warning | Notice | Info | Debug
    | Other(code: int)

  /** The tag a listed level's lines carry; an unlisted level has none. */
  function Prefix(level: LogLevel): (p: Option<string>)
    ensures p.None? <==> level.Other?
  {
    match level
    case Emergency => Some("EMERGENCY")
    case Alert => Some("ALERT")
    case Critical => Some("CRITICAL")
    case ErrorLevel => Some("ERROR")
    case Warning => Some("WARNING")
    case Notice => Some("NOTICE")
    case Info => Some("INFO")
    case Debug => Some("DEBUG")
    case Other(_) => None
  }

  /** Each listed level has its own tag, which spells the level's name in capitals. */
  lemma PrefixesDistinct(a: LogLevel, b: LogLevel)
    requires !a.Other? && !b.Other?
    ensures Prefix(a) == Prefix(b) <==> a == b
  {
  }

  /** Whether a line at `level` reaches the queue: debug lines only with debug logging on, unlisted levels never. */
  predicate Emits(level: LogLevel, logDebug: bool) {
    match level
    case Other(_) => false
    case Debug => logDebug
    case _ => true
  }

  /** The local date (`yy-MM-dd`) and time (`HH:mm:ss`) a line is stamped with. */
  datatype Stamp = Stamp(date: string, time: string)

  /** The thread a line is labelled with: the current thread's name, or the main thread's name when it has none. */
  function ThreadLabel(currentThread: Option<string>, mainThreadName: string): (name: string)
    ensures currentThread.Some? ==> name == currentThread.value
    ensures currentThread.None? ==> name == mainThreadName
  {
    match currentThread
    case Some(t) => t
    case None => mainThreadName
  }

  /** The text of the console line: `[thread/PREFIX] message`. */
  function Labelled(thread: string, prefix: string, message: string): string {
    "[" + thread + "/" + prefix + "] " + message
  }

  /** The queued line: the date and the time in brackets, then the labelled text and a newline. */
  function FileLine(stamp: Stamp, thread: string, prefix: string, message: string): string {
    "[" + stamp.date + "] [" + stamp.time + "] " + Labelled(thread, prefix, message) + "\n"
  }

  /** A queued line ends with the message and its newline, whatever the stamp and the label. */
  lemma FileLineEndsWithMessage(stamp: Stamp, thread: string, prefix: string, message: string)
    ensures EndsWith(FileLine(stamp, thread, prefix, message), message + "\n")
    ensures StartsWith(FileLine(stamp, thread, prefix, message), "[" + stamp.date + "] [")
  {
    var head := "[" + stamp.date + "] [" + stamp.time + "] " + "[" + thread + "/" + prefix + "] ";
    assert FileLine(stamp, thread, prefix, message) == head + (message + "\n");
    assert FileLine(stamp, thread, prefix, message) == ("[" + stamp.date + "] [") + (stamp.time + "] " + Labelled(thread, prefix, message) + "\n");
  }

  /** The queue of lines waiting for the log writer thread. */
  class LogSendQueue {
    var queue: seq<string>

    constructor ()
      ensures queue == []
    {
      queue := [];
    }

    method Add(message: string)
      modifies this
      ensures queue == old(queue) + [message]
    {
      queue := queue + [message];
    }

    /**
     * Removes and returns the oldest line, or nothing when the queue is empty;
     * it is the buffer `Shift` of the channel model, so `FirstInFirstOut` holds of it.
     */
    method Get() returns (r: Option<string>)
      modifies this
      ensures ThreadedBuffers.Step(queue, r) == ThreadedBuffers.Apply(old(queue), ThreadedBuffers.ShiftOp)
    {
      if |queue| <= 0 {
        return None;
      }
      var next := queue[0];
      queue := queue[1..];
      r := Some(next);
    }
  }

  class MainLogger {
    var logDebug: bool
    const mainThreadName: string
    const sendQueue: LogSendQueue

    constructor (mainThreadName: string, logDebug: bool)
      ensures this.mainThreadName == mainThreadName && this.logDebug == logDebug
      ensures fresh(sendQueue) && sendQueue.queue == []
    {
      this.mainThreadName := mainThreadName;
      this.logDebug := logDebug;
      sendQueue := new LogSendQueue();
    }

    /**
     * Writes one line: the labelled text goes to the console (not modelled)
     * and the stamped line to the queue. `stamp` is the clock reading in the
     * logger's time zone and `currentThread` the calling thread's name.
     */
    method Send(message: string, prefix: string, stamp: Stamp, currentThread: Option<string>)
      modifies sendQueue
      ensures sendQueue.queue == old(sendQueue.queue) + [FileLine(stamp, ThreadLabel(currentThread, mainThreadName), prefix, message)]
    {
      var threadName := ThreadLabel(currentThread, mainThreadName);
      sendQueue.Add("[" + stamp.date + "] [" + stamp.time + "] " + Labelled(threadName, prefix, message) + "\n");
    }

    /** A debug line is sent only while debug logging is on. */
    method Debug(message: string, stamp: Stamp, currentThread: Option<string>)
      modifies sendQueue
      ensures logDebug ==>
        sendQueue.queue == old(sendQueue.queue) + [FileLine(stamp, ThreadLabel(currentThread, mainThreadName), "DEBUG", message)]
      ensures !logDebug ==> sendQueue.queue == old(sendQueue.queue)
    {
      if logDebug {
        Send(message, "DEBUG", stamp, currentThread);
      }
    }

    /**
     * Sends `message` through the method of `level`, each of which sends with
     * its own tag (debug only while enabled); an unlisted level is an
     * argument-out-of-range error.
     */
    method Log(level: LogLevel, message: string, stamp: Stamp, currentThread: Option<string>) returns (r: Outcome)
      modifies sendQueue
      ensures r.Fail? <==> level.Other?
      ensures r.Fail? ==> r.error == ArgumentOutOfRange("level")
      ensures Emits(level, logDebug) ==>
        sendQueue.queue == old(sendQueue.queue) + [FileLine(stamp, ThreadLabel(currentThread, mainThreadName), Prefix(level).value, message)]
      ensures !Emits(level, logDebug) ==> sendQueue.queue == old(sendQueue.queue)
    {
      match level {
        case Emergency => Send(message, "EMERGENCY", stamp, currentThread);
        case Alert => Send(message, "ALERT", stamp, currentThread);
        case Critical => Send(message, "CRITICAL", stamp, currentThread);
        case ErrorLevel => Send(message, "ERROR", stamp, currentThread);
        case Warning => Send(message, "WARNING", stamp, currentThread);
        case Notice => Send(message, "NOTICE", stamp, currentThread);
        case Info => Send(message, "INFO", stamp, currentThread);
        case Debug => Debug(message, stamp, currentThread);
        case Other(_) => return Fail(ArgumentOutOfRange("level"));
      }
      r := Pass;
    }
  }
}
