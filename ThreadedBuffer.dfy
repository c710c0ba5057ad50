/**
 * The unbounded first-in-first-out buffer through which the main thread and the
 * transport thread exchange messages, modelled as a sequential queue.
 */
module ThreadedBuffers {
  import opened Common

  /** One call on a buffer: `Add(value)` or `Shift()`. */
  datatype BufferOp<T> = AddOp(value: T) | ShiftOp

  /** The queue after one call and what the call returned (`None` for `Add` and for `Shift` on an empty queue). */
  datatype Step<T> = Step(queue: seq<T>, returned: Option<T>)

  function Apply<T>(queue: seq<T>, op: BufferOp<T>): (s: Step<T>)
    ensures op.AddOp? ==> |s.queue| == |queue| + 1 && s.queue[|queue|] == op.value && s.returned == None
    ensures op.ShiftOp? && queue == [] ==> s == Step(queue, None)
    ensures op.ShiftOp? && queue != [] ==> s.returned == Some(queue[0]) && [queue[0]] + s.queue == queue
  {
    match op
    case AddOp(v) => Step(queue + [v], None)
    case ShiftOp => if queue == [] then Step(queue, None) else Step(queue[1..], Some(queue[0]))
  }

  /** The value a call hands to the buffer, if any. */
  function Given<T>(op: BufferOp<T>): seq<T> {
    if op.AddOp? then [op.value] else []
  }

  /** The value a call takes out of `queue`, if any. */
  function Taken<T>(queue: seq<T>, op: BufferOp<T>): seq<T> {
    if op.ShiftOp? && queue != [] then [queue[0]] else []
  }

  /** The values handed to `Add`, in call order. */
  function Added<T>(ops: seq<BufferOp<T>>): seq<T> {
    if ops == [] then [] else Given(ops[0]) + Added(ops[1..])
  }

  /** The values `Shift` returned (skipping the empty results), in call order. */
  function Shifted<T>(queue: seq<T>, ops: seq<BufferOp<T>>): seq<T>
    decreases |ops|
  {
    if ops == [] then [] else Taken(queue, ops[0]) + Shifted(Apply(queue, ops[0]).queue, ops[1..])
  }

  /** The queue after a whole sequence of calls. */
  function Final<T>(queue: seq<T>, ops: seq<BufferOp<T>>): seq<T>
    decreases |ops|
  {
    if ops == [] then queue else Final(Apply(queue, ops[0]).queue, ops[1..])
  }

  /**
   * FIFO: whatever the interleaving of calls, the values shifted out followed by
   * the values still queued are exactly the values queued before plus the values
   * added, in the same order. Nothing is lost, duplicated or reordered.
   */
  lemma {:induction false} FirstInFirstOut<T>(queue: seq<T>, ops: seq<BufferOp<T>>)
    ensures Shifted(queue, ops) + Final(queue, ops) == queue + Added(ops)
    decreases |ops|
  {
    if ops != [] {
      var next := Apply(queue, ops[0]).queue;
      var rest := ops[1..];
      FirstInFirstOut(next, rest);
      calc {
        Shifted(queue, ops) + Final(queue, ops);
        (Taken(queue, ops[0]) + Shifted(next, rest)) + Final(next, rest);
        Taken(queue, ops[0]) + (Shifted(next, rest) + Final(next, rest));
        Taken(queue, ops[0]) + (next + Added(rest));
        { OneCallKeepsOrder(queue, ops[0], Added(rest)); }
        queue + (Given(ops[0]) + Added(rest));
      }
    }
  }

  /** One call: what it takes out, then the queue it leaves, then what comes later, is the queue it found, then what it gave, then what comes later. */
  lemma OneCallKeepsOrder<T>(queue: seq<T>, op: BufferOp<T>, later: seq<T>)
    ensures Taken(queue, op) + (Apply(queue, op).queue + later) == queue + (Given(op) + later)
  {
    if op.ShiftOp? && queue != [] {
      assert queue == [queue[0]] + queue[1..];
    }
  }

  /** A buffer of values exchanged between two threads (here: calls in one sequence). */
  class ThreadedBuffer<T> {
    var buffer: seq<T>

    constructor ()
      ensures buffer == []
    {
      buffer := [];
    }

    /** Appends `value` at the back. */
    method Add(value: T)
      modifies this
      ensures buffer == Apply(old(buffer), AddOp(value)).queue
      ensures buffer == old(buffer) + [value]
    {
      buffer := buffer + [value];
    }

    /** Removes and returns the front value; on an empty buffer returns `default` (None) and changes nothing. */
    method Shift() returns (r: Option<T>)
      modifies this
      ensures Step(buffer, r) == Apply(old(buffer), ShiftOp)
      ensures old(buffer) == [] ==> r == None && buffer == []
      ensures old(buffer) != [] ==> r == Some(old(buffer)[0]) && buffer == old(buffer)[1..]
    {
      if |buffer| < 1 {
        return None;
      }
      var value := buffer[0];
      buffer := buffer[1..];
      return Some(value);
    }
  }
}
