/**
 * Rolling bandwidth statistics: a fixed-size circular history of byte counts,
 * an unflushed bucket that `Add` fills and `RotateHistory` flushes into the
 * next slot, and a lifetime total. The bidirectional tracker pairs one tracker
 * for sent bytes with one for received bytes.
 */
module Bandwidth {
  import opened Common

  function Sum(s: seq<int>): int {
    if s == [] then 0 else Sum(s[..|s| - 1]) + s[|s| - 1]
  }

  function Zeros(n: nat): (z: seq<int>)
    ensures |z| == n && forall i :: 0 <= i < n ==> z[i] == 0
  {
    seq(n, _ => 0)
  }

  /**
   * The history after flushing `buckets` one by one, starting at write cursor
   * `cursor`: each flush overwrites the slot under the cursor, then the cursor
   * advances modulo the history length.
   */
  function RotateAll(history: seq<int>, cursor: nat, buckets: seq<int>): (h: seq<int>)
    requires cursor < |history|
    ensures |h| == |history|
    ensures forall v :: v in h ==> v in history || v in buckets
    decreases |buckets|
  {
    if buckets == [] then history
    else RotateAll(history[cursor := buckets[0]], Advance(cursor, 1, |history|), buckets[1..])
  }

  /** The cursor after `k` advances from `cursor`, each one wrapping past the last slot to slot 0. */
  function Advance(cursor: nat, k: nat, n: nat): (c: nat)
    requires cursor < n
    ensures c < n
    decreases k
  {
    if k == 0 then cursor else Advance(if cursor + 1 < n then cursor + 1 else 0, k - 1, n)
  }

  /** Advancing by k within the slots that remain before the end moves the cursor by exactly k. */
  lemma {:induction false} AdvanceNoWrap(cursor: nat, k: nat, n: nat)
    requires cursor < n && cursor + k < n
    ensures Advance(cursor, k, n) == cursor + k
    decreases k
  {
    if k > 0 {
      AdvanceNoWrap(cursor + 1, k - 1, n);
    }
  }

  lemma {:induction false} AdvanceLastStep(cursor: nat, k: nat, n: nat)
    requires cursor < n
    ensures Advance(cursor, k + 1, n) == Advance(Advance(cursor, k, n), 1, n)
    decreases k
  {
    if k > 0 {
      AdvanceLastStep(if cursor + 1 < n then cursor + 1 else 0, k - 1, n);
    }
  }

  /** N advances over N slots bring the cursor from slot 0 back to slot 0. */
  lemma AdvanceFullCircle(n: nat)
    requires n > 0
    ensures Advance(0, n, n) == 0
  {
    AdvanceNoWrap(0, n - 1, n);
    AdvanceLastStep(0, n - 1, n);
  }

  /** Flushing `xs` and then `ys` is flushing `xs + ys`. */
  lemma {:induction false} RotateAllAppend(history: seq<int>, cursor: nat, xs: seq<int>, ys: seq<int>)
    requires cursor < |history|
    ensures RotateAll(history, cursor, xs + ys)
         == RotateAll(RotateAll(history, cursor, xs), Advance(cursor, |xs|, |history|), ys)
    decreases |xs|
  {
    var n := |history|;
    if xs == [] {
      assert xs + ys == ys;
    } else {
      var h1 := history[cursor := xs[0]];
      var c1 := Advance(cursor, 1, n);
      assert (xs + ys)[0] == xs[0];
      assert (xs + ys)[1..] == xs[1..] + ys;
      RotateAllAppend(h1, c1, xs[1..], ys);
      assert c1 == (if cursor + 1 < n then cursor + 1 else 0);
      assert Advance(cursor, |xs|, n) == Advance(c1, |xs| - 1, n);
    }
  }

  /** Flushing k <= length buckets from slot `cursor` fills exactly the next k slots with them, in order. */
  lemma {:induction false} RotateAllFills(history: seq<int>, cursor: nat, buckets: seq<int>)
    requires cursor < |history| && cursor + |buckets| <= |history|
    ensures RotateAll(history, cursor, buckets)
         == history[..cursor] + buckets + history[cursor + |buckets|..]
    decreases |buckets|
  {
    var n := |history|;
    if buckets == [] {
      assert history[..cursor] + [] + history[cursor..] == history;
    } else {
      var h1 := history[cursor := buckets[0]];
      if cursor + 1 < n {
        assert Advance(cursor, 1, n) == cursor + 1;
        RotateAllFills(h1, cursor + 1, buckets[1..]);
        assert h1[..cursor + 1] + buckets[1..] + h1[cursor + 1 + |buckets[1..]|..]
            == history[..cursor] + buckets + history[cursor + |buckets|..];
      } else {
        assert buckets[1..] == [];
        assert RotateAll(h1, Advance(cursor, 1, n), buckets[1..]) == h1;
        assert h1 == history[..cursor] + buckets + history[cursor + |buckets|..];
      }
    }
  }

  /**
   * After N flushes of buckets b1..bN into a fresh history of N slots the
   * history holds b1..bN, and one more flush b evicts b1 (the oldest sample).
   */
  lemma EvictsOldest(buckets: seq<int>, b: int)
    requires |buckets| > 0
    ensures RotateAll(Zeros(|buckets|), 0, buckets) == buckets
    ensures RotateAll(Zeros(|buckets|), 0, buckets + [b]) == [b] + buckets[1..]
  {
    var n := |buckets|;
    RotateAllFills(Zeros(n), 0, buckets);
    assert Zeros(n)[..0] + buckets + Zeros(n)[n..] == buckets;
    RotateAllAppend(Zeros(n), 0, buckets, [b]);
    AdvanceFullCircle(n);
    assert RotateAll(buckets, 0, [b]) == buckets[0 := b];
    assert buckets[0 := b] == [b] + buckets[1..];
  }

  /** The integer mean `sum / length` (C# `long` division), or the exception an empty history raises. */
  function Average(history: seq<int>): (r: Result<int>)
    ensures r.Err? <==> |history| == 0
    ensures r.Err? ==> r.error == DivideByZero
  {
    if |history| == 0 then Err(DivideByZero) else Ok(CDiv(Sum(history), |history|))
  }

  lemma {:induction false} SumBounds(s: seq<int>, hi: int)
    requires forall i :: 0 <= i < |s| ==> 0 <= s[i] <= hi
    ensures 0 <= Sum(s) <= |s| * hi
    decreases |s|
  {
    if s != [] {
      SumBounds(s[..|s| - 1], hi);
      assert (|s| - 1) * hi + hi == |s| * hi;
    }
  }

  /** The average of samples that all lie in [0, hi] lies in [0, hi] as well. */
  lemma AverageBounds(history: seq<int>, hi: int)
    requires |history| > 0
    requires forall i :: 0 <= i < |history| ==> 0 <= history[i] <= hi
    ensures 0 <= Average(history).value <= hi
  {
    SumBounds(history, hi);
    var n := |history|;
    var q := CDiv(Sum(history), n);
    assert q * n <= Sum(history) <= n * hi;
  }

  /** After N flushes into a fresh N-slot history, the average is (b1 + ... + bN) / N. */
  lemma AverageAfterFill(buckets: seq<int>)
    requires |buckets| > 0
    ensures Average(RotateAll(Zeros(|buckets|), 0, buckets)) == Ok(CDiv(Sum(buckets), |buckets|))
  {
    EvictsOldest(buckets, 0);
  }

  /** Byte statistics for one direction. */
  class BandwidthStatsTracker {
    var history: array<int>
    var nextIndex: nat
    var bytesSinceLast: int
    var totalBytes: int

    /** The write cursor stays inside the history whenever the history has slots. */
    ghost predicate Valid()
      reads this
    {
      history.Length == 0 ==> nextIndex == 0
    }

    ghost predicate CursorInRange()
      reads this
    {
      history.Length > 0 ==> nextIndex < history.Length
    }

    constructor (historySize: nat)
      ensures Valid() && CursorInRange() && fresh(history)
      ensures history.Length == historySize && history[..] == Zeros(historySize)
      ensures nextIndex == 0 && bytesSinceLast == 0 && totalBytes == 0
    {
      history := new int[historySize](_ => 0);
      nextIndex := 0;
      bytesSinceLast := 0;
      totalBytes := 0;
    }

    /** Counts `bytes` into the unflushed bucket and the lifetime total; does not rotate. */
    method Add(bytes: int)
      modifies this
      ensures totalBytes == old(totalBytes) + bytes
      ensures bytesSinceLast == old(bytesSinceLast) + bytes
      ensures history == old(history) && nextIndex == old(nextIndex)
    {
      totalBytes := totalBytes + bytes;
      bytesSinceLast := bytesSinceLast + bytes;
    }

    /**
     * Flushes the bucket into the slot under the cursor and advances the cursor.
     * With no slots, the write itself fails and nothing changes.
     */
    method RotateHistory() returns (r: Outcome)
      requires Valid() && CursorInRange()
      modifies this, history
      ensures Valid() && CursorInRange()
      ensures history == old(history) && totalBytes == old(totalBytes)
      ensures old(history.Length) == 0 ==> r == Fail(IndexOutOfRange) && unchanged(this)
      ensures old(history.Length) > 0 ==>
        && r == Pass
        && history[..] == RotateAll(old(history[..]), old(nextIndex), [old(bytesSinceLast)])
        && history[..] == old(history[..])[old(nextIndex) := old(bytesSinceLast)]
        && bytesSinceLast == 0
        && nextIndex == (old(nextIndex) + 1) % history.Length
    {
      if nextIndex >= history.Length {
        return Fail(IndexOutOfRange);
      }
      history[nextIndex] := bytesSinceLast;
      bytesSinceLast := 0;
      nextIndex := (nextIndex + 1) % history.Length;
      r := Pass;
    }

    /** The mean of the history slots. */
    function AverageBytes(): (r: Result<int>)
      reads this, history
      ensures r == Average(history[..])
    {
      Average(history[..])
    }

    /** Replaces the history with a fresh all-zero array of the same length; cursor, bucket and total stay. */
    method ResetHistory()
      requires Valid()
      modifies this
      ensures Valid() && fresh(history)
      ensures history.Length == old(history.Length) && history[..] == Zeros(history.Length)
      ensures nextIndex == old(nextIndex) && bytesSinceLast == old(bytesSinceLast)
      ensures totalBytes == old(totalBytes)
    {
      var historySize := history.Length;
      history := new int[historySize](_ => 0);
    }
  }

  /** One tracker for sent bytes and one for received bytes, rotated and reset together. */
  class BidirectionalBandwidthStatsTracker {
    const send: BandwidthStatsTracker
    const receive: BandwidthStatsTracker

    ghost predicate Valid()
      reads this, send, receive
    {
      && send != receive && send.history != receive.history
      && send.Valid() && receive.Valid()
      && send.CursorInRange() && receive.CursorInRange()
    }

    constructor (historySize: nat)
      ensures Valid() && fresh(send) && fresh(receive) && fresh(send.history) && fresh(receive.history)
      ensures send.history.Length == historySize && receive.history.Length == historySize
      ensures send.history[..] == Zeros(historySize) && receive.history[..] == Zeros(historySize)
      ensures send.nextIndex == 0 && send.bytesSinceLast == 0 && send.totalBytes == 0
      ensures receive.nextIndex == 0 && receive.bytesSinceLast == 0 && receive.totalBytes == 0
    {
      send := new BandwidthStatsTracker(historySize);
      receive := new BandwidthStatsTracker(historySize);
    }

    /** Adds `sendBytes` to the send tracker only and `recvBytes` to the receive tracker only. */
    method Add(sendBytes: int, recvBytes: int)
      requires Valid()
      modifies send, receive
      ensures Valid()
      ensures send.totalBytes == old(send.totalBytes) + sendBytes
      ensures send.bytesSinceLast == old(send.bytesSinceLast) + sendBytes
      ensures receive.totalBytes == old(receive.totalBytes) + recvBytes
      ensures receive.bytesSinceLast == old(receive.bytesSinceLast) + recvBytes
      ensures send.history == old(send.history) && send.nextIndex == old(send.nextIndex)
      ensures receive.history == old(receive.history) && receive.nextIndex == old(receive.nextIndex)
    {
      send.Add(sendBytes);
      receive.Add(recvBytes);
    }

    /**
     * Rotates the send tracker, then the receive tracker. A rotation that
     * fails (no slots) raises, so a failing send rotation leaves the receive
     * tracker untouched; the lifetime totals never change.
     */
    method RotateHistory() returns (r: Outcome)
      requires Valid()
      modifies send, receive, send.history, receive.history
      ensures Valid()
      ensures send.history == old(send.history) && receive.history == old(receive.history)
      ensures send.totalBytes == old(send.totalBytes) && receive.totalBytes == old(receive.totalBytes)
      ensures old(send.history.Length) == 0 ==> r == Fail(IndexOutOfRange) && unchanged(send, receive, receive.history)
      ensures old(send.history.Length) > 0 ==>
        && send.history[..] == old(send.history[..])[old(send.nextIndex) := old(send.bytesSinceLast)]
        && send.bytesSinceLast == 0
        && send.nextIndex == (old(send.nextIndex) + 1) % send.history.Length
      ensures old(send.history.Length) > 0 && old(receive.history.Length) == 0 ==>
        r == Fail(IndexOutOfRange) && unchanged(receive)
      ensures old(send.history.Length) > 0 && old(receive.history.Length) > 0 ==>
        && r == Pass
        && receive.history[..] == old(receive.history[..])[old(receive.nextIndex) := old(receive.bytesSinceLast)]
        && receive.bytesSinceLast == 0
        && receive.nextIndex == (old(receive.nextIndex) + 1) % receive.history.Length
    {
      r := send.RotateHistory();
      if r.Fail? {
        return;
      }
      r := receive.RotateHistory();
    }

    /** Replaces both histories with fresh zeros of the same lengths; cursors, buckets and totals stay. */
    method ResetHistory()
      requires Valid()
      modifies send, receive
      ensures Valid() && fresh(send.history) && fresh(receive.history)
      ensures send.history[..] == Zeros(send.history.Length) && send.history.Length == old(send.history.Length)
      ensures receive.history[..] == Zeros(receive.history.Length) && receive.history.Length == old(receive.history.Length)
      ensures send.nextIndex == old(send.nextIndex) && send.bytesSinceLast == old(send.bytesSinceLast)
      ensures send.totalBytes == old(send.totalBytes)
      ensures receive.nextIndex == old(receive.nextIndex) && receive.bytesSinceLast == old(receive.bytesSinceLast)
      ensures receive.totalBytes == old(receive.totalBytes)
    {
      send.ResetHistory();
      receive.ResetHistory();
    }
  }
}
