/**
  The bounded log with fan-out to live subscribers.

  The functions describe the ring and one non-blocking send; the class is the
  buffer updated in place, with `Append` in its two phases: a locked section
  that pushes the line and captures the subscribers, and the sends that follow
  outside the lock. The interleavings of those phases are in LogFanout.
*/
module LogBuf {
  const CHANNEL_CAPACITY: nat := 256

  function Last<T>(n: nat, s: seq<T>): seq<T> {
    if |s| > n then s[|s| - n..] else s
  }

  function RingPush<T>(cap: nat, lines: seq<T>, line: T): seq<T> {
    Last(cap, lines + [line])
  }

  /** Pushing one line at a time keeps the last `cap` lines of the whole history. */
  lemma RingIsLast<T>(cap: nat, history: seq<T>, line: T)
    ensures RingPush(cap, Last(cap, history), line) == Last(cap, history + [line])
  {
    if |history| > cap {
      assert Last(cap, history) + [line] == (history + [line])[|history| - cap..];
    }
  }

  datatype Chan<T> = Chan(queue: seq<T>, closed: bool)

  // A send that never blocks: a full channel drops the value, a closed one panics and recovers.
  function SafeSend<T>(c: Chan<T>, v: T): Chan<T> {
    if !c.closed && |c.queue| < CHANNEL_CAPACITY then c.(queue := c.queue + [v]) else c
  }

  class Channel {
    var queue: seq<string>
    var closed: bool

    constructor ()
      ensures View() == Chan([], false)
    {
      queue, closed := [], false;
    }

    function View(): Chan<string>
      reads this
    {
      Chan(queue, closed)
    }

    method Send(v: string)
      modifies this
      ensures View() == SafeSend(old(View()), v)
    {
      if !closed && |queue| < CHANNEL_CAPACITY {
        queue := queue + [v];
      }
    }

    // Closing a closed channel would panic.
    method Close()
      requires !closed
      modifies this
      ensures View() == old(View()).(closed := true)
    {
      closed := true;
    }
  }

  class Buf {
    const cap: nat
    var lines: seq<string>
    var subs: map<nat, Channel>
    var next: nat
    ghost var history: seq<string>

    ghost predicate Valid()
      reads this, Channels()
    {
      && cap >= 1
      && lines == Last(cap, history)
      && (forall id <- subs :: id < next && !subs[id].closed)
      && (forall i, k | i in subs && k in subs && i != k :: subs[i] != subs[k])
    }

    ghost function Channels(): set<Channel>
      reads this
    {
      set id <- subs :: subs[id]
    }

    constructor (capacity: int)
      ensures Valid() && cap == (if capacity < 1 then 1 else capacity)
      ensures lines == [] && history == [] && subs == map[] && next == 0
    {
      cap := if capacity < 1 then 1 else capacity;
      lines, subs, next, history := [], map[], 0, [];
    }

    // The locked section of Append. The order of the captured channels is any order.
    method PushAndCapture(line: string) returns (captured: seq<Channel>)
      requires Valid()
      modifies this`lines, this`history
      ensures Valid() && history == old(history) + [line]
      ensures lines == RingPush(cap, old(lines), line)
      ensures |captured| == |subs| && (forall ch :: ch in captured <==> ch in Channels())
      ensures forall i, k | 0 <= i < k < |captured| :: captured[i] != captured[k]
    {
      RingIsLast(cap, history, line);
      lines := lines + [line];
      if |lines| > cap {
        lines := lines[|lines| - cap..];
      }
      history := history + [line];
      captured := [];
      var remaining := subs.Keys;
      while remaining != {}
        invariant remaining <= subs.Keys
        invariant |captured| + |remaining| == |subs|
        invariant forall ch :: ch in captured <==> exists id :: id in subs && id !in remaining && subs[id] == ch
        invariant forall i, k | 0 <= i < k < |captured| :: captured[i] != captured[k]
      {
        var id :| id in remaining;
        assert subs[id] !in captured;
        captured := captured + [subs[id]];
        remaining := remaining - {id};
      }
    }

    /** Append when nothing runs in between: the ring is pushed and every subscriber gets one send. */
    method Append(line: string)
      requires Valid()
      modifies this`lines, this`history, Channels()
      ensures Valid() && history == old(history) + [line]
      ensures lines == RingPush(cap, old(lines), line)
      ensures forall id <- subs :: subs[id].View() == SafeSend(old(subs[id].View()), line)
    {
      ghost var channels := Channels();
      var captured := PushAndCapture(line);
      assert Channels() == channels;
      assert forall k | 0 <= k < |captured| :: captured[k] in channels;
      for i := 0 to |captured|
        invariant unchanged(this`subs) && Channels() == channels
        invariant lines == RingPush(cap, old(lines), line) && history == old(history) + [line]
        invariant forall k | 0 <= k < |captured| :: captured[k] in channels && captured[k].closed == old(captured[k].closed)
        invariant forall k | 0 <= k < i :: captured[k] in channels && captured[k].View() == SafeSend(old(captured[k].View()), line)
        invariant forall k | i <= k < |captured| :: captured[k] in channels && captured[k].View() == old(captured[k].View())
      {
        captured[i].Send(line);
      }
      forall id | id in subs
        ensures subs[id].View() == SafeSend(old(subs[id].View()), line)
      {
        assert subs[id] in captured;
      }
    }

    method Snapshot() returns (out: seq<string>)
      requires Valid()
      ensures out == Last(cap, history)
    {
      out := lines;
    }

    method LastLine() returns (line: string)
      requires Valid()
      ensures line == if history == [] then "" else history[|history| - 1]
    {
      if |lines| == 0 {
        return "";
      }
      return lines[|lines| - 1];
    }

    method Subscribe() returns (id: nat, ch: Channel)
      requires Valid()
      modifies this`subs, this`next
      ensures Valid() && fresh(ch) && ch.View() == Chan([], false)
      ensures id == old(next) && id !in old(subs) && next == old(next) + 1
      ensures subs == old(subs)[id := ch]
    {
      id := next;
      next := next + 1;
      ch := new Channel();
      subs := subs[id := ch];
    }

    /** Cancelling twice, or late, closes nothing twice and touches no other subscriber. */
    method Cancel(id: nat)
      requires Valid()
      modifies this`subs, Channels()
      ensures Valid() && subs == old(subs) - {id}
      ensures id in old(subs) ==> old(subs)[id].View() == old(subs[id].View()).(closed := true)
      ensures forall other <- subs :: subs[other].View() == old(subs[other].View())
    {
      if id in subs {
        var c := subs[id];
        subs := subs - {id};
        c.Close();
      }
    }
  }
}
