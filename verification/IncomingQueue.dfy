/** The queue as an object; a suspended `pushWait` keeps its frame and comes back through `Resume`. */
module IncomingQueue {
  import opened Bytes
  import F = FrameQueues

  class IncomingFrameQueue {
    const bounds: F.Bounds
    var values: seq<bytes>
    var waiters: seq<nat>
    var spaceWaiters: seq<nat>
    var bufferedBytes: int
    var ended: bool
    var failed: bool
    var calls: nat
    var nexts: nat
    ghost var pending: map<nat, bytes>
    ghost var woken: set<nat>
    ghost var accepted: seq<bytes>
    ghost var delivered: seq<bytes>

    ghost function View(): F.Queue
      reads this
    {
      F.Queue(bounds, values, waiters, spaceWaiters, bufferedBytes, ended, failed, pending, woken, calls, nexts,
              accepted, delivered)
    }

    constructor (bounds: F.Bounds)
      ensures View() == F.Empty(bounds)
    {
      this.bounds := bounds;
      values, waiters, spaceWaiters, bufferedBytes := [], [], [], 0;
      ended, failed, calls, nexts := false, false, 0, 0;
      pending, woken, accepted, delivered := map[], {}, [], [];
    }

    predicate HasSpace(size: nat)
      reads this
    {
      |values| < bounds.maxBufferedFrames && bufferedBytes + size <= bounds.maxBufferedBytes
    }

    method Hand(frame: bytes) returns (ticket: nat)
      requires waiters != []
      modifies this`waiters, this`accepted, this`delivered
      ensures ticket == old(waiters[0]) && View() == F.Hand(old(View()), frame)
    {
      ticket := waiters[0];
      waiters := waiters[1..];
      accepted, delivered := accepted + [frame], delivered + [frame];
    }

    method Keep(frame: bytes)
      modifies this`values, this`bufferedBytes, this`accepted
      ensures View() == F.Keep(old(View()), frame)
    {
      values := values + [frame];
      bufferedBytes := bufferedBytes + |frame|;
      accepted := accepted + [frame];
    }

    method TryPush(frame: bytes) returns (pushed: F.Pushed)
      modifies this
      ensures (View(), pushed) == F.TryPush(old(View()), frame)
    {
      if ended {
        return F.Closed;
      }
      if |frame| > bounds.maxFrameBytes {
        return F.TooLarge;
      }
      if waiters != [] {
        var ticket := Hand(frame);
        return F.Taken;
      }
      if !HasSpace(|frame|) {
        return F.Refused;
      }
      Keep(frame);
      pushed := F.Taken;
    }

    /** `pushWait` up to its await. */
    method PushWait(frame: bytes) returns (pushed: F.Pushed)
      modifies this
      ensures (View(), pushed) == F.PushWait(old(View()), frame)
    {
      if ended {
        return F.Closed;
      }
      if |frame| > bounds.maxFrameBytes {
        return F.TooLarge;
      }
      if waiters != [] {
        var ticket := Hand(frame);
        return F.Taken;
      }
      if !HasSpace(|frame|) {
        pushed := F.Suspended(calls);
        spaceWaiters := spaceWaiters + [calls];
        pending := pending[calls := frame];
        calls := calls + 1;
        return;
      }
      Keep(frame);
      pushed := F.Taken;
    }

    /** `pushWait` from its await on. */
    method Resume(call: nat, frame: bytes) returns (pushed: F.Pushed)
      requires call in woken && call in pending && pending[call] == frame
      modifies this
      ensures (View(), pushed) == F.Resume(old(View()), call)
    {
      woken, pending := woken - {call}, pending - {call};
      if ended {
        return F.Closed;
      }
      if waiters != [] {
        var ticket := Hand(frame);
        return F.Taken;
      }
      if !HasSpace(|frame|) {
        spaceWaiters := spaceWaiters + [call];
        pending := pending[call := frame];
        return F.Suspended(call);
      }
      Keep(frame);
      pushed := F.Taken;
    }

    /** Every producer that waits for space is woken. */
    method WakeAll()
      modifies this`woken, this`spaceWaiters
      ensures spaceWaiters == [] && woken == old(woken) + (set call | call in old(spaceWaiters))
    {
      woken := woken + (set call | call in spaceWaiters);
      spaceWaiters := [];
    }

    /** Every producer that waits for space is turned away. */
    method RejectAll()
      modifies this`pending, this`spaceWaiters
      ensures spaceWaiters == []
      ensures pending == F.Unsuspended(old(pending), old(spaceWaiters))
    {
      pending := F.Unsuspended(pending, spaceWaiters);
      spaceWaiters := [];
    }

    method Next() returns (got: F.Got)
      modifies this
      ensures (View(), got) == F.Next(old(View()))
    {
      if values != [] {
        var frame := values[0];
        values := values[1..];
        bufferedBytes := bufferedBytes - |frame|;
        WakeAll();
        nexts := nexts + 1;
        delivered := delivered + [frame];
        return F.Value(frame);
      }
      if ended {
        return if failed then F.Failed else F.Done;
      }
      got := F.Waiting(nexts);
      waiters := waiters + [nexts];
      nexts := nexts + 1;
    }

    method End(failed: bool, discard: bool)
      modifies this
      ensures View() == F.End(old(View()), failed, discard)
    {
      hide F.Unsuspended;
      if !ended {
        ended := true;
        this.failed := failed;
        if discard {
          values, bufferedBytes := [], 0;
        }
        waiters := [];
        RejectAll();
      }
    }
  }
}
