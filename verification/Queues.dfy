/**
 * The queues as objects: `dirQueue` (internal/scanner/scanner.go:383-430) and `resultQueue`
 * (internal/processor/resultqueue.go). Each method is one critical section and does what the pipeline's steps say.
 */
module Queues {
  import opened Pools
  import Pipeline

  /** How one attempt to pop ends; a worker that waits tries again when it is woken. */
  datatype Attempt<T> = Got(item: T) | Waiting | Drained

  class Queue<T, W> {
    var items: seq<T>
    var closed: bool
    var workers: seq<Popper<W>>   // who is parked on the condition variable, and who is not

    function View(): Pool<T, W>
      reads this
    {
      Pool(items, closed, workers)
    }

    /** Nobody who is parked has been forgotten. */
    ghost predicate Valid()
      reads this
    {
      NoLostWakeup(View())
    }

    constructor (n: nat)
      ensures Valid() && View() == Pool([], false, seq(n, _ => Fresh))
    {
      items, closed, workers := [], false, seq(n, _ => Fresh);
    }

    /** `sync.Cond.Signal` wakes one waiting worker, whichever it likes. */
    method SignalOne() returns (k: nat)
      modifies this`workers
      ensures CanSignal(old(workers), k) && workers == Signal(old(workers), k)
    {
      if j: nat :| j < |workers| && workers[j].Parked? {
        k := j;
        workers := workers[k := Woken];
      } else {
        k := |workers|;
      }
    }

    /** `dirQueue.push`, which takes a directory even when closed. */
    method PushDir(x: T) returns (k: nat)
      requires Valid()
      modifies this
      ensures Valid() && CanSignal(old(workers), k) && View() == Push(old(View()), x, k)
      ensures items == old(items) + [x] && closed == old(closed)
    {
      items := items + [x];
      k := SignalOne();
      PushWakes(old(View()), x, k);
    }

    /** `resultQueue.push`, which refuses results once closed. */
    method PushResult(x: T) returns (ok: bool, k: nat)
      requires Valid()
      modifies this
      ensures Valid() && ok == !old(closed)
      ensures if ok then CanSignal(old(workers), k) && View() == Push(old(View()), x, k) else View() == old(View())
      ensures items == old(items) + (if ok then [x] else []) && closed == old(closed)
    {
      if closed {
        return false, 0;
      }
      k := PushDir(x);
      return true, k;
    }

    /** One round of `pop` by worker `i`: the head of the queue, or wait while open, or leave. */
    method TryPop(i: nat, work: T -> W) returns (r: Attempt<T>)
      requires Valid() && Popping(View(), i)
      modifies this
      ensures Valid()
      ensures var act := if r.Got? then Pipeline.Take else if r.Waiting? then Pipeline.Wait else Pipeline.Leave;
        Pipeline.CanPop(old(View()), i, act) && View() == Pipeline.AfterPop(old(View()), i, act, work)
      ensures if r.Got? then old(items) == [r.item] + items else old(items) == items == []
      ensures workers == old(workers)[i := match r case Got(x) => Busy(work(x)) case Waiting => Parked case Drained => Exited]
      ensures closed == old(closed) && (r.Waiting? ==> !closed) && (r.Drained? ==> closed)
    {
      ghost var before := View();
      if |items| == 0 && !closed {
        workers := workers[i := Parked];
        Pipeline.PopKeepsWoken(before, i, Pipeline.Wait, work);
        return Waiting;
      }
      if |items| == 0 {
        workers := workers[i := Exited];
        Pipeline.PopKeepsWoken(before, i, Pipeline.Leave, work);
        return Drained;
      }
      var x := items[0];
      items := items[1..];
      workers := workers[i := Busy(work(x))];
      Pipeline.PopKeepsWoken(before, i, Pipeline.Take, work);
      return Got(x);
    }

    method Close()
      requires Valid()
      modifies this
      ensures Valid() && View() == Pools.Close(old(View()))
      ensures closed && items == old(items) && NoneParked(workers)
    {
      closed := true;
      workers := Broadcast(workers);
      CloseWakesAll(old(View()));
    }

    /** `resultQueue.abort`: what is still queued is dropped. */
    method Abort()
      requires Valid()
      modifies this
      ensures Valid() && View() == Pools.Abort(old(View()))
      ensures closed && items == [] && NoneParked(workers)
    {
      closed := true;
      items := [];
      workers := Broadcast(workers);
      CloseWakesAll(old(View()));
    }
  }
}
