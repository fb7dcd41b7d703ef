/**
 * A queue that several workers pop from, with the waiting protocol of `dirQueue` (internal/scanner/scanner.go) and
 * `resultQueue` (internal/processor/resultqueue.go): a mutex, one condition variable, `Signal` on push, `Broadcast`
 * on close. Every function is one critical section.
 */
module Pools {
  /** A worker: about to pop, parked in `Wait`, signalled but without the lock yet, working, or gone. */
  datatype Popper<W> = Fresh | Ready | Parked | Woken | Busy(work: W) | Exited

  datatype Pool<T, W> = Pool(items: seq<T>, closed: bool, poppers: seq<Popper<W>>)

  predicate NoneParked<W>(ws: seq<Popper<W>>) {
    forall i | 0 <= i < |ws| :: !ws[i].Parked?
  }

  /** `Signal` wakes worker `k`; when nobody waits it is lost, written `k == |ws|`. */
  predicate CanSignal<W>(ws: seq<Popper<W>>, k: nat) {
    if k < |ws| then ws[k].Parked? else k == |ws| && NoneParked(ws)
  }

  function Signal<W>(ws: seq<Popper<W>>, k: nat): (r: seq<Popper<W>>)
    ensures |r| == |ws|
  {
    if k < |ws| then ws[k := Woken] else ws
  }

  function Broadcast<W>(ws: seq<Popper<W>>): (r: seq<Popper<W>>)
    ensures |r| == |ws|
    ensures forall i | 0 <= i < |ws| :: r[i] == if ws[i].Parked? then Woken else ws[i]
  {
    seq(|ws|, i requires 0 <= i < |ws| => if ws[i].Parked? then Woken else ws[i])
  }

  function Push<T, W>(p: Pool<T, W>, x: T, k: nat): Pool<T, W> {
    p.(items := p.items + [x], poppers := Signal(p.poppers, k))
  }

  /** Inside `pop`, with the lock held: before the wait or right after it. */
  predicate Popping<T, W>(p: Pool<T, W>, i: nat) {
    i < |p.poppers| && (p.poppers[i].Ready? || p.poppers[i].Woken?)
  }

  function Set<T, W>(p: Pool<T, W>, i: nat, w: Popper<W>): Pool<T, W>
    requires i < |p.poppers|
  {
    p.(poppers := p.poppers[i := w])
  }

  function Pop<T, W>(p: Pool<T, W>, i: nat, work: W): Pool<T, W>
    requires Popping(p, i) && p.items != []
  {
    Set(p, i, Busy(work)).(items := p.items[1..])
  }

  function Close<T, W>(p: Pool<T, W>): Pool<T, W> {
    p.(closed := true, poppers := Broadcast(p.poppers))
  }

  /** `resultQueue.abort`: close, and drop the backlog. */
  function Abort<T, W>(p: Pool<T, W>): Pool<T, W> {
    Close(p).(items := [])
  }

  // ---- sums over workers ----------------------------------------------------------------------------------

  function Sum<W>(ws: seq<Popper<W>>, f: Popper<W> -> int): int {
    if ws == [] then 0 else f(ws[0]) + Sum(ws[1..], f)
  }

  lemma {:induction false} SumUpdate<W>(ws: seq<Popper<W>>, i: nat, w: Popper<W>, f: Popper<W> -> int)
    requires i < |ws|
    ensures Sum(ws[i := w], f) == Sum(ws, f) - f(ws[i]) + f(w)
    decreases |ws|
  {
    if i > 0 {
      SumUpdate(ws[1..], i - 1, w, f);
      assert ws[i := w][1..] == ws[1..][i - 1 := w];
    } else {
      assert ws[i := w][1..] == ws[1..];
    }
  }

  lemma SumSignal<W>(ws: seq<Popper<W>>, k: nat, f: Popper<W> -> int)
    requires CanSignal(ws, k)
    ensures Sum(Signal(ws, k), f) == Sum(ws, f) + if k < |ws| then f(Woken) - f(Parked) else 0
  {
    if k < |ws| {
      SumUpdate(ws, k, Woken, f);
    }
  }

  lemma {:induction false} SumBroadcast<W>(ws: seq<Popper<W>>, f: Popper<W> -> int, gain: nat)
    requires f(Parked) <= f(Woken) <= f(Parked) + gain
    ensures Sum(ws, f) <= Sum(Broadcast(ws), f) <= Sum(ws, f) + gain * |ws|
    decreases |ws|
  {
    if ws != [] {
      SumBroadcast(ws[1..], f, gain);
      assert Broadcast(ws)[1..] == Broadcast(ws[1..]);
      assert gain * |ws| == gain * |ws[1..]| + gain;
    }
  }

  /** A worker's share is part of the sum of shares. */
  lemma {:induction false} SumAtLeast<W>(ws: seq<Popper<W>>, f: Popper<W> -> int)
    requires forall i | 0 <= i < |ws| :: f(ws[i]) >= 0
    ensures Sum(ws, f) >= 0
    ensures forall i | 0 <= i < |ws| :: Sum(ws, f) >= f(ws[i])
    ensures Sum(ws, f) > 0 ==> exists i :: 0 <= i < |ws| && f(ws[i]) > 0
    decreases |ws|
  {
    if ws != [] {
      assert forall i | 0 <= i < |ws[1..]| :: ws[1..][i] == ws[i + 1];
      SumAtLeast(ws[1..], f);
      forall i | 0 <= i < |ws| ensures Sum(ws, f) >= f(ws[i]) {
        if i > 0 { assert ws[i] == ws[1..][i - 1]; }
      }
      if Sum(ws, f) > 0 && f(ws[0]) <= 0 {
        var j :| 0 <= j < |ws[1..]| && f(ws[1..][j]) > 0;
        assert ws[j + 1] == ws[1..][j];
      }
    }
  }

  // ---- no wakeup is lost ----------------------------------------------------------------------------------

  function WokenOne<W>(p: Popper<W>): int {
    if p.Woken? then 1 else 0
  }

  /** Whoever is parked can stay parked: every queued item has a woken worker coming for it. */
  ghost predicate NoLostWakeup<T, W>(p: Pool<T, W>) {
    NoneParked(p.poppers) || (!p.closed && |p.items| <= Sum(p.poppers, WokenOne))
  }

  lemma WokenNonNegative<W>(ws: seq<Popper<W>>)
    ensures Sum(ws, WokenOne) >= 0
  {
    SumAtLeast(ws, WokenOne);
  }

  lemma PushWakes<T, W>(p: Pool<T, W>, x: T, k: nat)
    requires NoLostWakeup(p) && CanSignal(p.poppers, k)
    ensures NoLostWakeup(Push(p, x, k))
  {
    SumSignal(p.poppers, k, WokenOne);
  }

  lemma PopKeepsWakeups<T, W>(p: Pool<T, W>, i: nat, work: W)
    requires NoLostWakeup(p) && Popping(p, i) && p.items != []
    ensures NoLostWakeup(Pop(p, i, work))
  {
    SumUpdate(p.poppers, i, Busy(work), WokenOne);
    assert NoneParked(p.poppers) ==> NoneParked(p.poppers[i := Busy(work)]);
  }

  lemma ParkIsSafe<T, W>(p: Pool<T, W>, i: nat)
    requires NoLostWakeup(p) && Popping(p, i) && p.items == [] && !p.closed
    ensures NoLostWakeup(Set(p, i, Parked))
  {
    WokenNonNegative(p.poppers[i := Parked]);
  }

  /** Any change of a worker that was not woken and does not park. */
  lemma SetKeepsWakeups<T, W>(p: Pool<T, W>, i: nat, w: Popper<W>)
    requires NoLostWakeup(p) && i < |p.poppers|
    requires !p.poppers[i].Woken? || (p.items == [] && p.closed)
    requires !w.Parked? && !w.Woken?
    ensures NoLostWakeup(Set(p, i, w))
  {
    SumUpdate(p.poppers, i, w, WokenOne);
    assert NoneParked(p.poppers) ==> NoneParked(p.poppers[i := w]);
  }

  lemma CloseWakesAll<T, W>(p: Pool<T, W>)
    ensures NoLostWakeup(Close(p)) && NoLostWakeup(Abort(p))
  {
  }

  /** With workers left and none of them able to move, all are parked or gone, and then the queue is empty and open. */
  lemma StuckMeansIdle<T, W>(p: Pool<T, W>)
    requires NoLostWakeup(p)
    requires forall i | 0 <= i < |p.poppers| :: p.poppers[i].Parked? || p.poppers[i].Exited?
    requires exists i :: 0 <= i < |p.poppers| && p.poppers[i].Parked?
    ensures p.items == [] && !p.closed
  {
    SumAtLeast(p.poppers, WokenOne);
  }
}
