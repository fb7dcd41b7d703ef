/** What holds in every reachable state of the pipeline, and how every run ends. */
module PipelineRuns {
  import opened Pools
  import opened Pipeline

  // ---- what is still to be done ---------------------------------------------------------------------------

  /** How often the walk below `t` lists the directory `x`: once for each occurrence reachable through listable ones. */
  function Listings(t: Tree, x: Tree): nat
    decreases t, 1
  {
    (if t == x then 1 else 0) + if t.listable then EntryListings(t.entries, x) else 0
  }

  function OneListing(e: Entry, x: Tree): nat
    decreases e, 0
  {
    if e.Sub? then Listings(e.dir, x) else 0
  }

  function EntryListings(es: seq<Entry>, x: Tree): nat
    decreases es, 0
  {
    if es == [] then 0 else OneListing(es[0], x) + EntryListings(es[1..], x)
  }

  /** How often the walk below `t` finds the file `f`. */
  function Findings(t: Tree, f: Found): nat
    decreases t, 1
  {
    if t.listable then EntryFindings(t.entries, f) else 0
  }

  function OneFinding(e: Entry, f: Found): nat
    decreases e, 0
  {
    match e
    case Sub(dir) => Findings(dir, f)
    case Known(file) => if file == f then 1 else 0
    case Other => 0
  }

  function EntryFindings(es: seq<Entry>, f: Found): nat
    decreases es, 0
  {
    if es == [] then 0 else OneFinding(es[0], f) + EntryFindings(es[1..], f)
  }

  function QueuedListings(items: seq<Tree>, x: Tree): nat {
    if items == [] then 0 else Listings(items[0], x) + QueuedListings(items[1..], x)
  }

  function QueuedFindings(items: seq<Tree>, f: Found): nat {
    if items == [] then 0 else Findings(items[0], f) + QueuedFindings(items[1..], f)
  }

  function HeldListings(x: Tree): Popper<Walk> -> int {
    (p: Popper<Walk>) =>
      if !p.Busy? then 0
      else match p.work
        case Popped(dir) => Listings(dir, x)
        case Entries(rest) => EntryListings(rest, x)
        case Adding(dir, rest) => Listings(dir, x) + EntryListings(rest, x)
        case _ => 0
  }

  function HeldFindings(f: Found): Popper<Walk> -> int {
    (p: Popper<Walk>) =>
      if !p.Busy? then 0
      else match p.work
        case Popped(dir) => Findings(dir, f)
        case Entries(rest) => EntryFindings(rest, f)
        case Adding(dir, rest) => Findings(dir, f) + EntryFindings(rest, f)
        case _ => 0
  }

  function InHand(f: Found): Popper<Found> -> int {
    (p: Popper<Found>) => if p == Busy(f) then 1 else 0
  }

  /** Directories a walker holds that are counted in `remaining`. */
  function Counts(p: Popper<Walk>): int {
    if !p.Busy? || p.work.Closing? then 0 else if p.work.Adding? then 2 else 1
  }

  function ClosingOne(p: Popper<Walk>): int {
    if p.Busy? && p.work.Closing? then 1 else 0
  }

  // ---- the invariant --------------------------------------------------------------------------------------

  predicate Dispatched(s: State) {
    !s.main.Start? && !s.main.Counted?
  }

  /** `remaining` counts the queued directories, those being listed and those counted but not yet queued. */
  ghost predicate Accounted(s: State) {
    s.remaining == |s.dirs.items| + Sum(s.dirs.poppers, Counts) + if s.main.Counted? then 1 else 0
  }

  /** The counter, and nothing else but cancellation, closes the directory queue, and only when all work is done. */
  ghost predicate ClosedByCounter(s: State) {
    var closing := Sum(s.dirs.poppers, ClosingOne);
    && closing >= 0
    && (s.main.Start? ==> s.remaining == 0)
    && (closing > 0 || (s.dirs.closed && !s.closerDone) ==> Dispatched(s) && s.remaining == 0)
    && (Dispatched(s) && s.remaining == 0 && !s.inner ==> s.dirs.closed || closing > 0)
    && (s.closerDone ==> s.inner && s.dirs.closed)
  }

  /** Nobody leaves, and no phase ends, too early. */
  ghost predicate Ordered(s: State) {
    && (s.main in {Joined, Draining, Finished} ==> AllExited(s.dirs.poppers))
    && (s.results.closed <==> s.main in {Draining, Finished})
    && (s.main.Finished? ==> AllExited(s.results.poppers))
    && (s.inner || s.dirs.closed || forall i | 0 <= i < |s.dirs.poppers| :: !s.dirs.poppers[i].Exited?)
    && (s.outer || (s.results.closed && s.results.items == [])
        || forall i | 0 <= i < |s.results.poppers| :: !s.results.poppers[i].Exited?)
  }

  ghost predicate Woken(s: State) {
    NoLostWakeup(s.dirs) && NoLostWakeup(s.results)
  }

  /** Listings of `x` done so far, and those that queued and held directories still stand for. */
  ghost function DirBalance(s: State, x: Tree): int {
    s.listed[x] + QueuedListings(s.dirs.items, x) + Sum(s.dirs.poppers, HeldListings(x))
    + if Dispatched(s) then 0 else Listings(s.root, x)
  }

  ghost function FileBalance(s: State, f: Found): int {
    multiset(s.pushed)[f] + QueuedFindings(s.dirs.items, f) + Sum(s.dirs.poppers, HeldFindings(f))
    + if Dispatched(s) then 0 else Findings(s.root, f)
  }

  /** Without cancellation, what has been listed and what is still to be listed make up the whole tree. */
  ghost predicate DirsConserved(s: State) {
    !s.inner ==> forall x :: DirBalance(s, x) == Listings(s.root, x)
  }

  ghost predicate FilesConserved(s: State) {
    !s.inner && !s.outer ==> forall f :: FileBalance(s, f) == Findings(s.root, f)
  }

  /** Results leave the queue in the order they entered it, and each one popped is handled once. */
  ghost predicate Delivered(s: State) {
    !s.outer ==>
      && s.pushed == s.popped + s.results.items
      && forall f :: multiset(s.popped)[f] == s.handled[f] + Sum(s.results.poppers, InHand(f))
  }

  ghost predicate Inv(s: State) {
    && Accounted(s) && ClosedByCounter(s) && Ordered(s) && Woken(s)
    && DirsConserved(s) && FilesConserved(s) && Delivered(s)
  }

  lemma CountsNonNegative(ws: seq<Popper<Walk>>)
    ensures Sum(ws, Counts) >= 0 && Sum(ws, ClosingOne) >= 0
    ensures forall i | 0 <= i < |ws| :: Counts(ws[i]) <= Sum(ws, Counts) && ClosingOne(ws[i]) <= Sum(ws, ClosingOne)
  {
    SumAtLeast(ws, Counts);
    SumAtLeast(ws, ClosingOne);
  }

  lemma {:induction false} QueueListings(items: seq<Tree>, t: Tree, x: Tree)
    ensures QueuedListings(items + [t], x) == QueuedListings(items, x) + Listings(t, x)
  {
    if items == [] {
      assert [t][1..] == [];
    } else {
      assert (items + [t])[1..] == items[1..] + [t];
      QueueListings(items[1..], t, x);
    }
  }

  lemma {:induction false} QueueFindings(items: seq<Tree>, t: Tree, f: Found)
    ensures QueuedFindings(items + [t], f) == QueuedFindings(items, f) + Findings(t, f)
  {
    if items == [] {
      assert [t][1..] == [];
    } else {
      assert (items + [t])[1..] == items[1..] + [t];
      QueueFindings(items[1..], t, f);
    }
  }

  // ---- a walker or parser at its queue --------------------------------------------------------------------

  lemma WalkerPopCounts(s: State, i: nat, act: PopAct)
    requires Accounted(s) && ClosedByCounter(s) && CanPop(s.dirs, i, act)
    ensures Accounted(WalkerPopped(s, i, act)) && ClosedByCounter(WalkerPopped(s, i, act))
  {
    PopSum(s.dirs, i, act, dir => Popped(dir), Counts);
    PopSum(s.dirs, i, act, dir => Popped(dir), ClosingOne);
    hide Sum;
  }

  lemma WalkerPopOrder(s: State, i: nat, act: PopAct)
    requires Ordered(s) && CanPop(s.dirs, i, act)
    ensures Ordered(WalkerPopped(s, i, act))
  {
  }

  lemma WalkerPopDirs(s: State, i: nat, act: PopAct)
    requires DirsConserved(s) && CanPop(s.dirs, i, act)
    ensures DirsConserved(WalkerPopped(s, i, act))
  {
    var s' := WalkerPopped(s, i, act);
    if !s'.inner {
      forall x ensures DirBalance(s', x) == Listings(s'.root, x) {
        assert DirBalance(s, x) == Listings(s.root, x);
        PopSum(s.dirs, i, act, dir => Popped(dir), HeldListings(x));
        hide Sum;
      }
    }
  }

  lemma WalkerPopFiles(s: State, i: nat, act: PopAct)
    requires FilesConserved(s) && CanPop(s.dirs, i, act)
    ensures FilesConserved(WalkerPopped(s, i, act))
  {
    var s' := WalkerPopped(s, i, act);
    if !s'.inner && !s'.outer {
      forall f ensures FileBalance(s', f) == Findings(s'.root, f) {
        assert FileBalance(s, f) == Findings(s.root, f);
        PopSum(s.dirs, i, act, dir => Popped(dir), HeldFindings(f));
        hide Sum;
      }
    }
  }

  lemma WalkerPopKeeps(s: State, i: nat, act: PopAct)
    requires Inv(s) && CanPop(s.dirs, i, act)
    ensures Inv(WalkerPopped(s, i, act))
  {
    WalkerPopCounts(s, i, act);
    WalkerPopOrder(s, i, act);
    WalkerPopDirs(s, i, act);
    WalkerPopFiles(s, i, act);
    PopKeepsWoken(s.dirs, i, act, dir => Popped(dir));
    hide Accounted, ClosedByCounter, Ordered, DirsConserved, FilesConserved, NoLostWakeup, CanPop;
  }

  lemma ParserPopOrder(s: State, i: nat, act: PopAct)
    requires Ordered(s) && CanPop(s.results, i, act)
    ensures Ordered(ParserPopped(s, i, act))
  {
  }

  lemma ParserPopDelivery(s: State, i: nat, act: PopAct)
    requires Delivered(s) && CanPop(s.results, i, act)
    ensures Delivered(ParserPopped(s, i, act))
  {
    var s' := ParserPopped(s, i, act);
    hide Sum, NoLostWakeup;
    if !s'.outer {
      assert act.Take? ==> s.results.items == [s.results.items[0]] + s.results.items[1..];
      forall f ensures multiset(s'.popped)[f] == s'.handled[f] + Sum(s'.results.poppers, InHand(f)) {
        PopSum(s.results, i, act, file => file, InHand(f));
      }
    }
  }

  lemma ParserPopKeeps(s: State, i: nat, act: PopAct)
    requires Inv(s) && CanPop(s.results, i, act)
    ensures Inv(ParserPopped(s, i, act))
  {
    hide Ordered, Delivered, NoLostWakeup, CanPop, Sum;
    ParserPopOrder(s, i, act);
    ParserPopDelivery(s, i, act);
    PopKeepsWoken(s.results, i, act, file => file);
  }

  lemma ParserWorkDelivery(s: State, i: nat, handle: bool)
    requires Delivered(s) && CanParse(s, i, handle)
    ensures Delivered(Parsed(s, i, handle))
  {
    hide Sum;
    var s' := Parsed(s, i, handle);
    if !s'.outer {
      forall f ensures multiset(s'.popped)[f] == s'.handled[f] + Sum(s'.results.poppers, InHand(f)) {
        SumUpdate(s.results.poppers, i, Ready, InHand(f));
      }
    }
  }

  lemma ParserWorkKeeps(s: State, i: nat, handle: bool)
    requires Inv(s) && CanParse(s, i, handle)
    ensures Inv(Parsed(s, i, handle))
  {
    hide Delivered, NoLostWakeup, Sum;
    ParserWorkDelivery(s, i, handle);
    SetKeepsWakeups(s.results, i, Ready);
  }

  // ---- a walker at work -----------------------------------------------------------------------------------

  /** The counter follows the directories a walker's step queues, counts and gives up. */
  lemma WalkRemaining(s: State, i: nat, act: WalkAct)
    requires CanWalk(s, i, act)
    ensures var t := Walked(s, i, act);
      && t.remaining - s.remaining == |t.dirs.items| - |s.dirs.items| + Counts(NextWalk(s, i, act)) - Counts(s.dirs.poppers[i])
      && t.main == s.main && t.inner == s.inner && t.closerDone == s.closerDone
      && (t.dirs.closed <==> s.dirs.closed || act.CloseDirs?)
      && (ClosingOne(NextWalk(s, i, act)) == 1 <==> act.Decrement? && s.remaining == 1)
      && (ClosingOne(s.dirs.poppers[i]) == 1 <==> act.CloseDirs?)
      && (t.remaining != s.remaining ==> act.Count? || act.Decrement?)
      && (act.Count? ==> Counts(s.dirs.poppers[i]) == 1)
  {
  }

  lemma WalkCounts(s: State, i: nat, act: WalkAct)
    requires Accounted(s) && ClosedByCounter(s) && CanWalk(s, i, act)
    ensures Accounted(Walked(s, i, act)) && ClosedByCounter(Walked(s, i, act))
  {
    WalkSum(s, i, act, Counts);
    WalkSum(s, i, act, ClosingOne);
    CountsNonNegative(s.dirs.poppers);
    CountsNonNegative(Walked(s, i, act).dirs.poppers);
    WalkRemaining(s, i, act);
    hide Sum, Walked, NextWalk, CanWalk;
  }

  lemma WalkOrder(s: State, i: nat, act: WalkAct)
    requires Ordered(s) && ClosedByCounter(s) && Accounted(s) && CanWalk(s, i, act)
    ensures Ordered(Walked(s, i, act)) && !s.results.closed
  {
    assert !s.dirs.poppers[i].Exited?;
    hide Sum, NextWalk;
  }

  lemma WalkWoken(s: State, i: nat, act: WalkAct)
    requires Woken(s) && CanWalk(s, i, act)
    ensures Woken(Walked(s, i, act))
  {
    hide NoLostWakeup, NextWalk;
    var w := NextWalk(s, i, act);
    var moved := Set(s.dirs, i, w);
    SetKeepsWakeups(s.dirs, i, w);
    match act {
      case PushDir(k) =>
        assert CanSignal(moved.poppers, k);
        PushWakes(moved, s.dirs.poppers[i].work.dir, k);
      case Emit(k) => PushWakes(s.results, s.dirs.poppers[i].work.rest[0].file, k);
      case CloseDirs => CloseWakesAll(moved);
      case _ =>
    }
  }

  /** The listings of `x` a walker turns to, and those it leaves done or queued, are the ones it held. */
  lemma WalkListings(s: State, i: nat, act: WalkAct, x: Tree)
    requires CanWalk(s, i, act) && !s.inner
    ensures HeldListings(x)(s.dirs.poppers[i])
         == HeldListings(x)(NextWalk(s, i, act))
            + (if act.PushDir? then Listings(s.dirs.poppers[i].work.dir, x) else 0)
            + (if act.List? && s.dirs.poppers[i].work.dir == x then 1 else 0)
  {
    var work := s.dirs.poppers[i].work;
    if work.Entries? && work.rest != [] {
      assert EntryListings(work.rest, x) == OneListing(work.rest[0], x) + EntryListings(work.rest[1..], x);
    }
  }

  lemma WalkFindings(s: State, i: nat, act: WalkAct, f: Found)
    requires CanWalk(s, i, act) && !s.inner && !s.outer
    ensures HeldFindings(f)(s.dirs.poppers[i])
         == HeldFindings(f)(NextWalk(s, i, act))
            + (if act.PushDir? then Findings(s.dirs.poppers[i].work.dir, f) else 0)
            + (if act.Emit? && s.dirs.poppers[i].work.rest[0].file == f then 1 else 0)
  {
    var work := s.dirs.poppers[i].work;
    if work.Entries? && work.rest != [] {
      assert EntryFindings(work.rest, f) == OneFinding(work.rest[0], f) + EntryFindings(work.rest[1..], f);
    }
  }

  /** What a walker's step does to the directories queued and listed. */
  lemma WalkQueued(s: State, i: nat, act: WalkAct)
    requires CanWalk(s, i, act)
    ensures var t := Walked(s, i, act);
      && t.root == s.root && t.main == s.main && t.inner == s.inner && t.outer == s.outer
      && t.listed == (if act.List? then s.listed + multiset{s.dirs.poppers[i].work.dir} else s.listed)
      && t.dirs.items == if act.PushDir? then s.dirs.items + [s.dirs.poppers[i].work.dir] else s.dirs.items
  {
    hide NextWalk, CanSignal;
  }

  lemma WalkDirBalance(s: State, i: nat, act: WalkAct, x: Tree)
    requires CanWalk(s, i, act) && !s.inner
    ensures DirBalance(Walked(s, i, act), x) == DirBalance(s, x)
  {
    assert HeldListings(x)(Parked) == HeldListings(x)(Popper.Woken);
    WalkQueued(s, i, act);
    WalkSum(s, i, act, HeldListings(x));
    WalkListings(s, i, act, x);
    hide Sum, NextWalk, CanSignal, Walked, HeldListings, Listings, QueuedListings;
    if act.PushDir? {
      QueueListings(s.dirs.items, s.dirs.poppers[i].work.dir, x);
    }
  }

  lemma WalkDirs(s: State, i: nat, act: WalkAct)
    requires DirsConserved(s) && CanWalk(s, i, act)
    ensures DirsConserved(Walked(s, i, act))
  {
    var s' := Walked(s, i, act);
    assert s'.root == s.root && s'.inner == s.inner;
    hide CanWalk, Walked, DirBalance;
    if !s'.inner {
      forall x ensures DirBalance(s', x) == Listings(s'.root, x) {
        WalkDirBalance(s, i, act, x);
      }
    }
  }

  lemma WalkFileBalance(s: State, i: nat, act: WalkAct, f: Found)
    requires CanWalk(s, i, act) && !s.inner && !s.outer && !s.results.closed
    ensures FileBalance(Walked(s, i, act), f) == FileBalance(s, f)
  {
    assert HeldFindings(f)(Parked) == HeldFindings(f)(Popper.Woken);
    hide CanSignal, Sum, NextWalk, HeldFindings, Findings, QueuedFindings;
    WalkSum(s, i, act, HeldFindings(f));
    WalkFindings(s, i, act, f);
    if act.PushDir? {
      QueueFindings(s.dirs.items, s.dirs.poppers[i].work.dir, f);
    }
    if act.Emit? {
      var file := s.dirs.poppers[i].work.rest[0].file;
      assert multiset(s.pushed + [file]) == multiset(s.pushed) + multiset{file};
    }
  }

  lemma WalkFiles(s: State, i: nat, act: WalkAct)
    requires FilesConserved(s) && CanWalk(s, i, act) && !s.results.closed
    ensures FilesConserved(Walked(s, i, act))
  {
    var s' := Walked(s, i, act);
    assert s'.root == s.root && s'.inner == s.inner && s'.outer == s.outer;
    hide CanWalk, Walked, FileBalance;
    if !s'.inner && !s'.outer {
      forall f ensures FileBalance(s', f) == Findings(s'.root, f) {
        WalkFileBalance(s, i, act, f);
      }
    }
  }

  /** Only finding a file, while results are still taken, touches the result queue. */
  lemma WalkResults(s: State, i: nat, act: WalkAct)
    requires CanWalk(s, i, act)
    ensures var t := Walked(s, i, act);
      && t.popped == s.popped && t.handled == s.handled && t.outer == s.outer
      && if act.Emit? && !s.results.closed
         then var file := s.dirs.poppers[i].work.rest[0].file;
           CanSignal(s.results.poppers, act.k) && t.pushed == s.pushed + [file] && t.results == Push(s.results, file, act.k)
         else t.pushed == s.pushed && t.results == s.results
  {
    hide NextWalk, CanSignal;
  }

  lemma WalkDelivery(s: State, i: nat, act: WalkAct)
    requires Delivered(s) && CanWalk(s, i, act)
    ensures Delivered(Walked(s, i, act))
  {
    hide CanWalk, Walked, Sum;
    WalkResults(s, i, act);
    var s' := Walked(s, i, act);
    if !s'.outer && act.Emit? && !s.results.closed {
      forall f ensures multiset(s'.popped)[f] == s'.handled[f] + Sum(s'.results.poppers, InHand(f)) {
        SumSignal(s.results.poppers, act.k, InHand(f));
      }
    }
  }

  lemma WalkerWorkKeeps(s: State, i: nat, act: WalkAct)
    requires Inv(s) && CanWalk(s, i, act)
    ensures Inv(Walked(s, i, act))
  {
    hide CanWalk, Accounted, ClosedByCounter, Ordered, Woken, DirsConserved, FilesConserved, Delivered, Walked;
    WalkCounts(s, i, act);
    WalkOrder(s, i, act);
    WalkWoken(s, i, act);
    WalkDirs(s, i, act);
    WalkFiles(s, i, act);
    WalkDelivery(s, i, act);
  }

  // ---- the main goroutine and the environment -------------------------------------------------------------

  lemma MainDirs(s: State, act: MainAct)
    requires DirsConserved(s) && CanMain(s, act)
    ensures DirsConserved(MainMoved(s, act))
  {
    var s' := MainMoved(s, act);
    if !s'.inner {
      forall x ensures DirBalance(s', x) == Listings(s'.root, x) {
        assert DirBalance(s, x) == Listings(s.root, x);
        if act.PushRoot? {
          SumSignal(s.dirs.poppers, act.k, HeldListings(x));
          QueueListings(s.dirs.items, s.root, x);
        }
        hide Sum;
      }
    }
  }

  lemma MainFiles(s: State, act: MainAct)
    requires FilesConserved(s) && CanMain(s, act)
    ensures FilesConserved(MainMoved(s, act))
  {
    var s' := MainMoved(s, act);
    if !s'.inner && !s'.outer {
      forall f ensures FileBalance(s', f) == Findings(s'.root, f) {
        assert FileBalance(s, f) == Findings(s.root, f);
        if act.PushRoot? {
          SumSignal(s.dirs.poppers, act.k, HeldFindings(f));
          QueueFindings(s.dirs.items, s.root, f);
        }
        hide Sum;
      }
    }
  }

  lemma MainDelivery(s: State, act: MainAct)
    requires Delivered(s) && CanMain(s, act)
    ensures Delivered(MainMoved(s, act))
  {
    var s' := MainMoved(s, act);
    if !s'.outer {
      forall f ensures multiset(s'.popped)[f] == s'.handled[f] + Sum(s'.results.poppers, InHand(f)) {
        SumBroadcast(s.results.poppers, InHand(f), 0);
      }
    }
  }

  lemma MainCounts(s: State, act: MainAct)
    requires Accounted(s) && ClosedByCounter(s) && CanMain(s, act)
    ensures Accounted(MainMoved(s, act)) && ClosedByCounter(MainMoved(s, act))
  {
    hide Sum;
    CountsNonNegative(s.dirs.poppers);
    if act.PushRoot? {
      SumSignal(s.dirs.poppers, act.k, Counts);
      SumSignal(s.dirs.poppers, act.k, ClosingOne);
    }
  }

  lemma MainOrder(s: State, act: MainAct)
    requires Ordered(s) && CanMain(s, act)
    ensures Ordered(MainMoved(s, act))
  {
  }

  lemma MainWoken(s: State, act: MainAct)
    requires Woken(s) && CanMain(s, act)
    ensures Woken(MainMoved(s, act))
  {
    hide NoLostWakeup;
    CloseWakesAll(s.results);
    if act.PushRoot? {
      PushWakes(s.dirs, s.root, act.k);
    }
  }

  lemma MainKeeps(s: State, act: MainAct)
    requires Inv(s) && CanMain(s, act)
    ensures Inv(MainMoved(s, act))
  {
    hide CanMain, Accounted, ClosedByCounter, Ordered, Woken, DirsConserved, FilesConserved, Delivered, MainMoved;
    MainCounts(s, act);
    MainOrder(s, act);
    MainWoken(s, act);
    MainDirs(s, act);
    MainFiles(s, act);
    MainDelivery(s, act);
  }

  lemma EnvKeeps(s: State, act: EnvAct)
    requires Inv(s) && CanEnv(s, act)
    ensures Inv(EnvMoved(s, act))
  {
    SumBroadcast(s.dirs.poppers, Counts, 0);
    SumBroadcast(s.dirs.poppers, ClosingOne, 0);
    CloseWakesAll(s.dirs);
    hide Sum, NoLostWakeup, DirBalance, FileBalance;
  }

  lemma KeepsInv(s: State, step: Step)
    requires Inv(s) && Enabled(s, step)
    ensures Inv(Next(s, step)) && SameSize(s, Next(s, step))
  {
    hide Inv, WalkerPopped, ParserPopped, Walked, Parsed, MainMoved, EnvMoved, CanPop, CanWalk, CanParse, CanMain, CanEnv;
    match step
    case WalkerPop(i, act) => WalkerPopKeeps(s, i, act); assert SameSize(s, Next(s, step)) by { SizeWalkerPop(s, i, act); }
    case WalkerWork(i, act) => WalkerWorkKeeps(s, i, act); SizeWalk(s, i, act);
    case ParserPop(i, act) => ParserPopKeeps(s, i, act); SizeParserPop(s, i, act);
    case ParserWork(i, handle) => ParserWorkKeeps(s, i, handle); SizeParse(s, i, handle);
    case MainStep(act) => MainKeeps(s, act); SizeMain(s, act);
    case EnvStep(act) => EnvKeeps(s, act); SizeEnv(s, act);
  }

  predicate SameSize(s: State, t: State) {
    t.root == s.root && |t.dirs.poppers| == |s.dirs.poppers| && |t.results.poppers| == |s.results.poppers|
  }

  lemma SizeWalkerPop(s: State, i: nat, act: PopAct)
    requires CanPop(s.dirs, i, act)
    ensures SameSize(s, WalkerPopped(s, i, act))
  {}

  lemma SizeWalk(s: State, i: nat, act: WalkAct)
    requires CanWalk(s, i, act)
    ensures var t := Walked(s, i, act);
      && SameSize(s, t)
      && t.main == s.main && t.outer == s.outer && t.inner == s.inner && t.closerDone == s.closerDone
  {}

  lemma SizeParserPop(s: State, i: nat, act: PopAct)
    requires CanPop(s.results, i, act)
    ensures SameSize(s, ParserPopped(s, i, act))
  {}

  lemma SizeParse(s: State, i: nat, handle: bool)
    requires CanParse(s, i, handle)
    ensures SameSize(s, Parsed(s, i, handle))
  {}

  lemma SizeMain(s: State, act: MainAct)
    requires CanMain(s, act)
    ensures SameSize(s, MainMoved(s, act))
  {}

  lemma SizeEnv(s: State, act: EnvAct)
    requires CanEnv(s, act)
    ensures SameSize(s, EnvMoved(s, act))
  {}

  // ---- runs -----------------------------------------------------------------------------------------------

  /** `steps` takes `s` to `t`. */
  ghost predicate Run(s: State, steps: seq<Step>, t: State)
    decreases |steps|
  {
    if steps == [] then s == t else Enabled(s, steps[0]) && Run(Next(s, steps[0]), steps[1..], t)
  }

  lemma InitialInv(root: Tree, walkers: nat, parsers: nat)
    ensures Inv(Initial(root, walkers, parsers))
  {
    var s := Initial(root, walkers, parsers);
    AllIdle(s.dirs.poppers, Counts);
    AllIdle(s.dirs.poppers, ClosingOne);
    forall x ensures DirBalance(s, x) == Listings(s.root, x) {
      AllIdle(s.dirs.poppers, HeldListings(x));
    }
    forall f ensures FileBalance(s, f) == Findings(s.root, f) {
      AllIdle(s.dirs.poppers, HeldFindings(f));
    }
    forall f ensures multiset(s.popped)[f] == s.handled[f] + Sum(s.results.poppers, InHand(f)) {
      AllIdle(s.results.poppers, InHand(f));
    }
  }

  lemma {:induction false} AllIdle<W>(ws: seq<Popper<W>>, f: Popper<W> -> int)
    requires forall i | 0 <= i < |ws| :: f(ws[i]) == 0
    ensures Sum(ws, f) == 0
    decreases |ws|
  {
    if ws != [] {
      assert forall i | 0 <= i < |ws[1..]| :: ws[1..][i] == ws[i + 1];
      AllIdle(ws[1..], f);
    }
  }

  /** The invariant holds in every reachable state, cancelled or not. */
  lemma {:induction false} RunKeepsInv(s: State, steps: seq<Step>, t: State)
    requires Inv(s) && Run(s, steps, t)
    ensures Inv(t) && t.root == s.root
    ensures |t.dirs.poppers| == |s.dirs.poppers| && |t.results.poppers| == |s.results.poppers|
    decreases |steps|
  {
    if steps != [] {
      KeepsInv(s, steps[0]);
      hide Inv, Next, Enabled;
      RunKeepsInv(Next(s, steps[0]), steps[1..], t);
    }
  }

  /**
   * An uncancelled run that has finished listed every directory, and handled every file of a known format, exactly
   * as often as it occurs in the tree, and handed the files over in the order they were found.
   */
  lemma FinishedRun(root: Tree, walkers: nat, parsers: nat, steps: seq<Step>, t: State)
    requires walkers > 0 && parsers > 0
    requires Run(Initial(root, walkers, parsers), steps, t)
    requires t.main.Finished? && !t.inner && !t.outer
    ensures forall x :: t.listed[x] == Listings(root, x)
    ensures forall f :: t.handled[f] == Findings(root, f)
    ensures t.pushed == t.popped && t.remaining == 0
    ensures AllExited(t.dirs.poppers) && AllExited(t.results.poppers)
  {
    InitialInv(root, walkers, parsers);
    RunKeepsInv(Initial(root, walkers, parsers), steps, t);
    assert t.dirs.poppers[0].Exited? && t.results.poppers[0].Exited?;
    CountsNonNegative(t.dirs.poppers);
    assert t.dirs.items == [];
    forall x ensures t.listed[x] == Listings(root, x) {
      AllIdle(t.dirs.poppers, HeldListings(x));
      assert DirBalance(t, x) == Listings(t.root, x);
    }
    forall f ensures t.handled[f] == Findings(root, f) {
      AllIdle(t.dirs.poppers, HeldFindings(f));
      AllIdle(t.results.poppers, InHand(f));
      assert FileBalance(t, f) == Findings(t.root, f);
      assert t.pushed == t.popped;
    }
  }

  lemma AbortStep(s: State, step: Step)
    requires Inv(s) && Enabled(s, step)
    requires s.results.closed && s.results.items == []
    ensures Next(s, step).results.closed && Next(s, step).results.items == []
    ensures Next(s, step).popped == s.popped
  {
    hide Sum, Accounted, ClosedByCounter, DirsConserved, FilesConserved, Delivered, NoLostWakeup, NextWalk;
  }

  /** Once the result queue is closed and empty it stays so. */
  lemma {:induction false} DrainedStays(s: State, steps: seq<Step>, t: State)
    requires Inv(s) && Run(s, steps, t)
    requires s.results.closed && s.results.items == []
    ensures t.results.closed && t.results.items == [] && t.popped == s.popped
    decreases |steps|
  {
    if steps != [] {
      hide Inv, Next, Enabled;
      AbortStep(s, steps[0]);
      KeepsInv(s, steps[0]);
      DrainedStays(Next(s, steps[0]), steps[1..], t);
    }
  }

  /** `abort` is final: whatever was queued, and whatever happens afterwards, nothing comes out of the result queue any more. */
  lemma AbortIsFinal(s: State, steps: seq<Step>, t: State)
    requires Inv(s) && CanMain(s, AbortResults)
    requires Run(Next(s, MainStep(AbortResults)), steps, t)
    ensures t.results.closed && t.results.items == [] && t.popped == s.popped
  {
    var aborted := Next(s, MainStep(AbortResults));
    assert aborted.results.closed && aborted.results.items == [] && aborted.popped == s.popped;
    KeepsInv(s, MainStep(AbortResults));
    hide Inv, Next, CanMain;
    DrainedStays(aborted, steps, t);
  }

  /** A worker that can be signalled, or the mark that nobody waits. */
  lemma Signallable<W>(ws: seq<Popper<W>>) returns (k: nat)
    ensures CanSignal(ws, k)
  {
    if NoneParked(ws) {
      k := |ws|;
    } else {
      k :| k < |ws| && ws[k].Parked?;
    }
  }

  /** A walker that is neither parked nor gone can always move. */
  lemma WalkerCanMove(s: State, i: nat) returns (step: Step)
    requires i < |s.dirs.poppers| && !s.dirs.poppers[i].Parked? && !s.dirs.poppers[i].Exited?
    ensures Enabled(s, step) && !step.EnvStep?
  {
    match s.dirs.poppers[i]
    case Fresh => step := WalkerPop(i, StartUp);
    case Busy(work) =>
      var act;
      match work {
        case Popped(_) => act := List;
        case Adding(_, _) => var k := Signallable(s.dirs.poppers); act := PushDir(k);
        case Listed => act := Decrement;
        case Closing => act := CloseDirs;
        case Entries(rest) =>
          if rest == [] {
            act := EndDir;
          } else {
            match rest[0] {
              case Sub(_) => act := Count;
              case Other => act := PassOther;
              case Known(_) => var k := Signallable(s.results.poppers); act := Emit(k);
            }
          }
      }
      step := WalkerWork(i, act);
    case _ =>
      step := WalkerPop(i, if s.dirs.items != [] then Take else if s.dirs.closed then Leave else Wait);
  }

  lemma ParserCanMove(s: State, i: nat) returns (step: Step)
    requires i < |s.results.poppers| && !s.results.poppers[i].Parked? && !s.results.poppers[i].Exited?
    ensures Enabled(s, step) && !step.EnvStep?
  {
    match s.results.poppers[i]
    case Fresh => step := ParserPop(i, StartUp);
    case Busy(_) => step := ParserWork(i, true);
    case _ =>
      step := ParserPop(i, if s.results.items != [] then Take else if s.results.closed then Leave else Wait);
  }

  /** While walkers are joined: one of them can move, all are gone, or the closer is still to run. */
  lemma JoiningCanMove(s: State) returns (step: Step)
    requires Accounted(s) && ClosedByCounter(s) && NoLostWakeup(s.dirs) && s.main.Joining?
    ensures Enabled(s, step) && step != EnvStep(Cancel)
  {
    if i: nat :| i < |s.dirs.poppers| && !s.dirs.poppers[i].Parked? && !s.dirs.poppers[i].Exited? {
      step := WalkerCanMove(s, i);
    } else if AllExited(s.dirs.poppers) {
      step := MainStep(Join);
    } else {
      StuckMeansIdle(s.dirs);
      AllIdle(s.dirs.poppers, Counts);
      AllIdle(s.dirs.poppers, ClosingOne);
      step := EnvStep(RunCloser);
    }
  }

  lemma DrainingCanMove(s: State) returns (step: Step)
    requires Ordered(s) && NoLostWakeup(s.results) && s.main.Draining?
    ensures Enabled(s, step) && step != EnvStep(Cancel)
  {
    if i: nat :| i < |s.results.poppers| && !s.results.poppers[i].Parked? && !s.results.poppers[i].Exited? {
      step := ParserCanMove(s, i);
    } else {
      assert NoneParked(s.results.poppers);
      step := MainStep(Finish);
    }
  }

  /** No deadlock: until `Process` returns, some step other than a cancellation is possible, cancelled or not. */
  lemma NoDeadlock(s: State) returns (step: Step)
    requires Inv(s) && !s.main.Finished?
    ensures Enabled(s, step) && step != EnvStep(Cancel)
  {
    hide Sum, NoLostWakeup, DirsConserved, FilesConserved, Delivered, Ordered;
    match s.main
    case Start => step := MainStep(CountRoot);
    case Counted => var k := Signallable(s.dirs.poppers); step := MainStep(PushRoot(k));
    case Joined => step := MainStep(CloseResults);
    case Joining => step := JoiningCanMove(s);
    case Draining => step := DrainingCanMove(s);
  }

  // ---- every run ends -------------------------------------------------------------------------------------

  /** Steps a directory and everything below it can still cost, with `n` walkers to wake at the end. */
  function Cost(n: nat, t: Tree): nat
    decreases t, 1
  {
    (if t.listable then EntryCosts(n, t.entries) else 0) + n + 6
  }

  function EntryCost(n: nat, e: Entry): nat
    decreases e, 0
  {
    match e
    case Sub(dir) => Cost(n, dir) + 4
    case Known(_) => 4
    case Other => 1
  }

  function EntryCosts(n: nat, es: seq<Entry>): nat
    decreases es, 0
  {
    if es == [] then 0 else EntryCost(n, es[0]) + EntryCosts(n, es[1..])
  }

  function QueueCost(n: nat, items: seq<Tree>): nat {
    if items == [] then 0 else Cost(n, items[0]) + QueueCost(n, items[1..])
  }

  function WorkCost(n: nat, work: Walk): nat {
    match work
    case Popped(dir) => Cost(n, dir)
    case Entries(rest) => EntryCosts(n, rest) + n + 5
    case Adding(dir, rest) => Cost(n, dir) + 2 + EntryCosts(n, rest) + n + 5
    case Listed => n + 4
    case Closing => n + 2
  }

  function WalkerCost(n: nat): Popper<Walk> -> int {
    (p: Popper<Walk>) =>
      match p
      case Fresh => 2
      case Ready => 1
      case Woken => 1
      case Busy(work) => WorkCost(n, work)
      case _ => 0
  }

  function ParserCost(p: Popper<Found>): int {
    match p
    case Fresh => 2
    case Ready => 1
    case Woken => 1
    case Busy(_) => 2
    case _ => 0
  }

  function MainCost(main: Main, root: Tree, walkers: nat, parsers: nat): nat {
    match main
    case Start => Cost(walkers, root) + parsers + 7
    case Counted => Cost(walkers, root) + parsers + 6
    case Joining => parsers + 4
    case Joined => parsers + 3
    case Draining => 1
    case Finished => 0
  }

  function DirsCost(n: nat, dirs: Pool<Tree, Walk>): int {
    QueueCost(n, dirs.items) + Sum(dirs.poppers, WalkerCost(n))
  }

  function ResultsCost(results: Pool<Found, Found>): int {
    2 * |results.items| + Sum(results.poppers, ParserCost)
  }

  /** A bound on the number of steps still to come. */
  ghost function Potential(s: State): int {
    var n := |s.dirs.poppers|;
    DirsCost(n, s.dirs) + ResultsCost(s.results) + MainCost(s.main, s.root, n, |s.results.poppers|)
    + (if s.closerDone then 0 else n + 1) + (if s.outer then 0 else 1) + if s.inner then 0 else 1
  }

  lemma {:induction false} QueueCostAppend(n: nat, items: seq<Tree>, t: Tree)
    ensures QueueCost(n, items + [t]) == QueueCost(n, items) + Cost(n, t)
  {
    if items == [] {
      assert [t][1..] == [];
    } else {
      assert (items + [t])[1..] == items[1..] + [t];
      QueueCostAppend(n, items[1..], t);
    }
  }

  lemma PotentialNonNegative(s: State)
    ensures Potential(s) >= 0
  {
    SumAtLeast(s.dirs.poppers, WalkerCost(|s.dirs.poppers|));
    SumAtLeast(s.results.poppers, ParserCost);
  }

  /** What a walker's step costs it covers what the step adds elsewhere. */
  lemma WalkPays(s: State, i: nat, act: WalkAct, n: nat)
    requires CanWalk(s, i, act)
    ensures WalkerCost(n)(s.dirs.poppers[i])
         >= WalkerCost(n)(NextWalk(s, i, act)) + 1
            + (match act
               case PushDir(_) => Cost(n, s.dirs.poppers[i].work.dir) + 1
               case Emit(_) => 3
               case CloseDirs => n
               case _ => 0)
  {
    var work := s.dirs.poppers[i].work;
    if work.Entries? && work.rest != [] {
      assert EntryCosts(n, work.rest) == EntryCost(n, work.rest[0]) + EntryCosts(n, work.rest[1..]);
    }
  }

  lemma PushCosts(dirs: Pool<Tree, Walk>, n: nat, dir: Tree, k: nat)
    requires CanSignal(dirs.poppers, k)
    ensures DirsCost(n, Push(dirs, dir, k)) <= DirsCost(n, dirs) + Cost(n, dir) + 1
  {
    SumSignal(dirs.poppers, k, WalkerCost(n));
    QueueCostAppend(n, dirs.items, dir);
    hide Sum;
  }

  lemma EmitCosts(results: Pool<Found, Found>, file: Found, k: nat)
    requires CanSignal(results.poppers, k)
    ensures ResultsCost(Push(results, file, k)) <= ResultsCost(results) + 3
  {
    SumSignal(results.poppers, k, ParserCost);
    hide Sum;
  }

  lemma CloseCosts(dirs: Pool<Tree, Walk>, results: Pool<Found, Found>, n: nat)
    ensures DirsCost(n, Close(dirs)) <= DirsCost(n, dirs) + |dirs.poppers|
    ensures ResultsCost(Close(results)) <= ResultsCost(results) + |results.poppers|
    ensures ResultsCost(Abort(results)) <= ResultsCost(results) + |results.poppers|
  {
    SumBroadcast(dirs.poppers, WalkerCost(n), 1);
    SumBroadcast(results.poppers, ParserCost, 1);
    hide Sum;
  }

  lemma WalkCostsDirs(s: State, i: nat, act: WalkAct, n: nat)
    requires CanWalk(s, i, act) && n == |s.dirs.poppers|
    ensures DirsCost(n, Walked(s, i, act).dirs) + (if act.Emit? then 4 else 1) <= DirsCost(n, s.dirs)
  {
    hide Sum, WalkerCost, Cost, QueueCost, NextWalk;
    var w := NextWalk(s, i, act);
    WalkPays(s, i, act, n);
    SumUpdate(s.dirs.poppers, i, w, WalkerCost(n));
    if act.PushDir? {
      PushCosts(Set(s.dirs, i, w), n, s.dirs.poppers[i].work.dir, act.k);
    } else if act.CloseDirs? {
      CloseCosts(Set(s.dirs, i, w), s.results, n);
    }
  }

  lemma WalkCostsResults(s: State, i: nat, act: WalkAct)
    requires CanWalk(s, i, act)
    ensures ResultsCost(Walked(s, i, act).results) <= ResultsCost(s.results) + if act.Emit? then 3 else 0
  {
    if act.Emit? {
      EmitCosts(s.results, s.dirs.poppers[i].work.rest[0].file, act.k);
    }
    hide ResultsCost, NextWalk;
  }

  lemma WalkCosts(s: State, i: nat, act: WalkAct)
    requires CanWalk(s, i, act)
    ensures Potential(Walked(s, i, act)) < Potential(s)
  {
    WalkCostsDirs(s, i, act, |s.dirs.poppers|);
    WalkCostsResults(s, i, act);
    SizeWalk(s, i, act);
    hide DirsCost, ResultsCost, MainCost, Walked, CanWalk;
  }

  lemma WalkerPopCosts(s: State, i: nat, act: PopAct)
    requires CanPop(s.dirs, i, act)
    ensures Potential(WalkerPopped(s, i, act)) < Potential(s)
  {
    hide Sum, Cost, MainCost;
    PopSum(s.dirs, i, act, dir => Popped(dir), WalkerCost(|s.dirs.poppers|));
  }

  lemma ParserPopCosts(s: State, i: nat, act: PopAct)
    requires CanPop(s.results, i, act)
    ensures Potential(ParserPopped(s, i, act)) < Potential(s)
  {
    hide Sum, Cost, MainCost, QueueCost, WalkerCost;
    PopSum(s.results, i, act, file => file, ParserCost);
  }

  lemma ParseCosts(s: State, i: nat, handle: bool)
    requires CanParse(s, i, handle)
    ensures Potential(Parsed(s, i, handle)) < Potential(s)
  {
    hide Sum, DirsCost, MainCost;
    SumUpdate(s.results.poppers, i, Ready, ParserCost);
  }

  lemma MainCosts(s: State, act: MainAct)
    requires CanMain(s, act)
    ensures Potential(MainMoved(s, act)) < Potential(s)
  {
    hide DirsCost, ResultsCost, Cost;
    CloseCosts(s.dirs, s.results, |s.dirs.poppers|);
    if act.PushRoot? {
      PushCosts(s.dirs, |s.dirs.poppers|, s.root, act.k);
    }
  }

  lemma EnvCosts(s: State, act: EnvAct)
    requires CanEnv(s, act)
    ensures Potential(EnvMoved(s, act)) < Potential(s)
  {
    hide DirsCost, ResultsCost, MainCost;
    CloseCosts(s.dirs, s.results, |s.dirs.poppers|);
  }

  /** Every run is finite: from the start it has at most `Potential` steps, whatever is scheduled or cancelled. */
  lemma {:induction false} RunIsBounded(s: State, steps: seq<Step>, t: State)
    requires Run(s, steps, t)
    ensures |steps| <= Potential(s) - Potential(t)
    decreases |steps|
  {
    if steps != [] {
      var step := steps[0];
      RunIsBounded(Next(s, step), steps[1..], t);
      match step
      case WalkerPop(i, act) => WalkerPopCosts(s, i, act);
      case ParserPop(i, act) => ParserPopCosts(s, i, act);
      case WalkerWork(i, act) => WalkCosts(s, i, act);
      case ParserWork(i, handle) => ParseCosts(s, i, handle);
      case MainStep(act) => MainCosts(s, act);
      case EnvStep(act) => EnvCosts(s, act);
    }
  }

  /**
   * Every run that cannot be continued has finished, within a number of steps known at the start; if nothing was
   * cancelled and no source failed, every directory was listed and every file handled as often as the tree has it.
   */
  lemma EveryRunFinishes(root: Tree, walkers: nat, parsers: nat, steps: seq<Step>, t: State)
    requires walkers > 0 && parsers > 0
    requires Run(Initial(root, walkers, parsers), steps, t)
    requires forall step | Enabled(t, step) :: step == EnvStep(Cancel)
    ensures t.main.Finished? && AllExited(t.dirs.poppers) && AllExited(t.results.poppers)
    ensures |steps| <= Potential(Initial(root, walkers, parsers))
    ensures !t.inner && !t.outer ==>
      && (forall x :: t.listed[x] == Listings(root, x))
      && (forall f :: t.handled[f] == Findings(root, f))
  {
    var s := Initial(root, walkers, parsers);
    InitialInv(root, walkers, parsers);
    RunKeepsInv(s, steps, t);
    RunIsBounded(s, steps, t);
    PotentialNonNegative(t);
    if !t.main.Finished? {
      var step := NoDeadlock(t);
      assert false;
    }
    if !t.inner && !t.outer {
      FinishedRun(root, walkers, parsers, steps, t);
    }
  }
}
