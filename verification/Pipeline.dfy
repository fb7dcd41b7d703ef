/**
 * The scan-and-parse pipeline as a state machine: `Scan` with its walkers and directory queue
 * (internal/scanner/scanner.go:257-384) and `Process` with its parse workers and result queue
 * (internal/processor/scan.go:168-252). Each step is one critical section or one atomic operation.
 */
module Pipeline {
  import opened Pools

  /** A directory as `List` will show it; an entry is a subdirectory, a file of a known format, or another file. */
  datatype Tree = Tree(path: string, listable: bool, entries: seq<Entry>)
  datatype Entry = Sub(dir: Tree) | Known(file: Found) | Other
  datatype Found = Found(path: string, format: string)

  /** Where a walker is between a successful pop and the next one. */
  datatype Walk =
    | Popped(dir: Tree)
    | Entries(rest: seq<Entry>)
    | Adding(dir: Tree, rest: seq<Entry>)   // counted in `remaining`, not yet in the queue
    | Listed
    | Closing                               // its decrement reached zero

  datatype Main = Start | Counted | Joining | Joined | Draining | Finished

  /** `outer` is the context of `Process`, `inner` the one `Scan` derives from it. The last four fields are history. */
  datatype State = State(
    root: Tree,
    dirs: Pool<Tree, Walk>,
    results: Pool<Found, Found>,
    remaining: int,
    main: Main,
    outer: bool,
    inner: bool,
    closerDone: bool,
    listed: multiset<Tree>,
    pushed: seq<Found>,
    popped: seq<Found>,
    handled: multiset<Found>)

  /** What a worker does around its queue. */
  datatype PopAct = StartUp | FailUp | Take | Wait | Leave

  datatype WalkAct =
    | List | SkipDir
    | Count | PushDir(k: nat) | SkipSub
    | Emit(k: nat) | Withhold | PassOther | EndDir
    | Decrement | CloseDirs

  datatype MainAct = CountRoot | PushRoot(k: nat) | SkipRoot | Join | CloseResults | AbortResults | Finish

  datatype EnvAct = Cancel | Propagate | RunCloser

  datatype Step =
    | WalkerPop(i: nat, pop: PopAct)
    | WalkerWork(i: nat, walk: WalkAct)
    | ParserPop(i: nat, pop: PopAct)
    | ParserWork(i: nat, handle: bool)
    | MainStep(main: MainAct)
    | EnvStep(env: EnvAct)

  function Initial(root: Tree, walkers: nat, parsers: nat): State {
    State(root, Pool([], false, seq(walkers, _ => Fresh)), Pool([], false, seq(parsers, _ => Fresh)),
          0, Start, false, false, false, multiset{}, [], [], multiset{})
  }

  predicate AllExited<W>(ws: seq<Popper<W>>) {
    forall i | 0 <= i < |ws| :: ws[i].Exited?
  }

  // ---- workers at their queue -----------------------------------------------------------------------------

  predicate CanPop<T, W>(p: Pool<T, W>, i: nat, act: PopAct) {
    match act
    case StartUp => i < |p.poppers| && p.poppers[i].Fresh?
    case FailUp => i < |p.poppers| && p.poppers[i].Fresh?
    case Take => Popping(p, i) && p.items != []
    case Wait => Popping(p, i) && p.items == [] && !p.closed
    case Leave => Popping(p, i) && p.items == [] && p.closed
  }

  /** The worker's next situation; `work` is what it makes of the head of the queue. */
  function AfterPop<T, W>(p: Pool<T, W>, i: nat, act: PopAct, work: T -> W): Pool<T, W>
    requires CanPop(p, i, act)
  {
    match act
    case StartUp => Set(p, i, Ready)
    case FailUp => Set(p, i, Exited)
    case Take => Pop(p, i, work(p.items[0]))
    case Wait => Set(p, i, Parked)
    case Leave => Set(p, i, Exited)
  }

  /** A walker whose source cannot be opened cancels the scan. */
  function WalkerPopped(s: State, i: nat, act: PopAct): State
    requires CanPop(s.dirs, i, act)
  {
    s.(dirs := AfterPop(s.dirs, i, act, dir => Popped(dir)), inner := s.inner || act.FailUp?)
  }

  /** A parser whose source cannot be opened cancels the whole process. */
  function ParserPopped(s: State, i: nat, act: PopAct): State
    requires CanPop(s.results, i, act)
  {
    s.(results := AfterPop(s.results, i, act, file => file),
       outer := s.outer || act.FailUp?,
       popped := if act.Take? then s.popped + [s.results.items[0]] else s.popped)
  }

  // ---- walkers and parsers at work ------------------------------------------------------------------------

  predicate Walking(s: State, i: nat) {
    i < |s.dirs.poppers| && s.dirs.poppers[i].Busy?
  }

  predicate CanWalk(s: State, i: nat, act: WalkAct) {
    Walking(s, i) &&
    var work := s.dirs.poppers[i].work;
    var atEntry := work.Entries? && work.rest != [];
    match act
    case List => work.Popped?
    case SkipDir => work.Popped? && s.inner
    case Count => atEntry && work.rest[0].Sub?
    case PushDir(k) => work.Adding? && CanSignal(s.dirs.poppers, k)
    case SkipSub => atEntry && work.rest[0].Sub? && s.inner
    case Emit(k) => atEntry && work.rest[0].Known? && CanSignal(s.results.poppers, k)
    case Withhold => atEntry && work.rest[0].Known? && s.outer
    case PassOther => atEntry && work.rest[0].Other?
    case EndDir => work == Entries([])
    case Decrement => work.Listed?
    case CloseDirs => work.Closing?
  }

  /** What the walker itself turns to. */
  function NextWalk(s: State, i: nat, act: WalkAct): (w: Popper<Walk>)
    requires CanWalk(s, i, act)
    ensures w.Busy? || w.Ready?
  {
    var work := s.dirs.poppers[i].work;
    match act
    case List => Busy(if work.dir.listable then Entries(work.dir.entries) else Listed)
    case SkipDir => Busy(Listed)
    case Count => Busy(Adding(work.rest[0].dir, work.rest[1..]))
    case PushDir(_) => Busy(Entries(work.rest))
    case EndDir => Busy(Listed)
    case Decrement => if s.remaining == 1 then Busy(Closing) else Ready
    case CloseDirs => Ready
    case _ => Busy(Entries(work.rest[1..]))
  }

  function Walked(s: State, i: nat, act: WalkAct): State
    requires CanWalk(s, i, act)
  {
    var work := s.dirs.poppers[i].work;
    var moved := s.(dirs := Set(s.dirs, i, NextWalk(s, i, act)));
    match act
    case List => moved.(listed := s.listed + multiset{work.dir})
    case Count => moved.(remaining := s.remaining + 1)
    case PushDir(k) => moved.(dirs := Push(moved.dirs, work.dir, k))
    case Emit(k) =>
      if s.results.closed then moved
      else moved.(results := Push(s.results, work.rest[0].file, k), pushed := s.pushed + [work.rest[0].file])
    case Decrement => moved.(remaining := s.remaining - 1)
    case CloseDirs => moved.(dirs := Close(moved.dirs))
    case _ => moved
  }

  predicate CanParse(s: State, i: nat, handle: bool) {
    i < |s.results.poppers| && s.results.poppers[i].Busy? && (handle || s.outer)
  }

  function Parsed(s: State, i: nat, handle: bool): State
    requires CanParse(s, i, handle)
  {
    s.(results := Set(s.results, i, Ready),
       handled := if handle then s.handled + multiset{s.results.poppers[i].work} else s.handled)
  }

  // ---- the main goroutine and the environment -------------------------------------------------------------

  predicate CanMain(s: State, act: MainAct) {
    match act
    case CountRoot => s.main.Start?
    case PushRoot(k) => s.main.Counted? && CanSignal(s.dirs.poppers, k)
    case SkipRoot => s.main.Start? && s.inner
    case Join => s.main.Joining? && AllExited(s.dirs.poppers)
    case CloseResults => s.main.Joined?
    case AbortResults => s.main.Joined? && s.outer
    case Finish => s.main.Draining? && AllExited(s.results.poppers)
  }

  function MainMoved(s: State, act: MainAct): State
    requires CanMain(s, act)
  {
    match act
    case CountRoot => s.(main := Counted, remaining := s.remaining + 1)
    case PushRoot(k) => s.(main := Joining, dirs := Push(s.dirs, s.root, k))
    case SkipRoot => s.(main := Joining)
    case Join => s.(main := Joined)
    case CloseResults => s.(main := Draining, results := Close(s.results))
    case AbortResults => s.(main := Draining, results := Abort(s.results))
    case Finish => s.(main := Finished)
  }

  predicate CanEnv(s: State, act: EnvAct) {
    match act
    case Cancel => !s.outer
    case Propagate => s.outer && !s.inner
    case RunCloser => s.inner && !s.closerDone
  }

  function EnvMoved(s: State, act: EnvAct): State
    requires CanEnv(s, act)
  {
    match act
    case Cancel => s.(outer := true)
    case Propagate => s.(inner := true)
    case RunCloser => s.(dirs := Close(s.dirs), closerDone := true)
  }

  // ---- all steps ------------------------------------------------------------------------------------------

  predicate Enabled(s: State, step: Step) {
    match step
    case WalkerPop(i, act) => CanPop(s.dirs, i, act)
    case WalkerWork(i, act) => CanWalk(s, i, act)
    case ParserPop(i, act) => CanPop(s.results, i, act)
    case ParserWork(i, handle) => CanParse(s, i, handle)
    case MainStep(act) => CanMain(s, act)
    case EnvStep(act) => CanEnv(s, act)
  }

  function Next(s: State, step: Step): State
    requires Enabled(s, step)
  {
    match step
    case WalkerPop(i, act) => WalkerPopped(s, i, act)
    case WalkerWork(i, act) => Walked(s, i, act)
    case ParserPop(i, act) => ParserPopped(s, i, act)
    case ParserWork(i, handle) => Parsed(s, i, handle)
    case MainStep(act) => MainMoved(s, act)
    case EnvStep(act) => EnvMoved(s, act)
  }

  // ---- sums over the walkers of a step --------------------------------------------------------------------

  /** A quantity that waiting does not change moves with a walker's step by that walker's share alone. */
  lemma WalkSum(s: State, i: nat, act: WalkAct, f: Popper<Walk> -> int)
    requires CanWalk(s, i, act) && f(Parked) == f(Woken)
    ensures Sum(Walked(s, i, act).dirs.poppers, f)
         == Sum(s.dirs.poppers, f) - f(s.dirs.poppers[i]) + f(NextWalk(s, i, act))
  {
    hide NextWalk;
    var w := NextWalk(s, i, act);
    var moved := s.dirs.poppers[i := w];
    SumUpdate(s.dirs.poppers, i, w, f);
    SumBroadcast(moved, f, 0);
    if act.PushDir? {
      assert CanSignal(moved, act.k);
      SumSignal(moved, act.k, f);
    }
  }

  lemma PopSum<T, W>(p: Pool<T, W>, i: nat, act: PopAct, work: T -> W, f: Popper<W> -> int)
    requires CanPop(p, i, act)
    ensures var q := AfterPop(p, i, act, work);
      |q.poppers| == |p.poppers| && Sum(q.poppers, f) == Sum(p.poppers, f) - f(p.poppers[i]) + f(q.poppers[i])
  {
    var q := AfterPop(p, i, act, work);
    SumUpdate(p.poppers, i, q.poppers[i], f);
  }

  lemma PopKeepsWoken<T, W>(p: Pool<T, W>, i: nat, act: PopAct, work: T -> W)
    requires CanPop(p, i, act) && NoLostWakeup(p)
    ensures NoLostWakeup(AfterPop(p, i, act, work))
  {
    hide NoLostWakeup;
    match act
    case StartUp => SetKeepsWakeups(p, i, Ready);
    case FailUp => SetKeepsWakeups(p, i, Exited);
    case Take => PopKeepsWakeups(p, i, work(p.items[0]));
    case Wait => ParkIsSafe(p, i);
    case Leave => SetKeepsWakeups(p, i, Exited);
  }
}
