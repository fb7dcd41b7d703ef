/**
 * Archives inside archives (internal/processor/archive.go): which members are parsed, skipped or reported, down to the
 * nesting limit. Contents form an arbitrary graph, so an archive may contain itself.
 */
module Archives {
  import opened Base
  import DisplayPath

  /** A content, known by what it holds and not by its name. */
  type Content = nat

  datatype Member = Member(name: string, dir: bool, locked: bool, opens: bool, content: Content, size: int)

  /** What reading a content as an archive gives; a listing that is not intact breaks off with an error at its end. */
  datatype Opened = Unreadable | Listing(members: seq<Member>, intact: bool) | Stream(content: Content)

  datatype Verdict = Book | NotABook | Bad

  /** The processor's configuration, and what it learns from files, parsers and the database of earlier runs. */
  datatype Config = Config(
    maxDepth: nat,
    formatOf: string -> Option<string>,
    isArchive: string -> bool,
    open: (Content, string) -> Opened,
    recorded: string -> bool,
    pdfDisabled: string -> bool,
    minSize: string -> int,
    verdict: (string, string, Content) -> Verdict)

  /** An archive to be processed: its content, its format, and where it is. */
  datatype Place = Place(content: Content, format: string, display: string, depth: nat)

  datatype Kind = Parsed | Failed | Skipped

  /** An item reported once; `found` says that it was counted as a book found. */
  datatype Event = Event(kind: Kind, display: string, found: bool)

  /** How members are handled: `processZip`, `processTar`, `handleArchiveFile`, `processSingleStream`. */
  datatype Rule = Zip | Tar | Rar | Single

  /** What becomes of a member. */
  datatype Step = Ignore | Report(event: Event) | Descend(place: Place)

  function RuleOf(format: string): Option<Rule> {
    if format == "zip" then Some(Zip)
    else if format in {"tar", "tgz", "tbz2"} then Some(Tar)
    else if format in {"gz", "bz2"} then Some(Single)
    else if format in {"rar", "7z"} then Some(Rar)
    else None
  }

  function DropSuffix(name: string): string {
    DisplayPath.ExtFits(name);
    name[..|name| - |DisplayPath.Ext(name)|]
  }

  /** The path shown for a member of `p`. */
  function Display(p: Place, rule: Rule, m: Member): string {
    if rule.Single? then DropSuffix(p.display) else p.display + "!" + m.name
  }

  /** The name a member's format is taken from. */
  function NameOf(p: Place, rule: Rule, m: Member): string {
    if rule.Single? then DropSuffix(p.display) else m.name
  }

  function BookEvent(cfg: Config, format: string, display: string, content: Content): Event {
    match cfg.verdict(display, format, content)
    case Book => Event(Parsed, display, true)
    case NotABook => Event(Skipped, display, true)
    case Bad => Event(Failed, display, true)
  }

  predicate BelowMinSize(cfg: Config, format: string, size: int) {
    size >= 0 && cfg.minSize(format) > 0 && size < cfg.minSize(format)
  }

  function Treat(cfg: Config, p: Place, rule: Rule, m: Member): (step: Step)
    ensures step.Descend? ==> step.place.depth == p.depth + 1
  {
    var display := Display(p, rule, m);
    if m.dir && !rule.Single? then Ignore
    else match cfg.formatOf(NameOf(p, rule, m))
      case None => Ignore
      case Some(format) =>
        if rule in {Zip, Rar} && cfg.recorded(display) then Report(Event(Skipped, display, false))
        else if (rule.Zip? && m.locked) || (rule in {Zip, Rar} && !m.opens) then Report(Event(Failed, display, false))
        else if cfg.isArchive(format) then Descend(Place(m.content, format, display, p.depth + 1))
        else if !rule.Single? && (cfg.pdfDisabled(format) || BelowMinSize(cfg, format, m.size)) then Report(Event(Skipped, display, false))
        else if cfg.recorded(display) then Report(Event(Skipped, display, false))
        else Report(BookEvent(cfg, format, display, m.content))
  }

  /** What is inside a place; nothing if it is too deep, of an unsupported format or unreadable. */
  function Inside(cfg: Config, p: Place): Option<(Rule, seq<Member>, bool)> {
    if p.depth >= cfg.maxDepth then None
    else match RuleOf(p.format)
      case None => None
      case Some(rule) =>
        match cfg.open(p.content, p.format)
        case Unreadable => None
        case Listing(members, intact) => if rule.Single? then None else Some((rule, members, intact || rule.Zip?))
        case Stream(content) => if rule.Single? then Some((rule, [Member("", false, false, true, content, -1)], true)) else None
  }

  // ---- the report of a place, each event under the chain of member numbers that leads to it -----------------

  type Chain = seq<nat>

  function Own(p: Place): (Chain, Event) {
    ([], Event(Failed, p.display, false))
  }

  function Log(cfg: Config, p: Place): seq<(Chain, Event)>
    decreases cfg.maxDepth - p.depth, 1, 0
  {
    match Inside(cfg, p)
    case None => [Own(p)]
    case Some((rule, members, intact)) =>
      LogMembers(cfg, p, rule, members, |members|) + if intact then [] else [Own(p)]
  }

  /** The events of the first `n` members. */
  function LogMembers(cfg: Config, p: Place, rule: Rule, members: seq<Member>, n: nat): seq<(Chain, Event)>
    requires n <= |members| && p.depth < cfg.maxDepth
    decreases cfg.maxDepth - p.depth, 0, n
  {
    if n == 0 then []
    else LogMembers(cfg, p, rule, members, n - 1) + Under(n - 1, LogStep(cfg, p, Treat(cfg, p, rule, members[n - 1])))
  }

  function LogStep(cfg: Config, p: Place, step: Step): seq<(Chain, Event)>
    requires p.depth < cfg.maxDepth && (step.Descend? ==> step.place.depth == p.depth + 1)
    decreases cfg.maxDepth - p.depth, 0, 0
  {
    match step
    case Ignore => []
    case Report(e) => [([], e)]
    case Descend(q) => Log(cfg, q)
  }

  function Under(i: nat, log: seq<(Chain, Event)>): (r: seq<(Chain, Event)>)
    ensures |r| == |log|
  {
    seq(|log|, k requires 0 <= k < |log| => ([i] + log[k].0, log[k].1))
  }

  function Events(log: seq<(Chain, Event)>): (r: seq<Event>)
    ensures |r| == |log|
  {
    seq(|log|, k requires 0 <= k < |log| => log[k].1)
  }

  // ---- every item is reported once ------------------------------------------------------------------------

  /** The event of the item at the end of a chain: a place's own failure, or what becomes of a member. */
  function EventAt(cfg: Config, p: Place, chain: Chain): Option<Event>
    decreases |chain|
  {
    match Inside(cfg, p)
    case None => if chain == [] then Some(Own(p).1) else None
    case Some((rule, members, intact)) =>
      if chain == [] then if intact then None else Some(Own(p).1)
      else if chain[0] >= |members| then None
      else match Treat(cfg, p, rule, members[chain[0]])
        case Ignore => None
        case Report(e) => if chain[1..] == [] then Some(e) else None
        case Descend(q) => EventAt(cfg, q, chain[1..])
  }

  /** The events logged under a chain. */
  function At(log: seq<(Chain, Event)>, chain: Chain): seq<Event> {
    if log == [] then []
    else At(log[..|log| - 1], chain) + if log[|log| - 1].0 == chain then [log[|log| - 1].1] else []
  }

  function AsSeq(e: Option<Event>): seq<Event> {
    if e.Some? then [e.value] else []
  }

  lemma {:induction false} AtConcat(a: seq<(Chain, Event)>, b: seq<(Chain, Event)>, chain: Chain)
    ensures At(a + b, chain) == At(a, chain) + At(b, chain)
    decreases |b|
  {
    if b == [] {
      assert a + b == a;
    } else {
      var n := |b| - 1;
      AtConcat(a, b[..n], chain);
      assert (a + b)[..|a + b| - 1] == a + b[..n];
      assert (a + b)[|a + b| - 1] == b[n];
    }
  }

  lemma {:induction false} AtUnder(i: nat, log: seq<(Chain, Event)>, chain: Chain)
    ensures At(Under(i, log), chain) == if chain != [] && chain[0] == i then At(log, chain[1..]) else []
    decreases |log|
  {
    if log != [] {
      var n := |log| - 1;
      AtUnder(i, log[..n], chain);
      assert Under(i, log)[..n] == Under(i, log[..n]);
      assert chain != [] ==> chain == [chain[0]] + chain[1..];
      assert ([i] + log[n].0)[0] == i && ([i] + log[n].0)[1..] == log[n].0;
    }
  }

  /** What the members' log has under a chain comes from the member it starts with. */
  lemma {:induction false} AtMembers(cfg: Config, p: Place, rule: Rule, members: seq<Member>, n: nat, chain: Chain)
    requires n <= |members| && p.depth < cfg.maxDepth
    ensures At(LogMembers(cfg, p, rule, members, n), chain)
         == if chain != [] && chain[0] < n then At(LogStep(cfg, p, Treat(cfg, p, rule, members[chain[0]])), chain[1..]) else []
    decreases n
  {
    hide At, LogStep, Treat, LogMembers;
    if n == 0 {
      Unfold(cfg, p, rule, members, 0);
      Once(Own(p), chain);
    } else {
      AtMembers(cfg, p, rule, members, n - 1, chain);
      Unfold(cfg, p, rule, members, n);
      var step := LogStep(cfg, p, Treat(cfg, p, rule, members[n - 1]));
      AtConcat(LogMembers(cfg, p, rule, members, n - 1), Under(n - 1, step), chain);
      AtUnder(n - 1, step, chain);
    }
  }

  lemma Unfold(cfg: Config, p: Place, rule: Rule, members: seq<Member>, n: nat)
    requires n <= |members| && p.depth < cfg.maxDepth
    ensures LogMembers(cfg, p, rule, members, n)
         == if n == 0 then []
            else LogMembers(cfg, p, rule, members, n - 1) + Under(n - 1, LogStep(cfg, p, Treat(cfg, p, rule, members[n - 1])))
  {
  }

  /**
   * Every chain has exactly the event its item deserves, once: each ebook member of an expanded archive is parsed, failed
   * or skipped, each archive that cannot be expanded fails, and nothing else is reported.
   */
  lemma {:induction false} ReportedOnce(cfg: Config, p: Place, chain: Chain)
    ensures At(Log(cfg, p), chain) == AsSeq(EventAt(cfg, p, chain))
    decreases |chain|, 0
  {
    hide At, LogMembers, LogStep, Treat;
    Once(Own(p), chain);
    match Inside(cfg, p)
    case None =>
    case Some((rule, members, intact)) =>
      AtMembers(cfg, p, rule, members, |members|, chain);
      AtConcat(LogMembers(cfg, p, rule, members, |members|), if intact then [] else [Own(p)], chain);
      if chain != [] && chain[0] < |members| {
        StepReported(cfg, p, Treat(cfg, p, rule, members[chain[0]]), chain[1..]);
      }
  }

  lemma {:induction false} StepReported(cfg: Config, p: Place, step: Step, chain: Chain)
    requires p.depth < cfg.maxDepth && (step.Descend? ==> step.place.depth == p.depth + 1)
    ensures At(LogStep(cfg, p, step), chain)
         == AsSeq(match step
                  case Ignore => None
                  case Report(e) => if chain == [] then Some(e) else None
                  case Descend(q) => EventAt(cfg, q, chain))
    decreases |chain|, 1
  {
    match step
    case Ignore => Once(Own(p), chain);
    case Report(e) => Once(([], e), chain);
    case Descend(q) => ReportedOnce(cfg, q, chain);
  }

  lemma Once(entry: (Chain, Event), chain: Chain)
    ensures At([entry], chain) == (if entry.0 == chain then [entry.1] else []) && At([], chain) == []
  {
    assert [entry][..0] == [];
  }

  /** However deep an archive contains itself, nothing is reported below the nesting limit. */
  lemma {:induction false} ChainsAreShort(cfg: Config, p: Place, chain: Chain)
    requires EventAt(cfg, p, chain).Some?
    ensures |chain| <= if p.depth >= cfg.maxDepth then 0 else cfg.maxDepth - p.depth
    decreases |chain|
  {
    match Inside(cfg, p)
    case None =>
    case Some((rule, members, intact)) =>
      if chain != [] {
        var step := Treat(cfg, p, rule, members[chain[0]]);
        if step.Descend? {
          ChainsAreShort(cfg, step.place, chain[1..]);
        }
      }
  }

  /** An archive at the limit yields one failure, whatever is in it. */
  lemma TooDeepFailsOnce(cfg: Config, p: Place)
    requires p.depth >= cfg.maxDepth
    ensures Events(Log(cfg, p)) == [Event(Failed, p.display, false)]
  {
  }

  // ---- what is reported -----------------------------------------------------------------------------------

  const INDEXED := {"zip", "rar", "7z"}
  const TARRED := {"tar", "tgz", "tbz2"}

  /** An archive with several members. */
  predicate Lists(cfg: Config, p: Place, members: seq<Member>, intact: bool) {
    p.depth < cfg.maxDepth && p.format in INDEXED + TARRED && cfg.open(p.content, p.format) == Listing(members, intact)
  }

  /** Zip, rar and 7z members can be locked or fail to open. */
  predicate Reachable(p: Place, m: Member) {
    p.format in INDEXED ==> m.opens && (p.format == "zip" ==> !m.locked)
  }

  /** The configuration and earlier runs let a book of this size through. */
  predicate Wanted(cfg: Config, path: string, format: string, size: int) {
    && !cfg.recorded(path) && !cfg.pdfDisabled(format)
    && (size < 0 || cfg.minSize(format) <= 0 || size >= cfg.minSize(format))
  }

  lemma UnderMember(cfg: Config, p: Place, members: seq<Member>, intact: bool, i: nat, chain: Chain)
    requires Lists(cfg, p, members, intact) && i < |members|
    ensures RuleOf(p.format).Some?
    ensures var rule := RuleOf(p.format).value;
      && !rule.Single? && (rule in {Zip, Rar} <==> p.format in INDEXED) && (rule.Zip? <==> p.format == "zip")
      && At(Log(cfg, p), [i] + chain) == AsSeq(EventOf(cfg, Treat(cfg, p, rule, members[i]), chain))
  {
    var all := [i] + chain;
    assert all[0] == i && all[1..] == chain;
    ReportedOnce(cfg, p, all);
    EventUnder(cfg, p, members, intact, i, all);
    hide Log, At, Treat, EventAt, EventOf;
  }

  /** What a step logs under a chain. */
  function EventOf(cfg: Config, step: Step, chain: Chain): Option<Event> {
    match step
    case Ignore => None
    case Report(e) => if chain == [] then Some(e) else None
    case Descend(q) => EventAt(cfg, q, chain)
  }

  lemma EventUnder(cfg: Config, p: Place, members: seq<Member>, intact: bool, i: nat, all: Chain)
    requires Lists(cfg, p, members, intact) && i < |members| && all != [] && all[0] == i
    ensures RuleOf(p.format).Some?
    ensures EventAt(cfg, p, all) == EventOf(cfg, Treat(cfg, p, RuleOf(p.format).value, members[i]), all[1..])
  {
    hide Treat;
  }

  /** A book in an archive: parsed if it can be reached, is wanted and is one; failed, skipped or left alone otherwise. */
  lemma BookReported(cfg: Config, p: Place, members: seq<Member>, intact: bool, i: nat)
    requires Lists(cfg, p, members, intact) && i < |members|
    requires cfg.formatOf(members[i].name).Some? ==> !cfg.isArchive(cfg.formatOf(members[i].name).value)
    ensures var m, log := members[i], At(Log(cfg, p), [i]);
      var path, found := p.display + "!" + m.name, cfg.formatOf(m.name);
      if m.dir || found.None? then log == []
      else
        var verdict := cfg.verdict(path, found.value, m.content);
        var met := Reachable(p, m) && Wanted(cfg, path, found.value, m.size);
        && (log == [Event(Parsed, path, true)] <==> met && verdict.Book?)
        && (log == [Event(Failed, path, true)] <==> met && verdict.Bad?)
        && (log == [Event(Skipped, path, true)] <==> met && verdict.NotABook?)
        && (log == [Event(Failed, path, false)] <==> !Reachable(p, m) && !cfg.recorded(path))
        && (log == [Event(Skipped, path, false)]
            <==> cfg.recorded(path) || (Reachable(p, m) && !Wanted(cfg, path, found.value, m.size)))
  {
    UnderMember(cfg, p, members, intact, i, []);
    assert [i] + [] == [i];
    hide Log, At, EventAt, RuleOf;
  }

  /** An archive in an archive is unpacked one level further down, unless it cannot be reached or is recorded itself. */
  lemma ArchiveReported(cfg: Config, p: Place, members: seq<Member>, intact: bool, i: nat, chain: Chain)
    requires Lists(cfg, p, members, intact) && i < |members| && !members[i].dir
    requires cfg.formatOf(members[i].name).Some? && cfg.isArchive(cfg.formatOf(members[i].name).value)
    ensures var m, log := members[i], At(Log(cfg, p), [i] + chain);
      var path, format := p.display + "!" + m.name, cfg.formatOf(m.name).value;
      log == if p.format in INDEXED && cfg.recorded(path) then if chain == [] then [Event(Skipped, path, false)] else []
             else if !Reachable(p, m) then if chain == [] then [Event(Failed, path, false)] else []
             else At(Log(cfg, Place(m.content, format, path, p.depth + 1)), chain)
  {
    UnderMember(cfg, p, members, intact, i, chain);
    var m := members[i];
    ReportedOnce(cfg, Place(m.content, cfg.formatOf(m.name).value, p.display + "!" + m.name, p.depth + 1), chain);
    hide Log, At, EventAt, RuleOf;
  }

  /** A gzip or bzip2 stream holds one item, shown and typed under the path without its last extension. */
  lemma StreamReported(cfg: Config, p: Place, content: Content, stem: string, tail: string)
    requires p.depth < cfg.maxDepth && p.format in {"gz", "bz2"} && cfg.open(p.content, p.format) == Stream(content)
    requires p.display == stem + "." + tail && '.' !in tail && '/' !in tail
    requires cfg.formatOf(stem).Some? ==> !cfg.isArchive(cfg.formatOf(stem).value)
    ensures var log, found := At(Log(cfg, p), [0]), cfg.formatOf(stem);
      if found.None? then log == []
      else
        var verdict := cfg.verdict(stem, found.value, content);
        && (log == [Event(Parsed, stem, true)] <==> !cfg.recorded(stem) && verdict.Book?)
        && (log == [Event(Failed, stem, true)] <==> !cfg.recorded(stem) && verdict.Bad?)
        && (log == [Event(Skipped, stem, true)] <==> !cfg.recorded(stem) && verdict.NotABook?)
        && (log == [Event(Skipped, stem, false)] <==> cfg.recorded(stem))
  {
    SuffixDropped(stem, tail);
    ReportedOnce(cfg, p, [0]);
    hide Log, At, DropSuffix;
  }

  lemma SuffixDropped(stem: string, tail: string)
    requires '.' !in tail && '/' !in tail
    ensures DropSuffix(stem + "." + tail) == stem
  {
    DisplayPath.ExtMeans(stem, tail);
    assert |stem + "." + tail| == |stem| + |"." + tail|;
  }

  /** An archive fails itself if it lies too deep, cannot be read as what it is, or breaks off, unless it is a zip file. */
  lemma OwnReported(cfg: Config, p: Place)
    ensures At(Log(cfg, p), [])
         == if || p.depth >= cfg.maxDepth
               || p.format !in INDEXED + TARRED + {"gz", "bz2"}
               || cfg.open(p.content, p.format).Unreadable?
               || (cfg.open(p.content, p.format).Listing? <==> p.format in {"gz", "bz2"})
               || (p.format in INDEXED + TARRED - {"zip"} && !cfg.open(p.content, p.format).intact)
            then [Event(Failed, p.display, false)] else []
  {
    ReportedOnce(cfg, p, []);
    hide Log, At;
  }

  /** A member's display path is taken apart into its archive's segments and its name, if the name has no boundary. */
  lemma MemberIsLastSegment(p: Place, rule: Rule, m: Member, archive: DisplayPath.Extensions)
    requires DisplayPath.Proper(archive) && DisplayPath.IsArchiveName(p.display, archive) && !rule.Single?
    ensures DisplayPath.Segments(Display(p, rule, m), archive) == DisplayPath.Segments(p.display, archive) + [m.name]
       <==> DisplayPath.Whole(m.name, archive)
  {
    hide *;
    assert Display(p, rule, m) == p.display + "!" + m.name by { DisplayOf(p, rule, m); }
    var names := DisplayPath.Segments(p.display, archive);
    DisplayPath.JoinSegments(p.display, archive);
    DisplayPath.SegmentsSeparable(p.display, archive);
    DisplayPath.AppendName(names, m.name, archive);
  }

  lemma DisplayOf(p: Place, rule: Rule, m: Member)
    ensures !rule.Single? ==> Display(p, rule, m) == p.display + "!" + m.name
  {
  }

  // ---- the code -------------------------------------------------------------------------------------------

  /** How many events are of a kind. */
  function CountKind(events: seq<Event>, kind: Kind): nat {
    if events == [] then 0 else CountKind(events[..|events| - 1], kind) + if events[|events| - 1].kind == kind then 1 else 0
  }

  function CountFound(events: seq<Event>): nat {
    if events == [] then 0 else CountFound(events[..|events| - 1]) + if events[|events| - 1].found then 1 else 0
  }

  /** The paths of the failures, in order. */
  function FailedPaths(events: seq<Event>): seq<string> {
    if events == [] then []
    else FailedPaths(events[..|events| - 1]) + if events[|events| - 1].kind.Failed? then [events[|events| - 1].display] else []
  }

  /** The counters and the failure list; `log` is what they have counted. */
  class Processor {
    const cfg: Config
    var parsed: nat
    var failed: nat
    var skipped: nat
    var found: nat
    var failures: seq<string>
    ghost var log: seq<Event>

    ghost predicate Valid()
      reads this
    {
      && parsed == CountKind(log, Parsed) && failed == CountKind(log, Failed) && skipped == CountKind(log, Skipped)
      && found == CountFound(log) && failures == FailedPaths(log)
    }

    constructor (cfg: Config)
      ensures Valid() && log == [] && this.cfg == cfg
    {
      this.cfg := cfg;
      parsed, failed, skipped, found, failures, log := 0, 0, 0, 0, [], [];
    }

    method Fail(display: string, wasFound: bool)
      requires Valid()
      modifies this
      ensures Valid() && log == old(log) + [Event(Failed, display, wasFound)]
      ensures failed == old(failed) + 1 && failures == old(failures) + [display] && parsed == old(parsed) && skipped == old(skipped)
    {
      failed := failed + 1;
      failures := failures + [display];
      found := if wasFound then found + 1 else found;
      log := log + [Event(Failed, display, wasFound)];
      assert log[..|log| - 1] == old(log);
    }

    method Skip(ghost display: string, wasFound: bool)
      requires Valid()
      modifies this
      ensures Valid() && log == old(log) + [Event(Skipped, display, wasFound)]
      ensures skipped == old(skipped) + 1 && failures == old(failures) && parsed == old(parsed) && failed == old(failed)
    {
      skipped := skipped + 1;
      found := if wasFound then found + 1 else found;
      log := log + [Event(Skipped, display, wasFound)];
      assert log[..|log| - 1] == old(log);
    }

    /** `found` and then `parseEbookStream`. */
    method ParseBook(display: string, format: string, content: Content)
      requires Valid()
      modifies this
      ensures Valid() && log == old(log) + [BookEvent(cfg, format, display, content)]
      ensures found == old(found) + 1
      ensures parsed == old(parsed) + if cfg.verdict(display, format, content).Book? then 1 else 0
    {
      match cfg.verdict(display, format, content)
      case NotABook => Skip(display, true);
      case Bad => Fail(display, true);
      case Book =>
        found := found + 1;
        parsed := parsed + 1;
        log := log + [Event(Parsed, display, true)];
        assert log[..|log| - 1] == old(log);
    }

    /** `handleMember`, for a member that its archive let through. */
    method HandleMember(p: Place, rule: Rule, m: Member)
      requires Valid() && p.depth < cfg.maxDepth && !rule.Single?
      requires !m.dir && (rule in {Zip, Rar} ==> !cfg.recorded(Display(p, rule, m)) && m.opens) && (rule.Zip? ==> !m.locked)
      modifies this
      ensures Valid() && log == old(log) + Events(LogStep(cfg, p, Treat(cfg, p, rule, m)))
      decreases cfg.maxDepth - p.depth, 0
    {
      hide Valid, BookEvent;
      var format := cfg.formatOf(m.name);
      if format.None? {
        return;
      }
      var display := p.display + "!" + m.name;
      if cfg.isArchive(format.value) {
        ProcessArchive(Place(m.content, format.value, display, p.depth + 1));
        return;
      }
      if cfg.pdfDisabled(format.value) {
        Skip(display, false);
        return;
      }
      if BelowMinSize(cfg, format.value, m.size) {
        Skip(display, false);
        return;
      }
      if cfg.recorded(display) {
        Skip(display, false);
        return;
      }
      ParseBook(display, format.value, m.content);
    }

    /** The body of the loops of `processZip` and `handleArchiveFile`. */
    method HandleListed(p: Place, rule: Rule, m: Member)
      requires Valid() && p.depth < cfg.maxDepth && rule in {Zip, Rar}
      modifies this
      ensures Valid() && log == old(log) + Events(LogStep(cfg, p, Treat(cfg, p, rule, m)))
      decreases cfg.maxDepth - p.depth, 1
    {
      hide Valid, BookEvent;
      if m.dir {
        return;
      }
      var display := p.display + "!" + m.name;
      if cfg.formatOf(m.name).None? {
        return;
      }
      if cfg.recorded(display) {
        Skip(display, false);
        return;
      }
      if rule.Zip? && m.locked {
        Fail(display, false);
        return;
      }
      if !m.opens {
        Fail(display, false);
        return;
      }
      HandleMember(p, rule, m);
    }

    /** The body of the loop of `processTar`. */
    method HandleTarred(p: Place, m: Member)
      requires Valid() && p.depth < cfg.maxDepth
      modifies this
      ensures Valid() && log == old(log) + Events(LogStep(cfg, p, Treat(cfg, p, Tar, m)))
      decreases cfg.maxDepth - p.depth, 1
    {
      if m.dir {
        return;
      }
      HandleMember(p, Tar, m);
    }

    /** `processSingleStream`. */
    method HandleStream(p: Place, content: Content)
      requires Valid() && p.depth < cfg.maxDepth
      modifies this
      ensures Valid() && log == old(log) + Events(LogStep(cfg, p, Treat(cfg, p, Single, Member("", false, false, true, content, -1))))
      decreases cfg.maxDepth - p.depth, 1
    {
      hide Valid, BookEvent;
      var inner := DropSuffix(p.display);
      var format := cfg.formatOf(inner);
      if format.None? {
        return;
      }
      if cfg.isArchive(format.value) {
        ProcessArchive(Place(content, format.value, inner, p.depth + 1));
        return;
      }
      if cfg.recorded(inner) {
        Skip(inner, false);
        return;
      }
      ParseBook(inner, format.value, content);
    }

    method HandleOne(p: Place, rule: Rule, m: Member)
      requires Valid() && p.depth < cfg.maxDepth && !rule.Single?
      modifies this
      ensures Valid() && log == old(log) + Events(LogStep(cfg, p, Treat(cfg, p, rule, m)))
      decreases cfg.maxDepth - p.depth, 2
    {
      hide Valid, LogStep, Treat;
      if rule.Tar? {
        HandleTarred(p, m);
      } else {
        HandleListed(p, rule, m);
      }
    }

    /** The loops over the members of an archive. */
    method HandleAll(p: Place, rule: Rule, members: seq<Member>)
      requires Valid() && p.depth < cfg.maxDepth && !rule.Single?
      modifies this
      ensures Valid() && log == old(log) + Events(LogMembers(cfg, p, rule, members, |members|))
      decreases cfg.maxDepth - p.depth, 3
    {
      hide *;
      NoMembers(cfg, p, rule, members, log);
      for i := 0 to |members|
        invariant Valid() && log == old(log) + Events(LogMembers(cfg, p, rule, members, i))
      {
        EventsStep(cfg, p, rule, members, i, old(log));
        HandleOne(p, rule, members[i]);
      }
    }

    /** `processArchiveStream`: one recursive step towards the nesting limit. */
    method ProcessArchive(p: Place)
      requires Valid()
      modifies this
      ensures Valid() && log == old(log) + Events(Log(cfg, p))
      decreases if p.depth >= cfg.maxDepth then 0 else cfg.maxDepth - p.depth, 4
    {
      hide Valid, LogStep, Treat;
      if p.depth >= cfg.maxDepth {
        Fail(p.display, false);
        return;
      }
      var rule := RuleOf(p.format);
      if rule.None? {
        Fail(p.display, false);
        return;
      }
      match cfg.open(p.content, p.format)
      case Unreadable => Fail(p.display, false);
      case Stream(content) =>
        if rule.value.Single? {
          NoMembers(cfg, p, Single, [Member("", false, false, true, content, -1)], log);
          EventsStep(cfg, p, Single, [Member("", false, false, true, content, -1)], 0, log);
          HandleStream(p, content);
        } else {
          Fail(p.display, false);
        }
      case Listing(members, intact) =>
        if rule.value.Single? {
          Fail(p.display, false);
        } else {
          HandleAll(p, rule.value, members);
          if !intact && !rule.value.Zip? {
            Fail(p.display, false);
          }
        }
    }
  }

  lemma NoMembers(cfg: Config, p: Place, rule: Rule, members: seq<Member>, start: seq<Event>)
    requires p.depth < cfg.maxDepth
    ensures start + Events(LogMembers(cfg, p, rule, members, 0)) == start
  {
  }

  lemma EventsStep(cfg: Config, p: Place, rule: Rule, members: seq<Member>, n: nat, start: seq<Event>)
    requires n < |members| && p.depth < cfg.maxDepth
    ensures start + Events(LogMembers(cfg, p, rule, members, n + 1))
         == start + Events(LogMembers(cfg, p, rule, members, n)) + Events(LogStep(cfg, p, Treat(cfg, p, rule, members[n])))
  {
    hide Treat, LogStep;
  }

  /** Every event counts once: as parsed, failed or skipped. */
  lemma {:induction false} CountersAddUp(events: seq<Event>)
    ensures CountKind(events, Parsed) + CountKind(events, Failed) + CountKind(events, Skipped) == |events|
    ensures |FailedPaths(events)| == CountKind(events, Failed)
    decreases |events|
  {
    if events != [] {
      CountersAddUp(events[..|events| - 1]);
    }
  }
}
